/** Catalogue synchronisation of a tenant's menu: insert the missing definitions, parents first. */
module MenuSync {
  import opened Options

  /** A catalogue entry. A button is keyed by its permission, anything else by its route;
      the parent is a route name, or "0" for a top-level entry. */
  datatype Definition = Definition(button: bool, route: string, permission: Option<string>, parent: string)

  /** A menu row; the empty string stands for an absent route or permission. */
  datatype Menu = Menu(id: nat, parent: Option<nat>, route: string, permission: string)

  /** `by_route`: the last row of each route. */
  function ByRoute(rows: seq<Menu>): (m: map<string, nat>)
  {
    if rows == [] then map[]
    else
      var last, front := rows[|rows| - 1], ByRoute(rows[..|rows| - 1]);
      if last.route == "" then front else front[last.route := last.id]
  }

  /** The keys of `by_permission`. */
  function Permissions(rows: seq<Menu>): (s: set<string>) {
    set i | 0 <= i < |rows| && rows[i].permission != "" :: rows[i].permission
  }

  predicate Present(rows: seq<Menu>, d: Definition) {
    if d.button then d.permission.Some? && d.permission.value in Permissions(rows) else d.route in ByRoute(rows)
  }

  function Missing(rows: seq<Menu>, defs: seq<Definition>): (ms: seq<Definition>) {
    if defs == [] then []
    else
      var last := defs[|defs| - 1];
      Missing(rows, defs[..|defs| - 1]) + if Present(rows, last) then [] else [last]
  }

  lemma {:induction false} MissingMembers(rows: seq<Menu>, defs: seq<Definition>)
    ensures forall d :: multiset(Missing(rows, defs))[d] == if Present(rows, d) then 0 else multiset(defs)[d]
  {
    if defs != [] {
      var front, last := defs[..|defs| - 1], defs[|defs| - 1];
      assert defs == front + [last];
      MissingMembers(rows, front);
    }
  }

  /** menu_values raises on a button without a permission. */
  predicate Buildable(d: Definition) { d.button ==> d.permission.Some? }

  /** The row a definition becomes: buttons lose their route. */
  function RowOf(d: Definition, id: nat, parent: Option<nat>): (m: Menu) {
    Menu(id, parent, RouteOf(d), if d.permission.Some? then d.permission.value else "")
  }

  /** The route a row contributes: none for a button. */
  function RouteOf(d: Definition): (r: string) { if d.button then "" else d.route }

  // ------------------------------------------------------------------ parent chains

  /** The parent chain reaches "0" or an existing route within `n` links through the entries to insert. */
  ghost predicate ReachesWithin(routes: set<string>, todo: seq<Definition>, d: Definition, n: nat)
    decreases n
  {
    || d.parent == "0" || d.parent in routes
    || (n > 0 && exists e :: e in todo && Parents(e, d) && ReachesWithin(routes, todo, e, n - 1))
  }

  predicate Parents(e: Definition, d: Definition) {
    !e.button && e.route != "" && e.route == d.parent
  }

  ghost predicate Resolvable(routes: set<string>, todo: seq<Definition>, d: Definition) {
    exists n: nat :: ReachesWithin(routes, todo, d, n)
  }

  /** Nothing in a stuck remainder is resolvable: every chain from it stays inside it. */
  lemma {:induction false} StuckIsUnresolvable(
    routes: set<string>, todo: seq<Definition>, stuck: seq<Definition>, d: Definition, n: nat)
    requires d in stuck
    requires forall x :: x in stuck ==> x.parent != "0" && x.parent !in routes
    requires forall x, e :: x in stuck && e in todo && Parents(e, x) ==> e in stuck
    ensures !ReachesWithin(routes, todo, d, n)
    decreases n
  {
    if n > 0 {
      forall e | e in todo && Parents(e, d) ensures !ReachesWithin(routes, todo, e, n - 1) {
        StuckIsUnresolvable(routes, todo, stuck, e, n - 1);
      }
    }
  }

  lemma ParentStep(routes: set<string>, todo: seq<Definition>, e: Definition, d: Definition)
    requires e in todo && Parents(e, d) && Resolvable(routes, todo, e)
    ensures Resolvable(routes, todo, d)
  {
    var n: nat :| ReachesWithin(routes, todo, e, n);
    assert ReachesWithin(routes, todo, d, n + 1);
  }

  // ------------------------------------------------------------------ the loop

  /** The row an entry becomes once its parent is known. */
  function Resolved(rows: seq<Menu>, d: Definition, id: nat): (m: Menu)
    requires d.parent == "0" || d.parent in ByRoute(rows)
  {
    RowOf(d, id, if d.parent == "0" then None else Some(ByRoute(rows)[d.parent]))
  }

  /** The rows past `base` stem from `order`, each resolved against the rows before it. */
  ghost predicate Placed(rows: seq<Menu>, base: nat, order: seq<Definition>) {
    if order == [] then |rows| == base
    else
      && |rows| > base
      && var before, row, d := rows[..|rows| - 1], rows[|rows| - 1], order[|order| - 1];
      && (d.parent == "0" || d.parent in ByRoute(before)) && row == Resolved(before, d, row.id)
      && Placed(before, base, order[..|order| - 1])
  }

  lemma PlaceOne(rows: seq<Menu>, base: nat, order: seq<Definition>, d: Definition, id: nat)
    requires Placed(rows, base, order) && |rows| >= base && (d.parent == "0" || d.parent in ByRoute(rows))
    ensures Placed(rows + [Resolved(rows, d, id)], base, order + [d])
  {
    assert (rows + [Resolved(rows, d, id)])[..|rows|] == rows && (order + [d])[..|order|] == order;
  }

  /** The routes known so far are the existing ones and those of the entries inserted. */
  ghost predicate RoutesFrom(rows: seq<Menu>, old_: seq<Menu>, order: seq<Definition>) {
    && (forall r :: r in ByRoute(old_) ==> r in ByRoute(rows))
    && (forall d :: d in order && !d.button && d.route != "" ==> d.route in ByRoute(rows))
    && (forall r :: r in ByRoute(rows) && r !in ByRoute(old_) ==>
          exists d :: d in order && !d.button && d.route == r && r != "")
  }

  lemma RoutesGrow(rows: seq<Menu>, old_: seq<Menu>, order: seq<Definition>, d: Definition, row: Menu)
    requires RoutesFrom(rows, old_, order) && row.route == if d.button then "" else d.route
    ensures RoutesFrom(rows + [row], old_, order + [d])
  {
    assert (rows + [row])[..|rows|] == rows;
    assert d in order + [d] && forall e :: e in order ==> e in order + [d];
  }

  ghost predicate AllResolvable(old_: seq<Menu>, todo: seq<Definition>, order: seq<Definition>) {
    order == [] || (
      && order[|order| - 1] in todo && Resolvable(ByRoute(old_).Keys, todo, order[|order| - 1])
      && AllResolvable(old_, todo, order[..|order| - 1]))
  }

  lemma {:induction false} EachResolvable(old_: seq<Menu>, todo: seq<Definition>, order: seq<Definition>)
    ensures AllResolvable(old_, todo, order)
      <==> forall d :: d in order ==> d in todo && Resolvable(ByRoute(old_).Keys, todo, d)
  {
    if order != [] {
      assert order == order[..|order| - 1] + [order[|order| - 1]];
      EachResolvable(old_, todo, order[..|order| - 1]);
    }
  }

  /** An entry whose parent is known by now is resolvable: the parent was there before it. */
  lemma InsertedIsResolvable(
    rows: seq<Menu>, old_: seq<Menu>, todo: seq<Definition>, order: seq<Definition>, d: Definition)
    requires RoutesFrom(rows, old_, order) && AllResolvable(old_, todo, order) && d in todo
    requires d.parent == "0" || d.parent in ByRoute(rows)
    ensures AllResolvable(old_, todo, order + [d])
  {
    assert (order + [d])[..|order|] == order;
    EachResolvable(old_, todo, order);
    var routes := ByRoute(old_).Keys;
    if d.parent == "0" || d.parent in routes {
      assert ReachesWithin(routes, todo, d, 0);
    } else {
      var e :| e in order && !e.button && e.route == d.parent && d.parent != "";
      ParentStep(routes, todo, e, d);
    }
  }

  ghost predicate DistinctIds(rows: seq<Menu>, nextId: nat) {
    && (forall i :: 0 <= i < |rows| ==> rows[i].id < nextId)
    && (forall i, j :: 0 <= i < j < |rows| ==> rows[i].id != rows[j].id)
  }

  /** The state of the loop: what was inserted, and what is left of the entries to insert. */
  ghost predicate Going(rows: seq<Menu>, nextId: nat, old_: seq<Menu>, todo: seq<Definition>,
                        order: seq<Definition>, left: multiset<Definition>)
  {
    && DistinctIds(rows, nextId) && old_ <= rows
    && Placed(rows, |old_|, order) && RoutesFrom(rows, old_, order) && AllResolvable(old_, todo, order)
    && (forall d :: d in order ==> Buildable(d))
    && multiset(order) + left == multiset(todo)
  }

  lemma TakeOne(order: seq<Definition>, left: multiset<Definition>, todo: seq<Definition>, d: Definition)
    requires multiset(order) + left == multiset(todo) && d in left
    ensures multiset(order + [d]) + (left - multiset{d}) == multiset(todo) && d in todo
  {
    assert d in multiset(todo);
  }

  lemma InsertOne(rows: seq<Menu>, nextId: nat, old_: seq<Menu>, todo: seq<Definition>,
                  order: seq<Definition>, left: multiset<Definition>, d: Definition)
    requires Going(rows, nextId, old_, todo, order, left) && d in left
    requires Buildable(d) && (d.parent == "0" || d.parent in ByRoute(rows))
    ensures Going(rows + [Resolved(rows, d, nextId)], nextId + 1, old_, todo, order + [d], left - multiset{d})
  {
    var row := Resolved(rows, d, nextId);
    TakeOne(order, left, todo, d);
    assert Placed(rows + [row], |old_|, order + [d]) by { PlaceOne(rows, |old_|, order, d, nextId); }
    assert RoutesFrom(rows + [row], old_, order + [d]) by { RoutesGrow(rows, old_, order, d, row); }
    assert AllResolvable(old_, todo, order + [d]) by { InsertedIsResolvable(rows, old_, todo, order, d); }
    assert DistinctIds(rows + [row], nextId + 1);
  }

  lemma AddedRoute(rows: seq<Menu>, row: Menu)
    ensures ByRoute(rows + [row]) == if row.route == "" then ByRoute(rows) else ByRoute(rows)[row.route := row.id]
  {
    assert (rows + [row])[..|rows|] == rows;
  }

  /** No entry's parent is known. */
  predicate NoneKnown(byRoute: map<string, nat>, ds: seq<Definition>) {
    ds == [] || (
      && ds[|ds| - 1].parent != "0" && ds[|ds| - 1].parent !in byRoute
      && NoneKnown(byRoute, ds[..|ds| - 1]))
  }

  lemma {:induction false} EachUnknown(byRoute: map<string, nat>, ds: seq<Definition>)
    requires NoneKnown(byRoute, ds)
    ensures forall d :: d in ds ==> d.parent != "0" && d.parent !in byRoute
  {
    if ds != [] {
      EachUnknown(byRoute, ds[..|ds| - 1]);
      assert ds == ds[..|ds| - 1] + [ds[|ds| - 1]];
    }
  }

  lemma Deferred(remaining: seq<Definition>, rest: seq<Definition>)
    requires rest != []
    ensures multiset(remaining) + multiset(rest) == multiset(remaining + [rest[0]]) + multiset(rest[1..])
    ensures multiset(remaining) + multiset(rest) - multiset{rest[0]} == multiset(remaining) + multiset(rest[1..])
  {
    assert rest == [rest[0]] + rest[1..];
  }

  class MenuTable {
    var rows: seq<Menu>
    var nextId: nat

    ghost predicate Valid()
      reads this
    {
      DistinctIds(rows, nextId)
    }

    constructor ()
      ensures Valid() && rows == []
    {
      rows, nextId := [], 0;
    }

    /** Add one row, and its route to the routes known. */
    method Insert(d: Definition, byRoute: map<string, nat>, ghost old_: seq<Menu>, ghost todo: seq<Definition>,
                  ghost order: seq<Definition>, ghost left: multiset<Definition>) returns (byRoute': map<string, nat>)
      requires Going(rows, nextId, old_, todo, order, left) && d in left && byRoute == ByRoute(rows)
      requires Buildable(d) && (d.parent == "0" || d.parent in byRoute)
      modifies this
      ensures Going(rows, nextId, old_, todo, order + [d], left - multiset{d}) && byRoute' == ByRoute(rows)
    {
      InsertOne(rows, nextId, old_, todo, order, left, d);
      var row := RowOf(d, nextId, if d.parent == "0" then None else Some(byRoute[d.parent]));
      AddedRoute(rows, row);
      rows, nextId := rows + [row], nextId + 1;
      byRoute' := if row.route == "" then byRoute else byRoute[row.route := row.id];
    }

    /** One pass over the pending entries: insert those whose parent is known by now. It raises at the
        first such entry that cannot be built, `culprit`. */
    method Pass(pending: seq<Definition>, ghost old_: seq<Menu>, ghost todo: seq<Definition>,
                ghost order: seq<Definition>)
      returns (raised: bool, remaining: seq<Definition>, inserted: nat, byRoute: map<string, nat>,
               ghost order': seq<Definition>, ghost culprit: Definition)
      requires pending != [] && Going(rows, nextId, old_, todo, order, multiset(pending))
      modifies this
      ensures raised ==> culprit in multiset(pending) && !Buildable(culprit)
      ensures !raised ==>
        && Going(rows, nextId, old_, todo, order', multiset(remaining))
        && inserted + |remaining| == |pending| && byRoute == ByRoute(rows)
        && (inserted > 0 || NoneKnown(byRoute, remaining))
    {
      remaining, inserted, order', culprit := [], 0, order, pending[0];
      byRoute := ByRoute(rows);
      var rest := pending;
      ghost var left := multiset(pending);
      while rest != []
        invariant Going(rows, nextId, old_, todo, order', left) && left == multiset(remaining) + multiset(rest)
        invariant left <= multiset(pending)
        invariant inserted + |remaining| + |rest| == |pending|
        invariant byRoute == ByRoute(rows)
        invariant inserted > 0 || NoneKnown(byRoute, remaining)
      {
        var d := rest[0];
        Deferred(remaining, rest);
        if d.parent != "0" && d.parent !in byRoute {
          assert (remaining + [d])[..|remaining|] == remaining;
          remaining := remaining + [d];
        } else {
          if !Buildable(d) {
            culprit := d;
            return true, remaining, inserted, byRoute, order', culprit;
          }
          byRoute := Insert(d, byRoute, old_, todo, order', left);
          left := left - multiset{d};
          inserted, order' := inserted + 1, order' + [d];
        }
        rest := rest[1..];
      }
      assert left == multiset(remaining);
      raised := false;
    }

    /** sync_menus_in_session: succeeds exactly when every missing entry can be built and its parent chain
        reaches "0" or an existing route, and then adds each missing entry once, after its parent. */
    method Sync(defs: seq<Definition>) returns (ok: bool, ghost order: seq<Definition>)
      requires Valid()
      modifies this
      ensures ok <==>
        && AllResolvable(old(rows), Missing(old(rows), defs), Missing(old(rows), defs))
        && AllBuildable(Missing(old(rows), defs))
      ensures ok ==> Valid() && Synced(old(rows), defs, rows, order)
    {
      ghost var old_ := rows;
      var pending := Missing(rows, defs);
      ghost var todo := pending;
      order := [];
      while pending != []
        invariant Going(rows, nextId, old_, todo, order, multiset(pending))
        decreases |pending|
      {
        var raised, remaining, inserted, byRoute;
        ghost var culprit;
        raised, remaining, inserted, byRoute, order, culprit := Pass(pending, old_, todo, order);
        if raised {
          assert culprit in multiset(todo);
          return false, order;
        }
        if inserted == 0 {
          StuckForever(rows, old_, todo, remaining, order);
          EachResolvable(old_, todo, todo);
          return false, order;
        }
        pending := remaining;
      }
      SameMembers(order, todo);
      EachResolvable(old_, todo, order);
      EachResolvable(old_, todo, todo);
      return true, order;
    }
  }

  predicate AllBuildable(ds: seq<Definition>) { forall d :: d in ds && d.button ==> d.permission.Some? }

  /** What a successful run leaves: the old rows, and each missing entry once, after its parent. */
  ghost predicate Synced(old_: seq<Menu>, defs: seq<Definition>, rows: seq<Menu>, order: seq<Definition>) {
    && old_ <= rows && Placed(rows, |old_|, order) && RoutesFrom(rows, old_, order)
    && multiset(order) == multiset(Missing(old_, defs))
  }

  lemma SameMembers(a: seq<Definition>, b: seq<Definition>)
    requires multiset(a) == multiset(b)
    ensures forall d :: d in a <==> d in b
  {
    forall d ensures d in a <==> d in b {
      assert d in a <==> d in multiset(a);
      assert d in b <==> d in multiset(b);
    }
  }

  lemma StuckForever(
    rows: seq<Menu>, old_: seq<Menu>, todo: seq<Definition>, pending: seq<Definition>, order: seq<Definition>)
    requires RoutesFrom(rows, old_, order) && pending != []
    requires multiset(order) + multiset(pending) == multiset(todo)
    requires NoneKnown(ByRoute(rows), pending)
    ensures exists d :: d in todo && !Resolvable(ByRoute(old_).Keys, todo, d)
  {
    var d := pending[0];
    SplitMembers(order, pending, todo);
    EachUnknown(ByRoute(rows), pending);
    forall n: nat ensures !ReachesWithin(ByRoute(old_).Keys, todo, d, n) {
      StuckIsUnresolvable(ByRoute(old_).Keys, todo, pending, d, n);
    }
    assert d in todo && !Resolvable(ByRoute(old_).Keys, todo, d);
  }

  lemma SplitMembers(a: seq<Definition>, b: seq<Definition>, all: seq<Definition>)
    requires multiset(a) + multiset(b) == multiset(all)
    ensures forall d :: d in all <==> d in a || d in b
  {
    forall d ensures d in all <==> d in a || d in b {
      assert d in all <==> d in multiset(all);
      assert d in multiset(all) <==> d in multiset(a) || d in multiset(b);
    }
  }

  // ------------------------------------------------------------------ what a successful run leaves

  lemma {:induction false} RoutesAreRows(rows: seq<Menu>, r: string)
    ensures r in ByRoute(rows) ==>
      r != "" && exists i :: 0 <= i < |rows| && rows[i].route == r && rows[i].id == ByRoute(rows)[r]
    ensures r != "" && (exists i :: 0 <= i < |rows| && rows[i].route == r) ==> r in ByRoute(rows)
  {
    if rows != [] {
      var front := rows[..|rows| - 1];
      RoutesAreRows(front, r);
      assert forall i :: 0 <= i < |front| ==> rows[i] == front[i];
    }
  }

  /** Entry by entry: which row an inserted entry became, and where its parent's row stands. */
  lemma {:induction false} EachPlaced(rows: seq<Menu>, base: nat, order: seq<Definition>, k: nat)
    requires Placed(rows, base, order) && k < |order|
    ensures |rows| == base + |order|
    ensures var d, before := order[k], rows[..base + k];
      (d.parent == "0" || d.parent in ByRoute(before)) && rows[base + k] == Resolved(before, d, rows[base + k].id)
  {
    PlacedLength(rows, base, order);
    if k < |order| - 1 {
      var front := rows[..|rows| - 1];
      EachPlaced(front, base, order[..|order| - 1], k);
      assert front[..base + k] == rows[..base + k];
    }
  }

  lemma {:induction false} PlacedLength(rows: seq<Menu>, base: nat, order: seq<Definition>)
    requires Placed(rows, base, order)
    ensures |rows| == base + |order|
  {
    if order != [] { PlacedLength(rows[..|rows| - 1], base, order[..|order| - 1]); }
  }

  /** No two entries that are not buttons share a route. */
  ghost predicate UniqueRoutes(ms: multiset<Definition>) {
    && (forall d, e :: d in ms && e in ms && !d.button && !e.button && d.route == e.route ==> d == e)
    && (forall d :: d in ms && !d.button ==> ms[d] == 1)
  }

  lemma {:induction false} CountedTwice(order: seq<Definition>, i: nat, j: nat)
    requires i < j < |order| && order[i] == order[j]
    ensures multiset(order)[order[i]] >= 2
  {
    var d := order[i];
    assert order == order[..j] + order[j..];
    assert d in multiset(order[..j]) by { assert order[..j][i] == d; }
    assert d in multiset(order[j..]) by { assert order[j..][0] == d; }
  }

  lemma InsertedWasMissing(old_: seq<Menu>, defs: seq<Definition>, order: seq<Definition>, n: nat)
    requires n < |order| && multiset(order) == multiset(Missing(old_, defs))
    ensures order[n] in multiset(Missing(old_, defs)) && !Present(old_, order[n])
  {
    assert order[n] in multiset(order);
    MissingMembers(old_, defs);
  }

  lemma InsertedRoutesDiffer(old_: seq<Menu>, defs: seq<Definition>, order: seq<Definition>, m: nat, n: nat)
    requires m < n < |order| && !order[m].button && !order[n].button
    requires multiset(order) == multiset(Missing(old_, defs)) && UniqueRoutes(multiset(Missing(old_, defs)))
    ensures order[m].route != order[n].route
  {
    InsertedWasMissing(old_, defs, order, m);
    InsertedWasMissing(old_, defs, order, n);
    if order[m] == order[n] { CountedTwice(order, m, n); }
  }

  /** The rows past `base` carry the routes of `order`. */
  ghost predicate RoutesOf(rows: seq<Menu>, base: nat, order: seq<Definition>) {
    |rows| == base + |order| && forall k :: 0 <= k < |order| ==> rows[base + k].route == RouteOf(order[k])
  }

  lemma PlacedRoutes(rows: seq<Menu>, base: nat, order: seq<Definition>)
    requires Placed(rows, base, order)
    ensures RoutesOf(rows, base, order)
  {
    PlacedLength(rows, base, order);
    forall k | 0 <= k < |order| ensures rows[base + k].route == RouteOf(order[k]) { EachPlaced(rows, base, order, k); }
  }

  lemma RouteAt(rows: seq<Menu>, base: nat, order: seq<Definition>, j: nat)
    requires RoutesOf(rows, base, order) && base <= j < |rows|
    ensures j - base < |order| && rows[j].route == RouteOf(order[j - base])
  {
    assert rows[base + (j - base)].route == RouteOf(order[j - base]);
  }

  lemma MissingRouteIsNew(old_: seq<Menu>, defs: seq<Definition>, order: seq<Definition>, i: nat, n: nat)
    requires i < |old_| && n < |order| && multiset(order) == multiset(Missing(old_, defs))
    ensures old_[i].route == RouteOf(order[n]) ==> old_[i].route == ""
  {
    InsertedWasMissing(old_, defs, order, n);
    RoutesAreRows(old_, order[n].route);
  }

  lemma OldRouteDiffers(rows: seq<Menu>, old_: seq<Menu>, defs: seq<Definition>, order: seq<Definition>, i: nat, j: nat)
    requires RoutesOf(rows, |old_|, order) && old_ <= rows && i < |old_| <= j < |rows|
    requires multiset(order) == multiset(Missing(old_, defs))
    ensures rows[i].route == rows[j].route ==> rows[i].route == ""
  {
    RouteAt(rows, |old_|, order, j);
    MissingRouteIsNew(old_, defs, order, i, j - |old_|);
  }

  lemma NewRoutesDiffer(rows: seq<Menu>, base: nat, order: seq<Definition>, i: nat, j: nat)
    requires RoutesOf(rows, base, order) && base <= i < j < |rows|
    requires !order[i - base].button && !order[j - base].button ==> order[i - base].route != order[j - base].route
    ensures rows[i].route == rows[j].route ==> rows[i].route == ""
  {
    RouteAt(rows, base, order, i);
    RouteAt(rows, base, order, j);
  }

  /** No row past `base` repeats the route of a row before it. */
  ghost predicate FreshRoutes(rows: seq<Menu>, base: nat) {
    |rows| <= base ||
      (FreshRoutes(rows[..|rows| - 1], base)
       && (rows[|rows| - 1].route == "" || rows[|rows| - 1].route !in ByRoute(rows[..|rows| - 1])))
  }

  ghost predicate DifferentRoutes(order: seq<Definition>) {
    forall m, n :: 0 <= m < n < |order| && !order[m].button && !order[n].button ==> order[m].route != order[n].route
  }

  lemma InsertedDiffer(old_: seq<Menu>, defs: seq<Definition>, order: seq<Definition>)
    requires multiset(order) == multiset(Missing(old_, defs)) && UniqueRoutes(multiset(Missing(old_, defs)))
    ensures DifferentRoutes(order)
  {
    forall m: nat, n: nat | m < n < |order| && !order[m].button && !order[n].button
      ensures order[m].route != order[n].route
    {
      InsertedRoutesDiffer(old_, defs, order, m, n);
    }
  }

  lemma NewRouteAt(rows: seq<Menu>, old_: seq<Menu>, defs: seq<Definition>, order: seq<Definition>, j: nat)
    requires RoutesOf(rows, |old_|, order) && old_ <= rows && |old_| <= j < |rows|
    requires multiset(order) == multiset(Missing(old_, defs)) && DifferentRoutes(order)
    ensures rows[j].route == "" || rows[j].route !in ByRoute(rows[..j])
  {
    var r := rows[j].route;
    RoutesAreRows(rows[..j], r);
    if r in ByRoute(rows[..j]) {
      var i: nat :| i < j && rows[..j][i].route == r;
      assert rows[..j][i] == rows[i];
      if i < |old_| {
        OldRouteDiffers(rows, old_, defs, order, i, j);
      } else {
        NewRoutesDiffer(rows, |old_|, order, i, j);
      }
    }
  }

  lemma {:induction false} FreshUpTo(
    rows: seq<Menu>, old_: seq<Menu>, defs: seq<Definition>, order: seq<Definition>, n: nat)
    requires RoutesOf(rows, |old_|, order) && old_ <= rows && |old_| <= n <= |rows|
    requires multiset(order) == multiset(Missing(old_, defs)) && DifferentRoutes(order)
    ensures FreshRoutes(rows[..n], |old_|)
    decreases n
  {
    if n > |old_| {
      FreshUpTo(rows, old_, defs, order, n - 1);
      NewRouteAt(rows, old_, defs, order, n - 1);
      assert rows[..n][..n - 1] == rows[..n - 1];
    }
  }

  lemma InsertionsAreFresh(rows: seq<Menu>, old_: seq<Menu>, defs: seq<Definition>, order: seq<Definition>)
    requires RoutesOf(rows, |old_|, order) && old_ <= rows
    requires multiset(order) == multiset(Missing(old_, defs)) && UniqueRoutes(multiset(Missing(old_, defs)))
    ensures FreshRoutes(rows, |old_|)
  {
    InsertedDiffer(old_, defs, order);
    FreshUpTo(rows, old_, defs, order, |rows|);
    assert rows[..|rows|] == rows;
  }

  /** A route known at some point keeps its row through all later insertions. */
  lemma {:induction false} RouteKeepsRow(rows: seq<Menu>, base: nat, n: nat, r: string)
    requires FreshRoutes(rows, base) && base <= n <= |rows| && r in ByRoute(rows[..n])
    ensures r in ByRoute(rows) && ByRoute(rows)[r] == ByRoute(rows[..n])[r]
    decreases |rows|
  {
    if n < |rows| {
      var front := rows[..|rows| - 1];
      assert front[..n] == rows[..n];
      RouteKeepsRow(front, base, n, r);
    } else {
      assert rows[..n] == rows;
    }
  }

  /** Some row before `n` has this route and id. */
  ghost predicate StandsBefore(rows: seq<Menu>, n: nat, route: string, id: nat)
    requires n <= |rows|
  {
    exists m :: 0 <= m < n && rows[m].route == route && rows[m].id == id
  }

  lemma KnownStandsBefore(rows: seq<Menu>, n: nat, route: string)
    requires n <= |rows| && route in ByRoute(rows[..n])
    ensures StandsBefore(rows, n, route, ByRoute(rows[..n])[route])
  {
    var before := rows[..n];
    RoutesAreRows(before, route);
    var m :| 0 <= m < n && before[m].route == route && before[m].id == ByRoute(before)[route];
    assert rows[m] == before[m];
  }

  /** Row `n` hangs under the row its parent's route had when it was inserted. */
  ghost predicate HangsUnder(rows: seq<Menu>, n: nat, p: string)
    requires n < |rows|
  {
    if p == "0" then rows[n].parent == None
    else p in ByRoute(rows[..n]) && rows[n].parent == Some(ByRoute(rows[..n])[p])
  }

  lemma PlacedParent(rows: seq<Menu>, base: nat, order: seq<Definition>, k: nat)
    requires Placed(rows, base, order) && k < |order|
    ensures |rows| == base + |order| && HangsUnder(rows, base + k, order[k].parent)
  {
    EachPlaced(rows, base, order, k);
  }

  lemma HangsByName(rows: seq<Menu>, base: nat, n: nat, p: string)
    requires FreshRoutes(rows, base) && base <= n < |rows| && HangsUnder(rows, n, p)
    ensures if p == "0" then rows[n].parent == None
      else p in ByRoute(rows) && rows[n].parent == Some(ByRoute(rows)[p]) && StandsBefore(rows, n, p, ByRoute(rows)[p])
  {
    if p != "0" {
      RouteKeepsRow(rows, base, n, p);
      KnownStandsBefore(rows, n, p);
    }
  }

  /** What an inserted row carries: a button its permission and no route, anything else its route. */
  lemma InsertedRowCarries(old_: seq<Menu>, defs: seq<Definition>, rows: seq<Menu>, order: seq<Definition>, k: nat)
    requires Synced(old_, defs, rows, order) && k < |order|
    ensures |rows| == |old_| + |order|
    ensures var row, d := rows[|old_| + k], order[k];
      && row.route == (if d.button then "" else d.route)
      && row.permission == (match d.permission case Some(p) => p case None => "")
  {
    EachPlaced(rows, |old_|, order, k);
  }

  /** After a successful run with unique routes an inserted row hangs under the table's one row of its
      parent's route, and that row stands before it. */
  lemma ParentsAreByName(old_: seq<Menu>, defs: seq<Definition>, rows: seq<Menu>, order: seq<Definition>, k: nat)
    requires Synced(old_, defs, rows, order) && UniqueRoutes(multiset(Missing(old_, defs))) && k < |order|
    ensures |rows| == |old_| + |order|
    ensures var p, n := order[k].parent, |old_| + k;
      if p == "0" then rows[n].parent == None
      else p in ByRoute(rows) && rows[n].parent == Some(ByRoute(rows)[p]) && StandsBefore(rows, n, p, ByRoute(rows)[p])
  {
    RunRoutes(old_, defs, rows, order);
    PlacedParent(rows, |old_|, order, k);
    HangsByName(rows, |old_|, |old_| + k, order[k].parent);
  }

  /** Row `n` hangs under the row that entry `e` became, which stands before it. */
  ghost predicate HangsUnderEntry(rows: seq<Menu>, base: nat, order: seq<Definition>, n: nat, e: Definition)
    requires |rows| == base + |order| && n < |rows|
  {
    exists j :: 0 <= j < |order| && base + j < n && order[j] == e && rows[n].parent == Some(rows[base + j].id)
  }

  /** A row found under a new route past the old rows is that of the entry inserted for it. */
  lemma EntryOfRow(old_: seq<Menu>, rows: seq<Menu>, order: seq<Definition>, m: nat, p: string)
    requires old_ <= rows && RoutesOf(rows, |old_|, order) && m < |rows| && rows[m].route == p
    requires p != "" && p !in ByRoute(old_)
    ensures m >= |old_| && m - |old_| < |order| && RouteOf(order[m - |old_|]) == p
  {
    RoutesAreRows(old_, p);
    assert forall i :: 0 <= i < |old_| ==> rows[i] == old_[i];
    RouteAt(rows, |old_|, order, m);
  }

  /** In one run, an entry whose parent's route was not there before hangs under the entry inserted for it. */
  lemma ParentEntry(old_: seq<Menu>, rows: seq<Menu>, order: seq<Definition>, n: nat, d: Definition)
    returns (e: Definition)
    requires old_ <= rows && RoutesOf(rows, |old_|, order) && n < |rows| && HangsUnder(rows, n, d.parent)
    requires d.parent != "0" && d.parent !in ByRoute(old_)
    ensures e in order && Parents(e, d) && HangsUnderEntry(rows, |old_|, order, n, e)
  {
    KnownStandsBefore(rows, n, d.parent);
    RoutesAreRows(rows[..n], d.parent);
    var m: nat :| m < n && rows[m].route == d.parent && rows[m].id == ByRoute(rows[..n])[d.parent];
    EntryOfRow(old_, rows, order, m, d.parent);
    var j := m - |old_|;
    e := order[j];
    assert |old_| + j < n && order[j] == e && rows[n].parent == Some(rows[|old_| + j].id);
  }

  /** In one run, an entry whose parent's route was there before hangs under the row that had it. */
  lemma OldParent(old_: seq<Menu>, rows: seq<Menu>, n: nat, p: string)
    requires old_ <= rows && FreshRoutes(rows, |old_|) && |old_| <= n < |rows| && HangsUnder(rows, n, p)
    requires p != "0" && p in ByRoute(old_)
    ensures rows[n].parent == Some(ByRoute(old_)[p])
  {
    assert rows[..|old_|] == old_;
    RouteKeepsRow(rows, |old_|, |old_|, p);
    RouteKeepsRow(rows, |old_|, n, p);
  }

  /** Row `n` hangs where entry `d` belongs: at the top, under the old row of its parent's route, or under
      the row that entry `e` became. */
  ghost predicate Belongs(
    old_: seq<Menu>, rows: seq<Menu>, order: seq<Definition>, n: nat, d: Definition, e: Definition)
    requires |rows| == |old_| + |order| && n < |rows|
  {
    if d.parent == "0" then rows[n].parent == None
    else if d.parent in ByRoute(old_) then rows[n].parent == Some(ByRoute(old_)[d.parent])
    else Parents(e, d) && HangsUnderEntry(rows, |old_|, order, n, e)
  }

  lemma RunRoutes(old_: seq<Menu>, defs: seq<Definition>, rows: seq<Menu>, order: seq<Definition>)
    requires Synced(old_, defs, rows, order) && UniqueRoutes(multiset(Missing(old_, defs)))
    ensures RoutesOf(rows, |old_|, order) && FreshRoutes(rows, |old_|)
  {
    PlacedRoutes(rows, |old_|, order);
    InsertionsAreFresh(rows, old_, defs, order);
  }

  lemma EachBelongs(old_: seq<Menu>, rows: seq<Menu>, order: seq<Definition>, n: nat, d: Definition)
    returns (e: Definition)
    requires old_ <= rows && RoutesOf(rows, |old_|, order) && FreshRoutes(rows, |old_|)
    requires |old_| <= n < |rows| && HangsUnder(rows, n, d.parent) && d in order
    ensures Belongs(old_, rows, order, n, d, e) && e in order
  {
    e := d;
    if d.parent == "0" {
    } else if d.parent in ByRoute(old_) {
      OldParent(old_, rows, n, d.parent);
    } else {
      e := ParentEntry(old_, rows, order, n, d);
    }
  }

  /** Where each inserted entry of a run hangs. */
  lemma RunBelongs(old_: seq<Menu>, rows: seq<Menu>, order: seq<Definition>, k: nat) returns (e: Definition)
    requires old_ <= rows && Placed(rows, |old_|, order) && RoutesOf(rows, |old_|, order)
    requires FreshRoutes(rows, |old_|) && k < |order|
    ensures e in order && Belongs(old_, rows, order, |old_| + k, order[k], e)
  {
    PlacedParent(rows, |old_|, order, k);
    e := EachBelongs(old_, rows, order, |old_| + k, order[k]);
  }

  /** Where an entry hangs does not depend on the order of the catalogue. Of two successful runs over the
      same rows with the same entries in any order: an entry hangs at the top in both, or under the same
      old row, or under the row that one and the same entry `e` became, inserted before it. */
  lemma ParentsIgnoreOrder(
    old_: seq<Menu>, a: seq<Definition>, rowsA: seq<Menu>, orderA: seq<Definition>, m: nat,
    b: seq<Definition>, rowsB: seq<Menu>, orderB: seq<Definition>, n: nat) returns (e: Definition)
    requires multiset(a) == multiset(b) && UniqueRoutes(multiset(Missing(old_, a)))
    requires Synced(old_, a, rowsA, orderA) && Synced(old_, b, rowsB, orderB)
    requires m < |orderA| && n < |orderB| && orderA[m] == orderB[n]
    ensures |rowsA| == |old_| + |orderA| && |rowsB| == |old_| + |orderB|
    ensures Belongs(old_, rowsA, orderA, |old_| + m, orderA[m], e)
    ensures Belongs(old_, rowsB, orderB, |old_| + n, orderA[m], e)
  {
    SameMissing(old_, a, b);
    RunRoutes(old_, a, rowsA, orderA);
    RunRoutes(old_, b, rowsB, orderB);
    e := RunBelongs(old_, rowsA, orderA, m);
    var f := RunBelongs(old_, rowsB, orderB, n);
    OneEntry(multiset(Missing(old_, a)), orderA, orderB, orderA[m], e, f);
  }

  lemma OneEntry(
    ms: multiset<Definition>, a: seq<Definition>, b: seq<Definition>, d: Definition, e: Definition, f: Definition)
    requires UniqueRoutes(ms) && multiset(a) == multiset(b) == ms && e in a && f in b
    ensures Parents(e, d) && Parents(f, d) ==> e == f
  {
    if Parents(e, d) && Parents(f, d) { SameEntry(ms, a, b, e, f); }
  }

  lemma SameEntry(ms: multiset<Definition>, a: seq<Definition>, b: seq<Definition>, e: Definition, f: Definition)
    requires UniqueRoutes(ms) && multiset(a) == multiset(b) == ms && e in a && f in b
    requires !e.button && !f.button && e.route == f.route
    ensures e == f
  {
    assert e in multiset(a) && f in multiset(b);
  }

  lemma SameMissing(old_: seq<Menu>, a: seq<Definition>, b: seq<Definition>)
    requires multiset(a) == multiset(b)
    ensures multiset(Missing(old_, a)) == multiset(Missing(old_, b))
  {
    MissingMembers(old_, a);
    MissingMembers(old_, b);
  }

  predicate HasKey(d: Definition) { if d.button then d.permission.Some? && d.permission.value != "" else d.route != "" }

  lemma KeyedIsPresent(rows: seq<Menu>, old_: seq<Menu>, defs: seq<Definition>, order: seq<Definition>, d: Definition)
    requires Synced(old_, defs, rows, order) && d in defs && HasKey(d)
    ensures Present(rows, d)
  {
    if Present(old_, d) {
      if d.button { ButtonStays(rows, old_, d); }
    } else {
      var k := MissingIsInserted(old_, defs, order, d);
      EachPlaced(rows, |old_|, order, k);
      assert d.button ==> rows[|old_| + k].permission == d.permission.value;
    }
  }

  lemma MissingIsInserted(old_: seq<Menu>, defs: seq<Definition>, order: seq<Definition>, d: Definition)
    returns (k: nat)
    requires multiset(order) == multiset(Missing(old_, defs)) && d in defs && !Present(old_, d)
    ensures k < |order| && order[k] == d
  {
    MissingMembers(old_, defs);
    assert d in multiset(defs) && d in multiset(order);
    k :| 0 <= k < |order| && order[k] == d;
  }

  lemma ButtonStays(rows: seq<Menu>, old_: seq<Menu>, d: Definition)
    requires old_ <= rows && d.button && Present(old_, d)
    ensures Present(rows, d)
  {
    var i :| 0 <= i < |old_| && old_[i].permission != "" && old_[i].permission == d.permission.value;
    assert rows[i] == old_[i];
  }

  lemma NothingMissing(rows: seq<Menu>, defs: seq<Definition>)
    ensures Missing(rows, defs) == [] <==> forall d :: d in defs ==> Present(rows, d)
  {
    MissingMembers(rows, defs);
    if Missing(rows, defs) != [] {
      var d := Missing(rows, defs)[0];
      assert d in multiset(Missing(rows, defs));
      assert d in multiset(defs) && !Present(rows, d);
    } else {
      forall d | d in defs ensures Present(rows, d) {
        assert d in multiset(defs) && d !in multiset(Missing(rows, defs));
      }
    }
  }

  /** A second run inserts nothing, exactly when every entry has a non-empty key. */
  lemma SecondRunInsertsNothing(rows: seq<Menu>, old_: seq<Menu>, defs: seq<Definition>, order: seq<Definition>)
    requires Synced(old_, defs, rows, order)
    ensures Missing(rows, defs) == [] <==> forall d :: d in defs ==> HasKey(d)
  {
    NothingMissing(rows, defs);
    forall d | d in defs ensures Present(rows, d) <==> HasKey(d) {
      RoutesAreRows(rows, d.route);
      if HasKey(d) { KeyedIsPresent(rows, old_, defs, order, d); }
    }
  }

  lemma {:induction false} ReachIgnoresOrder(
    routes: set<string>, a: seq<Definition>, b: seq<Definition>, d: Definition, n: nat)
    requires forall e :: e in a <==> e in b
    ensures ReachesWithin(routes, a, d, n) ==> ReachesWithin(routes, b, d, n)
    decreases n
  {
    if ReachesWithin(routes, a, d, n) && d.parent != "0" && d.parent !in routes {
      var e :| e in a && Parents(e, d) && ReachesWithin(routes, a, e, n - 1);
      ReachIgnoresOrder(routes, a, b, e, n - 1);
    }
  }

  lemma ResolvableIgnoresOrder(old_: seq<Menu>, a: seq<Definition>, b: seq<Definition>)
    requires multiset(a) == multiset(b) && AllResolvable(old_, a, a)
    ensures AllResolvable(old_, b, b)
  {
    SameMembers(a, b);
    EachResolvable(old_, a, a);
    forall d | d in b ensures Resolvable(ByRoute(old_).Keys, b, d) {
      var n: nat :| ReachesWithin(ByRoute(old_).Keys, a, d, n);
      ReachIgnoresOrder(ByRoute(old_).Keys, a, b, d, n);
    }
    EachResolvable(old_, b, b);
  }

  /** Reordering the catalogue changes neither whether the run succeeds nor which entries it inserts. */
  lemma CatalogueOrderIsIrrelevant(rows: seq<Menu>, a: seq<Definition>, b: seq<Definition>)
    requires multiset(a) == multiset(b)
    ensures multiset(Missing(rows, a)) == multiset(Missing(rows, b))
    ensures AllResolvable(rows, Missing(rows, a), Missing(rows, a)) && AllBuildable(Missing(rows, a))
       <==> AllResolvable(rows, Missing(rows, b), Missing(rows, b)) && AllBuildable(Missing(rows, b))
  {
    SameMissing(rows, a, b);
    SameMembers(Missing(rows, a), Missing(rows, b));
    if AllResolvable(rows, Missing(rows, a), Missing(rows, a)) {
      ResolvableIgnoresOrder(rows, Missing(rows, a), Missing(rows, b));
    }
    if AllResolvable(rows, Missing(rows, b), Missing(rows, b)) {
      ResolvableIgnoresOrder(rows, Missing(rows, b), Missing(rows, a));
    }
  }
}
