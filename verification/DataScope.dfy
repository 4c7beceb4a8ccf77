/** Data-scope resolution: what departments and users a principal's roles let it see,
    under the current union rule and under the two rules it replaced. */
module DataScope {
  import opened Options
  import DeptTree

  /** The `data_scope` column: "1" to "5", or any other text. */
  datatype Kind = All | Custom | OwnDept | DeptAndSub | SelfOnly | Unknown(text: string)

  const SUPER_ROLE := "R_SUPER"

  datatype Result<+T> = Ok(value: T) | CrossTenant

  datatype Role = Role(id: nat, tenant: nat, code: string, enabled: bool, kind: Kind)

  datatype DeptRef = DeptRef(id: nat, tenant: nat)

  datatype User = User(id: nat, tenant: nat, roles: seq<Role>, depts: set<nat>)

  /** One tenant's tables: the department rows, the enabled departments granted to each role,
      who belongs to which department, and the user ids. */
  datatype Directory = Directory(
    depts: DeptTree.Rows, roleDepts: map<nat, set<nat>>, members: set<(nat, nat)>, users: set<nat>)

  /** What a principal may see: everything, or some departments and possibly its own records. */
  datatype Scope = Unbounded | Bounded(depts: set<nat>, self: bool)

  datatype Resolution = Resolution(kinds: set<Kind>, scope: Scope)

  /** What the resolver looks up for one principal: its departments, their subtrees, and the
      enabled departments granted to each role. */
  datatype Seat = Seat(own: set<nat>, below: set<nat>, roleDepts: map<nat, set<nat>>) {
    function Granted(role: nat): (ids: set<nat>) {
      if role in roleDepts then roleDepts[role] else {}
    }
  }

  function SeatOf(dir: Directory, own: set<nat>): (seat: Seat) {
    Seat(own, DeptTree.DeptAndSubIds(dir.depts, own), dir.roleDepts)
  }

  // ------------------------------------------------------------------ the union rule, as documented

  /** A grant of departments; an empty one falls back to the principal's own records. */
  function GrantOf(depts: set<nat>): (s: Scope) { Bounded(depts, depts == {}) }

  /** What one role contributes on its own; nothing when disabled or of an unknown kind. */
  function Contribution(seat: Seat, role: Role): (s: Option<Scope>) {
    if !role.enabled then None
    else if role.code == SUPER_ROLE || role.kind.All? then Some(Unbounded)
    else if role.kind.OwnDept? then Some(GrantOf(seat.own))
    else if role.kind.DeptAndSub? then Some(GrantOf(seat.below))
    else if role.kind.Custom? then Some(GrantOf(seat.Granted(role.id)))
    else if role.kind.SelfOnly? then Some(Bounded({}, true))
    else None
  }

  /** The join of two scopes: departments unite, self is either's, unbounded absorbs. */
  function Join(a: Scope, b: Scope): (s: Scope) {
    if a.Unbounded? || b.Unbounded? then Unbounded else Bounded(a.depts + b.depts, a.self || b.self)
  }

  function JoinOption(a: Option<Scope>, b: Option<Scope>): (s: Option<Scope>) {
    match (a, b)
    case (None, _) => b
    case (_, None) => a
    case (Some(x), Some(y)) => Some(Join(x, y))
  }

  function Combined(seat: Seat, roles: seq<Role>): (s: Option<Scope>) {
    if roles == [] then None
    else JoinOption(Combined(seat, roles[..|roles| - 1]), Contribution(seat, roles[|roles| - 1]))
  }

  /** The union of every enabled role's contribution; own records when there is none. */
  function UnionScope(seat: Seat, roles: seq<Role>): (s: Scope) {
    var all := Combined(seat, roles);
    if all.None? then Bounded({}, true) else all.value
  }

  lemma JoinOptionAssociates(a: Option<Scope>, b: Option<Scope>, c: Option<Scope>)
    ensures JoinOption(JoinOption(a, b), c) == JoinOption(a, JoinOption(b, c))
  {
    if a.Some? && b.Some? && c.Some? && a.value.Bounded? && b.value.Bounded? && c.value.Bounded? {
      assert (a.value.depts + b.value.depts) + c.value.depts == a.value.depts + (b.value.depts + c.value.depts);
    }
  }

  lemma {:induction false} CombinedOfConcat(seat: Seat, a: seq<Role>, b: seq<Role>)
    ensures Combined(seat, a + b) == JoinOption(Combined(seat, a), Combined(seat, b))
  {
    if b == [] {
      assert a + b == a;
    } else {
      var front, last := b[..|b| - 1], b[|b| - 1];
      CombinedOfConcat(seat, a, front);
      assert (a + b)[..|a + b| - 1] == a + front;
      JoinOptionAssociates(Combined(seat, a), Combined(seat, front), Contribution(seat, last));
    }
  }

  /** A role list contributes when it holds an enabled role of a known kind or an enabled R_SUPER. */
  predicate Contributes(roles: seq<Role>) {
    exists i :: 0 <= i < |roles| && roles[i].enabled && (!roles[i].kind.Unknown? || roles[i].code == SUPER_ROLE)
  }

  lemma {:induction false} CombinedIsNone(seat: Seat, roles: seq<Role>)
    ensures Combined(seat, roles).None? <==> !Contributes(roles)
  {
    if roles != [] {
      var front := roles[..|roles| - 1];
      CombinedIsNone(seat, front);
      assert forall i :: 0 <= i < |front| ==> roles[i] == front[i];
    }
  }

  predicate IncludesSelf(s: Scope) { s.Unbounded? || s.self }

  /** The role lets its holder see its own records: it is R_SUPER, ALL or SELF, or grants no department. */
  predicate CoversSelf(seat: Seat, role: Role) {
    role.enabled &&
    (|| role.code == SUPER_ROLE || role.kind.All? || role.kind.SelfOnly?
     || (role.kind.OwnDept? && seat.own == {}) || (role.kind.DeptAndSub? && seat.below == {})
     || (role.kind.Custom? && seat.Granted(role.id) == {}))
  }

  predicate SomeCoversSelf(seat: Seat, roles: seq<Role>) {
    exists i :: 0 <= i < |roles| && CoversSelf(seat, roles[i])
  }

  lemma {:induction false} CombinedIncludesSelf(seat: Seat, roles: seq<Role>)
    ensures var s := Combined(seat, roles); s.Some? && IncludesSelf(s.value) <==> SomeCoversSelf(seat, roles)
  {
    if roles != [] {
      var front := roles[..|roles| - 1];
      CombinedIncludesSelf(seat, front);
      assert forall i :: 0 <= i < |front| ==> roles[i] == front[i];
    }
  }

  /** Resolving a concatenation is joining the two resolutions, exactly when both lists contribute or
      neither does, or some role of either covers self anyway. */
  lemma UnionOfConcat(seat: Seat, a: seq<Role>, b: seq<Role>)
    ensures UnionScope(seat, a + b) == Join(UnionScope(seat, a), UnionScope(seat, b))
      <==> Contributes(a) == Contributes(b) || SomeCoversSelf(seat, a) || SomeCoversSelf(seat, b)
  {
    CombinedOfConcat(seat, a, b);
    CombinedIsNone(seat, a);
    CombinedIsNone(seat, b);
    CombinedIncludesSelf(seat, a);
    CombinedIncludesSelf(seat, b);
  }

  /** An input where it is not: a department's role, resolved together with no role at all. */
  lemma JoinCanDiffer() returns (seat: Seat, a: seq<Role>, b: seq<Role>)
    ensures UnionScope(seat, a + b) == Bounded({7}, false)
    ensures Join(UnionScope(seat, a), UnionScope(seat, b)) == Bounded({7}, true)
  {
    seat, a, b := Seat({7}, {7}, map[]), [Role(1, 0, "a", true, OwnDept)], [];
    assert a + b == a && a[..0] == [];
    assert Combined(seat, a) == Some(Bounded({7}, false));
  }

  predicate Inhabited(s: Scope) { s.Unbounded? || s.depts != {} || s.self }

  lemma {:induction false} CombinedIsInhabited(seat: Seat, roles: seq<Role>)
    ensures var s := Combined(seat, roles); s.Some? ==> Inhabited(s.value)
  {
    if roles != [] { CombinedIsInhabited(seat, roles[..|roles| - 1]); }
  }

  /** Every bounded resolution grants a department or includes self. */
  lemma UnionIsInhabited(seat: Seat, roles: seq<Role>)
    ensures Inhabited(UnionScope(seat, roles))
  {
    CombinedIsInhabited(seat, roles);
  }

  // ------------------------------------------------------------------ the scope on the tree

  /** The role opens department `d` to a holder who belongs to `own`, read off the tree and the grants. */
  ghost predicate Opens(dir: Directory, own: set<nat>, role: Role, d: nat)
    requires DeptTree.Consistent(dir.depts)
  {
    role.enabled &&
    match role.kind
    case OwnDept => d in own
    case DeptAndSub => d in own || (d in dir.depts && exists c :: c in own && DeptTree.IsAncestor(dir.depts, c, d))
    case Custom => role.id in dir.roleDepts && d in dir.roleDepts[role.id]
    case _ => false
  }

  /** The role opens its holder's own records: it says so, or has no department to open. */
  ghost predicate OpensSelf(dir: Directory, own: set<nat>, role: Role) {
    role.enabled &&
    match role.kind
    case SelfOnly => true
    case OwnDept => own == {}
    case DeptAndSub => own == {}
    case Custom => role.id !in dir.roleDepts || dir.roleDepts[role.id] == {}
    case _ => false
  }

  /** What a resolved scope holds, role by role. */
  ghost predicate OnTree(dir: Directory, own: set<nat>, roles: seq<Role>, scope: Scope)
    requires DeptTree.Consistent(dir.depts)
  {
    && (scope.Unbounded? <==>
          exists i :: 0 <= i < |roles| && roles[i].enabled && (roles[i].code == SUPER_ROLE || roles[i].kind.All?))
    && (scope.Bounded? ==>
          && (forall d :: d in scope.depts <==> exists i :: 0 <= i < |roles| && Opens(dir, own, roles[i], d))
          && (scope.self <==>
                || (forall i :: 0 <= i < |roles| && roles[i].enabled ==> roles[i].kind.Unknown?)
                || exists i :: 0 <= i < |roles| && OpensSelf(dir, own, roles[i])))
  }

  /** One role's contribution, on the tree. */
  lemma ContributionOnTree(dir: Directory, own: set<nat>, role: Role)
    requires DeptTree.Consistent(dir.depts) && 0 !in own
    ensures var s := Contribution(SeatOf(dir, own), role);
      && (s.None? <==> !role.enabled || (role.kind.Unknown? && role.code != SUPER_ROLE))
      && (s == Some(Unbounded) <==> role.enabled && (role.code == SUPER_ROLE || role.kind.All?))
      && (s.Some? && s.value.Bounded? ==>
            && (forall d :: d in s.value.depts <==> Opens(dir, own, role, d))
            && (s.value.self <==> OpensSelf(dir, own, role)))
  {
    DeptTree.SubIdsIsSubtree(dir.depts, own);
  }

  /** Role by role, all the way: what the combined contribution holds. */
  ghost predicate CombinedOnTree(dir: Directory, own: set<nat>, roles: seq<Role>, s: Option<Scope>)
    requires DeptTree.Consistent(dir.depts)
  {
    && (s.None? <==> !Contributes(roles))
    && (s == Some(Unbounded) <==>
          exists i :: 0 <= i < |roles| && roles[i].enabled && (roles[i].code == SUPER_ROLE || roles[i].kind.All?))
    && (s.Some? && s.value.Bounded? ==>
          && (forall d :: d in s.value.depts <==> exists i :: 0 <= i < |roles| && Opens(dir, own, roles[i], d))
          && (s.value.self <==> exists i :: 0 <= i < |roles| && OpensSelf(dir, own, roles[i])))
  }

  lemma {:induction false} CombinedIsOnTree(dir: Directory, own: set<nat>, roles: seq<Role>)
    requires DeptTree.Consistent(dir.depts) && 0 !in own
    ensures CombinedOnTree(dir, own, roles, Combined(SeatOf(dir, own), roles))
  {
    CombinedIsNone(SeatOf(dir, own), roles);
    if roles != [] {
      var front, last := roles[..|roles| - 1], roles[|roles| - 1];
      CombinedIsOnTree(dir, own, front);
      ContributionOnTree(dir, own, last);
      assert roles[|front|] == last && forall i :: 0 <= i < |front| ==> roles[i] == front[i];
    }
  }

  /** The union of the roles' contributions is what the tree and the grants say, role by role. */
  lemma UnionIsOnTree(dir: Directory, own: set<nat>, roles: seq<Role>)
    requires DeptTree.Consistent(dir.depts) && 0 !in own
    ensures OnTree(dir, own, roles, UnionScope(SeatOf(dir, own), roles))
  {
    CombinedIsOnTree(dir, own, roles);
  }

  // ------------------------------------------------------------------ the resolver

  function Kinds(roles: seq<Role>): (kinds: set<Kind>) {
    set i | 0 <= i < |roles| && roles[i].enabled && !roles[i].kind.Unknown? :: roles[i].kind
  }

  function CustomRoles(roles: seq<Role>): (ids: set<nat>) {
    set i | 0 <= i < |roles| && roles[i].enabled && roles[i].kind.Custom? :: roles[i].id
  }

  predicate HasSuper(roles: seq<Role>) {
    exists i :: 0 <= i < |roles| && roles[i].enabled && roles[i].code == SUPER_ROLE
  }

  function GrantedToAny(seat: Seat, ids: set<nat>): (depts: set<nat>) {
    set r, d | r in ids && d in seat.Granted(r) :: d
  }

  function DeptsByKind(seat: Seat, kinds: set<Kind>, custom: set<nat>): (depts: set<nat>) {
    (if OwnDept in kinds then seat.own else {})
    + (if DeptAndSub in kinds then seat.below else {})
    + GrantedToAny(seat, custom)
  }

  predicate SelfByKind(seat: Seat, kinds: set<Kind>, custom: set<nat>) {
    || SelfOnly in kinds
    || (OwnDept in kinds && seat.own == {})
    || (DeptAndSub in kinds && seat.below == {})
    || (exists r :: r in custom && seat.Granted(r) == {})
  }

  /** The same scope computed kind by kind instead of role by role. */
  function ByKind(seat: Seat, super: bool, kinds: set<Kind>, custom: set<nat>): (s: Option<Scope>) {
    if super || All in kinds then Some(Unbounded)
    else if kinds == {} then None
    else Some(Bounded(DeptsByKind(seat, kinds, custom), SelfByKind(seat, kinds, custom)))
  }

  lemma KindsOfSnoc(front: seq<Role>, last: Role)
    ensures Kinds(front + [last]) == Kinds(front) + (if last.enabled && !last.kind.Unknown? then {last.kind} else {})
    ensures CustomRoles(front + [last]) ==
      CustomRoles(front) + (if last.enabled && last.kind.Custom? then {last.id} else {})
    ensures HasSuper(front + [last]) <==> HasSuper(front) || (last.enabled && last.code == SUPER_ROLE)
  {
    var roles := front + [last];
    assert roles[|front|] == last && forall i :: 0 <= i < |front| ==> roles[i] == front[i];
  }

  lemma ByKindStep(seat: Seat, super: bool, kinds: set<Kind>, custom: set<nat>, last: Role)
    requires Custom in kinds <==> custom != {}
    requires last.enabled && !last.kind.Unknown?
    ensures ByKind(seat, super || last.code == SUPER_ROLE, kinds + {last.kind},
                   custom + if last.kind.Custom? then {last.id} else {})
            == JoinOption(ByKind(seat, super, kinds, custom), Contribution(seat, last))
  {
    var custom' := custom + if last.kind.Custom? then {last.id} else {};
    if !super && All !in kinds && !last.kind.All? && last.code != SUPER_ROLE {
      var more := Contribution(seat, last).value;
      assert GrantedToAny(seat, custom') == GrantedToAny(seat, custom)
        + (if last.kind.Custom? then seat.Granted(last.id) else {});
      assert DeptsByKind(seat, kinds + {last.kind}, custom') == DeptsByKind(seat, kinds, custom) + more.depts;
      assert SelfByKind(seat, kinds + {last.kind}, custom') <==> SelfByKind(seat, kinds, custom) || more.self;
      if kinds == {} { assert DeptsByKind(seat, kinds, custom) + more.depts == more.depts; }
    }
  }

  lemma {:induction false} CombinedIsByKind(seat: Seat, roles: seq<Role>)
    ensures Combined(seat, roles) == ByKind(seat, HasSuper(roles), Kinds(roles), CustomRoles(roles))
    ensures Custom in Kinds(roles) <==> CustomRoles(roles) != {}
  {
    if roles != [] {
      var front, last := roles[..|roles| - 1], roles[|roles| - 1];
      assert roles == front + [last];
      CombinedIsByKind(seat, front);
      KindsOfSnoc(front, last);
      if last.enabled && !last.kind.Unknown? {
        ByKindStep(seat, HasSuper(front), Kinds(front), CustomRoles(front), last);
      } else {
        assert Kinds(roles) == Kinds(front) && CustomRoles(roles) == CustomRoles(front);
      }
    }
  }

  method CollectGrants(seat: Seat, custom: set<nat>) returns (depts: set<nat>, someEmpty: bool)
    ensures depts == GrantedToAny(seat, custom)
    ensures someEmpty <==> exists c :: c in custom && seat.Granted(c) == {}
  {
    depts, someEmpty := {}, false;
    var todo := custom;
    ghost var done: set<nat> := {};
    while todo != {}
      invariant done + todo == custom
      invariant depts == GrantedToAny(seat, done)
      invariant someEmpty <==> exists c :: c in done && seat.Granted(c) == {}
      decreases |todo|
    {
      var c :| c in todo;
      assert GrantedToAny(seat, done + {c}) == GrantedToAny(seat, done) + seat.Granted(c);
      todo, done := todo - {c}, done + {c};
      depts := depts + seat.Granted(c);
      someEmpty := someEmpty || seat.Granted(c) == {};
    }
    assert done == custom;
  }

  /** The kinds a resolution reports: ALL for an R_SUPER, else those of the enabled roles, else SELF. */
  ghost predicate Reported(roles: seq<Role>, k: Kind) {
    if exists i :: 0 <= i < |roles| && roles[i].enabled && roles[i].code == SUPER_ROLE then k == All
    else
      || (!k.Unknown? && exists i :: 0 <= i < |roles| && roles[i].enabled && roles[i].kind == k)
      || (k == SelfOnly && forall i :: 0 <= i < |roles| && roles[i].enabled ==> roles[i].kind.Unknown?)
  }

  lemma ReportedKinds(roles: seq<Role>)
    ensures var kinds := if HasSuper(roles) then {All} else if Kinds(roles) == {} then {SelfOnly} else Kinds(roles);
      forall k :: k in kinds <==> Reported(roles, k)
  {
    forall i | 0 <= i < |roles| && roles[i].enabled && !roles[i].kind.Unknown? ensures roles[i].kind in Kinds(roles) {}
  }

  /** The accumulation over the kinds present and over each CUSTOM role's grant. */
  method ResolveKinds(seat: Seat, kinds: set<Kind>, custom: set<nat>) returns (s: Scope)
    ensures s == Bounded(DeptsByKind(seat, kinds, custom), SelfByKind(seat, kinds, custom))
  {
    var accessible: set<nat> := {};
    var includeSelf := SelfOnly in kinds;
    if OwnDept in kinds {
      accessible := accessible + seat.own;
      includeSelf := includeSelf || seat.own == {};
    }
    if DeptAndSub in kinds {
      accessible := accessible + seat.below;
      includeSelf := includeSelf || seat.below == {};
    }
    var granted, someEmpty := CollectGrants(seat, custom);
    return Bounded(accessible + granted, includeSelf || someEmpty);
  }

  /** resolve_data_scope_for_roles: refuses resources of another tenant, and otherwise returns
      the union of the roles' contributions. */
  method ResolveForRoles(dir: Directory, user: User, roles: seq<Role>, depts: Option<set<DeptRef>>, tenant: nat)
    returns (r: Result<Resolution>)
    ensures r.CrossTenant? <==>
      || user.tenant != tenant
      || (exists i :: 0 <= i < |roles| && roles[i].tenant != tenant)
      || (depts.Some? && exists d :: d in depts.value && d.tenant != tenant)
    ensures r.Ok? ==>
      var own := if depts.Some? then set d | d in depts.value :: d.id else user.depts;
      && r.value.scope == UnionScope(SeatOf(dir, own), roles)
      && (DeptTree.Consistent(dir.depts) && 0 !in own ==> OnTree(dir, own, roles, r.value.scope))
      && (forall k :: k in r.value.kinds <==> Reported(roles, k))
  {
    if user.tenant != tenant || (exists i :: 0 <= i < |roles| && roles[i].tenant != tenant)
       || (depts.Some? && exists d :: d in depts.value && d.tenant != tenant) {
      return CrossTenant;
    }
    var own := if depts.Some? then set d | d in depts.value :: d.id else user.depts;
    var seat := SeatOf(dir, own);
    CombinedIsByKind(seat, roles);
    ReportedKinds(roles);
    if DeptTree.Consistent(dir.depts) && 0 !in own { UnionIsOnTree(dir, own, roles); }
    if HasSuper(roles) {
      return Ok(Resolution({All}, Unbounded));
    }
    var kinds := Kinds(roles);
    if kinds == {} {
      kinds := {SelfOnly};
    }
    if All in kinds {
      return Ok(Resolution(kinds, Unbounded));
    }
    var scope := ResolveKinds(seat, kinds, CustomRoles(roles));
    return Ok(Resolution(kinds, scope));
  }
}
