/** The upgrade audit of data scopes: the two rules the union replaced, what each scope
    materialises to, and the report that counts principals whose view grows. */
module ScopeAudit {
  import opened Options
  import opened DataScope
  import DeptTree

  function Priority(kind: Kind): (p: nat) {
    match kind
    case All => 5
    case DeptAndSub => 4
    case OwnDept => 3
    case Custom => 2
    case SelfOnly => 1
    case Unknown(_) => 0
  }

  function EnabledRoles(roles: seq<Role>): (r: seq<Role>) {
    if roles == [] then []
    else EnabledRoles(roles[..|roles| - 1]) + (if roles[|roles| - 1].enabled then [roles[|roles| - 1]] else [])
  }

  /** The widest kind of the enabled roles, at least SELF. */
  ghost predicate IsBest(roles: seq<Role>, best: Kind) {
    && !best.Unknown?
    && (best.SelfOnly? || exists i :: 0 <= i < |roles| && roles[i].enabled && roles[i].kind == best)
    && forall i :: 0 <= i < |roles| && roles[i].enabled ==> Priority(roles[i].kind) <= Priority(best)
  }

  /** get_best_scope. */
  method GetBestScope(roles: seq<Role>) returns (best: Kind)
    ensures IsBest(roles, best)
  {
    best := SelfOnly;
    for n := 0 to |roles|
      invariant IsBest(roles[..n], best)
    {
      if roles[n].enabled && Priority(roles[n].kind) > Priority(best) {
        best := roles[n].kind;
      }
      assert roles[..n + 1][n] == roles[n];
      assert forall i :: 0 <= i < n ==> roles[..n + 1][i] == roles[..n][i];
    }
    assert roles[..|roles|] == roles;
  }

  lemma BestIsUnique(roles: seq<Role>, a: Kind, b: Kind)
    requires IsBest(roles, a) && IsBest(roles, b)
    ensures a == b
  {
    assert Priority(a) == Priority(b);
  }

  predicate SomeEnabled(roles: seq<Role>, kind: Kind) {
    exists i :: 0 <= i < |roles| && roles[i].enabled && roles[i].kind == kind
  }

  /** The order of the kinds: ALL before DEPT_AND_SUB before DEPT before CUSTOM before SELF, which stands
      also for no role at all. */
  lemma BestIsByOrder(roles: seq<Role>, best: Kind)
    requires IsBest(roles, best)
    ensures best == if SomeEnabled(roles, All) then All
                    else if SomeEnabled(roles, DeptAndSub) then DeptAndSub
                    else if SomeEnabled(roles, OwnDept) then OwnDept
                    else if SomeEnabled(roles, Custom) then Custom
                    else SelfOnly
  {
    assert best.SelfOnly? || SomeEnabled(roles, best);
  }

  /** Departments granted to any enabled role, of whatever kind: get_custom_dept_ids. */
  function EnabledGrants(seat: Seat, roles: seq<Role>): (depts: set<nat>) {
    set i, d | 0 <= i < |roles| && roles[i].enabled && d in seat.Granted(roles[i].id) :: d
  }

  /** resolve_legacy_data_scope for a principal whose best kind is `best`. */
  function LegacyApi(seat: Seat, roles: seq<Role>, best: Kind): (s: Scope) {
    if HasSuper(roles) || best.All? then Unbounded
    else if best.Custom? then GrantOf(EnabledGrants(seat, roles))
    else if best.OwnDept? then GrantOf(seat.own)
    else if best.DeptAndSub? then GrantOf(seat.below)
    else Bounded({}, true)
  }

  /** resolve_legacy_ai_data_scope: self is always included, and SELF means the own departments. */
  function LegacyAi(seat: Seat, roles: seq<Role>, best: Kind): (s: Scope) {
    if HasSuper(roles) || best.All? then Unbounded
    else if best.Custom? then Bounded(EnabledGrants(seat, roles), true)
    else if best.DeptAndSub? then Bounded(seat.below, true)
    else Bounded(seat.own, true)
  }

  // ------------------------------------------------------------------ what a scope shows

  /** _build_user_scope, its last fallback included. */
  function UserScope(dir: Directory, user: nat, depts: set<nat>, self: bool): (ids: set<nat>) {
    var own := set u | u in dir.users && u == user;
    var members := set m | m in dir.members && m.1 in depts :: m.0;
    if self && depts != {} then own + members
    else if self then own
    else if depts != {} then members
    else own
  }

  function VisibleUsers(dir: Directory, user: nat, s: Scope): (ids: set<nat>) {
    if s.Unbounded? then dir.users else UserScope(dir, user, s.depts, s.self)
  }

  function VisibleDepts(dir: Directory, s: Scope): (ids: set<nat>) {
    if s.Unbounded? then dir.depts.Keys else s.depts
  }

  /** get_data_scope_filters as a test of one row, its fallback included. */
  predicate RowPasses(user: nat, s: Scope, rowDept: nat, rowCreator: nat) {
    if s.Unbounded? then true
    else if s.depts == {} && !s.self then rowCreator == user
    else (s.depts != {} && rowDept in s.depts) || (s.self && rowCreator == user)
  }

  /** The fallbacks of the filter builders are never taken: a row passes the union filter exactly
      when its department is granted or it is the principal's own and self is included. */
  lemma UnionFilterIsExact(seat: Seat, roles: seq<Role>, user: nat, rowDept: nat, rowCreator: nat)
    ensures var s := UnionScope(seat, roles);
      RowPasses(user, s, rowDept, rowCreator)
      <==> s.Unbounded? || rowDept in s.depts || (s.self && rowCreator == user)
  {
    UnionIsInhabited(seat, roles);
  }

  ghost predicate Contained(dir: Directory, user: nat, a: Scope, b: Scope) {
    VisibleDepts(dir, a) <= VisibleDepts(dir, b) && VisibleUsers(dir, user, a) <= VisibleUsers(dir, user, b)
  }

  /** Containment of the resolved scopes themselves. */
  predicate Within(a: Scope, b: Scope) {
    (a.Unbounded? && b.Unbounded?)
    || (a.Bounded? && b.Bounded? && a.depts <= b.depts && (a.self ==> b.self))
  }

  lemma WithinIsContained(dir: Directory, user: nat, a: Scope, b: Scope)
    requires Within(a, b) && Inhabited(a)
    ensures Contained(dir, user, a, b)
  {
  }

  /** Some enabled role, of whatever kind, holds a grant of department `d`. */
  ghost predicate GrantedBySome(dir: Directory, roles: seq<Role>, d: nat) {
    exists i :: 0 <= i < |roles| && roles[i].enabled && roles[i].id in dir.roleDepts && d in dir.roleDepts[roles[i].id]
  }

  ghost predicate InSubtree(dir: Directory, own: set<nat>, d: nat)
    requires DeptTree.Consistent(dir.depts)
  {
    d in own || (d in dir.depts && exists c :: c in own && DeptTree.IsAncestor(dir.depts, c, d))
  }

  /** The legacy API rule on the tree: everything for R_SUPER or ALL; otherwise what the widest kind opens,
      and self exactly when that is nothing. */
  lemma LegacyApiOnTree(dir: Directory, own: set<nat>, roles: seq<Role>, best: Kind)
    requires DeptTree.Consistent(dir.depts) && 0 !in own && !best.Unknown?
    ensures var s := LegacyApi(SeatOf(dir, own), roles, best);
      && (s.Unbounded? <==>
            best.All? || exists i :: 0 <= i < |roles| && roles[i].enabled && roles[i].code == SUPER_ROLE)
      && (s.Bounded? ==>
            && (s.self <==> s.depts == {})
            && forall d :: d in s.depts <==>
                 match best
                 case Custom => GrantedBySome(dir, roles, d)
                 case OwnDept => d in own
                 case DeptAndSub => InSubtree(dir, own, d)
                 case _ => false)
  {
    DeptTree.SubIdsIsSubtree(dir.depts, own);
    GrantsAre(dir, own, roles);
  }

  /** The legacy AI rule on the tree: self always, and SELF opens the own departments. */
  lemma LegacyAiOnTree(dir: Directory, own: set<nat>, roles: seq<Role>, best: Kind)
    requires DeptTree.Consistent(dir.depts) && 0 !in own && !best.Unknown?
    ensures var s := LegacyAi(SeatOf(dir, own), roles, best);
      && (s.Unbounded? <==>
            best.All? || exists i :: 0 <= i < |roles| && roles[i].enabled && roles[i].code == SUPER_ROLE)
      && (s.Bounded? ==>
            && s.self
            && forall d :: d in s.depts <==>
                 match best
                 case Custom => GrantedBySome(dir, roles, d)
                 case DeptAndSub => InSubtree(dir, own, d)
                 case _ => d in own)
  {
    DeptTree.SubIdsIsSubtree(dir.depts, own);
    GrantsAre(dir, own, roles);
  }

  lemma GrantsAre(dir: Directory, own: set<nat>, roles: seq<Role>)
    ensures forall d :: d in EnabledGrants(SeatOf(dir, own), roles) <==> GrantedBySome(dir, roles, d)
  {
    var seat := SeatOf(dir, own);
    forall d ensures d in EnabledGrants(seat, roles) <==> GrantedBySome(dir, roles, d) {
      if GrantedBySome(dir, roles, d) {
        var i :| 0 <= i < |roles| && roles[i].enabled
          && roles[i].id in dir.roleDepts && d in dir.roleDepts[roles[i].id];
        assert d in seat.Granted(roles[i].id);
      }
    }
  }

  /** The users a resolved scope shows: its departments' members, and its holder when self is included. */
  lemma VisibleUsersAre(dir: Directory, user: nat, s: Scope, u: nat)
    requires Inhabited(s)
    ensures u in VisibleUsers(dir, user, s) <==>
      match s
      case Unbounded => u in dir.users
      case Bounded(depts, self) =>
        (self && u == user && u in dir.users) || exists d :: d in depts && (u, d) in dir.members
  {
    if s.Bounded? {
      if d :| d in s.depts && (u, d) in dir.members {
        assert (u, d) in dir.members && (u, d).1 in s.depts;
      }
    }
  }

  /** The fallbacks, for a scope no resolution yields: with neither departments nor self it shows the
      principal's own rows, and the principal. */
  lemma EmptyScopeFallsBack(dir: Directory, user: nat, rowDept: nat, rowCreator: nat, u: nat)
    ensures RowPasses(user, Bounded({}, false), rowDept, rowCreator) <==> rowCreator == user
    ensures u in VisibleUsers(dir, user, Bounded({}, false)) <==> u == user && u in dir.users
  {
  }

  /** The departments it shows: its own, or all of the tenant's. */
  lemma VisibleDeptsAre(dir: Directory, s: Scope, d: nat)
    ensures d in VisibleDepts(dir, s) <==> match s case Unbounded => d in dir.depts case Bounded(depts, _) => d in depts
  {
  }

  // ------------------------------------------------------------------ at most one enabled role

  lemma {:induction false} OnlyEnabledRolesCount(seat: Seat, roles: seq<Role>)
    ensures Combined(seat, roles) == Combined(seat, EnabledRoles(roles))
    ensures forall r :: r in EnabledRoles(roles) <==> r in roles && r.enabled
  {
    if roles != [] {
      var front, last := roles[..|roles| - 1], roles[|roles| - 1];
      OnlyEnabledRolesCount(seat, front);
      assert roles == front + [last];
      if last.enabled {
        assert EnabledRoles(roles)[..|EnabledRoles(roles)| - 1] == EnabledRoles(front);
      } else {
        assert EnabledRoles(roles) == EnabledRoles(front);
      }
    }
  }

  lemma SoleEnabledRole(seat: Seat, roles: seq<Role>, best: Kind, r: Role)
    requires IsBest(roles, best) && r in roles && r.enabled
    requires forall i :: 0 <= i < |roles| && roles[i].enabled ==> roles[i] == r
    ensures HasSuper(roles) <==> r.code == SUPER_ROLE
    ensures best == if r.kind.Unknown? then SelfOnly else r.kind
    ensures EnabledGrants(seat, roles) == seat.Granted(r.id)
  {
    var k :| 0 <= k < |roles| && roles[k] == r;
    assert roles[k].enabled && Priority(r.kind) <= Priority(best);
  }

  lemma NoRoleNeverExpands(seat: Seat, roles: seq<Role>, best: Kind)
    requires EnabledRoles(roles) == [] && IsBest(roles, best)
    ensures UnionScope(seat, roles) == LegacyApi(seat, roles, best)
    ensures Within(UnionScope(seat, roles), LegacyAi(seat, roles, best))
  {
    OnlyEnabledRolesCount(seat, roles);
    assert forall i :: 0 <= i < |roles| ==> roles[i] in roles && !roles[i].enabled;
    assert Combined(seat, roles) == None;
  }

  lemma SoleEnabledRoleCounts(seat: Seat, roles: seq<Role>, r: Role)
    requires EnabledRoles(roles) == [r]
    ensures r in roles && r.enabled && forall i :: 0 <= i < |roles| && roles[i].enabled ==> roles[i] == r
    ensures Combined(seat, roles) == Contribution(seat, r)
  {
    OnlyEnabledRolesCount(seat, roles);
    assert r in EnabledRoles(roles);
    assert forall i :: 0 <= i < |roles| && roles[i].enabled ==> roles[i] in EnabledRoles(roles);
    assert Combined(seat, [r][..0]) == None;
  }

  lemma OneRoleNeverExpands(seat: Seat, roles: seq<Role>, best: Kind, r: Role)
    requires EnabledRoles(roles) == [r] && IsBest(roles, best)
    ensures UnionScope(seat, roles) == LegacyApi(seat, roles, best)
    ensures Within(UnionScope(seat, roles), LegacyAi(seat, roles, best))
  {
    SoleEnabledRoleCounts(seat, roles, r);
    SoleEnabledRole(seat, roles, best, r);
  }

  /** With zero or one enabled role the union is the legacy API scope, and lies within the AI scope. */
  lemma FewRolesNeverExpand(seat: Seat, roles: seq<Role>, best: Kind)
    requires |EnabledRoles(roles)| <= 1 && IsBest(roles, best)
    ensures UnionScope(seat, roles) == LegacyApi(seat, roles, best)
    ensures Within(UnionScope(seat, roles), LegacyAi(seat, roles, best))
  {
    if EnabledRoles(roles) == [] {
      NoRoleNeverExpands(seat, roles, best);
    } else {
      OneRoleNeverExpands(seat, roles, best, EnabledRoles(roles)[0]);
    }
  }

  // ------------------------------------------------------------------ the legacy scope against the union

  lemma BestFromKinds(roles: seq<Role>, best: Kind)
    requires IsBest(roles, best)
    ensures best.All? <==> All in Kinds(roles)
    ensures !best.SelfOnly? ==> best in Kinds(roles)
    ensures forall k :: k in Kinds(roles) ==> Priority(k) <= Priority(best)
  {
  }

  lemma CustomGrantsAreEnabled(seat: Seat, roles: seq<Role>)
    ensures GrantedToAny(seat, CustomRoles(roles)) <= EnabledGrants(seat, roles)
  {
  }

  /** The legacy API scope lies within the union exactly when the principal's best kind is not CUSTOM,
      or it is R_SUPER, or no role of another kind holds department grants of its own. */
  lemma LegacyApiWithinUnion(seat: Seat, roles: seq<Role>, best: Kind)
    requires IsBest(roles, best)
    ensures Within(LegacyApi(seat, roles, best), UnionScope(seat, roles))
      <==> !best.Custom? || HasSuper(roles)
           || EnabledGrants(seat, roles) <= GrantedToAny(seat, CustomRoles(roles))
  {
    CombinedIsByKind(seat, roles);
    BestFromKinds(roles, best);
    CustomGrantsAreEnabled(seat, roles);
    if best.Custom? && !HasSuper(roles) {
      var c :| c in CustomRoles(roles);
      assert OwnDept !in Kinds(roles) by { assert Priority(OwnDept) > Priority(best); }
      assert DeptAndSub !in Kinds(roles) by { assert Priority(DeptAndSub) > Priority(best); }
      assert DeptsByKind(seat, Kinds(roles), CustomRoles(roles)) == GrantedToAny(seat, CustomRoles(roles));
      if EnabledGrants(seat, roles) == {} {
        assert seat.Granted(c) == {} by {
          var i :| 0 <= i < |roles| && roles[i].enabled && roles[i].kind.Custom? && roles[i].id == c;
          assert forall d :: d in seat.Granted(c) ==> d in EnabledGrants(seat, roles);
        }
      }
    }
  }

  /** When only CUSTOM roles hold department grants, the upgrade takes nothing away from anyone. */
  lemma NothingIsLost(dir: Directory, user: User, best: Kind)
    requires IsBest(user.roles, best)
    requires forall i :: 0 <= i < |user.roles| ==>
      (user.roles[i].enabled && !user.roles[i].kind.Custom? ==> SeatOf(dir, user.depts).Granted(user.roles[i].id) == {})
    ensures var seat := SeatOf(dir, user.depts);
      Contained(dir, user.id, LegacyApi(seat, user.roles, best), UnionScope(seat, user.roles))
  {
    var seat, roles := SeatOf(dir, user.depts), user.roles;
    forall d | d in EnabledGrants(seat, roles) ensures d in GrantedToAny(seat, CustomRoles(roles)) {
      var i :| 0 <= i < |roles| && roles[i].enabled && d in seat.Granted(roles[i].id);
      assert roles[i].id in CustomRoles(roles);
    }
    LegacyApiWithinUnion(seat, roles, best);
    WithinIsContained(dir, user.id, LegacyApi(seat, roles, best), UnionScope(seat, roles));
  }

  /** Without that condition something can be lost: a SELF role's leftover grant counted before. */
  lemma SomethingCanBeLost() returns (seat: Seat, roles: seq<Role>)
    ensures IsBest(roles, Custom)
    ensures !Within(LegacyApi(seat, roles, Custom), UnionScope(seat, roles))
  {
    seat := Seat({}, {}, map[1 := {10}, 2 := {20}]);
    roles := [Role(1, 0, "a", true, Custom), Role(2, 0, "b", true, SelfOnly)];
    assert roles[0].kind == Custom;
    assert 2 !in CustomRoles(roles);
    assert 20 in EnabledGrants(seat, roles) by { assert roles[1].enabled && 20 in seat.Granted(roles[1].id); }
    assert 20 !in GrantedToAny(seat, CustomRoles(roles));
    assert !HasSuper(roles);
    LegacyApiWithinUnion(seat, roles, Custom);
  }

  // ------------------------------------------------------------------ the report

  /** Does the union show this user something one of the legacy rules did not? */
  ghost predicate Expands(dir: Directory, user: User, best: Kind) {
    var seat := SeatOf(dir, user.depts);
    var now := UnionScope(seat, user.roles);
    !Contained(dir, user.id, now, LegacyApi(seat, user.roles, best))
    || !Contained(dir, user.id, now, LegacyAi(seat, user.roles, best))
  }

  ghost predicate SomeExpansion(dir: Directory, user: User) {
    exists best :: IsBest(user.roles, best) && Expands(dir, user, best)
  }

  ghost function Expansions(dir: Directory, users: seq<User>): nat {
    if users == [] then 0
    else Expansions(dir, users[..|users| - 1]) + if SomeExpansion(dir, users[|users| - 1]) then 1 else 0
  }

  lemma FilteredUserNeverExpands(dir: Directory, user: User)
    requires |EnabledRoles(user.roles)| < 2
    ensures !SomeExpansion(dir, user)
  {
    var seat := SeatOf(dir, user.depts);
    forall best | IsBest(user.roles, best) ensures !Expands(dir, user, best) {
      FewRolesNeverExpand(seat, user.roles, best);
      UnionIsInhabited(seat, user.roles);
      WithinIsContained(dir, user.id, UnionScope(seat, user.roles), LegacyApi(seat, user.roles, best));
      WithinIsContained(dir, user.id, UnionScope(seat, user.roles), LegacyAi(seat, user.roles, best));
    }
  }

  datatype Line = Line(user: nat, apiDepts: set<nat>, apiUsers: set<nat>, aiDepts: set<nat>, aiUsers: set<nat>)

  /** What the union adds, department by department and user by user, given the user's best kind. */
  function LineFor(dir: Directory, user: User, best: Kind): (line: Line) {
    var seat := SeatOf(dir, user.depts);
    var api, ai := LegacyApi(seat, user.roles, best), LegacyAi(seat, user.roles, best);
    var now := UnionScope(seat, user.roles);
    Line(user.id,
      VisibleDepts(dir, now) - VisibleDepts(dir, api),
      VisibleUsers(dir, user.id, now) - VisibleUsers(dir, user.id, api),
      VisibleDepts(dir, now) - VisibleDepts(dir, ai),
      VisibleUsers(dir, user.id, now) - VisibleUsers(dir, user.id, ai))
  }

  ghost predicate Describes(dir: Directory, user: User, line: Line) {
    forall best :: IsBest(user.roles, best) ==> line == LineFor(dir, user, best)
  }

  /** The users a report looks at. */
  function Examined(users: seq<User>): (r: seq<User>) {
    if users == [] then []
    else
      var last := users[|users| - 1];
      Examined(users[..|users| - 1]) + if |EnabledRoles(last.roles)| >= 2 then [last] else []
  }

  lemma {:induction false} ExpandersAreExamined(dir: Directory, users: seq<User>, user: User)
    requires user in users && SomeExpansion(dir, user)
    ensures user in Examined(users)
  {
    var n := |users| - 1;
    if user == users[n] {
      if |EnabledRoles(user.roles)| < 2 { FilteredUserNeverExpands(dir, user); }
    } else {
      ExpandersAreExamined(dir, users[..n], user);
    }
  }

  lemma NothingAdded(now: set<nat>, before: set<nat>)
    ensures now - before == {} <==> now <= before
  {
    if now - before == {} { assert forall x :: x in now ==> x in before || x in now - before; }
  }

  lemma LineShowsExpansion(dir: Directory, user: User, best: Kind)
    requires IsBest(user.roles, best)
    ensures var line := LineFor(dir, user, best);
      SomeExpansion(dir, user) <==> line.apiDepts + line.apiUsers + line.aiDepts + line.aiUsers != {}
  {
    var seat := SeatOf(dir, user.depts);
    var api, ai := LegacyApi(seat, user.roles, best), LegacyAi(seat, user.roles, best);
    var now := UnionScope(seat, user.roles);
    NothingAdded(VisibleDepts(dir, now), VisibleDepts(dir, api));
    NothingAdded(VisibleUsers(dir, user.id, now), VisibleUsers(dir, user.id, api));
    NothingAdded(VisibleDepts(dir, now), VisibleDepts(dir, ai));
    NothingAdded(VisibleUsers(dir, user.id, now), VisibleUsers(dir, user.id, ai));
    forall b | IsBest(user.roles, b) ensures b == best { BestIsUnique(user.roles, b, best); }
  }

  /** One principal's entry: the departments and users the union adds over each legacy rule. */
  method Compare(dir: Directory, user: User) returns (line: Line, expanded: bool)
    ensures Describes(dir, user, line)
    ensures expanded <==> SomeExpansion(dir, user)
  {
    var best := GetBestScope(user.roles);
    line := LineFor(dir, user, best);
    expanded := line.apiDepts != {} || line.apiUsers != {} || line.aiDepts != {} || line.aiUsers != {};
    LineShowsExpansion(dir, user, best);
    forall b | IsBest(user.roles, b) ensures b == best { BestIsUnique(user.roles, b, best); }
  }

  /** build_scope_union_report: only users with two or more enabled roles are examined, one line each in
      order, and the count is nevertheless the number of all users whose view grows. */
  method BuildReport(dir: Directory, users: seq<User>) returns (expansions: nat, lines: seq<Line>)
    ensures expansions == Expansions(dir, users)
    ensures |lines| == |Examined(users)|
    ensures forall k :: 0 <= k < |lines| ==> Describes(dir, Examined(users)[k], lines[k])
    ensures forall u :: u in users && SomeExpansion(dir, u) ==> u in Examined(users)
  {
    expansions, lines := 0, [];
    for n := 0 to |users|
      invariant expansions == Expansions(dir, users[..n])
      invariant |lines| == |Examined(users[..n])|
      invariant forall k :: 0 <= k < |lines| ==> Describes(dir, Examined(users[..n])[k], lines[k])
    {
      assert users[..n + 1][..n] == users[..n];
      if |EnabledRoles(users[n].roles)| >= 2 {
        var line, expanded := Compare(dir, users[n]);
        lines := lines + [line];
        expansions := expansions + if expanded then 1 else 0;
      } else {
        FilteredUserNeverExpands(dir, users[n]);
      }
    }
    assert users[..|users|] == users;
    forall u | u in users && SomeExpansion(dir, u) ensures u in Examined(users) {
      ExpandersAreExamined(dir, users, u);
    }
  }
}
