/** The sweep over prepared AI actions, interleaved with approvals, claims and completions. A sweep works
    from a stale list of candidates; every write it makes is a compare-and-set under row locks. */
module ActionSweep {
  import opened Options

  datatype Status = Prepared | Pending | Approved | Running | Succeeded | Failed | Rejected | Expired

  predicate Terminal(s: Status) { s.Succeeded? || s.Failed? || s.Rejected? || s.Expired? }

  /** The legal transitions. */
  predicate Legal(from: Status, to: Status) {
    match from
    case Prepared => to.Pending? || to.Expired?
    case Pending => to.Approved? || to.Rejected? || to.Expired?
    case Approved => to.Running? || to.Failed?
    case Running => to.Succeeded? || to.Failed?
    case _ => false
  }

  function Rank(s: Status): (r: nat) {
    match s
    case Prepared => 0
    case Pending => 1
    case Approved => 2
    case Running => 3
    case _ => 4
  }

  /** Who executes: nobody, a plain executor, or one bearing the completion protocol's marker; `proof`
      says the marker is a well-formed database owner. */
  datatype Owner = Nobody | Plain(name: nat) | Protocol(proof: bool, name: nat)

  datatype Code = NoCode | HitlExpired | SourceStale | Interrupted | Other(code: nat)

  /** `readTool`: the tool is registered read-only and bound to no database or file protocol. */
  datatype Action = Action(
    status: Status, version: nat, expires: int, lease: Option<int>, owner: Owner,
    readTool: bool, call: nat, user: nat, error: Code)

  datatype LogStatus = LRunning | LPending | LSuccess | LFailed | LRejected | LExpired

  predicate LogTerminal(s: LogStatus) { !s.LRunning? && !s.LPending? }

  /** An operation log; `annotated` marks it as held for reconciliation. */
  datatype Log = Log(status: LogStatus, user: nat, snapshot: bool, annotated: bool, error: Code)

  /** Actions by id, operation logs by tool call. */
  datatype Store = Store(actions: map<nat, Action>, logs: map<nat, Log>)

  predicate ReadOnly(a: Action) { a.readTool && !a.owner.Protocol? }

  predicate LeaseOver(a: Action, now: int) { a.lease.None? || a.lease.value <= now }

  predicate Annotated(s: Store, call: nat) { call in s.logs && s.logs[call].annotated }

  // ------------------------------------------------------------------ compare and set

  /** The arguments of one status transition. */
  datatype Change = Change(
    id: nat, expected: Status, version: nat, target: Status, error: Code, owner: Owner, lease: Option<int>,
    expectedOwner: Option<Owner>, retain: bool, cutoff: Option<int>)

  /** The refusals before any row is looked at. */
  predicate Raises(c: Change) {
    || !Legal(c.expected, c.target)
    || (c.retain && !(c.expectedOwner.Some? && c.expectedOwner.value.Protocol? && c.expectedOwner.value.proof
                      && c.expected.Running? && c.target.Failed?))
    || (!c.retain && c.expectedOwner.Some? && c.expectedOwner.value.Protocol? && c.target.Failed?)
    || (c.target.Running? && (c.owner.Nobody? || c.lease.None?))
  }

  /** The row the update finds. */
  predicate Hits(s: Store, c: Change) {
    && c.id in s.actions && !Annotated(s, s.actions[c.id].call)
    && s.actions[c.id].status == c.expected && s.actions[c.id].version == c.version
    && (if c.expectedOwner.Some? then s.actions[c.id].owner == c.expectedOwner.value
        else c.expected.Running? ==> !s.actions[c.id].owner.Protocol?)
    && (c.cutoff.Some? ==> LeaseOver(s.actions[c.id], c.cutoff.value))
  }

  function Changed(a: Action, c: Change): (b: Action) {
    var b := a.(status := c.target, version := c.version + 1);
    if Terminal(c.target) then
      var owner := if c.retain && c.expectedOwner.Some? then c.expectedOwner.value else Nobody;
      b.(error := c.error, lease := None, owner := owner)
    else if c.target.Running? then b.(owner := c.owner, lease := c.lease)
    else b
  }

  /** transition_status: zero rows means another winner. */
  function Transition(s: Store, c: Change): (t: Store) {
    if !Raises(c) && Hits(s, c) then s.(actions := s.actions[c.id := Changed(s.actions[c.id], c)]) else s
  }

  /** The same transitions, target by target. */
  lemma LegalByTarget(from: Status, to: Status)
    ensures Legal(from, to) <==>
      match to
      case Prepared => false
      case Pending => from.Prepared?
      case Approved => from.Pending?
      case Rejected => from.Pending?
      case Expired => from.Prepared? || from.Pending?
      case Running => from.Approved?
      case Failed => from.Approved? || from.Running?
      case Succeeded => from.Running?
  {
  }

  /** Who may end an execution: without naming an owner only a plain one's, with the owner named also a
      protocol owner's success, or its failure when a well-formed claim is kept on record; and with a cutoff
      only if the lease, if any, ran out by then. */
  lemma EndsOfExecution(s: Store, c: Change)
    requires c.expected.Running? && Legal(c.expected, c.target)
    requires c.id in s.actions && s.actions[c.id].status.Running? && s.actions[c.id].version == c.version
    requires s.actions[c.id].call in s.logs ==> !s.logs[s.actions[c.id].call].annotated
    ensures var owner, lease := s.actions[c.id].owner, s.actions[c.id].lease;
      Transition(s, c) != s <==>
        (c.cutoff.Some? && lease.Some? ==> lease.value <= c.cutoff.value) &&
        if c.expectedOwner.None? then !owner.Protocol? && !c.retain
        else
          && c.expectedOwner.value == owner
          && if c.retain then owner.Protocol? && owner.proof && c.target.Failed?
             else !owner.Protocol? || c.target.Succeeded?
    ensures var t := Transition(s, c);
      t != s ==> t == s.(actions := s.actions[c.id := s.actions[c.id].(
        status := c.target, version := c.version + 1, error := c.error, lease := None,
        owner := if c.retain then s.actions[c.id].owner else Nobody)])
  {
    assert Changed(s.actions[c.id], c).version != s.actions[c.id].version;
  }

  /** A claim on an approved action, with an owner and a lease, makes it running under both; the lease of a
      claim limits who may end it only through a cutoff. */
  lemma ClaimStartsExecution(s: Store, c: Change)
    requires c.expected.Approved? && c.target.Running? && !c.owner.Nobody? && c.lease.Some?
    requires c.expectedOwner.None? && !c.retain && c.cutoff.None?
    requires c.id in s.actions && s.actions[c.id].status.Approved? && s.actions[c.id].version == c.version
    requires s.actions[c.id].call in s.logs ==> !s.logs[s.actions[c.id].call].annotated
    ensures var a := s.actions[c.id];
      Transition(s, c) == s.(actions := s.actions[c.id :=
        a.(status := Running, version := a.version + 1, owner := c.owner, lease := c.lease)])
  {
  }

  // ------------------------------------------------------------------ one visit of the sweep

  /** What the sweep holds of one candidate: its snapshot and whether its source was found valid. */
  datatype Candidate = Candidate(row: Action, valid: bool)

  /** Clock readings taken inside the transaction, in order: lease, expiry, error code, cutoff. */
  datatype Times = Times(lease: int, expiry: int, code: int, cutoff: int)

  predicate InOrder(from: int, n: Times, to: int) {
    from <= n.lease <= n.expiry <= n.code <= n.cutoff <= to
  }

  /** Candidates the scan selects. */
  predicate Selected(periodic: bool, a: Action, now: int) {
    if periodic then (a.status.Pending? && a.expires <= now) || a.status.Running?
    else a.status.Pending? || a.status.Approved? || a.status.Running?
  }

  /** A candidate the sweep does not take into a cleanup transaction. */
  predicate Spared(c: Candidate, now: int) {
    || (c.row.status.Running? && !ReadOnly(c.row))
    || (c.row.status.Pending? && c.row.expires > now && c.valid)
  }

  /** The transition a cleanup transaction asks for on the row it has locked; None is `continue`. */
  function Target(periodic: bool, c: Candidate, id: nat, current: Action, n: Times): (r: Option<Change>) {
    var over := ReadOnly(current) && LeaseOver(current, n.lease);
    var ask := (target, error, cutoff) =>
      Some(Change(id, current.status, current.version, target, error, Nobody, None, None, false, cutoff));
    var expired := current.status.Pending? && current.expires <= n.expiry;
    if periodic && !expired && !(current.status.Running? && over) then None
    else
      match current.status
      case Pending =>
        ask(Expired, if c.row.expires > n.code && !c.valid then SourceStale else HitlExpired, None)
      case Approved => if ReadOnly(current) then ask(Failed, Interrupted, None) else None
      case Running => if over then ask(Failed, Interrupted, Some(n.cutoff)) else None
      case _ => None
  }

  datatype Outcome = Skip | Commit(store: Store) | Abort

  /** The action's operation log after the action went terminal: None is a raise. */
  function CloseLog(s: Store, a: Action, error: Code): (r: Option<map<nat, Log>>) {
    if a.call !in s.logs then Some(s.logs)
    else
      var log := s.logs[a.call];
      if log.user != a.user then None
      else if log.status.LPending? then Some(s.logs[a.call := log.(status := LExpired, error := error)])
      else if log.status.LRunning? then
        // a prepared write's log closes only with its completion
        if log.snapshot then Some(s.logs[a.call := log.(status := LFailed, error := error)]) else None
      else Some(s.logs)
  }

  /** The cleanup transaction on one candidate whose context it could lock. */
  function Visit(periodic: bool, c: Candidate, id: nat, s: Store, n: Times): (r: Outcome) {
    if id !in s.actions then Skip
    else
      var change := Target(periodic, c, id, s.actions[id], n);
      if change.None? || !Hits(s, change.value) then Skip
      else
        var t := Transition(s, change.value);
        match CloseLog(t, t.actions[id], change.value.error)
        case None => Abort
        case Some(logs) => Commit(t.(logs := logs))
  }

  /** What a cleanup transaction may change: one action, from where, on what grounds. */
  ghost predicate Allowed(periodic: bool, a: Action, now: int) {
    match a.status
    case Pending => periodic ==> a.expires <= now
    case Approved => !periodic && ReadOnly(a)
    case Running => ReadOnly(a) && LeaseOver(a, now)
    case _ => false
  }

  ghost predicate OnlyRow(s: Store, t: Store, id: nat) {
    && id in s.actions && t.actions.Keys == s.actions.Keys
    && (forall i :: i in s.actions && i != id ==> t.actions[i] == s.actions[i])
    && t.logs.Keys == s.logs.Keys && (forall k :: k in s.logs && k != s.actions[id].call ==> t.logs[k] == s.logs[k])
  }

  /** A committed visit closes one action and its operation log together, and touches nothing else. */
  lemma VisitClosesBoth(periodic: bool, c: Candidate, id: nat, s: Store, n: Times)
    requires Visit(periodic, c, id, s, n).Commit? && n.lease <= n.expiry <= n.code <= n.cutoff
    ensures var t := Visit(periodic, c, id, s, n).store;
      && OnlyRow(s, t, id) && Allowed(periodic, s.actions[id], n.cutoff)
      && t.actions[id].status == (if s.actions[id].status.Pending? then Expired else Failed)
      && t.actions[id].version == s.actions[id].version + 1 && t.actions[id].call == s.actions[id].call
      && (s.actions[id].call in t.logs ==>
            ClosedAs(s.logs[s.actions[id].call], t.logs[s.actions[id].call], t.actions[id].error))
  {
  }

  /** A pending log expires and a running one fails, with the action's error; a terminal one stays as it is. */
  predicate ClosedAs(before: Log, after: Log, error: Code) {
    match before.status
    case LPending => after == before.(status := LExpired, error := error)
    case LRunning => after == before.(status := LFailed, error := error)
    case _ => after == before
  }

  /** A write's log while it runs: only the write's own completion may close it. */
  predicate Held(log: Log) { log.status.LRunning? && !log.snapshot }

  /** Closing the action would raise: its log is another user's, or a write's that still runs. */
  predicate Blocked(s: Store, a: Action) {
    a.call in s.logs && (s.logs[a.call].user != a.user || Held(s.logs[a.call]))
  }

  /** A visit aborts, and with it the rest of the sweep, exactly when it would close a blocked action. */
  lemma AbortIsExact(periodic: bool, c: Candidate, id: nat, s: Store, n: Times)
    ensures Visit(periodic, c, id, s, n).Abort? <==>
      && id in s.actions && Target(periodic, c, id, s.actions[id], n).Some?
      && Hits(s, Target(periodic, c, id, s.actions[id], n).value)
      && Blocked(s, s.actions[id])
  {
  }

  // ------------------------------------------------------------------ runs

  /** A sweep between two of its steps. `todo`: candidates not yet checked or not yet visited; `closed` and
      `reconciled`: the actions that `cleaned` has counted, because it closed them or because reconciling
      a protocol claim changed them. */
  datatype Sweep = Sweep(
    periodic: bool, candidates: map<nat, Action>, valid: map<nat, bool>,
    closed: set<nat>, reconciled: set<nat>, cleaned: nat, phase: Phase)

  datatype Phase = Checking(todo: set<nat>) | Visiting(todo: set<nat>) | Locking(todo: set<nat>, id: nat) | Aborted

  datatype State = State(now: int, store: Store, sweeps: map<nat, Sweep>)

  datatype Event =
    | Create(id: nat, action: Action)
    | Transit(change: Change)           // anybody's transition_status
    | Renew(id: nat, owner: Owner, until: int)
    | Scan(periodic: bool)
    | Check(id: nat, verdict: bool)
    | Checked
    | Choose(id: nat, changed: bool)
    | Transact(found: bool, times: Times)
    | Stop

  predicate ValidAt(sw: Sweep, id: nat) { id in sw.valid && sw.valid[id] }

  /** Other transactions may open logs and move them on; a terminal log stays as it is. */
  ghost predicate LogsMove(a: map<nat, Log>, b: map<nat, Log>) {
    forall k :: k in a ==>
      && k in b && b[k].user == a[k].user && b[k].snapshot == a[k].snapshot
      && (LogTerminal(a[k].status) ==> b[k].status == a[k].status)
  }

  /** One step by somebody else: rows are created, transitioned by compare-and-set, or leased anew. */
  ghost predicate Elsewhere(s: Store, t: Store, e: Event) {
    && LogsMove(s.logs, t.logs)
    && match e
       case Create(id, a) =>
         id !in s.actions && (a.status.Prepared? || a.status.Pending?) && t.actions == s.actions[id := a]
       case Transit(c) => t.actions == Transition(s, c).actions
       case Renew(id, owner, until) =>
         && id in s.actions && s.actions[id].status.Running? && s.actions[id].owner == owner
         && t.actions == s.actions[id := s.actions[id].(lease := Some(until))]
       case _ => false
  }

  function Scanned(s: State, periodic: bool): (sw: Sweep) {
    var rows := s.store.actions;
    var picked := map id | id in rows && Selected(periodic, rows[id], s.now) :: rows[id];
    Sweep(periodic, picked, map[], {}, {}, 0, Checking(picked.Keys))
  }

  /** The validity check reads the source only of candidates that are pending and unexpired. */
  function CheckedOne(sw: Sweep, id: nat, verdict: bool, now: int): (r: Sweep)
    requires sw.phase.Checking? && id in sw.candidates
  {
    var asked := sw.candidates[id].status.Pending? && sw.candidates[id].expires > now;
    sw.(phase := Checking(sw.phase.todo - {id}), valid := if asked then sw.valid[id := verdict] else sw.valid)
  }

  /** A running action whose owner bears a well-formed database claim is reconciled instead of cleaned. */
  predicate Claimed(a: Action) { a.status.Running? && a.owner.Protocol? && a.owner.proof }

  /** `changed`: what reconciling a claim, another transaction, reports. */
  function Chosen(sw: Sweep, id: nat, now: int, changed: bool): (r: Sweep)
    requires sw.phase.Visiting? && id in sw.candidates
  {
    var todo := sw.phase.todo - {id};
    var counted :=
      if Claimed(sw.candidates[id]) && changed then sw.(reconciled := sw.reconciled + {id}, cleaned := sw.cleaned + 1)
      else sw;
    var spared := Spared(Candidate(sw.candidates[id], ValidAt(sw, id)), now);
    counted.(phase := if spared then Visiting(todo) else Locking(todo, id))
  }

  function VisitOf(sw: Sweep, s: Store, found: bool, n: Times): (r: Outcome)
    requires sw.phase.Locking? && sw.phase.id in sw.candidates
  {
    var id := sw.phase.id;
    if found then Visit(sw.periodic, Candidate(sw.candidates[id], ValidAt(sw, id)), id, s, n) else Skip
  }

  function Visited(sw: Sweep, outcome: Outcome): (r: Sweep)
    requires sw.phase.Locking?
  {
    match outcome
    case Abort => sw.(phase := Aborted)
    case Skip => sw.(phase := Visiting(sw.phase.todo))
    case Commit(_) =>
      sw.(phase := Visiting(sw.phase.todo), closed := sw.closed + {sw.phase.id}, cleaned := sw.cleaned + 1)
  }

  predicate At(s: State, p: nat, id: nat) { p in s.sweeps && id in s.sweeps[p].candidates }

  /** One step of sweep `p`. */
  ghost predicate SweepStep(s: State, t: State, p: nat, e: Event) {
    match e
    case Scan(periodic) =>
      p !in s.sweeps && t.store == s.store && t.sweeps == s.sweeps[p := Scanned(s, periodic)]
    case Check(id, verdict) =>
      && At(s, p, id) && s.sweeps[p].phase.Checking? && id in s.sweeps[p].phase.todo
      && t.store == s.store && t.sweeps == s.sweeps[p := CheckedOne(s.sweeps[p], id, verdict, s.now)]
    case Checked =>
      && p in s.sweeps && s.sweeps[p].phase == Checking({})
      && t.store == s.store && t.sweeps == s.sweeps[p := s.sweeps[p].(phase := Visiting(s.sweeps[p].candidates.Keys))]
    case Choose(id, changed) =>
      && At(s, p, id) && s.sweeps[p].phase.Visiting? && id in s.sweeps[p].phase.todo
      && t.store == s.store && t.sweeps == s.sweeps[p := Chosen(s.sweeps[p], id, s.now, changed)]
    case Transact(found, n) =>
      && p in s.sweeps && s.sweeps[p].phase.Locking? && s.sweeps[p].phase.id in s.sweeps[p].candidates
      && InOrder(s.now, n, t.now)
      && var outcome := VisitOf(s.sweeps[p], s.store, found, n);
         && t.store == (if outcome.Commit? then outcome.store else s.store)
         && t.sweeps == s.sweeps[p := Visited(s.sweeps[p], outcome)]
    case Stop =>
      p in s.sweeps && t.store == s.store && t.sweeps == s.sweeps[p := s.sweeps[p].(phase := Aborted)]
    case _ => false
  }

  ghost predicate Next(s: State, t: State, p: nat, e: Event) {
    && s.now <= t.now
    && (SweepStep(s, t, p, e) || (t.sweeps == s.sweeps && Elsewhere(s.store, t.store, e)))
  }

  ghost predicate Linked(s: State, t: State) { exists p, e :: Next(s, t, p, e) }

  ghost predicate Run(run: seq<State>) {
    && |run| > 0 && run[0].sweeps == map[]
    && forall i :: 0 <= i < |run| - 1 ==> Linked(run[i], run[i + 1])
  }

  /** How a row may differ from an earlier reading of it. */
  ghost predicate Later(a: Action, b: Action) {
    && b.expires == a.expires && b.call == a.call && b.user == a.user && b.readTool == a.readTool
    && b.version >= a.version && Rank(b.status) >= Rank(a.status)
    && (b.version == a.version ==> b.status == a.status)
    && (b.status == a.status ==> b.version == a.version)
    && (Terminal(a.status) ==> b == a)
  }

  ghost predicate RowsLater(s: Store, t: Store) {
    forall i :: i in s.actions ==> i in t.actions && Later(s.actions[i], t.actions[i])
  }

  /** Any transition moves a row forward, under the next version. */
  lemma TransitionMovesForward(s: Store, c: Change)
    ensures RowsLater(s, Transition(s, c))
  {
  }

  lemma ElsewhereMovesForward(s: Store, t: Store, e: Event)
    requires Elsewhere(s, t, e)
    ensures RowsLater(s, t)
  {
    if e.Transit? { TransitionMovesForward(s, e.change); }
  }

  lemma ClosingMovesLogs(s: Store, a: Action, error: Code)
    requires CloseLog(s, a, error).Some?
    ensures LogsMove(s.logs, CloseLog(s, a, error).value)
  {
  }

  lemma VisitMovesForward(periodic: bool, c: Candidate, id: nat, s: Store, n: Times)
    requires Visit(periodic, c, id, s, n).Commit?
    ensures var t := Visit(periodic, c, id, s, n).store; RowsLater(s, t) && LogsMove(s.logs, t.logs)
  {
    var change := Target(periodic, c, id, s.actions[id], n).value;
    TransitionMovesForward(s, change);
    var t := Transition(s, change);
    assert t.logs == s.logs;
    ClosingMovesLogs(t, t.actions[id], change.error);
  }

  lemma NextMovesForward(s: State, t: State, p: nat, e: Event)
    requires Next(s, t, p, e)
    ensures RowsLater(s.store, t.store) && LogsMove(s.store.logs, t.store.logs)
  {
    if SweepStep(s, t, p, e) {
      if e.Transact? && VisitOf(s.sweeps[p], s.store, e.found, e.times).Commit? {
        var sw := s.sweeps[p];
        var id := sw.phase.id;
        VisitMovesForward(sw.periodic, Candidate(sw.candidates[id], ValidAt(sw, id)), id, s.store, e.times);
      }
    } else {
      ElsewhereMovesForward(s.store, t.store, e);
    }
  }

  lemma LaterTransitive(a: Action, b: Action, c: Action)
    requires Later(a, b) && Later(b, c)
    ensures Later(a, c)
  {
  }

  lemma RowsLaterTransitive(a: Store, b: Store, c: Store)
    requires RowsLater(a, b) && RowsLater(b, c)
    ensures RowsLater(a, c)
  {
    forall i | i in a.actions ensures i in c.actions && Later(a.actions[i], c.actions[i]) {
      LaterTransitive(a.actions[i], b.actions[i], c.actions[i]);
    }
  }

  lemma LogsMoveTransitive(a: map<nat, Log>, b: map<nat, Log>, c: map<nat, Log>)
    requires LogsMove(a, b) && LogsMove(b, c)
    ensures LogsMove(a, c)
  {
  }

  ghost predicate Moved(s: State, t: State) {
    RowsLater(s.store, t.store) && LogsMove(s.store.logs, t.store.logs) && s.now <= t.now
  }

  lemma MovedTransitive(s: State, t: State, u: State)
    requires Moved(s, t) && Moved(t, u)
    ensures Moved(s, u)
  {
    RowsLaterTransitive(s.store, t.store, u.store);
    LogsMoveTransitive(s.store.logs, t.store.logs, u.store.logs);
  }

  lemma StepMovesForward(run: seq<State>, j: nat)
    requires Run(run) && 0 < j < |run|
    ensures Moved(run[j - 1], run[j])
  {
    assert Linked(run[j - 1], run[j - 1 + 1]);
    var p, e :| Next(run[j - 1], run[j], p, e);
    NextMovesForward(run[j - 1], run[j], p, e);
  }

  /** Over every run rows only move forward: terminal rows and terminal logs never change again, and a
      status is never revisited. */
  lemma {:induction false} HistoryMovesForward(run: seq<State>, i: nat, j: nat)
    requires Run(run) && i <= j < |run|
    ensures Moved(run[i], run[j])
    decreases j
  {
    if i < j {
      HistoryMovesForward(run, i, j - 1);
      StepMovesForward(run, j);
      MovedTransitive(run[i], run[j - 1], run[j]);
    }
  }

  /** Of two transitions anywhere in a run that expect the same version of a row, one wins. */
  lemma OneWinnerPerVersion(run: seq<State>, i: nat, j: nat, c: Change, d: Change)
    requires Run(run) && i < j < |run| && c.id == d.id && c.version == d.version
    requires !Raises(c) && Hits(run[i].store, c) && run[i + 1].store.actions == Transition(run[i].store, c).actions
    ensures !Hits(run[j].store, d)
  {
    HistoryMovesForward(run, i + 1, j);
  }

  // ------------------------------------------------------------------ what a sweep may do

  ghost predicate ReadingsHold(s: State, sw: Sweep) {
    forall i :: i in sw.candidates ==>
      !sw.candidates[i].status.Prepared? && i in s.store.actions && Later(sw.candidates[i], s.store.actions[i])
  }

  /** A candidate found pending is taken on only once expired, or without a valid source. */
  ghost predicate MaySweep(s: State, sw: Sweep) {
    sw.phase.Locking? ==>
      && sw.phase.id in sw.candidates && sw.phase.id !in sw.phase.todo
      && (sw.candidates[sw.phase.id].status.Pending? ==>
            sw.candidates[sw.phase.id].expires <= s.now || FoundInvalid(sw, sw.phase.id))
  }

  /** The source of a candidate was looked up and not found valid. */
  predicate FoundInvalid(sw: Sweep, id: nat) { id in sw.valid && !sw.valid[id] }

  predicate PastCheck(sw: Sweep, id: nat) {
    !sw.phase.Aborted? && (sw.phase.Checking? ==> id !in sw.phase.todo)
  }

  /** Before any visit the source of every pending candidate has been looked up, unless it expired. */
  ghost predicate Asked(s: State, sw: Sweep) {
    forall i :: i in sw.candidates && sw.candidates[i].status.Pending? && PastCheck(sw, i) ==>
      i in sw.valid || sw.candidates[i].expires <= s.now
  }

  ghost predicate ReconciledOk(sw: Sweep) {
    && (forall i :: i in sw.reconciled ==> i in sw.candidates && Claimed(sw.candidates[i]))
    && (sw.phase.Checking? ==> sw.reconciled == {})
    && (sw.phase.Visiting? || sw.phase.Locking? ==> sw.reconciled !! sw.phase.todo)
  }

  /** What the sweep closed is terminal, what it reconciled will not be visited again, and it counted both. */
  ghost predicate CountOk(s: State, sw: Sweep) {
    && sw.cleaned == |sw.closed| + |sw.reconciled| && ReconciledOk(sw)
    && (forall i :: i in sw.closed ==> i in s.store.actions && Terminal(s.store.actions[i].status))
    && (sw.phase.Checking? ==> sw.closed == {})
  }

  /** What a sweep still knows of its candidates, however stale. */
  ghost predicate SweepOk(s: State, sw: Sweep) {
    ReadingsHold(s, sw) && Asked(s, sw) && MaySweep(s, sw) && CountOk(s, sw)
  }

  ghost predicate AllOk(s: State) { forall p :: p in s.sweeps ==> SweepOk(s, s.sweeps[p]) }

  /** No action is counted by two sweeps. */
  ghost predicate Disjoint(s: State) {
    forall p, q :: p in s.sweeps && q in s.sweeps && p != q ==> s.sweeps[p].closed !! s.sweeps[q].closed
  }

  ghost predicate Inv(s: State) { AllOk(s) && Disjoint(s) }

  lemma KnowledgeSurvives(s: State, t: State, sw: Sweep)
    requires SweepOk(s, sw) && RowsLater(s.store, t.store) && s.now <= t.now
    ensures SweepOk(t, sw)
  {
    forall i | i in sw.candidates ensures i in t.store.actions && Later(sw.candidates[i], t.store.actions[i]) {
      LaterTransitive(sw.candidates[i], s.store.actions[i], t.store.actions[i]);
    }
  }

  /** The action a committed visit counts was open before it and is terminal after it. */
  lemma CommitCloses(s: State, t: State, p: nat, found: bool, n: Times)
    requires SweepStep(s, t, p, Transact(found, n)) && VisitOf(s.sweeps[p], s.store, found, n).Commit?
    ensures var id := s.sweeps[p].phase.id;
      NotYetClosed(s, id) && id in t.store.actions && Terminal(t.store.actions[id].status)
  {
    var sw := s.sweeps[p];
    var id := sw.phase.id;
    VisitClosesBoth(sw.periodic, Candidate(sw.candidates[id], ValidAt(sw, id)), id, s.store, n);
  }

  lemma VisitCounts(s: State, t: State, p: nat, found: bool, n: Times)
    requires SweepStep(s, t, p, Transact(found, n)) && CountOk(s, s.sweeps[p]) && CountOk(t, s.sweeps[p])
    ensures CountOk(t, t.sweeps[p])
    ensures t.sweeps[p].closed == s.sweeps[p].closed ||
      exists id :: t.sweeps[p].closed == s.sweeps[p].closed + {id} && NotYetClosed(s, id)
  {
    var outcome := VisitOf(s.sweeps[p], s.store, found, n);
    assert t.sweeps[p] == Visited(s.sweeps[p], outcome);
    if outcome.Commit? { CommitCloses(s, t, p, found, n); }
  }

  lemma VisitKeepsReadings(s: State, t: State, p: nat, found: bool, n: Times)
    requires SweepStep(s, t, p, Transact(found, n)) && ReadingsHold(t, s.sweeps[p]) && Asked(t, s.sweeps[p])
    ensures ReadingsHold(t, t.sweeps[p]) && Asked(t, t.sweeps[p]) && MaySweep(t, t.sweeps[p])
  {
    assert t.sweeps[p] == Visited(s.sweeps[p], VisitOf(s.sweeps[p], s.store, found, n));
  }

  ghost predicate NotYetClosed(s: State, id: nat) {
    id in s.store.actions && !Terminal(s.store.actions[id].status)
  }

  lemma StepEstablishes(s: State, t: State, p: nat, e: Event)
    requires SweepStep(s, t, p, e) && s.now <= t.now
    requires p in s.sweeps ==> SweepOk(s, s.sweeps[p]) && SweepOk(t, s.sweeps[p])
    ensures SweepOk(t, t.sweeps[p])
    ensures p !in s.sweeps ==> t.sweeps[p].closed == {}
    ensures p in s.sweeps && t.sweeps[p].closed != s.sweeps[p].closed ==>
      exists id :: t.sweeps[p].closed == s.sweeps[p].closed + {id} && NotYetClosed(s, id)
  {
    if e.Transact? {
      VisitCounts(s, t, p, e.found, e.times);
      VisitKeepsReadings(s, t, p, e.found, e.times);
    }
  }

  lemma OthersStayOk(s: State, t: State)
    requires AllOk(s) && RowsLater(s.store, t.store) && s.now <= t.now
    ensures forall q :: q in s.sweeps ==> SweepOk(t, s.sweeps[q])
  {
    forall q | q in s.sweeps ensures SweepOk(t, s.sweeps[q]) {
      KnowledgeSurvives(s, t, s.sweeps[q]);
    }
  }

  /** What a sweep adds to its count was not terminal, so no sweep had counted it. */
  lemma StaysDisjoint(s: State, t: State, p: nat)
    requires Inv(s) && p in t.sweeps && t.sweeps == s.sweeps[p := t.sweeps[p]]
    requires p !in s.sweeps ==> t.sweeps[p].closed == {}
    requires p in s.sweeps && t.sweeps[p].closed != s.sweeps[p].closed ==>
      exists id :: t.sweeps[p].closed == s.sweeps[p].closed + {id} && NotYetClosed(s, id)
    ensures Disjoint(t)
  {
    forall q | q in s.sweeps && q != p ensures s.sweeps[q].closed !! t.sweeps[p].closed {
      assert SweepOk(s, s.sweeps[q]);
    }
  }

  lemma NextKeepsInv(s: State, t: State, p: nat, e: Event)
    requires Inv(s) && Next(s, t, p, e)
    ensures Inv(t)
  {
    NextMovesForward(s, t, p, e);
    OthersStayOk(s, t);
    if SweepStep(s, t, p, e) {
      StepEstablishes(s, t, p, e);
      SweepsElsewhere(s, t, p, e);
      StaysDisjoint(s, t, p);
    }
  }

  lemma SweepsElsewhere(s: State, t: State, p: nat, e: Event)
    requires SweepStep(s, t, p, e)
    ensures p in t.sweeps && t.sweeps == s.sweeps[p := t.sweeps[p]]
  {
  }

  lemma {:induction false} RunInv(run: seq<State>, i: nat)
    requires Run(run) && i < |run|
    ensures Inv(run[i])
  {
    if i > 0 {
      RunInv(run, i - 1);
      assert Linked(run[i - 1], run[i - 1 + 1]);
      var p, e :| Next(run[i - 1], run[i], p, e);
      NextKeepsInv(run[i - 1], run[i], p, e);
    }
  }

  /** In every run, the step of a sweep that changes an action takes a pending one to expired, which had
      then expired or whose source that sweep had looked up and found invalid; or a registered read from
      approved, or from running without a live lease, to failed. The periodic sweep leaves approved
      actions and unexpired pendings alone. The operation log is terminal in the same commit. */
  lemma SweepTransitions(run: seq<State>, k: nat, p: nat, e: Event, id: nat)
    requires Run(run) && k + 1 < |run| && SweepStep(run[k], run[k + 1], p, e) && run[k].now <= run[k + 1].now
    requires id in run[k].store.actions && id in run[k + 1].store.actions
    requires run[k + 1].store.actions[id] != run[k].store.actions[id]
    ensures var sw, a, b := run[k].sweeps[p], run[k].store.actions[id], run[k + 1].store.actions[id];
      && p in run[k].sweeps && sw.phase.Locking? && sw.phase.id == id && id in sw.candidates
      && Allowed(sw.periodic, a, run[k + 1].now)
      && (a.status.Pending? ==> a.expires <= run[k + 1].now || FoundInvalid(sw, id))
      && b.status == (if a.status.Pending? then Expired else Failed)
      && (a.call in run[k + 1].store.logs ==> LogTerminal(run[k + 1].store.logs[a.call].status))
  {
    RunInv(run, k);
    var sw := run[k].sweeps[p];
    assert e.Transact? && VisitOf(sw, run[k].store, e.found, e.times).Commit?;
    var c := Candidate(sw.candidates[sw.phase.id], ValidAt(sw, sw.phase.id));
    VisitClosesBoth(sw.periodic, c, sw.phase.id, run[k].store, e.times);
    assert SweepOk(run[k], sw);
  }

  /** In every run the recorded reason is true: a stale source is reported only for a pending that had not
      expired. */
  lemma ReasonIsTrue(run: seq<State>, k: nat, p: nat, n: Times)
    requires Run(run) && k + 1 < |run| && SweepStep(run[k], run[k + 1], p, Transact(true, n))
    requires VisitOf(run[k].sweeps[p], run[k].store, true, n).Commit?
    ensures var s, t, id := run[k].store, run[k + 1].store, run[k].sweeps[p].phase.id;
      && id in s.actions && id in t.actions
      && t.actions[id].error ==
         if !s.actions[id].status.Pending? then Interrupted
         else if s.actions[id].expires > n.code then SourceStale else HitlExpired
  {
    RunInv(run, k);
    ReasonOfCommit(run[k], run[k].sweeps[p], n);
  }

  lemma ReasonOfCommit(s: State, sw: Sweep, n: Times)
    requires SweepOk(s, sw) && sw.phase.Locking? && VisitOf(sw, s.store, true, n).Commit?
    requires s.now <= n.lease <= n.expiry <= n.code <= n.cutoff
    ensures var id, t := sw.phase.id, VisitOf(sw, s.store, true, n).store;
      && id in s.store.actions && id in t.actions
      && t.actions[id].error ==
         if !s.store.actions[id].status.Pending? then Interrupted
         else if s.store.actions[id].expires > n.code then SourceStale else HitlExpired
  {
    var id := sw.phase.id;
    VisitClosesBoth(sw.periodic, Candidate(sw.candidates[id], ValidAt(sw, id)), id, s.store, n);
  }

  /** An action that a live executor holds is out of every sweep's reach: a protocol owner's, or one
      whose lease runs past the step, even if the sweep saw the lease expired before its renewal. */
  lemma LiveExecutionIsSpared(run: seq<State>, k: nat, p: nat, e: Event, id: nat)
    requires Run(run) && k + 1 < |run| && SweepStep(run[k], run[k + 1], p, e) && run[k].now <= run[k + 1].now
    requires id in run[k].store.actions && id in run[k + 1].store.actions
    requires var a := run[k].store.actions[id];
      || (a.owner.Protocol? && !a.status.Pending?)
      || (a.status.Running? && a.lease.Some? && a.lease.value > run[k + 1].now)
    ensures run[k + 1].store.actions[id] == run[k].store.actions[id]
  {
    if run[k + 1].store.actions[id] != run[k].store.actions[id] {
      SweepTransitions(run, k, p, e, id);
      assert false;
    }
  }

  /** Counting is exact over every run: a sweep's count is the number of distinct actions it closed, all
      terminal from then on and none closed by two sweeps, and of distinct claims that it found running
      and reconciling changed. */
  lemma CountsAreExact(run: seq<State>, i: nat, j: nat, p: nat, q: nat)
    requires Run(run) && i <= j < |run| && p in run[i].sweeps && q in run[j].sweeps
    ensures run[i].sweeps[p].cleaned == |run[i].sweeps[p].closed| + |run[i].sweeps[p].reconciled|
    ensures forall id :: id in run[i].sweeps[p].reconciled ==>
      id in run[i].sweeps[p].candidates && Claimed(run[i].sweeps[p].candidates[id])
    ensures forall id :: id in run[i].sweeps[p].closed ==>
      id in run[j].store.actions && Terminal(run[j].store.actions[id].status)
    ensures p != q ==> run[i].sweeps[p].closed !! run[j].sweeps[q].closed
  {
    RunInv(run, i);
    RunInv(run, j);
    HistoryMovesForward(run, i, j);
    ClosedGrows(run, i, j, p);
    assert SweepOk(run[i], run[i].sweeps[p]);
  }

  /** Taking up a candidate counts exactly a running, well-formed database claim whose reconciliation reports
      a change; no running action of a protocol owner is cleaned. */
  lemma ReconciledIsCounted(s: State, t: State, p: nat, id: nat, changed: bool)
    requires SweepStep(s, t, p, Choose(id, changed))
    ensures var sw, a := s.sweeps[p], s.sweeps[p].candidates[id];
      && p in t.sweeps
      && t.sweeps[p].cleaned ==
           sw.cleaned + (if a.status.Running? && a.owner.Protocol? && a.owner.proof && changed then 1 else 0)
      && (a.status.Running? && a.owner.Protocol? ==> t.sweeps[p].phase == Visiting(sw.phase.todo - {id}))
  {
  }

  lemma ExtendRun(run: seq<State>, t: State, p: nat, e: Event)
    requires Run(run) && Next(run[|run| - 1], t, p, e)
    ensures Run(run + [t])
  {
    var more := run + [t];
    forall i | 0 <= i < |more| - 1 ensures Linked(more[i], more[i + 1]) {
      if i < |run| - 1 { assert Linked(run[i], run[i + 1]); }
    }
  }

  function ExpiredPending(call: nat): (a: Action) { Action(Pending, 0, 0, None, Nobody, false, call, 1, NoCode) }

  function TwoExpired(log: Log): (s: Store) {
    Store(map[1 := ExpiredPending(1), 2 := ExpiredPending(2)], map[1 := log])
  }

  function SweepOfTwo(periodic: bool, phase: Phase): (sw: Sweep) {
    Sweep(periodic, map[1 := ExpiredPending(1), 2 := ExpiredPending(2)], map[], {}, {}, 0, phase)
  }

  lemma StepsOfTwo(periodic: bool, log: Log)
    ensures Scanned(State(0, TwoExpired(log), map[]), periodic) == SweepOfTwo(periodic, Checking({1, 2}))
    ensures CheckedOne(SweepOfTwo(periodic, Checking({1, 2})), 1, true, 0) == SweepOfTwo(periodic, Checking({2}))
    ensures CheckedOne(SweepOfTwo(periodic, Checking({2})), 2, true, 0) == SweepOfTwo(periodic, Checking({}))
    ensures SweepOfTwo(periodic, Visiting({1, 2})).candidates.Keys == {1, 2}
    ensures Chosen(SweepOfTwo(periodic, Visiting({1, 2})), 1, 0, false) == SweepOfTwo(periodic, Locking({2}, 1))
  {
    assert Scanned(State(0, TwoExpired(log), map[]), periodic).candidates == TwoExpired(log).actions;
    assert SweepOfTwo(periodic, Checking({1, 2})).phase.todo - {1} == {2};
    assert SweepOfTwo(periodic, Checking({2})).phase.todo - {2} == {};
    assert SweepOfTwo(periodic, Visiting({1, 2})).phase.todo - {1} == {2};
  }

  /** A blocked action stops a sweep, and with it the closing of actions it has not come to. Two pendings
      of user 1 have expired; the first one's log is another user's, or a write's that still runs. */
  lemma AbortIsReachable(periodic: bool, log: Log) returns (run: seq<State>)
    requires !log.annotated && (log.user != 1 || Held(log))
    ensures Run(run) && |run| > 1 && run[0] == State(0, TwoExpired(log), map[])
    ensures run[|run| - 2] == State(0, TwoExpired(log), map[0 := SweepOfTwo(periodic, Locking({2}, 1))])
    ensures run[|run| - 1] == State(0, TwoExpired(log), map[0 := SweepOfTwo(periodic, Aborted)])
    ensures SweepStep(run[|run| - 2], run[|run| - 1], 0, Transact(true, Still(0)))
    ensures Due(TwoExpired(log), 2, Setting(periodic, {}, {2}, 0)).Some?
  {
    StepsOfTwo(periodic, log);
    BlockedVisit(periodic, log);
    run := CheckTwo(periodic, log);
    run := Perform(run, SweepOfTwo(periodic, Visiting({1, 2})), Checked);
    run := Perform(run, SweepOfTwo(periodic, Locking({2}, 1)), Choose(1, false));
    run := Perform(run, SweepOfTwo(periodic, Aborted), Transact(true, Still(0)));
  }

  lemma CheckTwo(periodic: bool, log: Log) returns (run: seq<State>)
    ensures Run(run) && run[0] == State(0, TwoExpired(log), map[])
    ensures run[|run| - 1] == State(0, TwoExpired(log), map[0 := SweepOfTwo(periodic, Checking({}))])
  {
    StepsOfTwo(periodic, log);
    run := [State(0, TwoExpired(log), map[])];
    run := Perform(run, SweepOfTwo(periodic, Checking({1, 2})), Scan(periodic));
    run := Perform(run, SweepOfTwo(periodic, Checking({2})), Check(1, true));
    run := Perform(run, SweepOfTwo(periodic, Checking({})), Check(2, true));
  }

  lemma BlockedVisit(periodic: bool, log: Log)
    requires !log.annotated && (log.user != 1 || Held(log))
    ensures Visit(periodic, Candidate(ExpiredPending(1), false), 1, TwoExpired(log), Still(0)) == Abort
  {
  }

  /** Sweep 0 takes a step that leaves the store as it is. */
  lemma Perform(run: seq<State>, sw: Sweep, e: Event) returns (more: seq<State>)
    requires Run(run)
    requires var s := run[|run| - 1]; SweepStep(s, s.(sweeps := s.sweeps[0 := sw]), 0, e)
    ensures Run(more) && |more| == |run| + 1 && more[0] == run[0] && more[|more| - 2] == run[|run| - 1]
    ensures var s := run[|run| - 1]; more[|more| - 1] == State(s.now, s.store, s.sweeps[0 := sw])
  {
    var s := run[|run| - 1];
    var t := s.(sweeps := s.sweeps[0 := sw]);
    ExtendRun(run, t, 0, e);
    more := run + [t];
  }

  lemma {:induction false} ClosedGrows(run: seq<State>, i: nat, j: nat, p: nat)
    requires Run(run) && i <= j < |run| && p in run[i].sweeps
    ensures p in run[j].sweeps && run[i].sweeps[p].closed <= run[j].sweeps[p].closed
    decreases j
  {
    if i < j {
      ClosedGrows(run, i, j - 1, p);
      assert Linked(run[j - 1], run[j - 1 + 1]);
      var q, e :| Next(run[j - 1], run[j], q, e);
      ClosedNext(run[j - 1], run[j], q, e, p);
    }
  }

  lemma ClosedNext(s: State, t: State, q: nat, e: Event, p: nat)
    requires Next(s, t, q, e) && p in s.sweeps
    ensures p in t.sweeps && s.sweeps[p].closed <= t.sweeps[p].closed
  {
    if SweepStep(s, t, q, e) {
      SweepsElsewhere(s, t, q, e);
      if q == p { ClosedStep(s, t, p, e); }
    }
  }

  lemma ClosedStep(s: State, t: State, p: nat, e: Event)
    requires SweepStep(s, t, p, e) && p in s.sweeps
    ensures p in t.sweeps && s.sweeps[p].closed <= t.sweeps[p].closed
  {
  }

  // ------------------------------------------------------------------ the sweep's own code

  /** What a sweep alone, on a still clock, meets: `valid` are the actions whose source is valid, `found`
      those whose context can be locked. */
  datatype Setting = Setting(periodic: bool, valid: set<nat>, found: set<nat>, now: int)

  function Still(now: int): (n: Times) { Times(now, now, now, now) }

  function CandidateOf(a: Action, id: nat, at: Setting): (c: Candidate) {
    Candidate(a, a.expires > at.now && id in at.valid)
  }

  /** What it does to one row. */
  function Due(s: Store, id: nat, at: Setting): (r: Option<Change>) {
    if id !in s.actions || !Selected(at.periodic, s.actions[id], at.now) || id !in at.found then None
    else
      var c := CandidateOf(s.actions[id], id, at);
      var change := Target(at.periodic, c, id, s.actions[id], Still(at.now));
      if Spared(c, at.now) || change.None? || !Hits(s, change.value) then None else change
  }

  /** What of the logs decides later visits: no closing changes it. */
  ghost predicate SameMarks(s: Store, t: Store) {
    t.logs.Keys == s.logs.Keys &&
    forall k :: k in s.logs ==>
      && t.logs[k].annotated == s.logs[k].annotated && t.logs[k].user == s.logs[k].user
      && Held(t.logs[k]) == Held(s.logs[k])
  }

  ghost predicate SweptRow(was: Store, s: Store, id: nat, pending: bool, at: Setting)
    requires id in was.actions && id in s.actions
  {
    var change := Due(was, id, at);
    s.actions[id] == if pending || change.None? then was.actions[id] else Changed(was.actions[id], change.value)
  }

  /** Some row already visited was closed together with this log. */
  ghost predicate ClosedFor(was: Store, todo: set<nat>, at: Setting, call: nat) {
    exists id :: id in was.actions && id !in todo && Due(was, id, at).Some? && was.actions[id].call == call
  }

  /** The logs of the rows closed are terminal, and no other log was touched. */
  ghost predicate LogsSwept(was: Store, s: Store, todo: set<nat>, at: Setting) {
    && SameMarks(was, s)
    && forall k :: k in was.logs && k in s.logs ==>
         if ClosedFor(was, todo, at, k) then LogTerminal(s.logs[k].status) else s.logs[k] == was.logs[k]
  }

  /** The store after the sweep has visited everything but `todo`. */
  ghost predicate Swept(was: Store, s: Store, todo: set<nat>, at: Setting) {
    && s.actions.Keys == was.actions.Keys && LogsSwept(was, s, todo, at)
    && forall id :: id in was.actions ==> SweptRow(was, s, id, id in todo, at)
  }

  /** One log closed, if there is one, and nothing else about the logs changed. */
  ghost predicate LogClosed(s: Store, t: Store, call: nat) {
    && SameMarks(s, t)
    && forall k :: k in s.logs && k in t.logs ==>
         if k == call then LogTerminal(t.logs[k].status) else t.logs[k] == s.logs[k]
  }

  lemma CloseLogEffect(s: Store, a: Action, error: Code)
    ensures CloseLog(s, a, error).None? <==> Blocked(s, a)
    ensures CloseLog(s, a, error).Some? ==> LogClosed(s, s.(logs := CloseLog(s, a, error).value), a.call)
  {
  }

  lemma VisitEffect(periodic: bool, c: Candidate, id: nat, s: Store, n: Times)
    requires id in s.actions
    ensures var change := Target(periodic, c, id, s.actions[id], n);
      match Visit(periodic, c, id, s, n)
      case Skip => change.None? || !Hits(s, change.value)
      case Abort => change.Some? && Hits(s, change.value) && Blocked(s, s.actions[id])
      case Commit(t) =>
        && change.Some? && Hits(s, change.value) && !Blocked(s, s.actions[id])
        && t.actions == s.actions[id := Changed(s.actions[id], change.value)] && LogClosed(s, t, s.actions[id].call)
  {
    var change := Target(periodic, c, id, s.actions[id], n);
    if change.Some? {
      assert change.value.id == id && !Raises(change.value);
      var t := Transition(s, change.value);
      if Hits(s, change.value) {
        CloseLogEffect(t, t.actions[id], change.value.error);
        assert t.logs == s.logs && t.actions[id].call == s.actions[id].call && t.actions[id].user == s.actions[id].user;
      }
    }
  }

  lemma CloseSweepsLogs(was: Store, s: Store, t: Store, todo: set<nat>, id: nat, at: Setting)
    requires id in was.actions && id in todo && Due(was, id, at).Some?
    requires LogsSwept(was, s, todo, at) && LogClosed(s, t, was.actions[id].call)
    ensures LogsSwept(was, t, todo - {id}, at)
  {
    forall k | k in was.logs && k in t.logs
      ensures if ClosedFor(was, todo - {id}, at, k) then LogTerminal(t.logs[k].status) else t.logs[k] == was.logs[k]
    {
      ClosedForOneMore(was, todo, id, at, k);
    }
  }

  lemma ClosedForOneMore(was: Store, todo: set<nat>, id: nat, at: Setting, call: nat)
    requires id in was.actions && id in todo
    ensures ClosedFor(was, todo - {id}, at, call)
       <==> ClosedFor(was, todo, at, call) || (Due(was, id, at).Some? && was.actions[id].call == call)
  {
  }

  lemma SkipSweepsLogs(was: Store, s: Store, todo: set<nat>, id: nat, at: Setting)
    requires LogsSwept(was, s, todo, at) && id in was.actions && id in todo && Due(was, id, at).None?
    ensures LogsSwept(was, s, todo - {id}, at)
  {
    forall k ensures ClosedFor(was, todo - {id}, at, k) == ClosedFor(was, todo, at, k) {
      ClosedForOneMore(was, todo, id, at, k);
    }
  }

  lemma VisitSweepsOne(was: Store, s: Store, todo: set<nat>, id: nat, at: Setting, c: Candidate, r: Outcome, t: Store)
    requires Swept(was, s, todo, at) && id in todo && id in was.actions
    requires Selected(at.periodic, was.actions[id], at.now)
    requires c == CandidateOf(was.actions[id], id, at) && id in at.found && !Spared(c, at.now)
    requires r == Visit(at.periodic, c, id, s, Still(at.now)) && t == if r.Commit? then r.store else s
    ensures r.Abort? <==> Due(was, id, at).Some? && Blocked(was, was.actions[id])
    ensures r.Commit? <==> Due(was, id, at).Some? && !Blocked(was, was.actions[id])
    ensures !r.Abort? ==> Swept(was, t, todo - {id}, at)
  {
    assert SweptRow(was, s, id, true, at);
    VisitEffect(at.periodic, c, id, s, Still(at.now));
    MarksDecide(was, s, id, at);
    if r.Commit? {
      CloseSweepsLogs(was, s, t, todo, id, at);
    } else if r.Skip? {
      SkipSweepsLogs(was, s, todo, id, at);
    }
    if !r.Abort? {
      forall i | i in was.actions ensures SweptRow(was, t, i, i in todo - {id}, at) {
        assert SweptRow(was, s, i, i in todo, at);
      }
    }
  }

  lemma MarksDecide(was: Store, s: Store, id: nat, at: Setting)
    requires id in was.actions && id in s.actions && s.actions[id] == was.actions[id] && SameMarks(was, s)
    ensures Due(s, id, at) == Due(was, id, at) && Blocked(s, s.actions[id]) == Blocked(was, was.actions[id])
  {
  }

  lemma SparedSweepsNothing(was: Store, s: Store, todo: set<nat>, id: nat, at: Setting)
    requires Swept(was, s, todo, at) && id in was.actions && id in todo && Due(was, id, at).None?
    ensures Swept(was, s, todo - {id}, at)
  {
    SkipSweepsLogs(was, s, todo, id, at);
    forall i | i in was.actions ensures SweptRow(was, s, i, i in todo - {id}, at) {
      assert SweptRow(was, s, i, i in todo, at);
    }
  }

  ghost function DueIds(s: Store, at: Setting): (ids: set<nat>) {
    set id | id in s.actions && Due(s, id, at).Some?
  }

  /** The due rows that cannot be closed. */
  ghost function Blockers(s: Store, at: Setting): (ids: set<nat>) {
    set id | id in s.actions && Due(s, id, at).Some? && Blocked(s, s.actions[id])
  }

  class Cleaner {
    var store: Store

    /** The cleanup transaction, check by check. */
    method VisitRow(periodic: bool, c: Candidate, id: nat, n: Times) returns (closed: bool, raised: bool)
      modifies this
      ensures match Visit(periodic, c, id, old(store), n)
              case Skip => !closed && !raised && store == old(store)
              case Abort => !closed && raised && store == old(store)
              case Commit(t) => closed && !raised && store == t
    {
      closed, raised := false, false;
      if id !in store.actions { return; }
      var current := store.actions[id];
      var over := ReadOnly(current) && LeaseOver(current, n.lease);
      if periodic {
        var pendingExpired := current.status.Pending? && current.expires <= n.expiry;
        if !pendingExpired && !(current.status.Running? && over) { return; }
      }
      var target, error, cutoff := Failed, Interrupted, None;
      match current.status {
        case Pending =>
          target := Expired;
          error := if c.row.expires > n.code && !c.valid then SourceStale else HitlExpired;
        case Approved => if !ReadOnly(current) { return; }
        case Running =>
          if !over { return; }
          cutoff := Some(n.cutoff);
        case _ => return;
      }
      var change := StatusChange(id, current, target, error, cutoff);
      if !Hits(store, change) { return; }
      var row := Changed(current, change);
      var logs := CloseLog(store, row, error);
      if logs.None? {
        raised := true;
      } else {
        store := Store(store.actions[id := row], logs.value);
        closed := true;
      }
    }

    /** One candidate: spared, skipped or visited; it raises exactly when it is due and blocked. */
    method CleanOne(a: Action, id: nat, at: Setting, ghost was: Store, ghost todo: set<nat>)
      returns (closed: bool, raised: bool)
      requires Swept(was, store, todo, at) && id in todo && id in was.actions
      requires a == was.actions[id] && Selected(at.periodic, a, at.now)
      modifies this
      ensures raised <==> Due(was, id, at).Some? && Blocked(was, a)
      ensures if raised then store == old(store) && !closed
              else Swept(was, store, todo - {id}, at) && closed == Due(was, id, at).Some?
    {
      var c := CandidateOf(a, id, at);
      if Spared(c, at.now) || id !in at.found {
        closed, raised := false, false;
        SparedSweepsNothing(was, store, todo, id, at);
      } else {
        ghost var before := store;
        closed, raised := VisitRow(at.periodic, c, id, Still(at.now));
        VisitSweepsOne(was, before, todo, id, at, c, Visit(at.periodic, c, id, before, Still(at.now)), store);
      }
    }

    /** A whole sweep with nothing else running, in whatever order it meets the rows. It raises exactly
        when some due row is blocked. It has closed exactly the due rows outside `left`, and counted them;
        the blocked ones are in `left`, and `left` is empty unless it raised. */
    method Clean(at: Setting) returns (cleaned: nat, raised: bool, ghost left: set<nat>)
      modifies this
      ensures raised <==> Blockers(old(store), at) != {}
      ensures Swept(old(store), store, left, at) && cleaned == DueOutside(old(store), left, at)
      ensures Blockers(old(store), at) <= left && (!raised ==> left == {})
    {
      ghost var was := store;
      var candidates := Candidates(store, at);
      var todo := candidates.Keys;
      cleaned, raised := 0, false;
      OnlySelectedAreDue(was, at);
      while todo != {}
        invariant todo <= candidates.Keys && Swept(was, store, todo, at) && Blockers(was, at) <= todo
        invariant cleaned == DueOutside(was, todo, at)
        decreases |todo|
      {
        var id :| id in todo;
        var closed;
        closed, raised := CleanOne(candidates[id], id, at, was, todo);
        if raised {
          assert id in Blockers(was, at);
          return cleaned, true, todo;
        }
        CountOneMore(was, todo, id, at);
        if closed { cleaned := cleaned + 1; }
        todo := todo - {id};
      }
      left := {};
    }
  }

  function StatusChange(id: nat, row: Action, target: Status, error: Code, cutoff: Option<int>): (c: Change) {
    Change(id, row.status, row.version, target, error, Nobody, None, None, false, cutoff)
  }

  function Candidates(s: Store, at: Setting): (picked: map<nat, Action>)
    ensures forall id :: id in picked <==> id in s.actions && Selected(at.periodic, s.actions[id], at.now)
    ensures forall id :: id in picked ==> picked[id] == s.actions[id]
  {
    map id | id in s.actions && Selected(at.periodic, s.actions[id], at.now) :: s.actions[id]
  }

  ghost function DueOutside(s: Store, todo: set<nat>, at: Setting): (n: nat)
    ensures todo == {} ==> n == |DueIds(s, at)|
  {
    assert DueIds(s, at) - {} == DueIds(s, at);
    |DueIds(s, at) - todo|
  }

  lemma OnlySelectedAreDue(was: Store, at: Setting)
    ensures Swept(was, was, Candidates(was, at).Keys, at) && DueOutside(was, Candidates(was, at).Keys, at) == 0
    ensures Blockers(was, at) <= Candidates(was, at).Keys
  {
    assert DueIds(was, at) - Candidates(was, at).Keys == {};
  }

  lemma CountOneMore(was: Store, todo: set<nat>, id: nat, at: Setting)
    requires id in todo && id in was.actions
    ensures DueOutside(was, todo - {id}, at) == DueOutside(was, todo, at) + if Due(was, id, at).Some? then 1 else 0
  {
    var due := DueIds(was, at);
    assert due - (todo - {id}) == (due - todo) + if Due(was, id, at).Some? then {id} else {};
  }

  /** After a sweep that ran to its end nothing is due, so the next one closes nothing. */
  lemma SecondSweepClosesNothing(was: Store, s: Store, at: Setting)
    requires Swept(was, s, {}, at)
    ensures DueIds(s, at) == {}
  {
    forall id | id in s.actions ensures Due(s, id, at).None? {
      assert SweptRow(was, s, id, false, at);
      if Due(was, id, at).None? {
        MarksDecide(was, s, id, at);
      } else {
        assert Terminal(s.actions[id].status);
      }
    }
  }

  /** A registered read whose lease, if any, has run out. */
  predicate Interruptible(a: Action, now: int) {
    a.readTool && !a.owner.Protocol? && (a.lease.None? || a.lease.value <= now)
  }

  /** What a finished startup sweep leaves as it was, exactly: not a registered read without a live
      lease, nor a pending that expired or lost its source, given that its context could be locked and
      its log is not held for reconciliation. */
  lemma WhatIsLeftOpen(was: Store, s: Store, at: Setting, id: nat)
    requires !at.periodic && Swept(was, s, {}, at) && id in was.actions && id in at.found
    requires !Annotated(was, was.actions[id].call)
    ensures var a := was.actions[id];
      s.actions[id] == a <==>
        match a.status
        case Pending => a.expires > at.now && id in at.valid
        case Approved => !a.readTool || a.owner.Protocol?
        case Running => !Interruptible(a, at.now)
        case _ => true
  {
    assert SweptRow(was, s, id, false, at);
    var change := Due(was, id, at);
    assert change.Some? ==> s.actions[id].version == was.actions[id].version + 1;
  }

  /** What a finished periodic sweep leaves as it was, exactly: everything but expired pendings and
      interrupted reads. */
  lemma WhatIsLeftPeriodically(was: Store, s: Store, at: Setting, id: nat)
    requires at.periodic && Swept(was, s, {}, at) && id in was.actions && id in at.found
    requires !Annotated(was, was.actions[id].call)
    ensures var a := was.actions[id];
      s.actions[id] == a <==>
        match a.status
        case Pending => a.expires > at.now
        case Running => !Interruptible(a, at.now)
        case _ => true
  {
    assert SweptRow(was, s, id, false, at);
    var change := Due(was, id, at);
    assert change.Some? ==> s.actions[id].version == was.actions[id].version + 1;
  }

  /** What a finished sweep leaves of a row it closed: the terminal status and the reason, the next version,
      and neither owner nor lease. Rows whose context could not be locked, or whose log is held for
      reconciliation, are not closed. */
  lemma WhatIsClosed(was: Store, s: Store, at: Setting, id: nat)
    requires Swept(was, s, {}, at) && id in was.actions && s.actions[id] != was.actions[id]
    ensures id in at.found && !Annotated(was, was.actions[id].call)
    ensures var a := was.actions[id];
      && (a.status.Pending? || a.status.Approved? || a.status.Running?)
      && s.actions[id] == a.(
           status := if a.status.Pending? then Expired else Failed, version := a.version + 1,
           owner := Nobody, lease := None,
           error := if !a.status.Pending? then Interrupted else if a.expires > at.now then SourceStale else HitlExpired)
  {
    assert SweptRow(was, s, id, false, at);
  }
}
