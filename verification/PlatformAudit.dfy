/** The platform audit log: check constraints, the lineage and append-only triggers, the primary key
    and the one-completion index, under any sequence of attempted statements. */
module PlatformAudit {
  import opened Options

  datatype Row = Row(
    auditId: int, authorization: Option<int>, actor: int, actorName: string, permission: string,
    event: string, verb: string, path: string, target: Option<int>,
    reason: Option<string>, ticket: Option<string>, correlation: Option<string>,
    statusCode: Option<int>, durationMs: Option<int>, denial: Option<string>)

  const AUTHORIZED := "authorized"
  const COMPLETED := "completed"
  const DENIED := "denied"

  // ------------------------------------------------------------------ SQL's three-valued logic

  datatype Truth = True | False | Null

  function Of(b: bool): (t: Truth) { if b then True else False }

  function And(a: Truth, b: Truth): (t: Truth) {
    if a.False? || b.False? then False else if a.True? && b.True? then True else Null
  }

  function Or(a: Truth, b: Truth): (t: Truth) {
    if a.True? || b.True? then True else if a.False? && b.False? then False else Null
  }

  function Between(x: Option<int>, low: int, high: int): (t: Truth) {
    if x.None? then Null else Of(low <= x.value <= high)
  }

  function Equals<T(==)>(a: Option<T>, b: Option<T>): (t: Truth) {
    if a.None? || b.None? then Null else Of(a.value == b.value)
  }

  lemma EqualsMeans<T>(a: Option<T>, b: Option<T>)
    ensures Equals(a, b).True? <==> a.Some? && a == b
  {
  }

  /** A check constraint only refuses what it evaluates to false. */
  predicate Passes(t: Truth) { !t.False? }

  function EventFields(r: Row): (t: Truth) {
    Or(Or(And(Of(r.event == AUTHORIZED && r.statusCode.None?), Of(r.durationMs.None? && r.denial.None?)),
          And(And(Of(r.event == COMPLETED), Between(r.statusCode, 100, 599)),
              Of(r.durationMs.Some? && r.denial.None?))),
       And(And(Of(r.event == DENIED), Between(r.statusCode, 400, 599)), Of(r.durationMs.None? && r.denial.Some?)))
  }

  function AuthorizationFields(r: Row): (t: Truth) {
    Or(Of(r.event == COMPLETED && r.authorization.Some?),
       Of((r.event == AUTHORIZED || r.event == DENIED) && r.authorization.None?))
  }

  predicate Given(s: Option<string>) { s.Some? && exists i :: 0 <= i < |s.value| && s.value[i] != ' ' }

  function RequiredContext(r: Row): (t: Truth) {
    Of(r.event == DENIED || (Given(r.reason) && Given(r.ticket) && Given(r.correlation)))
  }

  predicate Checked(r: Row) {
    && Passes(EventFields(r)) && Passes(AuthorizationFields(r)) && Passes(RequiredContext(r))
    && (r.event == AUTHORIZED || r.event == COMPLETED || r.event == DENIED)
    && (r.durationMs.Some? ==> r.durationMs.value >= 0)
    && (r.target.Some? ==> r.target.value >= 0)
  }

  /** The checks without the three-valued logic: what each kind of event may carry. A status code that is
      absent passes wherever one is asked for. */
  ghost predicate FieldsFit(r: Row) {
    && (|| (r.event == AUTHORIZED && r.authorization.None? && HasContext(r)
            && r.statusCode.None? && r.durationMs.None? && r.denial.None?)
        || (r.event == COMPLETED && r.authorization.Some? && HasContext(r)
            && (r.statusCode.None? || 100 <= r.statusCode.value <= 599)
            && r.durationMs.Some? && r.durationMs.value >= 0 && r.denial.None?)
        || (r.event == DENIED && r.authorization.None?
            && (r.statusCode.None? || 400 <= r.statusCode.value <= 599) && r.durationMs.None? && r.denial.Some?))
    && (r.target.None? || r.target.value >= 0)
  }

  lemma CheckedByEvent(r: Row)
    ensures Checked(r) <==> FieldsFit(r)
  {
  }

  /** Reason, ticket and correlation id are present and not blank. */
  ghost predicate HasContext(r: Row) {
    && (r.reason.Some? && exists i :: 0 <= i < |r.reason.value| && r.reason.value[i] != ' ')
    && (r.ticket.Some? && exists i :: 0 <= i < |r.ticket.value| && r.ticket.value[i] != ' ')
    && (r.correlation.Some? && exists i :: 0 <= i < |r.correlation.value| && r.correlation.value[i] != ' ')
  }

  // ------------------------------------------------------------------ the log

  type Log = map<int, Row>

  /** The WHERE clause of the lineage trigger: comparisons with NULL select nothing, only the target
      is compared null-safely. */
  predicate Authorizes(a: Row, r: Row) {
    && Equals(Some(a.auditId), r.authorization).True?
    && a.event == AUTHORIZED
    && a.actor == r.actor && a.actorName == r.actorName && a.permission == r.permission
    && a.verb == r.verb && a.path == r.path
    && Equals(a.reason, r.reason).True? && Equals(a.ticket, r.ticket).True?
    && Equals(a.correlation, r.correlation).True?
    && a.target == r.target
  }

  predicate Accepts(log: Log, r: Row) {
    && r.auditId !in log
    && Checked(r)
    && (r.event == COMPLETED ==> exists id :: id in log && Authorizes(log[id], r))
    && (r.authorization.Some? ==> r.authorization.value in log)
    && (r.authorization.Some? ==> forall id :: id in log ==> log[id].authorization != r.authorization)
  }

  /** Which rows an insert may add, without the three-valued logic: a completion names an authorization in the
      log that agrees on every lineage field and is named by no other row. */
  lemma AcceptsExactly(log: Log, r: Row)
    requires forall id :: id in log ==> log[id].auditId == id
    ensures Accepts(log, r) <==>
      && r.auditId !in log && FieldsFit(r)
      && (r.event != COMPLETED ==> r.authorization.None?)
      && (r.event == COMPLETED ==>
            && r.authorization.Some? && r.authorization.value in log
            && SameLineage(log[r.authorization.value], r)
            && forall id :: id in log ==> log[id].authorization != r.authorization)
  {
    CheckedByEvent(r);
    assert AUTHORIZED != COMPLETED && DENIED != COMPLETED by {
      assert AUTHORIZED[0] != COMPLETED[0] && DENIED[0] != COMPLETED[0];
    }
    if Checked(r) && r.event == COMPLETED {
      assert r.authorization.Some? && HasContext(r);
      if r.authorization.value in log && SameLineage(log[r.authorization.value], r) {
        var a := log[r.authorization.value];
        assert a.auditId == r.authorization.value;
        assert r.authorization == Some(a.auditId);
        EqualsMeans(Some(a.auditId), r.authorization);
        EqualsMeans(a.reason, r.reason);
        EqualsMeans(a.ticket, r.ticket);
        EqualsMeans(a.correlation, r.correlation);
        assert Authorizes(a, r);
      }
    }
  }

  /** An authorization by the same actor, for the same request, with the same context, for the same tenant. */
  predicate SameLineage(a: Row, r: Row) {
    && a.event == AUTHORIZED && a.actor == r.actor && a.actorName == r.actorName && a.permission == r.permission
    && a.verb == r.verb && a.path == r.path && a.target == r.target
    && a.reason == r.reason && a.ticket == r.ticket && a.correlation == r.correlation
  }

  datatype Statement = InsertRow(row: Row) | UpdateRow(id: int, to: Row) | DeleteRow(id: int)

  class AuditLog {
    var log: Log

    constructor ()
      ensures log == map[] && Sound(log)
    {
      log := map[];
    }

    /** One attempted statement: only an accepted insert changes anything. */
    method Execute(s: Statement) returns (ok: bool)
      requires Sound(log)
      modifies this
      ensures Sound(log)
      ensures ok <==> s.InsertRow? && Accepts(old(log), s.row)
      ensures log == if ok then old(log)[s.row.auditId := s.row] else old(log)
    {
      match s {
        case InsertRow(row) =>
          ok := Accepts(log, row);
          if ok {
            InsertKeepsSound(log, row);
            log := log[row.auditId := row];
          }
        case UpdateRow(id, to) => ok := false;
        case DeleteRow(id) => ok := false;
      }
    }
  }

  /** Every completion points to one authorization that agrees with it on the whole lineage, and no
      authorization has two completions. */
  ghost predicate Sound(log: Log) {
    && (forall id :: id in log ==> log[id].auditId == id && Checked(log[id]))
    && (forall id :: id in log && log[id].event == COMPLETED ==> Traced(log, log[id]))
    && (forall i, j :: i in log && j in log && i != j && log[i].authorization.Some? ==>
          log[i].authorization != log[j].authorization)
  }

  /** The one authorization of a completed row. */
  ghost predicate Traced(log: Log, r: Row) {
    && r.authorization.Some? && r.authorization.value in log
    && SameLineage(log[r.authorization.value], r)
  }

  lemma InsertKeepsSound(log: Log, r: Row)
    requires Sound(log) && Accepts(log, r)
    ensures Sound(log[r.auditId := r])
  {
    if r.event == COMPLETED {
      var id :| id in log && Authorizes(log[id], r);
      assert id == r.authorization.value;
    }
  }

  function After(log: Log, s: Statement): (log': Log) {
    if s.InsertRow? && Accepts(log, s.row) then log[s.row.auditId := s.row] else log
  }

  function LogAt(history: seq<Statement>, n: nat): (log: Log)
    requires n <= |history|
  {
    if n == 0 then map[] else After(LogAt(history, n - 1), history[n - 1])
  }

  /** Accepted history only grows, over every sequence of attempted statements, and is always sound. */
  lemma {:induction false} HistoryOnlyGrows(history: seq<Statement>, i: nat, j: nat)
    requires i <= j <= |history|
    ensures Sound(LogAt(history, j))
    ensures var log, later := LogAt(history, i), LogAt(history, j);
      forall id :: id in log ==> id in later && later[id] == log[id]
    decreases j
  {
    if j > 0 {
      HistoryOnlyGrows(history, if i < j then i else j - 1, j - 1);
      var s := history[j - 1];
      if s.InsertRow? && Accepts(LogAt(history, j - 1), s.row) { InsertKeepsSound(LogAt(history, j - 1), s.row); }
    }
  }

  /** Over every history: the authorization of a completion never changes, and never serves another. */
  lemma CompletionsAreTraced(history: seq<Statement>, i: nat, j: nat, done: int, other: int)
    requires i <= j <= |history|
    requires done in LogAt(history, i) && LogAt(history, i)[done].event == COMPLETED
    ensures done in LogAt(history, j) && Traced(LogAt(history, j), LogAt(history, i)[done])
    ensures var later := LogAt(history, j);
      other in later && later[other].authorization == LogAt(history, i)[done].authorization ==> other == done
  {
    HistoryOnlyGrows(history, i, j);
  }

  /** The event check does not force a completion to carry a status code: a NULL one leaves the check
      NULL, which passes. It refuses exactly codes outside 100 to 599 and wrong companions. */
  lemma CompletedStatusMayBeNull(r: Row)
    requires r.event == COMPLETED
    ensures Passes(EventFields(r)) <==>
      (r.statusCode.None? || 100 <= r.statusCode.value <= 599) && r.durationMs.Some? && r.denial.None?
  {
  }

  /** The history that shows it: an authorization, then its completion without a status code, both accepted. */
  lemma NullStatusIsStored() returns (history: seq<Statement>)
    ensures var log := LogAt(history, |history|);
      2 in log && log[2].event == COMPLETED && log[2].statusCode.None?
  {
    var given := Some("x");
    assert Given(given) by { assert given.value[0] != ' '; }
    var authorized := Row(1, None, 0, "a", "p", AUTHORIZED, "GET", "/", None, given, given, given, None, None, None);
    var completed := authorized.(auditId := 2, authorization := Some(1), event := COMPLETED, durationMs := Some(0));
    history := [InsertRow(authorized), InsertRow(completed)];
    assert Accepts(map[], authorized);
    assert LogAt(history, 1) == map[1 := authorized] by { assert LogAt(history, 0) == map[]; }
    assert Authorizes(authorized, completed);
    assert Accepts(map[1 := authorized], completed) by { assert map[1 := authorized][1] == authorized; }
    assert LogAt(history, 2) == After(LogAt(history, 1), history[1]);
  }
}
