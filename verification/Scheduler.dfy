/** The scheduler's job table: ids printed and parsed back, and the reload that aligns the table with
    the database. */
module Scheduler {
  import opened Options
  import opened Text

  // ------------------------------------------------------------------ job ids

  /** Digits, with single underscores allowed between them, as `int()` reads them. */
  predicate Grouped(s: string) {
    && s != "" && s[0] != '_' && s[|s| - 1] != '_'
    && (forall i :: 0 <= i < |s| ==> '0' <= s[i] <= '9' || s[i] == '_')
    && (forall i :: 0 <= i < |s| - 1 ==> s[i] != '_' || s[i + 1] != '_')
  }

  function Ungrouped(s: string): (r: string)
    requires forall i :: 0 <= i < |s| ==> '0' <= s[i] <= '9' || s[i] == '_'
    ensures forall i :: 0 <= i < |r| ==> '0' <= r[i] <= '9'
  {
    if s == "" then "" else if s[0] == '_' then Ungrouped(s[1..]) else [s[0]] + Ungrouped(s[1..])
  }

  function Number(body: string): (r: Option<int>) {
    if Grouped(body) then Some(Value(Ungrouped(body))) else None
  }

  function Negated(r: Option<int>): (n: Option<int>) { if r.Some? then Some(-r.value) else None }

  /** `int(s)`: surrounding space and a sign are allowed; anything else is a ValueError (None). */
  function ParseInt(s: string): (r: Option<int>) {
    var t := Strip(s);
    if t == "" then None
    else if t[0] == '-' then Negated(Number(t[1..]))
    else if t[0] == '+' then Number(t[1..])
    else Number(t)
  }

  lemma {:induction false} UngroupedNumeral(s: string)
    requires forall i :: 0 <= i < |s| ==> '0' <= s[i] <= '9'
    ensures Ungrouped(s) == s
  {
    if s != "" { UngroupedNumeral(s[1..]); }
  }

  lemma NothingToStrip(s: string)
    requires s != "" && !IsSpace(s[0]) && !IsSpace(s[|s| - 1])
    ensures Strip(s) == s
  {
  }

  lemma NumberOfDec(n: nat)
    ensures Number(Dec(n)) == Some(n)
  {
    UngroupedNumeral(Dec(n));
    ValueOfDec(n);
  }

  lemma ParsePrinted(i: int)
    ensures ParseInt(Print(i)) == Some(i)
  {
    NothingToStrip(Print(i));
    if i < 0 {
      NumberOfDec(-i);
      assert Print(i)[1..] == Dec(-i);
    } else {
      NumberOfDec(i);
    }
  }

  lemma StripsBothEnds(t: string)
    requires t != "" && !IsSpace(t[0]) && !IsSpace(t[|t| - 1])
    ensures Strip([' '] + t + ['\n']) == t
  {
    var s, u := [' '] + t + ['\n'], t + ['\n'];
    assert s[1..] == u && StripLeft(u) == u;
    assert u[..|u| - 1] == t;
    NothingToStrip(t);
    assert StripRight(t) == t;
  }

  /** Space around a printed number is ignored. */
  lemma SpaceIsIgnored(i: int)
    ensures ParseInt([' '] + Print(i) + ['\n']) == Some(i)
  {
    StripsBothEnds(Print(i));
    NothingToStrip(Print(i));
    ParsePrinted(i);
  }

  /** So is a plus sign. */
  lemma PlusIsIgnored(n: nat)
    ensures ParseInt(['+'] + Dec(n)) == Some(n)
  {
    var s := ['+'] + Dec(n);
    NumberOfDec(n);
    NothingToStrip(s);
    assert s[1..] == Dec(n);
  }

  /** Underscores stand only between digits. */
  lemma StrayUnderscoreIsRefused(a: string, b: string)
    requires IsNumeral(a) && IsNumeral(b)
    ensures ParseInt(a + ['_']) == ParseInt(['_'] + a) == None
    ensures Number(a + ['_', '_'] + b) == None
  {
    NothingToStrip(a + ['_']);
    NothingToStrip(['_'] + a);
    var x := a + ['_', '_'] + b;
    assert x[|a|] == '_' && x[|a| + 1] == '_';
  }

  lemma PrintedHasNoUnderscore(i: int)
    ensures '_' !in Print(i)
  {
  }

  const PREFIX := "job_"

  /** The id a job is registered under. */
  function IdOf(tenant: int, job: int): (s: string) { PREFIX + Print(tenant) + "_" + Print(job) }

  predicate Managed(id: string) { PREFIX <= id }

  /** The position of the first underscore, or the length. */
  function FirstUnderscore(s: string): (k: nat)
    ensures k <= |s| && '_' !in s[..k] && (k < |s| ==> s[k] == '_')
  {
    if s == "" || s[0] == '_' then 0
    else
      var k := 1 + FirstUnderscore(s[1..]);
      assert s[..k] == [s[0]] + s[1..][..k - 1];
      k
  }

  /** The (tenant, job) pair reload reads off an id; None is the ValueError path. */
  function ParseId(id: string): (r: Option<(int, int)>) {
    var s := if Managed(id) then id[|PREFIX|..] else id;
    var k := FirstUnderscore(s);
    if k == |s| then None
    else
      match (ParseInt(s[..k]), ParseInt(s[k + 1..]))
      case (Some(t), Some(j)) => Some((t, j))
      case _ => None
  }

  lemma {:induction false} FirstUnderscoreAfter(a: string, b: string)
    requires '_' !in a
    ensures FirstUnderscore(a + "_" + b) == |a|
  {
    var s := a + "_" + b;
    if a != "" {
      assert s[1..] == a[1..] + "_" + b;
      FirstUnderscoreAfter(a[1..], b);
    }
  }

  /** A managed id parses field by field. */
  lemma ParseFields(a: string, b: string)
    requires '_' !in a
    ensures ParseId(PREFIX + (a + "_" + b)) ==
      if ParseInt(a).Some? && ParseInt(b).Some? then Some((ParseInt(a).value, ParseInt(b).value)) else None
  {
    var s := a + "_" + b;
    assert (PREFIX + s)[|PREFIX|..] == s;
    FirstUnderscoreAfter(a, b);
    assert s[..|a|] == a && s[|a| + 1..] == b;
  }

  /** Printing an id and parsing it back gives the same job. */
  lemma IdRoundTrip(tenant: int, job: int)
    ensures Managed(IdOf(tenant, job)) && ParseId(IdOf(tenant, job)) == Some((tenant, job))
  {
    assert IdOf(tenant, job) == PREFIX + (Print(tenant) + "_" + Print(job));
    PrintedHasNoUnderscore(tenant);
    ParseFields(Print(tenant), Print(job));
    ParsePrinted(tenant);
    ParsePrinted(job);
  }

  lemma IdsAreInjective(t1: int, j1: int, t2: int, j2: int)
    requires IdOf(t1, j1) == IdOf(t2, j2)
    ensures t1 == t2 && j1 == j2
  {
    IdRoundTrip(t1, j1);
    IdRoundTrip(t2, j2);
  }

  lemma DigitGroups(a: string, b: string)
    requires IsNumeral(a) && IsNumeral(b)
    ensures Number(a + "_" + b).Some?
  {
    var x := a + "_" + b;
    assert x[|x| - 1] == b[|b| - 1] && x[0] == a[0];
  }

  lemma ReadsAsNumber(a: string, b: string)
    requires IsNumeral(a) && IsNumeral(b)
    ensures ParseInt(a + "_" + b).Some?
  {
    var x := a + "_" + b;
    assert x[|x| - 1] == b[|b| - 1] && x[0] == a[0];
    NothingToStrip(x);
    DigitGroups(a, b);
  }

  lemma AfterFirstUnderscore(a: string, x: string, b: string, y: string)
    requires '_' !in a && '_' !in b && a + "_" + x == b + "_" + y
    ensures x == y
  {
    FirstUnderscoreAfter(a, x);
    FirstUnderscoreAfter(b, y);
    assert x == (a + "_" + x)[|a| + 1..] && y == (b + "_" + y)[|b| + 1..];
  }

  lemma NeverPrinted(tenant: int, x: string, t: int, j: int)
    requires '_' in x
    ensures IdOf(t, j) != PREFIX + (Print(tenant) + "_" + x)
  {
    var u, v := Print(t) + "_" + Print(j), Print(tenant) + "_" + x;
    assert IdOf(t, j) == PREFIX + u;
    if PREFIX + u == PREFIX + v {
      assert (PREFIX + u)[|PREFIX|..] == u && (PREFIX + v)[|PREFIX|..] == v;
      PrintedHasNoUnderscore(t);
      PrintedHasNoUnderscore(tenant);
      AfterFirstUnderscore(Print(t), Print(j), Print(tenant), x);
      PrintedHasNoUnderscore(j);
      assert false;
    }
  }

  /** The converse fails: `int()` reads digit groups, so an id with a further numeral still parses to a
      job, which prints differently. */
  lemma ParsingIsLenient(tenant: int, a: string, b: string)
    requires IsNumeral(a) && IsNumeral(b)
    ensures exists k :: ParseId(PREFIX + (Print(tenant) + "_" + (a + "_" + b))) == Some((tenant, k))
    ensures forall t, j :: IdOf(t, j) != PREFIX + (Print(tenant) + "_" + (a + "_" + b))
  {
    var x := a + "_" + b;
    ReadsAsNumber(a, b);
    PrintedHasNoUnderscore(tenant);
    ParsePrinted(tenant);
    ParseFields(Print(tenant), x);
    assert x[|a|] == '_';
    forall t, j ensures IdOf(t, j) != PREFIX + (Print(tenant) + "_" + x) {
      NeverPrinted(tenant, x, t, j);
    }
  }

  // ------------------------------------------------------------------ the table

  /** A job row: whether it is enabled and its key a tenant task, and the text of the trigger its
      configuration builds, if it builds one. */
  datatype Job = Job(tenant: int, id: int, enabled: bool, tenantTask: bool, trigger: Option<string>)

  datatype Task = RunJob | RunManually

  /** A registered entry: what to run, on which trigger, and when it is next due. */
  datatype Entry = Entry(task: Task, tenant: int, job: int, trigger: string, next: int)

  type Table = map<string, Entry>

  predicate Live(j: Job) { j.enabled && j.tenantTask }

  function Id(j: Job): (s: string) { IdOf(j.tenant, j.id) }

  ghost predicate UniqueJobs(db: seq<Job>) {
    forall i, k :: 0 <= i < k < |db| ==> db[i].tenant != db[k].tenant || db[i].id != db[k].id
  }

  ghost predicate LivePair(db: seq<Job>, p: (int, int)) {
    exists k :: 0 <= k < |db| && Live(db[k]) && (db[k].tenant, db[k].id) == p
  }

  ghost predicate LiveId(db: seq<Job>, id: string) {
    exists k :: 0 <= k < |db| && Live(db[k]) && Id(db[k]) == id
  }

  /** The first pass keeps an id when it parses to a live job. */
  ghost predicate Retained(db: seq<Job>, id: string) {
    ParseId(id).Some? && LivePair(db, ParseId(id).value)
  }

  ghost predicate Same(a: Table, b: Table, id: string) {
    (id in a <==> id in b) && (id in a ==> b[id] == a[id])
  }

  function Fresh(j: Job, trigger: string, due: string -> int): (e: Entry) {
    Entry(RunJob, j.tenant, j.id, trigger, due(trigger))
  }

  /** What reload owes one live job. `due` gives a trigger's next firing as of this reload. */
  ghost predicate JobAligned(a: Table, b: Table, j: Job, due: string -> int) {
    match j.trigger
    case None => Same(a, b, Id(j))
    case Some(t) =>
      if Id(j) in a && a[Id(j)].trigger == t then Same(a, b, Id(j))
      else Id(j) in b && b[Id(j)] == Fresh(j, t, due)
  }

  /** The whole effect of a reload on the table. */
  ghost predicate Aligned(a: Table, b: Table, db: seq<Job>, due: string -> int) {
    && (forall id :: !Managed(id) ==> Same(a, b, id))
    && (forall k :: 0 <= k < |db| && Live(db[k]) ==> JobAligned(a, b, db[k], due))
    && (forall id :: Managed(id) && !LiveId(db, id) ==>
         if Retained(db, id) then Same(a, b, id) else id !in b)
  }

  /** Every managed entry sits under the id its own arguments print. */
  ghost predicate Canonical(a: Table) {
    forall id :: id in a && Managed(id) ==> id == IdOf(a[id].tenant, a[id].job)
  }

  lemma LiveIdsAreRetained(db: seq<Job>, id: string)
    requires LiveId(db, id)
    ensures Managed(id) && Retained(db, id)
  {
    var k :| 0 <= k < |db| && Live(db[k]) && Id(db[k]) == id;
    IdRoundTrip(db[k].tenant, db[k].id);
    assert (db[k].tenant, db[k].id) == ParseId(id).value;
  }

  /** Among printed ids, retention is exactly liveness. */
  lemma PrintedIdsAreRetainedIffLive(db: seq<Job>, tenant: int, job: int)
    ensures Retained(db, IdOf(tenant, job)) <==> LiveId(db, IdOf(tenant, job))
  {
    IdRoundTrip(tenant, job);
    if LiveId(db, IdOf(tenant, job)) { LiveIdsAreRetained(db, IdOf(tenant, job)); }
  }

  /** From a canonical table a reload leaves exactly the live jobs, each with its own arguments: a
      buildable one always and on the database's trigger, a broken one exactly when it was there, and
      then untouched. */
  lemma ReloadLeavesLiveJobs(a: Table, b: Table, db: seq<Job>, due: string -> int)
    requires Canonical(a) && Aligned(a, b, db, due)
    ensures Canonical(b)
    ensures forall id :: id in b && "job_" <= id ==>
      exists k :: 0 <= k < |db| && db[k].enabled && db[k].tenantTask && IdOf(db[k].tenant, db[k].id) == id
    ensures forall k :: 0 <= k < |db| && db[k].enabled && db[k].tenantTask && db[k].trigger.Some? ==>
      var j, id := db[k], IdOf(db[k].tenant, db[k].id);
      && id in b
      && b[id] == if id in a && a[id].trigger == j.trigger.value then a[id]
                  else Entry(RunJob, j.tenant, j.id, j.trigger.value, due(j.trigger.value))
    ensures forall k :: 0 <= k < |db| && db[k].enabled && db[k].tenantTask && db[k].trigger.None? ==>
      Same(a, b, IdOf(db[k].tenant, db[k].id))
    ensures forall id :: !("job_" <= id) ==> Same(a, b, id)
  {
    forall k | 0 <= k < |db| && Live(db[k]) ensures JobAligned(a, b, db[k], due) && Managed(Id(db[k])) {
      IdRoundTrip(db[k].tenant, db[k].id);
    }
    forall id | id in b && Managed(id) ensures LiveId(db, id) && id == IdOf(b[id].tenant, b[id].job) {
      if LiveId(db, id) {
        var k :| 0 <= k < |db| && Live(db[k]) && Id(db[k]) == id;
        assert JobAligned(a, b, db[k], due);
      } else {
        assert Same(a, b, id);
        PrintedIdsAreRetainedIffLive(db, a[id].tenant, a[id].job);
      }
    }
  }

  lemma AlignedIsExactAt(a: Table, b: Table, c: Table, db: seq<Job>, due: string -> int, id: string)
    requires Aligned(a, b, db, due) && Aligned(a, c, db, due)
    ensures Same(b, c, id)
  {
    if LiveId(db, id) {
      var k :| 0 <= k < |db| && Live(db[k]) && Id(db[k]) == id;
      assert JobAligned(a, b, db[k], due) && JobAligned(a, c, db[k], due);
    } else if !Managed(id) {
      assert Same(a, b, id) && Same(a, c, id);
    } else if Retained(db, id) {
      assert Same(a, b, id) && Same(a, c, id);
    } else {
      assert id !in b && id !in c;
    }
  }

  /** The description of a reload determines the table it leaves. */
  lemma AlignedIsExact(a: Table, b: Table, c: Table, db: seq<Job>, due: string -> int)
    requires Aligned(a, b, db, due) && Aligned(a, c, db, due)
    ensures b == c
  {
    forall id ensures Same(b, c, id) {
      AlignedIsExactAt(a, b, c, db, due, id);
    }
    SameEverywhere(b, c);
  }

  lemma SameEverywhere(b: Table, c: Table)
    requires forall id :: Same(b, c, id)
    ensures b == c
  {
    assert forall id :: (id in b <==> id in c) by {
      forall id ensures id in b <==> id in c { assert Same(b, c, id); }
    }
    forall id | id in b ensures b[id] == c[id] { assert Same(b, c, id); }
  }

  /** A second reload from the same database changes nothing, however much later it comes. */
  lemma SecondReloadIsNoOp(a: Table, b: Table, c: Table, db: seq<Job>, due: string -> int, later: string -> int)
    requires Aligned(a, b, db, due) && Aligned(b, c, db, later)
    ensures c == b
  {
    forall k | 0 <= k < |db| && Live(db[k]) ensures JobAligned(b, b, db[k], later) {
      assert JobAligned(a, b, db[k], due);
    }
    forall id | Managed(id) && !LiveId(db, id) && !Retained(db, id) ensures id !in b {
    }
    assert Aligned(b, b, db, later);
    AlignedIsExact(b, b, c, db, later);
  }

  // ------------------------------------------------------------------ removal by job id

  predicate EndsWith(s: string, t: string) { |t| <= |s| && s[|s| - |t|..] == t }

  lemma LastUnderscore(a: string, x: string, b: string, y: string)
    requires '_' !in x && a + "_" + x == b + "_" + y
    ensures |b| <= |a|
  {
    var s := a + "_" + x;
    assert s[|b|] == '_';
    assert forall k :: |a| < k < |s| ==> s[k] == x[k - |a| - 1];
  }

  lemma LastField(a: string, x: string, b: string, y: string)
    requires '_' !in x && '_' !in y && a + "_" + x == b + "_" + y
    ensures x == y
  {
    LastUnderscore(a, x, b, y);
    LastUnderscore(b, y, a, x);
    assert x == (a + "_" + x)[|a| + 1..] && y == (b + "_" + y)[|b| + 1..];
  }

  lemma SuffixIsLastField(a: string, x: string, y: string)
    requires '_' !in x && '_' !in y
    ensures EndsWith(a + "_" + x, "_" + y) <==> x == y
  {
    var s, suffix := a + "_" + x, "_" + y;
    if x == y {
      assert s[|s| - |suffix|..] == suffix;
    }
    if EndsWith(s, suffix) {
      var b := s[..|s| - |suffix|];
      assert b + "_" + y == b + suffix == s;
      LastField(a, x, b, y);
    }
  }

  /** The suffix test that removal uses picks out exactly the printed ids of that job, in every tenant,
      and no job whose number merely ends the same way. */
  lemma SuffixIsExact(tenant: int, job: int, wanted: int)
    ensures EndsWith(IdOf(tenant, job), "_" + Print(wanted)) <==> job == wanted
  {
    PrintedHasNoUnderscore(job);
    PrintedHasNoUnderscore(wanted);
    SuffixIsLastField(PREFIX + Print(tenant), Print(job), Print(wanted));
    ParsePrinted(job);
    ParsePrinted(wanted);
  }

  // ------------------------------------------------------------------ the manager

  class Manager {
    var jobs: Table

    constructor ()
      ensures jobs == map[] && Canonical(jobs)
    {
      jobs := map[];
    }

    /** add_job: nothing for a disabled job; false is the error its trigger raises. */
    method AddJob(j: Job, due: string -> int) returns (ok: bool)
      modifies this
      ensures ok == (!j.enabled || j.trigger.Some?)
      ensures jobs ==
        if j.enabled && j.trigger.Some? then old(jobs)[Id(j) := Fresh(j, j.trigger.value, due)] else old(jobs)
      ensures old(Canonical(jobs)) ==> Canonical(jobs)
    {
      ok := true;
      if j.enabled {
        match j.trigger
        case None => ok := false;
        case Some(t) => jobs := jobs[Id(j) := Fresh(j, t, due)];
      }
    }

    /** run_now: registered outside the ids that reload manages. */
    method RunNow(tenant: int, job: int, now: int)
      modifies this
      ensures forall id :: Managed(id) ==> Same(old(jobs), jobs, id)
      ensures old(Canonical(jobs)) ==> Canonical(jobs)
      ensures var id := "manual_" + Print(tenant) + "_" + Print(job);
        jobs == old(jobs)[id := Entry(RunManually, tenant, job, "", now)]
    {
      var id := "manual_" + Print(tenant) + "_" + Print(job);
      assert id[0] == 'm';
      jobs := jobs[id := Entry(RunManually, tenant, job, "", now)];
    }

    /** remove_job: from a canonical table, the entries of that job in every tenant and nothing else. */
    method RemoveJob(job: int)
      modifies this
      ensures forall id ::
        if Managed(id) && EndsWith(id, "_" + Print(job)) then id !in jobs else Same(old(jobs), jobs, id)
      ensures old(Canonical(jobs)) ==>
        && Canonical(jobs)
        && jobs == map id | id in old(jobs) && !(Managed(id) && old(jobs)[id].job == job) :: old(jobs)[id]
    {
      var was := jobs;
      var matching := set id | id in jobs && EndsWith(id, "_" + Print(job)) && Managed(id);
      jobs := jobs - matching;
      if Canonical(was) {
        forall id | id in was && Managed(id) ensures id in matching <==> was[id].job == job {
          SuffixIsExact(was[id].tenant, was[id].job, job);
        }
      }
    }

    /** The first pass: drop every managed entry whose id does not parse to a live job. */
    method DropStale(db: seq<Job>)
      modifies this
      ensures jobs == Kept(old(jobs), db, {})
    {
      var live := set k | 0 <= k < |db| && Live(db[k]) :: (db[k].tenant, db[k].id);
      ghost var was := jobs;
      var todo := set id | id in jobs && Managed(id);
      while todo != {}
        invariant todo <= was.Keys && (forall id :: id in todo ==> Managed(id))
        invariant jobs == Kept(was, db, todo)
        decreases |todo|
      {
        var id :| id in todo;
        var p := ParseId(id);
        RetainedByPair(db, live, id);
        KeptStep(was, db, todo, id);
        if p.None? || p.value !in live {
          jobs := jobs - {id};
        }
        todo := todo - {id};
      }
    }

    /** Align one live job's entry, seen as it was when reload began; false when no trigger builds. */
    method AlignJob(j: Job, existing: Table, due: string -> int) returns (ok: bool)
      requires Same(existing, jobs, Id(j))
      modifies this
      ensures JobAligned(existing, jobs, j, due) && ok == j.trigger.Some?
      ensures forall id :: id != Id(j) ==> Same(old(jobs), jobs, id)
    {
      ok := j.trigger.Some?;
      if ok && !(Id(j) in existing && existing[Id(j)].trigger == j.trigger.value) {
        jobs := jobs[Id(j) := Fresh(j, j.trigger.value, due)];
      }
    }

    /** reload_jobs: the table becomes what the database asks for. */
    method Reload(db: seq<Job>, due: string -> int) returns (skipped: nat)
      requires UniqueJobs(db)
      modifies this
      ensures Aligned(old(jobs), jobs, db, due)
      ensures old(Canonical(jobs)) ==> Canonical(jobs)
      ensures skipped == |Broken(db, |db|)|
    {
      var existing := jobs;
      DropStale(db);
      skipped := 0;
      for i := 0 to |db|
        invariant Untouched(Kept(existing, db, {}), jobs, db, i)
        invariant Done(existing, jobs, db, i, due)
        invariant skipped == |Broken(db, i)|
      {
        BrokenStep(db, i);
        if Live(db[i]) {
          ghost var was := jobs;
          KeptBefore(existing, jobs, db, i);
          var ok := AlignJob(db[i], existing, due);
          if !ok { skipped := skipped + 1; }
          OneMoreDone(existing, was, jobs, db, i, due);
        } else {
          NothingToDo(existing, jobs, db, i, due);
        }
      }
      FinishAlignment(existing, jobs, db, due);
      if Canonical(existing) { ReloadLeavesLiveJobs(existing, jobs, db, due); }
    }
  }

  /** The table after the first pass has looked at everything but `todo`. */
  ghost function Kept(a: Table, db: seq<Job>, todo: set<string>): (b: Table) {
    map id | id in a && (id in todo || !Managed(id) || Retained(db, id)) :: a[id]
  }

  lemma LivePairs(db: seq<Job>, live: set<(int, int)>)
    requires live == set k | 0 <= k < |db| && Live(db[k]) :: (db[k].tenant, db[k].id)
    ensures forall p :: p in live <==> LivePair(db, p)
  {
  }

  lemma RetainedByPair(db: seq<Job>, live: set<(int, int)>, id: string)
    requires live == set k | 0 <= k < |db| && Live(db[k]) :: (db[k].tenant, db[k].id)
    ensures Retained(db, id) <==> ParseId(id).Some? && ParseId(id).value in live
  {
    LivePairs(db, live);
  }

  lemma KeptStep(was: Table, db: seq<Job>, todo: set<string>, id: string)
    requires id in todo && Managed(id) && id in was
    ensures Kept(was, db, todo - {id}) == if Retained(db, id) then Kept(was, db, todo) else Kept(was, db, todo) - {id}
  {
  }

  ghost function Broken(db: seq<Job>, n: nat): (s: set<int>)
    requires n <= |db|
  {
    set k | 0 <= k < n && Live(db[k]) && db[k].trigger.None?
  }

  lemma BrokenStep(db: seq<Job>, i: nat)
    requires i < |db|
    ensures |Broken(db, i + 1)| == |Broken(db, i)| + if Live(db[i]) && db[i].trigger.None? then 1 else 0
  {
    assert Broken(db, i + 1) == Broken(db, i) + if Live(db[i]) && db[i].trigger.None? then {i} else {};
  }

  ghost predicate Untouched(kept: Table, jobs: Table, db: seq<Job>, n: nat)
    requires n <= |db|
  {
    forall id :: !SomeId(db, n, id) ==> Same(kept, jobs, id)
  }

  ghost predicate Done(existing: Table, jobs: Table, db: seq<Job>, n: nat, due: string -> int)
    requires n <= |db|
  {
    forall k :: 0 <= k < n && Live(db[k]) ==> JobAligned(existing, jobs, db[k], due)
  }

  /** One of the first `n` rows is live under this id. */
  ghost predicate SomeId(db: seq<Job>, n: nat, id: string)
    requires n <= |db|
  {
    exists k :: 0 <= k < n && Live(db[k]) && Id(db[k]) == id
  }

  lemma OthersKeepIds(db: seq<Job>, i: nat)
    requires UniqueJobs(db) && i < |db|
    ensures forall k :: 0 <= k < i ==> Id(db[k]) != Id(db[i])
  {
    forall k | 0 <= k < i ensures Id(db[k]) != Id(db[i]) {
      if Id(db[k]) == Id(db[i]) { IdsAreInjective(db[k].tenant, db[k].id, db[i].tenant, db[i].id); }
    }
  }

  /** Parsing back what was printed is what keeps an enabled job's own entry through the first pass. */
  lemma KeptBefore(existing: Table, jobs: Table, db: seq<Job>, i: nat)
    requires UniqueJobs(db) && i < |db| && Live(db[i])
    requires Untouched(Kept(existing, db, {}), jobs, db, i)
    ensures Same(existing, jobs, Id(db[i]))
  {
    OthersKeepIds(db, i);
    assert !SomeId(db, i, Id(db[i]));
    assert LiveId(db, Id(db[i]));
    LiveIdsAreRetained(db, Id(db[i]));
  }

  lemma SomeIdStep(db: seq<Job>, i: nat, id: string)
    requires i < |db|
    ensures SomeId(db, i + 1, id) <==> SomeId(db, i, id) || (Live(db[i]) && Id(db[i]) == id)
  {
  }

  lemma OneMoreDone(existing: Table, was: Table, jobs: Table, db: seq<Job>, i: nat, due: string -> int)
    requires UniqueJobs(db) && i < |db| && Live(db[i])
    requires Untouched(Kept(existing, db, {}), was, db, i) && Done(existing, was, db, i, due)
    requires JobAligned(existing, jobs, db[i], due) && forall id :: id != Id(db[i]) ==> Same(was, jobs, id)
    ensures Untouched(Kept(existing, db, {}), jobs, db, i + 1) && Done(existing, jobs, db, i + 1, due)
  {
    OthersKeepIds(db, i);
    forall k | 0 <= k < i && Live(db[k]) ensures JobAligned(existing, jobs, db[k], due) {
      assert JobAligned(existing, was, db[k], due) && Same(was, jobs, Id(db[k]));
    }
    forall id | !SomeId(db, i + 1, id) ensures Same(Kept(existing, db, {}), jobs, id) {
      SomeIdStep(db, i, id);
      assert Same(Kept(existing, db, {}), was, id) && Same(was, jobs, id);
    }
  }

  lemma NothingToDo(existing: Table, jobs: Table, db: seq<Job>, i: nat, due: string -> int)
    requires i < |db| && !Live(db[i])
    requires Untouched(Kept(existing, db, {}), jobs, db, i) && Done(existing, jobs, db, i, due)
    ensures Untouched(Kept(existing, db, {}), jobs, db, i + 1) && Done(existing, jobs, db, i + 1, due)
  {
    forall id ensures SomeId(db, i + 1, id) == SomeId(db, i, id) {
      SomeIdStep(db, i, id);
    }
  }

  lemma FinishAlignment(existing: Table, jobs: Table, db: seq<Job>, due: string -> int)
    requires Untouched(Kept(existing, db, {}), jobs, db, |db|) && Done(existing, jobs, db, |db|, due)
    ensures Aligned(existing, jobs, db, due)
  {
    var kept := Kept(existing, db, {});
    forall id ensures SomeId(db, |db|, id) <==> LiveId(db, id) {
    }
    forall id | !Managed(id) ensures Same(existing, jobs, id) {
      if LiveId(db, id) { LiveIdsAreRetained(db, id); }
      assert Same(kept, jobs, id);
    }
    forall id | Managed(id) && !LiveId(db, id)
      ensures if Retained(db, id) then Same(existing, jobs, id) else id !in jobs
    {
      assert Same(kept, jobs, id);
    }
  }
}
