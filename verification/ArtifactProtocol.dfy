/** LocalFileStorage's artifact operations on one key's directory, run by any number of processes
    at once. Every file-system call is one step; a call may raise with or without having taken
    effect, and a process may die between any two steps. */
module ArtifactProtocol {
  import opened Options
  import opened Artifacts

  /** The directory of one key, and, as history, every payload ever linked into it. */
  datatype Disk = Disk(lock: bool, manifest: Option<Manifest>, payload: Option<Bytes>, linked: seq<Bytes>)

  datatype Op =
    | Save(data: Bytes, identity: Identity)
    | Read(identity: Identity)
    | Identify
    | Delete(identity: Identity)

  /** Where a call stands; the files it has read so far travel with it. */
  datatype Pc =
    | Start
    | TakeLock
    // save_artifact, lock held
    | LookManifest
    | LookPayload
    | CheckManifest
    | CheckPayload(facts: Manifest)
    | LinkManifest
    | LinkPayload
    // _inspect_artifact without the lock
    | LookLock
    | ReadManifest
    | ReadPayload(facts: Manifest)
    // delete_artifact, lock held
    | LoadManifest
    | ReloadManifest(facts: Manifest)
    | ReloadPayload(facts: Manifest, seen: Manifest)
    | Retire(facts: Manifest)
    | LookRetired
    | Unlink(existed: bool)
    // leaving the writer block
    | Unlock(result: Result)
    | Done(result: Result)
    | Dead

  datatype Proc = Proc(op: Op, pc: Pc)

  datatype State = State(disk: Disk, procs: map<nat, Proc>)

  /** Inside the writer block: the finally clause will unlink the lock. */
  predicate Holding(pc: Pc) {
    !(pc.Start? || pc.TakeLock? || pc.LookLock? || pc.ReadManifest? || pc.ReadPayload? || pc.Done? || pc.Dead?)
  }

  predicate Running(pc: Pc) { !pc.Done? && !pc.Dead? }

  function InspectedSave(c: Codec, key: string, op: Op, facts: Manifest, data: Bytes): (r: Result)
    requires op.Save?
  {
    if Verifies(c, facts, key, Some(data)) && !facts.retired && facts == Describe(c, op.data, op.identity)
    then Saved else Refused
  }

  function InspectedRead(c: Codec, key: string, op: Op, facts: Manifest, data: Bytes): (r: Result) {
    if !Verifies(c, facts, key, Some(data)) || facts.retired then Refused
    else if op.Read? then (if facts.identity == op.identity then Content(data) else Refused)
    else Owner(facts.identity)
  }

  /** The next file-system call of a process, when it neither raises nor dies. */
  function Advance(c: Codec, key: string, d: Disk, p: Proc): (r: (Disk, Pc)) {
    match p.pc
    case Start =>
      if p.op.Save? then (d, TakeLock)
      else if p.op.Identify? then (d, LookLock)
      else if c.keyOf(p.op.identity) != key then (d, Done(Refused))
      else if p.op.Read? then (d, LookLock)
      else (d, TakeLock)
    case TakeLock =>
      if d.lock then (d, Done(Refused))
      else (d.(lock := true), if p.op.Save? then LookManifest else LoadManifest)
    case LookManifest => (d, if d.manifest.Some? then CheckManifest else LookPayload)
    case LookPayload => (d, if d.payload.Some? then CheckManifest else LinkManifest)
    case CheckManifest => (d, if d.manifest.None? then Unlock(Refused) else CheckPayload(d.manifest.value))
    case CheckPayload(facts) =>
      (d, Unlock(if d.payload.None? || !p.op.Save? then Refused
                 else InspectedSave(c, key, p.op, facts, d.payload.value)))
    case LinkManifest =>
      if d.manifest.Some? || !p.op.Save? then (d, Unlock(Refused))
      else (d.(manifest := Some(Describe(c, p.op.data, p.op.identity))), LinkPayload)
    case LinkPayload =>
      if d.payload.Some? || !p.op.Save? then (d, Unlock(Refused))
      else (d.(payload := Some(p.op.data), linked := d.linked + [p.op.data]), Unlock(Saved))
    case LookLock => (d, if d.lock then Done(Refused) else ReadManifest)
    case ReadManifest => (d, if d.manifest.None? then Done(Refused) else ReadPayload(d.manifest.value))
    case ReadPayload(facts) =>
      (d, Done(if d.payload.None? then Refused else InspectedRead(c, key, p.op, facts, d.payload.value)))
    case LoadManifest =>
      if d.manifest.None? || !Verifies(c, d.manifest.value, key, None) then (d, Unlock(Refused))
      else (d, if d.manifest.value.retired then LookRetired else ReloadManifest(d.manifest.value))
    case ReloadManifest(facts) =>
      (d, if d.manifest.None? then Unlock(Refused) else ReloadPayload(facts, d.manifest.value))
    case ReloadPayload(facts, seen) =>
      (d, if d.payload.Some? && Verifies(c, seen, key, d.payload) && !seen.retired then Retire(facts)
          else Unlock(Refused))
    case Retire(facts) => (d.(manifest := Some(facts.(retired := true))), LookRetired)
    case LookRetired => (d, Unlink(d.payload.Some?))
    case Unlink(existed) => (d.(payload := None), Unlock(Deleted(existed)))
    case Unlock(result) => (d.(lock := false), Done(result))
    case Done(_) => (d, p.pc)
    case Dead => (d, p.pc)
  }

  /** A call that raises runs its finally clause when inside the writer block. */
  function Raised(pc: Pc): (r: Pc) {
    if Holding(pc) && !pc.Unlock? then Unlock(Refused) else Done(Refused)
  }

  datatype Event =
    | Begin(op: Op)
    | Step
    | Fault(effect: bool)     // the call raises, its effect taken or not
    | Die

  /** The directory and program counter one event leaves behind. */
  function After(c: Codec, key: string, d: Disk, p: Proc, e: Event): (r: (Disk, Pc))
    requires !e.Begin?
  {
    var (disk, pc) := Advance(c, key, d, p);
    match e
    case Step => (disk, pc)
    case Fault(effect) => (if effect then disk else d, Raised(p.pc))
    case Die => (d, Dead)
  }

  ghost predicate Next(c: Codec, key: string, s: State, t: State, pid: nat, e: Event) {
    if e.Begin? then
      && pid !in s.procs && (e.op.Save? ==> c.keyOf(e.op.identity) == key)
      && t == s.(procs := s.procs[pid := Proc(e.op, Start)])
    else
      && pid in s.procs && Running(s.procs[pid].pc)
      && var (disk, pc) := After(c, key, s.disk, s.procs[pid], e);
      t == State(disk, s.procs[pid := Proc(s.procs[pid].op, pc)])
  }

  ghost predicate Linked(c: Codec, key: string, s: State, t: State) {
    exists pid, e :: Next(c, key, s, t, pid, e)
  }

  const EMPTY := State(Disk(false, None, None, []), map[])

  ghost predicate StepAt(c: Codec, key: string, run: seq<State>, i: nat)
    requires 0 < i < |run|
  {
    Linked(c, key, run[i - 1], run[i])
  }

  /** A run from the empty directory. */
  ghost predicate Run(c: Codec, key: string, run: seq<State>) {
    && |run| > 0 && run[0] == EMPTY
    && forall i :: 0 < i < |run| ==> StepAt(c, key, run, i)
  }

  // ------------------------------------------------------------------ the invariant

  /** What the directory looks like in every reachable state. */
  ghost predicate DiskOk(c: Codec, key: string, d: Disk) {
    && |d.linked| <= 1
    && (d.payload.Some? ==> d.linked == [d.payload.value])
    && (d.manifest.Some? ==> c.keyOf(d.manifest.value.identity) == key)
    && (d.linked != [] ==> d.manifest.Some? && Verifies(c, d.manifest.value, key, Some(d.linked[0])))
    && (d.linked != [] && d.payload.None? ==> d.manifest.value.retired)
    && (d.manifest.Some? && d.manifest.value.retired ==> d.linked != [])
  }

  predicate IsRetired(d: Disk) { d.manifest.Some? && d.manifest.value.retired }

  /** What a result promises about the directory, from the moment it is computed on. */
  ghost predicate ResultOk(c: Codec, d: Disk, op: Op, r: Result) {
    match r
    case Saved =>
      op.Save? && d.linked != [] && d.manifest.Some? && SameFacts(d.manifest.value, Describe(c, op.data, op.identity))
    case Content(data) => op.Read? && d.linked == [data] && d.manifest.Some? && d.manifest.value.identity == op.identity
    case Owner(identity) => op.Identify? && d.linked != [] && d.manifest.Some? && d.manifest.value.identity == identity
    case Deleted(existed) => op.Delete? && IsRetired(d) && d.payload.None?
    case Refused => true
  }

  /** What each program point knows about the directory. */
  ghost predicate ProcOk(c: Codec, key: string, d: Disk, p: Proc) {
    && (Holding(p.pc) ==> d.lock)
    && (p.op.Save? ==> c.keyOf(p.op.identity) == key)
    && match p.pc
       case LookManifest => p.op.Save?
       case LookPayload => p.op.Save? && d.manifest.None?
       case CheckManifest => p.op.Save?
       case CheckPayload(facts) => p.op.Save? && d.manifest == Some(facts)
       case LinkManifest => p.op.Save? && d.manifest.None?
       case LinkPayload => p.op.Save? && d.manifest == Some(Describe(c, p.op.data, p.op.identity)) && d.linked == []
       case LookLock => p.op.Read? || p.op.Identify?
       case ReadManifest => p.op.Read? || p.op.Identify?
       case ReadPayload(facts) =>
         (p.op.Read? || p.op.Identify?)
         && d.manifest.Some? && SameFacts(facts, d.manifest.value) && (facts.retired ==> d.manifest.value.retired)
       case LoadManifest => p.op.Delete?
       case ReloadManifest(facts) => p.op.Delete? && d.manifest == Some(facts) && !facts.retired
       case ReloadPayload(facts, seen) => p.op.Delete? && d.manifest == Some(facts) && seen == facts && !facts.retired
       case Retire(facts) => p.op.Delete? && d.manifest == Some(facts) && !facts.retired && d.payload.Some?
       case LookRetired => p.op.Delete? && IsRetired(d)
       case Unlink(existed) => p.op.Delete? && IsRetired(d) && existed == d.payload.Some?
       case Unlock(r) => ResultOk(c, d, p.op, r)
       case Done(r) => ResultOk(c, d, p.op, r)
       case Start => true
       case TakeLock => p.op.Save? || p.op.Delete?
       case Dead => true
  }

  /** A delete that will report, or has reported, that it removed the payload. */
  predicate Won(pc: Pc) { (pc.Unlock? || pc.Done?) && pc.result == Deleted(true) }

  ghost predicate Inv(c: Codec, key: string, s: State) {
    && DiskOk(c, key, s.disk)
    && (forall i :: i in s.procs ==> ProcOk(c, key, s.disk, s.procs[i]))
    && (forall i, j :: i in s.procs && j in s.procs && Holding(s.procs[i].pc) && Holding(s.procs[j].pc) ==> i == j)
    && (forall i, j :: i in s.procs && j in s.procs && Won(s.procs[i].pc) && Won(s.procs[j].pc) ==> i == j)
  }

  /** How the directory may change from one moment to a later one. */
  ghost predicate Evolves(d: Disk, e: Disk) {
    && (d.manifest.Some? ==> e.manifest.Some? && SameFacts(d.manifest.value, e.manifest.value))
    && (IsRetired(d) ==> IsRetired(e) && e.linked == d.linked && (e.payload == d.payload || e.payload.None?))
    && d.linked <= e.linked
    && (d.linked != [] && d.payload.None? ==> e.payload.None?)
  }

  /** A process outside the writer block changes at most the lock; inside it, the directory evolves. */
  lemma AdvanceEvolves(c: Codec, key: string, d: Disk, p: Proc)
    requires DiskOk(c, key, d) && ProcOk(c, key, d, p)
    ensures var (e, pc) := Advance(c, key, d, p);
      && Evolves(d, e) && DiskOk(c, key, e)
      && (!Holding(p.pc) ==> e == d.(lock := e.lock) && (d.lock ==> e.lock))
      && (Holding(p.pc) && !p.pc.Unlock? ==> e.lock)
  {
  }

  lemma AdvanceKeepsProc(c: Codec, key: string, d: Disk, p: Proc)
    requires DiskOk(c, key, d) && ProcOk(c, key, d, p)
    ensures var (e, pc) := Advance(c, key, d, p); ProcOk(c, key, e, Proc(p.op, pc))
    ensures var (e, pc) := Advance(c, key, d, p); Won(pc) ==> Won(p.pc) || d.payload.Some?
    ensures var (e, pc) := Advance(c, key, d, p); Holding(pc) ==> Holding(p.pc) || !d.lock
  {
  }

  /** In any directory, no step replaces a file that is there, except the retirement of a manifest. */
  lemma NothingIsReplaced(c: Codec, key: string, d: Disk, p: Proc)
    ensures var e := Advance(c, key, d, p).0;
      && (d.payload.Some? ==> e.payload == d.payload || e.payload.None?)
      && (d.manifest.Some? && !p.pc.Retire? ==> e.manifest == d.manifest)
  {
  }

  /** What another process outside the writer block knows survives every change. */
  lemma OthersUnaffected(c: Codec, key: string, d: Disk, e: Disk, q: Proc)
    requires ProcOk(c, key, d, q) && DiskOk(c, key, d) && DiskOk(c, key, e) && Evolves(d, e) && !Holding(q.pc)
    ensures ProcOk(c, key, e, q)
  {
  }

  lemma AfterIsSound(c: Codec, key: string, d: Disk, p: Proc, e: Event)
    requires DiskOk(c, key, d) && ProcOk(c, key, d, p) && Running(p.pc) && !e.Begin?
    ensures var (f, pc) := After(c, key, d, p, e);
      && Evolves(d, f) && DiskOk(c, key, f) && ProcOk(c, key, f, Proc(p.op, pc))
      && (!Holding(p.pc) ==> f == d.(lock := f.lock) && (d.lock ==> f.lock))
      && (Won(pc) ==> Won(p.pc) || d.payload.Some?)
      && (Holding(pc) ==> Holding(p.pc) || !d.lock)
  {
    AdvanceEvolves(c, key, d, p);
    AdvanceKeepsProc(c, key, d, p);
  }

  /** Replacing one process and the directory, soundly, keeps the invariant. */
  lemma ReplaceKeepsInv(c: Codec, key: string, s: State, pid: nat, f: Disk, pc: Pc)
    requires Inv(c, key, s) && pid in s.procs
    requires var p := s.procs[pid];
      && Evolves(s.disk, f) && DiskOk(c, key, f) && ProcOk(c, key, f, Proc(p.op, pc))
      && (!Holding(p.pc) ==> f == s.disk.(lock := f.lock) && (s.disk.lock ==> f.lock))
      && (Won(pc) ==> Won(p.pc) || s.disk.payload.Some?)
      && (Holding(pc) ==> Holding(p.pc) || !s.disk.lock)
    ensures Inv(c, key, State(f, s.procs[pid := Proc(s.procs[pid].op, pc)]))
  {
    var t := State(f, s.procs[pid := Proc(s.procs[pid].op, pc)]);
    forall i | i in t.procs && i != pid
      ensures ProcOk(c, key, f, t.procs[i])
      ensures Holding(t.procs[i].pc) ==> !Holding(pc)
      ensures Won(t.procs[i].pc) ==> !Won(pc) || Won(s.procs[pid].pc)
    {
      OtherProc(c, key, s.disk, f, s.procs[i], !Holding(s.procs[pid].pc));
    }
  }

  lemma OtherProc(c: Codec, key: string, d: Disk, f: Disk, q: Proc, lockOnly: bool)
    requires ProcOk(c, key, d, q) && DiskOk(c, key, d) && DiskOk(c, key, f) && Evolves(d, f)
    requires !Holding(q.pc) || lockOnly
    requires lockOnly ==> f == d.(lock := f.lock) && (d.lock ==> f.lock)
    ensures ProcOk(c, key, f, q)
    ensures Holding(q.pc) ==> d.lock
    ensures Won(q.pc) ==> d.payload.None?
  {
    if !Holding(q.pc) {
      OthersUnaffected(c, key, d, f, q);
    } else {
      assert f == d;
    }
  }

  lemma NextKeepsInv(c: Codec, key: string, s: State, t: State, pid: nat, e: Event)
    requires Inv(c, key, s) && Next(c, key, s, t, pid, e)
    ensures Inv(c, key, t) && Evolves(s.disk, t.disk)
  {
    if !e.Begin? {
      AfterIsSound(c, key, s.disk, s.procs[pid], e);
      var (f, pc) := After(c, key, s.disk, s.procs[pid], e);
      ReplaceKeepsInv(c, key, s, pid, f, pc);
    } else {
      BeginKeepsInv(c, key, s, pid, e.op);
    }
  }

  lemma BeginKeepsInv(c: Codec, key: string, s: State, pid: nat, op: Op)
    requires Inv(c, key, s) && pid !in s.procs && (op.Save? ==> c.keyOf(op.identity) == key)
    ensures Inv(c, key, s.(procs := s.procs[pid := Proc(op, Start)]))
  {
    var t := s.(procs := s.procs[pid := Proc(op, Start)]);
    forall i | i in t.procs ensures ProcOk(c, key, t.disk, t.procs[i]) {
      if i != pid { assert t.procs[i] == s.procs[i]; }
    }
  }

  lemma {:induction false} RunInv(c: Codec, key: string, run: seq<State>, i: nat)
    requires Run(c, key, run) && i < |run|
    ensures Inv(c, key, run[i])
  {
    if i > 0 {
      RunInv(c, key, run, i - 1);
      assert StepAt(c, key, run, i);
      var pid, e :| Next(c, key, run[i - 1], run[i], pid, e);
      NextKeepsInv(c, key, run[i - 1], run[i], pid, e);
    }
  }

  lemma EvolvesTransitive(a: Disk, b: Disk, d: Disk)
    requires Evolves(a, b) && Evolves(b, d)
    ensures Evolves(a, d)
  {
    if a.linked != [] && a.payload.None? { assert b.linked[0] == a.linked[0]; }
  }

  // ------------------------------------------------------------------ what holds of every run

  /** The last transition of a prefix of a run. */
  lemma LastStep(c: Codec, key: string, run: seq<State>, j: nat) returns (who: nat, e: Event)
    requires Run(c, key, run) && 0 < j < |run|
    ensures Next(c, key, run[j - 1], run[j], who, e)
  {
    assert StepAt(c, key, run, j);
    who, e :| Next(c, key, run[j - 1], run[j], who, e);
  }

  lemma EveryStepEvolves(c: Codec, key: string, run: seq<State>, j: nat)
    requires Run(c, key, run) && 0 < j < |run|
    ensures Evolves(run[j - 1].disk, run[j].disk)
  {
    RunInv(c, key, run, j - 1);
    var pid, e := LastStep(c, key, run, j);
    NextKeepsInv(c, key, run[j - 1], run[j], pid, e);
  }

  /** Manifest and payload are write-once over every run: identity, size and hash never change, a
      payload is linked at most once, retirement is permanent and only ever removes the payload. */
  lemma {:induction false} ArtifactIsImmutable(c: Codec, key: string, run: seq<State>, i: nat, j: nat)
    requires Run(c, key, run) && i <= j < |run|
    ensures Evolves(run[i].disk, run[j].disk) && |run[j].disk.linked| <= 1
    decreases j
  {
    LinkedOnce(c, key, run, j);
    if i < j {
      ArtifactIsImmutable(c, key, run, i, j - 1);
      EveryStepEvolves(c, key, run, j);
      EvolvesTransitive(run[i].disk, run[j - 1].disk, run[j].disk);
    }
  }

  lemma LinkedOnce(c: Codec, key: string, run: seq<State>, j: nat)
    requires Run(c, key, run) && j < |run|
    ensures |run[j].disk.linked| <= 1
  {
    RunInv(c, key, run, j);
  }

  ghost predicate Returned(s: State, pid: nat, r: Result) {
    pid in s.procs && s.procs[pid].pc == Done(r)
  }

  /** A finished call stays finished, with its result. */
  lemma {:induction false} ResultsStay(c: Codec, key: string, run: seq<State>, i: nat, j: nat, pid: nat)
    requires Run(c, key, run) && i <= j < |run| && pid in run[i].procs
    ensures pid in run[j].procs && run[j].procs[pid].op == run[i].procs[pid].op
    ensures !Running(run[i].procs[pid].pc) ==> run[j].procs[pid] == run[i].procs[pid]
    decreases j
  {
    if i < j {
      ResultsStay(c, key, run, i, j - 1, pid);
      assert StepAt(c, key, run, j);
    }
  }

  /** All successful reads, at whatever times, return the same bytes: those the manifest hashes. */
  lemma ReadsAgree(c: Codec, key: string, run: seq<State>, i: nat, j: nat, p: nat, q: nat, a: Bytes, b: Bytes)
    requires Run(c, key, run) && i <= j < |run|
    requires Returned(run[i], p, Content(a)) && Returned(run[j], q, Content(b))
    ensures a == b
    ensures run[j].disk.manifest.Some? && Verifies(c, run[j].disk.manifest.value, key, Some(a))
  {
    ResultsStay(c, key, run, i, j, p);
    RunInv(c, key, run, j);
    assert ProcOk(c, key, run[j].disk, run[j].procs[p]);
    assert ProcOk(c, key, run[j].disk, run[j].procs[q]);
  }

  /** A save that returned stored its own bytes: with an injective digest, every read returns them. */
  lemma SavedIsRead(c: Codec, key: string, run: seq<State>, i: nat, j: nat, p: nat, q: nat, data: Bytes)
    requires Run(c, key, run) && i < |run| && j < |run| && HashInjective(c)
    requires Returned(run[i], p, Saved) && Returned(run[j], q, Content(data))
    ensures run[i].procs[p].op.Save? && run[i].procs[p].op.data == data
    ensures run[j].procs[q].op.Read? && run[j].procs[q].op.identity == run[i].procs[p].op.identity
  {
    var k := |run| - 1;
    ResultsStay(c, key, run, i, k, p);
    ResultsStay(c, key, run, j, k, q);
    RunInv(c, key, run, k);
    assert ProcOk(c, key, run[k].disk, run[k].procs[p]);
    assert ProcOk(c, key, run[k].disk, run[k].procs[q]);
  }

  /** Once retired, no save still running ever succeeds, and no read or identity query that starts
      afterwards does; the payload is never linked again. */
  lemma RetirementIsFinal(c: Codec, key: string, run: seq<State>, i: nat, j: nat, pid: nat, r: Result)
    requires Run(c, key, run) && i <= j < |run| && IsRetired(run[i].disk)
    requires Returned(run[j], pid, r)
    requires Late(run[i], pid)
    ensures r.Refused? || r.Deleted?
    ensures run[j].disk.linked == run[i].disk.linked
    ensures run[j].disk.payload == run[i].disk.payload || run[j].disk.payload.None?
  {
    ArtifactIsImmutable(c, key, run, i, j);
    LateCallsFail(c, key, run, i, j);
  }

  /** A call that can no longer succeed in saving or reading once the artifact is retired. */
  predicate Hopeless(p: Proc) {
    match p.pc
    case ReadPayload(facts) => facts.retired
    case CheckPayload(facts) => facts.retired
    case LinkManifest => false
    case LinkPayload => false
    case LookPayload => false
    case Unlock(r) => r.Refused? || r.Deleted?
    case Done(r) => r.Refused? || r.Deleted?
    case _ => true
  }

  lemma HopelessAdvances(c: Codec, key: string, d: Disk, p: Proc)
    requires DiskOk(c, key, d) && ProcOk(c, key, d, p) && IsRetired(d) && Hopeless(p)
    ensures Hopeless(Proc(p.op, Advance(c, key, d, p).1))
  {
  }

  /** A call begun after `early`, or a save that was still undecided then. */
  predicate Late(early: State, pid: nat) {
    pid in early.procs ==>
      var p := early.procs[pid]; p.op.Save? && !p.pc.Done? && !p.pc.Unlock?
  }

  ghost predicate LateAreHopeless(early: State, s: State) {
    forall pid :: pid in s.procs && Late(early, pid) ==> Hopeless(s.procs[pid])
  }

  lemma LateStep(c: Codec, key: string, early: State, s: State, t: State, who: nat, e: Event)
    requires Inv(c, key, s) && IsRetired(s.disk) && Next(c, key, s, t, who, e)
    requires LateAreHopeless(early, s)
    ensures LateAreHopeless(early, t)
  {
    forall pid | pid in t.procs && Late(early, pid) ensures Hopeless(t.procs[pid]) {
      if pid == who && !e.Begin? {
        assert ProcOk(c, key, s.disk, s.procs[pid]);
        HopelessAdvances(c, key, s.disk, s.procs[pid]);
      } else if pid != who {
        assert t.procs[pid] == s.procs[pid];
      }
    }
  }

  lemma RetiredStart(c: Codec, key: string, s: State)
    requires Inv(c, key, s) && IsRetired(s.disk)
    ensures LateAreHopeless(s, s)
  {
    forall pid | pid in s.procs && Late(s, pid) ensures Hopeless(s.procs[pid]) {
      assert ProcOk(c, key, s.disk, s.procs[pid]);
    }
  }

  lemma StaysRetired(c: Codec, key: string, run: seq<State>, i: nat, j: nat)
    requires Run(c, key, run) && i <= j < |run| && IsRetired(run[i].disk)
    ensures IsRetired(run[j].disk)
  {
    ArtifactIsImmutable(c, key, run, i, j);
  }

  lemma LateStepInRun(c: Codec, key: string, run: seq<State>, i: nat, j: nat)
    requires Run(c, key, run) && i < j < |run| && IsRetired(run[j - 1].disk)
    requires LateAreHopeless(run[i], run[j - 1])
    ensures LateAreHopeless(run[i], run[j])
  {
    var who, e := LastStep(c, key, run, j);
    RunInv(c, key, run, j - 1);
    LateStep(c, key, run[i], run[j - 1], run[j], who, e);
  }

  lemma {:induction false} LateCallsFail(c: Codec, key: string, run: seq<State>, i: nat, j: nat)
    requires Run(c, key, run) && i <= j < |run| && IsRetired(run[i].disk)
    ensures LateAreHopeless(run[i], run[j])
    decreases j
  {
    if i == j {
      RunInv(c, key, run, i);
      RetiredStart(c, key, run[i]);
    } else {
      LateCallsFail(c, key, run, i, j - 1);
      StaysRetired(c, key, run, i, j - 1);
      LateStepInRun(c, key, run, i, j);
    }
  }

  /** Across all deletes of the key at most one reports that it removed the payload, also when an
      earlier one failed between retiring and unlinking. */
  lemma OneDeleteWins(c: Codec, key: string, run: seq<State>, i: nat, j: nat, p: nat, q: nat)
    requires Run(c, key, run) && i < |run| && j < |run|
    requires Returned(run[i], p, Deleted(true)) && Returned(run[j], q, Deleted(true))
    ensures p == q
  {
    var k := |run| - 1;
    ResultsStay(c, key, run, i, k, p);
    ResultsStay(c, key, run, j, k, q);
    RunInv(c, key, run, k);
    assert Won(run[k].procs[p].pc) && Won(run[k].procs[q].pc);
  }

  // ------------------------------------------------------------------ who holds the lock

  /** Whoever took the lock is still inside the writer block. */
  ghost predicate LockHeld(s: State) {
    s.disk.lock ==> exists i :: i in s.procs && Holding(s.procs[i].pc)
  }

  /** The three ways to leave the lock behind: dying inside the writer block, failing to unlink the lock on
      the way out, and creating it in a call that then raises. */
  predicate Leaks(s: State, pid: nat, e: Event) {
    pid in s.procs &&
    match e
    case Die => Holding(s.procs[pid].pc)
    case Fault(effect) =>
      if effect then s.procs[pid].pc.TakeLock? && !s.disk.lock else s.procs[pid].pc.Unlock?
    case _ => false
  }

  /** One event of one process that leaves nothing behind: whoever holds the lock still holds it or has
      released it, and whoever took it holds it. */
  lemma HolderMovesOn(c: Codec, key: string, s: State, pid: nat, e: Event)
    requires pid in s.procs && Running(s.procs[pid].pc) && !e.Begin? && !Leaks(s, pid, e)
    ensures var (f, pc) := After(c, key, s.disk, s.procs[pid], e);
      f.lock && (Holding(s.procs[pid].pc) || !s.disk.lock) ==> Holding(pc)
  {
  }

  lemma HolderStays(c: Codec, key: string, s: State, t: State, pid: nat, e: Event)
    requires LockHeld(s) && Next(c, key, s, t, pid, e) && !Leaks(s, pid, e)
    ensures LockHeld(t)
  {
    if e.Begin? {
      forall i | i in s.procs ensures t.procs[i] == s.procs[i] {}
    } else {
      HolderMovesOn(c, key, s, pid, e);
      if s.disk.lock && t.disk.lock {
        var i :| i in s.procs && Holding(s.procs[i].pc);
        assert i != pid ==> t.procs[i] == s.procs[i];
        assert i in t.procs && Holding(t.procs[i].pc);
      } else if t.disk.lock {
        assert Holding(t.procs[pid].pc);
      }
    }
  }

  lemma LeakOrphans(c: Codec, key: string, s: State, t: State, pid: nat, e: Event)
    requires Inv(c, key, s) && Next(c, key, s, t, pid, e) && Leaks(s, pid, e)
    ensures Orphaned(t)
  {
    assert ProcOk(c, key, s.disk, s.procs[pid]);
    forall i | i in t.procs ensures !Holding(t.procs[i].pc) {
      if i != pid {
        assert t.procs[i] == s.procs[i] && ProcOk(c, key, s.disk, s.procs[i]);
      }
    }
  }

  /** A step loses the lock's holder exactly when it is one of the three; in particular a call that raises
      inside the writer block releases the lock on its way out. */
  lemma OnlyLeaksOrphan(c: Codec, key: string, s: State, t: State, pid: nat, e: Event)
    requires Inv(c, key, s) && LockHeld(s) && Next(c, key, s, t, pid, e)
    ensures LockHeld(t) <==> !Leaks(s, pid, e)
  {
    if Leaks(s, pid, e) { LeakOrphans(c, key, s, t, pid, e); } else { HolderStays(c, key, s, t, pid, e); }
  }

  ghost predicate TidyStep(c: Codec, key: string, s: State, t: State, pid: nat, e: Event) {
    Next(c, key, s, t, pid, e) && !Leaks(s, pid, e)
  }

  /** Some event leads from one state to the next without leaving the lock behind. */
  ghost predicate Tidy(c: Codec, key: string, s: State, t: State) {
    exists pid, e :: TidyStep(c, key, s, t, pid, e)
  }

  ghost predicate TidyAt(c: Codec, key: string, run: seq<State>, i: nat)
    requires 0 < i < |run|
  {
    Tidy(c, key, run[i - 1], run[i])
  }

  /** Over every run without one of the three, whatever raises, the lock has a holder, who will release it. */
  lemma {:induction false} LockHasHolder(c: Codec, key: string, run: seq<State>, j: nat)
    requires Run(c, key, run) && j < |run| && forall i :: 0 < i <= j ==> TidyAt(c, key, run, i)
    ensures run[j].disk.lock ==> exists i :: i in run[j].procs && Holding(run[j].procs[i].pc)
  {
    if j > 0 {
      LockHasHolder(c, key, run, j - 1);
      assert TidyAt(c, key, run, j);
      var pid, e :| TidyStep(c, key, run[j - 1], run[j], pid, e);
      HolderStays(c, key, run[j - 1], run[j], pid, e);
    }
  }

  /** On its way out after raising. */
  predicate Failing(pc: Pc) { pc == Unlock(Refused) || pc == Done(Refused) || pc.Dead? }

  lemma FailingStays(c: Codec, key: string, s: State, t: State, who: nat, e: Event, pid: nat)
    requires Next(c, key, s, t, who, e) && pid in s.procs && Failing(s.procs[pid].pc)
    ensures pid in t.procs && Failing(t.procs[pid].pc)
  {
  }

  /** A call that raised anywhere never reports anything but a refusal, though it may have taken effect. */
  lemma {:induction false} RaisedIsRefused(
    c: Codec, key: string, run: seq<State>, i: nat, j: nat, pid: nat, effect: bool, r: Result)
    requires Run(c, key, run) && i < j < |run| && Next(c, key, run[i], run[i + 1], pid, Fault(effect))
    ensures pid in run[j].procs && Failing(run[j].procs[pid].pc)
    ensures Returned(run[j], pid, r) ==> r.Refused?
    decreases j
  {
    if j > i + 1 {
      RaisedIsRefused(c, key, run, i, j - 1, pid, effect, r);
      var who, e := LastStep(c, key, run, j);
      FailingStays(c, key, run[j - 1], run[j], who, e, pid);
    }
  }

  // ------------------------------------------------------------------ a lock nobody will release

  /** The lock file exists and no live call is inside the writer block. */
  ghost predicate Orphaned(s: State) {
    s.disk.lock && forall i :: i in s.procs ==> !Holding(s.procs[i].pc)
  }

  /** A process that dies inside the writer block orphans the lock. */
  lemma DeathOrphansLock(c: Codec, key: string, s: State, t: State, pid: nat)
    requires Inv(c, key, s) && Next(c, key, s, t, pid, Die) && Holding(s.procs[pid].pc)
    ensures Orphaned(t)
  {
    assert ProcOk(c, key, s.disk, s.procs[pid]);
  }

  /** An orphaned lock freezes the directory for good, and every later call is refused. */
  lemma {:induction false} OrphanedLockFreezes(c: Codec, key: string, run: seq<State>, i: nat, j: nat)
    requires Run(c, key, run) && i <= j < |run| && Orphaned(run[i])
    ensures Orphaned(run[j]) && run[j].disk == run[i].disk
    ensures forall pid, r :: pid !in run[i].procs && Returned(run[j], pid, r) ==> r.Refused?
    decreases j
  {
    LateCallsBlocked(c, key, run, i, j);
  }

  predicate Blocked(pc: Pc) {
    pc.Start? || pc.TakeLock? || pc.LookLock? || pc.Dead? || pc == Done(Refused)
  }

  ghost predicate NewcomersBlocked(early: State, s: State) {
    forall pid :: pid in s.procs && pid !in early.procs ==> Blocked(s.procs[pid].pc)
  }

  lemma BlockedStep(c: Codec, key: string, early: State, s: State, t: State, who: nat, e: Event)
    requires Orphaned(s) && Next(c, key, s, t, who, e) && NewcomersBlocked(early, s)
    ensures Orphaned(t) && t.disk == s.disk && NewcomersBlocked(early, t)
  {
    if !e.Begin? { LockedOut(c, key, s.disk, s.procs[who], e); }
  }

  lemma {:induction false} LateCallsBlocked(c: Codec, key: string, run: seq<State>, i: nat, j: nat)
    requires Run(c, key, run) && i <= j < |run| && Orphaned(run[i])
    ensures Orphaned(run[j]) && run[j].disk == run[i].disk && NewcomersBlocked(run[i], run[j])
    decreases j
  {
    if i < j {
      LateCallsBlocked(c, key, run, i, j - 1);
      var who, e := LastStep(c, key, run, j);
      BlockedStep(c, key, run[i], run[j - 1], run[j], who, e);
    }
  }

  /** Under somebody else's lock a call outside the writer block neither enters it nor changes anything. */
  lemma LockedOut(c: Codec, key: string, d: Disk, p: Proc, e: Event)
    requires d.lock && !Holding(p.pc) && Running(p.pc) && !e.Begin?
    ensures var (f, pc) := After(c, key, d, p, e); f == d && !Holding(pc) && (Blocked(p.pc) ==> Blocked(pc))
  {
  }
}
