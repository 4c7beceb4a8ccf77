/** A call of the concurrent protocol that runs alone, without faults, from a directory at rest does
    exactly what the sequential backend does. */
module ArtifactSolo {
  import opened Options
  import opened Artifacts
  import opened P = ArtifactProtocol
  import B = ArtifactBackends

  /** Steps left to a call, at most. */
  function Rank(pc: Pc): (n: nat) {
    match pc
    case Start => 20
    case TakeLock => 19
    case LookManifest => 18
    case LookPayload => 17
    case CheckManifest => 16
    case CheckPayload(_) => 15
    case LinkManifest => 14
    case LinkPayload => 13
    case LookLock => 12
    case ReadManifest => 11
    case ReadPayload(_) => 10
    case LoadManifest => 9
    case ReloadManifest(_) => 8
    case ReloadPayload(_, _) => 7
    case Retire(_) => 6
    case LookRetired => 5
    case Unlink(_) => 4
    case Unlock(_) => 3
    case Done(_) => 0
    case Dead => 0
  }

  /** Every step that neither raises nor dies brings a call closer to its end. */
  lemma EveryStepProgresses(c: Codec, key: string, d: Disk, p: Proc)
    requires Running(p.pc)
    ensures Rank(Advance(c, key, d, p).1) < Rank(p.pc)
  {
  }

  /** Running one call to its end with nobody else in the directory. */
  function Finish(c: Codec, key: string, d: Disk, p: Proc): (r: (Disk, Pc))
    decreases Rank(p.pc)
  {
    if !Running(p.pc) then (d, p.pc)
    else
      EveryStepProgresses(c, key, d, p);
      var (e, pc) := Advance(c, key, d, p);
      Finish(c, key, e, Proc(p.op, pc))
  }

  function CallOf(key: string, op: Op): (call: B.Call) {
    match op
    case Save(data, identity) => B.SaveCall(data, identity)
    case Read(identity) => B.ReadCall(key, identity)
    case Identify => B.IdentifyCall(key)
    case Delete(identity) => B.DeleteCall(key, identity)
  }

  /** A directory at rest that holds what the ledger says of the key. */
  ghost predicate AtRest(c: Codec, key: string, d: Disk, l: B.Ledger) {
    && !d.lock
    && (key !in l ==> d.manifest.None? && d.payload.None?)
    && (key in l ==> c.keyOf(l[key].identity) == key && B.DirHolds(c, B.Dir(d.lock, d.manifest, d.payload), l[key]))
  }

  ghost predicate Agrees(c: Codec, key: string, d: Disk, op: Op, l: B.Ledger) {
    var (e, pc) := Finish(c, key, d, Proc(op, Start));
    var (l', r) := B.Meaning(c, l, CallOf(key, op));
    pc == Done(r) && AtRest(c, key, e, l')
  }

  lemma Onward(c: Codec, key: string, d: Disk, p: Proc, e: Disk, pc: Pc)
    requires Running(p.pc) && Advance(c, key, d, p) == (e, pc)
    ensures Finish(c, key, d, p) == Finish(c, key, e, Proc(p.op, pc))
  {
  }

  lemma Released(c: Codec, key: string, d: Disk, op: Op, r: Result)
    ensures Finish(c, key, d, Proc(op, Unlock(r))) == (d.(lock := false), Done(r))
  {
    Onward(c, key, d, Proc(op, Unlock(r)), d.(lock := false), Done(r));
  }

  lemma SoloRemoval(c: Codec, key: string, d: Disk, op: Op)
    requires op.Delete?
    ensures Finish(c, key, d, Proc(op, LookRetired))
         == (d.(payload := None, lock := false), Done(Deleted(d.payload.Some?)))
  {
    Onward(c, key, d, Proc(op, LookRetired), d, Unlink(d.payload.Some?));
    Onward(c, key, d, Proc(op, Unlink(d.payload.Some?)), d.(payload := None), Unlock(Deleted(d.payload.Some?)));
    Released(c, key, d.(payload := None), op, Deleted(d.payload.Some?));
  }

  // ------------------------------------------------------------------ from any directory

  /** The two files agree: manifest and payload are there, the manifest was written for this key and is not
      retired, and size and digest are the payload's. */
  predicate Intact(c: Codec, key: string, d: Disk) {
    && d.manifest.Some? && d.payload.Some? && c.keyOf(d.manifest.value.identity) == key
    && !d.manifest.value.retired
    && d.manifest.value.size == |d.payload.value| && d.manifest.value.sha256 == c.hash(d.payload.value)
  }

  /** A read of any directory, whatever interrupted calls left there: the payload, exactly when the two files
      agree and the caller owns them. */
  lemma ReadsExactly(c: Codec, key: string, d: Disk, identity: Identity)
    requires !d.lock
    ensures Finish(c, key, d, Proc(Read(identity), Start)) == (d, Done(
      if c.keyOf(identity) == key && Intact(c, key, d) && d.manifest.value.identity == identity
      then Content(d.payload.value) else Refused))
  {
    var op := Read(identity);
    if c.keyOf(identity) != key {
      Onward(c, key, d, Proc(op, Start), d, Done(Refused));
    } else {
      Onward(c, key, d, Proc(op, Start), d, LookLock);
      InspectsExactly(c, key, d, op);
    }
  }

  /** So with identifying it, which anybody may do. */
  lemma IdentifiesExactly(c: Codec, key: string, d: Disk)
    requires !d.lock
    ensures Finish(c, key, d, Proc(Identify, Start))
      == (d, Done(if Intact(c, key, d) then Owner(d.manifest.value.identity) else Refused))
  {
    Onward(c, key, d, Proc(Identify, Start), d, LookLock);
    InspectsExactly(c, key, d, Identify);
  }

  lemma InspectsExactly(c: Codec, key: string, d: Disk, op: Op)
    requires !d.lock && (op.Read? || op.Identify?)
    ensures Finish(c, key, d, Proc(op, LookLock)) == (d, Done(
      if !Intact(c, key, d) then Refused
      else if op.Identify? then Owner(d.manifest.value.identity)
      else if d.manifest.value.identity == op.identity then Content(d.payload.value) else Refused))
  {
    Onward(c, key, d, Proc(op, LookLock), d, ReadManifest);
    if d.manifest.None? {
      Onward(c, key, d, Proc(op, ReadManifest), d, Done(Refused));
    } else {
      var facts := d.manifest.value;
      Onward(c, key, d, Proc(op, ReadManifest), d, ReadPayload(facts));
      var r := if d.payload.None? then Refused else InspectedRead(c, key, op, facts, d.payload.value);
      Onward(c, key, d, Proc(op, ReadPayload(facts)), d, Done(r));
    }
  }

  /** A save into any directory: into an empty one it writes both files; otherwise it changes nothing, and
      succeeds exactly when what is there agrees and is what it would write. Half of a save, a payload
      without a manifest and a retired artifact are all refused. */
  lemma SavesExactly(c: Codec, key: string, d: Disk, data: Bytes, identity: Identity)
    requires !d.lock && c.keyOf(identity) == key
    ensures var m := Manifest(identity, |data|, c.hash(data), false);
      Finish(c, key, d, Proc(Save(data, identity), Start)) ==
        if d.manifest.None? && d.payload.None? then
          (d.(manifest := Some(m), payload := Some(data), linked := d.linked + [data]), Done(Saved))
        else (d, Done(if Intact(c, key, d) && d.manifest.value == m then Saved else Refused))
  {
    var op, e := Save(data, identity), d.(lock := true);
    Onward(c, key, d, Proc(op, Start), d, TakeLock);
    Onward(c, key, d, Proc(op, TakeLock), e, LookManifest);
    if d.manifest.Some? {
      Onward(c, key, e, Proc(op, LookManifest), e, CheckManifest);
      ChecksExactly(c, key, e, op);
    } else {
      Onward(c, key, e, Proc(op, LookManifest), e, LookPayload);
      if d.payload.Some? {
        Onward(c, key, e, Proc(op, LookPayload), e, CheckManifest);
        ChecksExactly(c, key, e, op);
      } else {
        Onward(c, key, e, Proc(op, LookPayload), e, LinkManifest);
        LinksBoth(c, key, e, op);
      }
    }
  }

  lemma LinksBoth(c: Codec, key: string, e: Disk, op: Op)
    requires e.manifest.None? && e.payload.None? && op.Save?
    ensures var m := Manifest(op.identity, |op.data|, c.hash(op.data), false);
      Finish(c, key, e, Proc(op, LinkManifest)) ==
        (e.(lock := false, manifest := Some(m), payload := Some(op.data), linked := e.linked + [op.data]), Done(Saved))
  {
    var f := e.(manifest := Some(Describe(c, op.data, op.identity)));
    var g := f.(payload := Some(op.data), linked := f.linked + [op.data]);
    Onward(c, key, e, Proc(op, LinkManifest), f, LinkPayload);
    Onward(c, key, f, Proc(op, LinkPayload), g, Unlock(Saved));
    Released(c, key, g, op, Saved);
  }

  lemma ChecksExactly(c: Codec, key: string, e: Disk, op: Op)
    requires op.Save?
    ensures var m := Manifest(op.identity, |op.data|, c.hash(op.data), false);
      Finish(c, key, e, Proc(op, CheckManifest)) == (e.(lock := false), Done(
        if Intact(c, key, e) && e.manifest.value == m then Saved else Refused))
  {
    if e.manifest.None? {
      Onward(c, key, e, Proc(op, CheckManifest), e, Unlock(Refused));
      Released(c, key, e, op, Refused);
    } else {
      var facts := e.manifest.value;
      Onward(c, key, e, Proc(op, CheckManifest), e, CheckPayload(facts));
      var r := if e.payload.None? then Refused else InspectedSave(c, key, op, facts, e.payload.value);
      Onward(c, key, e, Proc(op, CheckPayload(facts)), e, Unlock(r));
      Released(c, key, e, op, r);
    }
  }

  /** A delete in any directory: it retires what agrees, or finishes a retirement that was interrupted, and
      reports whether there still was a payload; anything else it refuses and leaves alone. */
  lemma DeletesExactly(c: Codec, key: string, d: Disk, identity: Identity)
    requires !d.lock
    ensures Finish(c, key, d, Proc(Delete(identity), Start)) ==
      if c.keyOf(identity) == key
         && (Intact(c, key, d) || (IsRetired(d) && c.keyOf(d.manifest.value.identity) == key))
      then (d.(manifest := Some(d.manifest.value.(retired := true)), payload := None), Done(Deleted(d.payload.Some?)))
      else (d, Done(Refused))
  {
    var op, e := Delete(identity), d.(lock := true);
    if c.keyOf(identity) != key {
      Onward(c, key, d, Proc(op, Start), d, Done(Refused));
    } else {
      Onward(c, key, d, Proc(op, Start), d, TakeLock);
      Onward(c, key, d, Proc(op, TakeLock), e, LoadManifest);
      RemovesExactly(c, key, e, op);
    }
  }

  lemma RemovesExactly(c: Codec, key: string, e: Disk, op: Op)
    requires op.Delete?
    ensures Finish(c, key, e, Proc(op, LoadManifest)) ==
      if Intact(c, key, e) || (IsRetired(e) && c.keyOf(e.manifest.value.identity) == key)
      then (e.(lock := false, manifest := Some(e.manifest.value.(retired := true)), payload := None),
            Done(Deleted(e.payload.Some?)))
      else (e.(lock := false), Done(Refused))
  {
    if e.manifest.None? || c.keyOf(e.manifest.value.identity) != key {
      Onward(c, key, e, Proc(op, LoadManifest), e, Unlock(Refused));
      Released(c, key, e, op, Refused);
    } else if IsRetired(e) {
      Onward(c, key, e, Proc(op, LoadManifest), e, LookRetired);
      SoloRemoval(c, key, e, op);
    } else {
      var facts := e.manifest.value;
      Onward(c, key, e, Proc(op, LoadManifest), e, ReloadManifest(facts));
      Onward(c, key, e, Proc(op, ReloadManifest(facts)), e, ReloadPayload(facts, facts));
      if Intact(c, key, e) {
        var f := e.(manifest := Some(facts.(retired := true)));
        Onward(c, key, e, Proc(op, ReloadPayload(facts, facts)), e, Retire(facts));
        Onward(c, key, e, Proc(op, Retire(facts)), f, LookRetired);
        SoloRemoval(c, key, f, op);
      } else {
        Onward(c, key, e, Proc(op, ReloadPayload(facts, facts)), e, Unlock(Refused));
        Released(c, key, e, op, Refused);
      }
    }
  }

  // ------------------------------------------------------------------ against the backends

  lemma SoloSave(c: Codec, key: string, d: Disk, op: Op, l: B.Ledger)
    requires AtRest(c, key, d, l) && op.Save? && c.keyOf(op.identity) == key
    ensures Agrees(c, key, d, op, l)
  {
    SavesExactly(c, key, d, op.data, op.identity);
  }

  lemma SoloRead(c: Codec, key: string, d: Disk, op: Op, l: B.Ledger)
    requires AtRest(c, key, d, l) && (op.Read? || op.Identify?)
    ensures Agrees(c, key, d, op, l)
  {
    if op.Read? { ReadsExactly(c, key, d, op.identity); } else { IdentifiesExactly(c, key, d); }
  }

  lemma SoloDelete(c: Codec, key: string, d: Disk, op: Op, l: B.Ledger)
    requires AtRest(c, key, d, l) && op.Delete? && KeyInjective(c)
    ensures Agrees(c, key, d, op, l)
  {
    DeletesExactly(c, key, d, op.identity);
  }

  /** Alone and undisturbed, every call of the protocol gives the backend's answer and leaves the
      directory as the backend would. */
  lemma SoloCallIsSequential(c: Codec, key: string, d: Disk, op: Op, l: B.Ledger)
    requires KeyInjective(c) && AtRest(c, key, d, l) && (op.Save? ==> c.keyOf(op.identity) == key)
    ensures Agrees(c, key, d, op, l)
  {
    match op
    case Save(_, _) => SoloSave(c, key, d, op, l);
    case Delete(_) => SoloDelete(c, key, d, op, l);
    case _ => SoloRead(c, key, d, op, l);
  }
}
