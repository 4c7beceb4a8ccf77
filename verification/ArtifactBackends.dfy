/** The two artifact backends, called one operation at a time: the directory-per-key local storage and
    the in-memory mock. Both keep one ledger, so no sequential history can tell them apart. */
module ArtifactBackends {
  import opened Options
  import opened Artifacts

  /** What a backend remembers of one key. */
  datatype Stored = Live(identity: Identity, data: Bytes) | Gone(identity: Identity, data: Bytes)

  type Ledger = map<string, Stored>

  datatype Call =
    | SaveCall(data: Bytes, identity: Identity)
    | ReadCall(key: string, identity: Identity)
    | IdentifyCall(key: string)
    | DeleteCall(key: string, identity: Identity)

  /** The meaning of each operation, whatever the backend. */
  function Meaning(c: Codec, l: Ledger, call: Call): (r: (Ledger, Result)) {
    match call
    case SaveCall(data, identity) =>
      var key := c.keyOf(identity);
      if key !in l then (l[key := Live(identity, data)], Saved)
      else if l[key].Live? && Describe(c, l[key].data, l[key].identity) == Describe(c, data, identity) then (l, Saved)
      else (l, Refused)
    case ReadCall(key, identity) =>
      (l, if key in l && l[key].Live? && l[key].identity == identity then Content(l[key].data) else Refused)
    case IdentifyCall(key) =>
      (l, if key in l && l[key].Live? then Owner(l[key].identity) else Refused)
    case DeleteCall(key, identity) =>
      if key !in l || l[key].identity != identity then (l, Refused)
      else (l[key := Gone(identity, l[key].data)], Deleted(l[key].Live?))
  }

  /** Every key was derived from the identity stored under it. */
  ghost predicate Keyed(c: Codec, l: Ledger) {
    forall key :: key in l ==> c.keyOf(l[key].identity) == key
  }

  // ------------------------------------------------------------------ LocalFileStorage

  datatype Dir = Dir(lock: bool, manifest: Option<Manifest>, payload: Option<Bytes>)

  ghost predicate DirHolds(c: Codec, d: Dir, s: Stored) {
    && d.manifest == Some(Describe(c, s.data, s.identity).(retired := s.Gone?))
    && d.payload == if s.Live? then Some(s.data) else None
  }

  ghost predicate LocalAgrees(c: Codec, dirs: map<string, Dir>, ledger: Ledger) {
    && Keyed(c, ledger)
    && (forall key :: key in ledger ==> key in dirs)
    && (forall key :: key in dirs && key !in ledger ==> dirs[key] == Dir(false, None, None))
    && (forall key :: key in ledger ==> !dirs[key].lock && DirHolds(c, dirs[key], ledger[key]))
  }

  function DirAt(dirs: map<string, Dir>, key: string): (d: Dir) {
    if key in dirs then dirs[key] else Dir(false, None, None)
  }

  /** A live artifact whose manifest and payload verify. */
  predicate LiveDir(c: Codec, key: string, d: Dir) {
    && d.manifest.Some? && d.payload.Some?
    && Verifies(c, d.manifest.value, key, d.payload) && !d.manifest.value.retired
  }

  /** What a delete may remove: a live artifact, or one already retired. */
  predicate Removable(c: Codec, key: string, d: Dir) {
    && d.manifest.Some? && Verifies(c, d.manifest.value, key, None)
    && (d.manifest.value.retired || LiveDir(c, key, d))
  }

  lemma RemovalMeaning(c: Codec, dirs: map<string, Dir>, ledger: Ledger, key: string, identity: Identity)
    requires LocalAgrees(c, dirs, ledger) && KeyInjective(c) && c.keyOf(identity) == key
    ensures var d := DirAt(dirs, key);
      if Removable(c, key, d) then
        var gone := Dir(false, Some(d.manifest.value.(retired := true)), None);
        var l' := ledger[key := Gone(identity, if key in ledger then ledger[key].data else [])];
        && key in ledger && LocalAgrees(c, dirs[key := gone], l')
        && Meaning(c, ledger, DeleteCall(key, identity)) == (l', Deleted(d.payload.Some?))
      else LocalAgrees(c, dirs[key := d], ledger) && Meaning(c, ledger, DeleteCall(key, identity)) == (ledger, Refused)
  {
    if key in ledger {
      assert ledger[key].identity == identity;
      RetireDirAgrees(c, dirs, ledger, key);
    }
  }

  lemma RetireDirAgrees(c: Codec, dirs: map<string, Dir>, ledger: Ledger, key: string)
    requires LocalAgrees(c, dirs, ledger) && key in ledger
    ensures Removable(c, key, dirs[key])
    ensures var gone := Dir(false, Some(dirs[key].manifest.value.(retired := true)), None);
      LocalAgrees(c, dirs[key := gone], ledger[key := Gone(ledger[key].identity, ledger[key].data)])
  {
  }

  class LocalFileStorage {
    const c: Codec
    var dirs: map<string, Dir>
    ghost var ledger: Ledger

    /** Between calls no lock is held and each directory holds what the ledger says. */
    ghost predicate Valid()
      reads this
    {
      LocalAgrees(c, dirs, ledger)
    }

    constructor (c: Codec)
      ensures Valid() && ledger == map[] && this.c == c
    {
      this.c := c;
      dirs, ledger := map[], map[];
    }

    function At(key: string): (d: Dir)
      reads this
    {
      DirAt(dirs, key)
    }

    /** _artifact_writer: create the directory and take the lock, unless it is taken. */
    method EnterWriter(key: string) returns (ok: bool)
      modifies this`dirs
      ensures ok <==> !old(At(key)).lock
      ensures ok ==> dirs == old(dirs)[key := old(At(key)).(lock := true)]
      ensures !ok ==> dirs == old(dirs)[key := old(At(key))]
    {
      dirs := dirs[key := At(key)];
      if dirs[key].lock {
        return false;
      }
      dirs := dirs[key := dirs[key].(lock := true)];
      return true;
    }

    method LeaveWriter(key: string)
      modifies this`dirs
      requires key in dirs
      ensures dirs == old(dirs)[key := old(dirs)[key].(lock := false)]
    {
      dirs := dirs[key := dirs[key].(lock := false)];
    }

    /** _inspect_artifact: the manifest and payload of a live, verified artifact. */
    function Inspect(key: string, locked: bool): (r: Option<(Manifest, Bytes)>)
      reads this
    {
      var d := At(key);
      if (locked || !d.lock) && LiveDir(c, key, d) then Some((d.manifest.value, d.payload.value)) else None
    }

    method SaveArtifact(data: Bytes, identity: Identity) returns (r: Result)
      requires Valid()
      modifies this
      ensures Valid() && (ledger, r) == Meaning(c, old(ledger), SaveCall(data, identity))
    {
      var key := c.keyOf(identity);
      var ok := EnterWriter(key);
      if !ok {
        return Refused;
      }
      var expected := Describe(c, data, identity);
      if dirs[key].manifest.Some? || dirs[key].payload.Some? {
        var found := Inspect(key, true);
        r := if found.None? || found.value.0 != expected then Refused else Saved;
      } else {
        dirs := dirs[key := dirs[key].(manifest := Some(expected))];
        dirs := dirs[key := dirs[key].(payload := Some(data))];
        r := Saved;
        ledger := ledger[key := Live(identity, data)];
      }
      LeaveWriter(key);
    }

    method ArtifactIdentity(key: string) returns (r: Result)
      requires Valid()
      ensures (ledger, r) == Meaning(c, ledger, IdentifyCall(key))
    {
      var found := Inspect(key, false);
      r := if found.None? then Refused else Owner(found.value.0.identity);
    }

    method ReadArtifact(key: string, identity: Identity) returns (r: Result)
      requires Valid()
      ensures (ledger, r) == Meaning(c, ledger, ReadCall(key, identity))
    {
      if key != c.keyOf(identity) {
        return Refused;
      }
      var found := Inspect(key, false);
      r := if found.None? || found.value.0.identity != identity then Refused else Content(found.value.1);
    }

    /** Inside the writer block of a delete: retire a live artifact, then unlink the payload. */
    method RetireAndUnlink(key: string) returns (r: Result)
      requires key in dirs
      modifies this`dirs
      ensures var d := old(dirs)[key];
        if Removable(c, key, d)
        then r == Deleted(d.payload.Some?)
             && dirs == old(dirs)[key := Dir(d.lock, Some(d.manifest.value.(retired := true)), None)]
        else r == Refused && dirs == old(dirs)
    {
      var d := dirs[key];
      if d.manifest.None? || !Verifies(c, d.manifest.value, key, None) {
        return Refused;
      }
      if !d.manifest.value.retired {
        var found := Inspect(key, true);
        if found.None? {
          return Refused;
        }
        d := d.(manifest := Some(d.manifest.value.(retired := true)));
        dirs := dirs[key := d];
      }
      r := Deleted(d.payload.Some?);
      dirs := dirs[key := d.(payload := None)];
    }

    method DeleteArtifact(key: string, identity: Identity) returns (r: Result)
      requires Valid() && KeyInjective(c)
      modifies this
      ensures Valid() && (ledger, r) == Meaning(c, old(ledger), DeleteCall(key, identity))
    {
      if key != c.keyOf(identity) {
        return Refused;
      }
      ghost var was := dirs;
      RemovalMeaning(c, was, ledger, key, identity);
      var ok := EnterWriter(key);
      if !ok {
        return Refused;
      }
      r := RetireAndUnlink(key);
      LeaveWriter(key);
      ghost var d := DirAt(was, key);
      if r.Deleted? {
        assert dirs == was[key := Dir(false, Some(d.manifest.value.(retired := true)), None)];
        ledger := ledger[key := Gone(identity, ledger[key].data)];
      } else {
        assert dirs == was[key := d];
      }
    }
  }

  // ------------------------------------------------------------------ MockFileStorage

  /** The mock's two dictionaries hold what the ledger says. */
  ghost predicate MockAgrees(c: Codec, store: map<string, Bytes>, artifacts: map<string, Manifest>, ledger: Ledger) {
    && Keyed(c, ledger)
    && artifacts.Keys == ledger.Keys
    && (forall key :: key in store ==> key in ledger)
    && (forall key :: key in ledger ==>
         && artifacts[key] == Describe(c, ledger[key].data, ledger[key].identity).(retired := ledger[key].Gone?)
         && (ledger[key].Live? <==> key in store)
         && (key in store ==> store[key] == ledger[key].data))
  }

  lemma RetireAgrees(
    c: Codec, store: map<string, Bytes>, artifacts: map<string, Manifest>, ledger: Ledger, key: string,
    identity: Identity)
    requires MockAgrees(c, store, artifacts, ledger) && key in ledger && ledger[key].identity == identity
    ensures MockAgrees(c, store - {key}, artifacts[key := artifacts[key].(retired := true)],
                       ledger[key := Gone(identity, ledger[key].data)])
  {
  }

  class MockFileStorage {
    const c: Codec
    var store: map<string, Bytes>
    var artifacts: map<string, Manifest>
    ghost var ledger: Ledger

    ghost predicate Valid()
      reads this
    {
      MockAgrees(c, store, artifacts, ledger)
    }

    constructor (c: Codec)
      ensures Valid() && ledger == map[] && this.c == c
    {
      this.c := c;
      store, artifacts, ledger := map[], map[], map[];
    }

    method ArtifactIdentity(key: string) returns (r: Result)
      requires Valid()
      ensures (ledger, r) == Meaning(c, ledger, IdentifyCall(key))
    {
      if key !in artifacts || key !in store {
        return Refused;
      }
      var facts := artifacts[key];
      if facts.retired {
        return Refused;
      }
      r := if Verifies(c, facts, key, Some(store[key])) then Owner(facts.identity) else Refused;
    }

    method ReadArtifact(key: string, identity: Identity) returns (r: Result)
      requires Valid()
      ensures (ledger, r) == Meaning(c, ledger, ReadCall(key, identity))
    {
      r := ArtifactIdentity(key);
      if r != Owner(identity) {
        return Refused;
      }
      return Content(store[key]);
    }

    method SaveArtifact(data: Bytes, identity: Identity) returns (r: Result)
      requires Valid()
      modifies this
      ensures Valid() && (ledger, r) == Meaning(c, old(ledger), SaveCall(data, identity))
    {
      var key := c.keyOf(identity);
      var expected := Describe(c, data, identity);
      if key in artifacts {
        if artifacts[key] != expected {
          return Refused;
        }
        r := ReadArtifact(key, identity);
        if r.Refused? {
          return Refused;
        }
      } else {
        store := store[key := data];
        artifacts := artifacts[key := expected];
        ledger := ledger[key := Live(identity, data)];
      }
      return Saved;
    }

    method DeleteArtifact(key: string, identity: Identity) returns (r: Result)
      requires Valid() && KeyInjective(c)
      modifies this
      ensures Valid() && (ledger, r) == Meaning(c, old(ledger), DeleteCall(key, identity))
    {
      if key != c.keyOf(identity) || key !in artifacts {
        return Refused;
      }
      if !artifacts[key].retired {
        r := ReadArtifact(key, identity);
        if r.Refused? {
          return Refused;
        }
      }
      assert ledger[key].identity == identity;
      RetireAgrees(c, store, artifacts, ledger, key, identity);
      var existed := key in store;
      artifacts, store := artifacts[key := artifacts[key].(retired := true)], store - {key};
      ledger := ledger[key := Gone(identity, ledger[key].data)];
      return Deleted(existed);
    }
  }

  // ------------------------------------------------------------------ the same history on both

  /** What a history answers, starting from nothing stored. */
  function Answers(c: Codec, history: seq<Call>): (r: (Ledger, seq<Result>)) {
    if history == [] then (map[], [])
    else
      var (l, answers) := Answers(c, history[..|history| - 1]);
      var (l', r) := Meaning(c, l, history[|history| - 1]);
      (l', answers + [r])
  }

  function Answer(c: Codec, history: seq<Call>): (r: Result)
    requires history != []
  {
    var answers := Answers(c, history).1;
    AnswersToAll(c, history);
    answers[|history| - 1]
  }

  lemma {:induction false} AnswersToAll(c: Codec, history: seq<Call>)
    ensures |Answers(c, history).1| == |history|
  {
    if history != [] { AnswersToAll(c, history[..|history| - 1]); }
  }

  lemma AnswerAfter(c: Codec, history: seq<Call>, call: Call)
    ensures Answers(c, history + [call]).0 == Meaning(c, Answers(c, history).0, call).0
    ensures Answer(c, history + [call]) == Meaning(c, Answers(c, history).0, call).1
  {
    assert (history + [call])[..|history|] == history;
    AnswersToAll(c, history);
  }

  /** What an artifact answers between its save, after any history that never saved under its key, and its
      deletion: the same bytes may be saved again, bytes of another digest may not; its owner reads it. */
  lemma LiveAnswers(c: Codec, history: seq<Call>, identity: Identity, data: Bytes, more: Bytes)
    requires c.keyOf(identity) !in Answers(c, history).0 && c.hash(more) != c.hash(data)
    ensures var saved, key := history + [SaveCall(data, identity)], c.keyOf(identity);
      && Answer(c, saved) == Answer(c, saved + [SaveCall(data, identity)]) == Saved
      && Answer(c, saved + [SaveCall(more, identity)]) == Refused
      && Answer(c, saved + [ReadCall(key, identity)]) == Content(data)
      && Answer(c, saved + [IdentifyCall(key)]) == Owner(identity)
      && Answers(c, saved).0 == Answers(c, history).0[key := Live(identity, data)]
  {
    var saved, key := history + [SaveCall(data, identity)], c.keyOf(identity);
    AnswerAfter(c, history, SaveCall(data, identity));
    AnswerAfter(c, saved, SaveCall(data, identity));
    AnswerAfter(c, saved, SaveCall(more, identity));
    AnswerAfter(c, saved, ReadCall(key, identity));
    AnswerAfter(c, saved, IdentifyCall(key));
  }

  /** Nobody else reads or deletes it, and what was never saved can be neither read, nor identified, nor
      deleted. */
  lemma StrangersAreRefused(c: Codec, history: seq<Call>, call: Call)
    requires call.ReadCall? || call.DeleteCall? || call.IdentifyCall?
    requires call.key in Answers(c, history).0 ==>
      !call.IdentifyCall? && Answers(c, history).0[call.key].identity != call.identity
    ensures Answer(c, history + [call]) == Refused && Answers(c, history + [call]).0 == Answers(c, history).0
  {
    AnswerAfter(c, history, call);
  }

  /** Its owner's first delete reports the payload removed, every later one that it was gone; after the first
      nothing brings it back. */
  lemma DeletedAnswers(c: Codec, history: seq<Call>, key: string, identity: Identity, data: Bytes, more: Bytes)
    requires key in Answers(c, history).0 && Answers(c, history).0[key] == Live(identity, data)
    requires c.keyOf(identity) == key
    ensures var gone := history + [DeleteCall(key, identity)];
      && Answer(c, gone) == Deleted(true) && Answer(c, gone + [DeleteCall(key, identity)]) == Deleted(false)
      && Answer(c, gone + [ReadCall(key, identity)]) == Answer(c, gone + [IdentifyCall(key)]) == Refused
      && Answer(c, gone + [SaveCall(more, identity)]) == Refused
      && Answers(c, gone).0 == Answers(c, history).0[key := Gone(identity, data)]
  {
    var gone := history + [DeleteCall(key, identity)];
    AnswerAfter(c, history, DeleteCall(key, identity));
    AnswerAfter(c, gone, DeleteCall(key, identity));
    AnswerAfter(c, gone, ReadCall(key, identity));
    AnswerAfter(c, gone, IdentifyCall(key));
    AnswerAfter(c, gone, SaveCall(more, identity));
  }

  /** On every sequential history the two backends give the same result, or the same refusal,
      to every call. */
  method Replay(c: Codec, history: seq<Call>) returns (locals: seq<Result>, mocks: seq<Result>)
    requires KeyInjective(c)
    ensures locals == mocks == Answers(c, history).1
  {
    var a := new LocalFileStorage(c);
    var b := new MockFileStorage(c);
    locals, mocks := [], [];
    for n := 0 to |history|
      invariant fresh(a) && fresh(b) && a.Valid() && b.Valid() && a.c == b.c == c
      invariant a.ledger == b.ledger && (a.ledger, locals) == Answers(c, history[..n]) && locals == mocks
    {
      assert history[..n + 1][..n] == history[..n];
      var x, y: Result;
      match history[n] {
        case SaveCall(data, identity) =>
          x := a.SaveArtifact(data, identity);
          y := b.SaveArtifact(data, identity);
        case ReadCall(key, identity) =>
          x := a.ReadArtifact(key, identity);
          y := b.ReadArtifact(key, identity);
        case IdentifyCall(key) =>
          x := a.ArtifactIdentity(key);
          y := b.ArtifactIdentity(key);
        case DeleteCall(key, identity) =>
          x := a.DeleteArtifact(key, identity);
          y := b.DeleteArtifact(key, identity);
      }
      locals, mocks := locals + [x], mocks + [y];
    }
    assert history[..|history|] == history;
  }
}
