/** Release tooling against a create-only remote: claiming a tag, preserving build evidence and
    publishing, uploading the product manifest. Any number of invocations run at once; every write may
    commit with or without an acknowledgement, and any invocation may stop at any call. */
module ReleaseRemote {
  import opened Options
  import opened Text

  type Bytes = seq<bv8>

  /** Asset names: component-build.json, component-delivery.json, release.json, or any other. */
  datatype File = RECORD | EVIDENCE | MANIFEST | OTHER(fileName: string)

  datatype Release = Release(tag: string, draft: bool, pre: bool, assets: map<File, Bytes>)

  datatype Ref = Ref(annotated: bool, sha: string)

  datatype TagObject = TagObject(tag: string, commit: bool, target: string, message: string)

  /** `site` is the fixed text between tag and run id in the tag messages of this repository. */
  datatype Remote = Remote(
    site: string, refs: map<string, Ref>, objects: map<string, TagObject>, releases: map<nat, Release>)

  // ------------------------------------------------------------------ who owns a tag

  /** The message that names the run: "Release <tag><site><run>" and a newline. */
  function Message(site: string, tag: string, run: string): (s: string) { "Release " + tag + site + run + "\n" }

  lemma StrippedMessage(site: string, tag: string, run: string)
    requires IsNumeral(run)
    ensures Strip(Message(site, tag, run)) == "Release " + tag + site + run
  {
    var body := "Release " + tag + site + run;
    var m := body + "\n";
    assert m[0] == 'R' && StripLeft(m) == m;
    assert m[..|m| - 1] == body && body[|body| - 1] == run[|run| - 1];
    assert StripRight(m) == StripRight(body) == body;
  }

  predicate Matches(o: TagObject, site: string, tag: string, sha: string, run: string) {
    o.tag == tag && o.commit && o.target == sha && Strip(o.message) == Strip(Message(site, tag, run))
  }

  /** The tag's ref points to an annotated tag of this commit, written by this run. */
  ghost predicate Owns(r: Remote, tag: string, sha: string, run: string) {
    && tag in r.refs && r.refs[tag].annotated && r.refs[tag].sha in r.objects
    && Matches(r.objects[r.refs[tag].sha], r.site, tag, sha, run)
  }

  /** A tag has at most one owner: one commit and one run. */
  lemma OneOwner(r: Remote, tag: string, sha1: string, run1: string, sha2: string, run2: string)
    requires Owns(r, tag, sha1, run1) && Owns(r, tag, sha2, run2) && IsNumeral(run1) && IsNumeral(run2)
    ensures sha1 == sha2 && run1 == run2
  {
    StrippedMessage(r.site, tag, run1);
    StrippedMessage(r.site, tag, run2);
    var head := "Release " + tag + r.site;
    assert run1 == (head + run1)[|head|..];
    assert run2 == (head + run2)[|head|..];
  }

  // ------------------------------------------------------------------ the create-only remote

  predicate Public(r: Remote, id: nat, tag: string) {
    id in r.releases && r.releases[id].tag == tag && !r.releases[id].draft
  }

  /** The remote admits one public release per tag; drafts are unlimited and invisible by tag. */
  ghost predicate OnePublic(r: Remote) {
    forall i, j, tag :: Public(r, i, tag) && Public(r, j, tag) ==> i == j
  }

  /** Nothing is ever deleted or overwritten, and a public release stays public. */
  ghost predicate Grows(r: Remote, s: Remote) {
    && s.site == r.site
    && (forall t :: t in r.refs ==> t in s.refs && s.refs[t] == r.refs[t])
    && (forall o :: o in r.objects ==> o in s.objects && s.objects[o] == r.objects[o])
    && (forall i :: i in r.releases ==> i in s.releases && ReleaseGrows(r.releases[i], s.releases[i]))
  }

  ghost predicate ReleaseGrows(a: Release, b: Release) {
    && b.tag == a.tag && (!a.draft ==> !b.draft)
    && forall n :: n in a.assets ==> n in b.assets && b.assets[n] == a.assets[n]
  }

  predicate Holds(r: Remote, id: nat, name: File, data: Bytes) {
    id in r.releases && name in r.releases[id].assets && r.releases[id].assets[name] == data
  }

  // ------------------------------------------------------------------ invocations

  datatype TagAction = Check | Create | Verify

  datatype Op =
    | ManageTag(action: TagAction, tag: string, sha: string, run: string)
    | Publish(tag: string, sha: string, run: string, record: Bytes, evidence: Bytes)
    | Upload(tag: string, raw: Bytes)

  datatype Pc =
    // manage_tag
    | ReadRef(action: TagAction)
    | ReadObject(ref: Ref)
    | PostObject
    | PostRef(sha: string)
    // publish
    | GetRelease
    | PostRelease
    | ListAssets(id: nat, draft: bool, second: bool)      // second: the evidence file
    | UploadAsset(id: nat, draft: bool, second: bool)
    | RelistAssets(id: nat, draft: bool, second: bool)
    | Download(id: nat, draft: bool, second: bool)
    | PatchRelease(id: nat, draft: bool)
    | ReadBack(id: nat)
    // upload_manifest, `writes` uploads made so far
    | FindRelease
    | FindAsset(id: nat)
    | WriteAsset(id: nat)
    | FindAgain(id: nat)
    | Compare(id: nat, writes: nat)
    | Owned                       // manage_tag returned with the tag present
    | Free                        // a check found no tag
    | Published(id: nat)
    | Confirmed(id: nat, writes: nat)
    | Failed

  datatype Proc = Proc(op: Op, pc: Pc)

  predicate Running(pc: Pc) {
    !(pc.Owned? || pc.Free? || pc.Published? || pc.Confirmed? || pc.Failed?)
  }

  predicate HasRun(op: Op) { !op.Upload? }

  function First(op: Op): (pc: Pc) {
    match op
    case ManageTag(action, _, _, _) => ReadRef(action)
    case Publish(_, _, _, _, _) => ReadRef(Verify)
    case Upload(_, _) => FindRelease
  }

  function AssetName(second: bool): (n: File) { if second then EVIDENCE else RECORD }

  function AssetData(op: Op, second: bool): (d: Bytes)
    requires op.Publish?
  {
    if second then op.evidence else op.record
  }

  /** Answers the remote is free to choose: which release a tag lookup or an upload by tag resolves to,
      the sha or id of something created, whether a write commits and whether it is acknowledged. */
  datatype Answer = Answer(id: nat, sha: string, commits: bool, acked: bool)

  /** What GET releases/tags/{tag} may resolve to: the public release, if any. */
  ghost predicate Lookup(r: Remote, tag: string, found: Option<nat>) {
    if found.Some? then Public(r, found.value, tag) else forall i :: !Public(r, i, tag)
  }

  /** The one thing a write creates. */
  datatype Effect =
    | Nothing
    | AddObject(sha: string, o: TagObject)
    | AddRef(refName: string, ref: Ref)
    | AddRelease(id: nat, tag: string)
    | AddAsset(id: nat, tag: string, name: File, data: Bytes)
    | MakePublic(id: nat)

  /** Create-only: the remote refuses whatever would replace something. An upload by tag lands on some
      release of that tag. */
  ghost predicate Allowed(r: Remote, e: Effect) {
    match e
    case Nothing => true
    case AddObject(sha, o) => sha in r.objects ==> r.objects[sha] == o
    case AddRef(refName, _) => refName !in r.refs
    case AddRelease(id, _) => id !in r.releases
    case AddAsset(id, tag, name, _) => id in r.releases && r.releases[id].tag == tag && name !in r.releases[id].assets
    case MakePublic(id) => id in r.releases && forall i :: Public(r, i, r.releases[id].tag) ==> i == id
  }

  function Apply(r: Remote, e: Effect): (s: Remote) {
    match e
    case Nothing => r
    case AddObject(sha, o) => r.(objects := r.objects[sha := o])
    case AddRef(refName, ref) => r.(refs := r.refs[refName := ref])
    case AddRelease(id, tag) => r.(releases := r.releases[id := Release(tag, true, false, map[])])
    case AddAsset(id, _, name, data) =>
      if id !in r.releases then r
      else r.(releases := r.releases[id := r.releases[id].(assets := r.releases[id].assets[name := data])])
    case MakePublic(id) =>
      if id !in r.releases then r else r.(releases := r.releases[id := r.releases[id].(draft := false)])
  }

  /** The write an invocation's next call asks for. */
  function Write(site: string, p: Proc, a: Answer): (e: Effect) {
    match p.pc
    case PostObject =>
      if p.op.Upload? then Nothing
      else AddObject(a.sha, TagObject(p.op.tag, true, p.op.sha, Message(site, p.op.tag, p.op.run)))
    case PostRef(sha) => AddRef(p.op.tag, Ref(true, sha))
    case PostRelease => AddRelease(a.id, p.op.tag)
    case UploadAsset(_, _, second) =>
      if p.op.Publish? then AddAsset(a.id, p.op.tag, AssetName(second), AssetData(p.op, second)) else Nothing
    case PatchRelease(id, draft) => if draft then MakePublic(id) else Nothing
    case WriteAsset(_) => if p.op.Upload? then AddAsset(a.id, p.op.tag, MANIFEST, p.op.raw) else Nothing
    case _ => Nothing
  }

  /** A full page of assets is refused as incomplete. */
  predicate Listable(r: Remote, id: nat) { id in r.releases && |r.releases[id].assets| < 100 }

  predicate Listed(r: Remote, id: nat, name: File) { id in r.releases && name in r.releases[id].assets }

  /** Where an acknowledged call leads, given the remote it finds (or has just written), for calls whose
      answer the remote has no choice about. */
  ghost function Goes(r: Remote, p: Proc, a: Answer): (pc: Pc) {
    match p.pc
    case ReadRef(action) =>
      if !HasRun(p.op) then Failed
      else if p.op.tag in r.refs then ReadObject(r.refs[p.op.tag])
      else if action.Verify? then Failed else if action.Check? then Free else PostObject
    case ReadObject(ref) =>
      if !HasRun(p.op) || !ref.annotated || ref.sha !in r.objects
         || !Matches(r.objects[ref.sha], r.site, p.op.tag, p.op.sha, p.op.run) then Failed
      else if p.op.Publish? then GetRelease else Owned
    case PostObject => PostRef(a.sha)
    case PostRef(_) => ReadRef(Verify)
    case PostRelease => ListAssets(a.id, true, false)
    case ListAssets(id, draft, second) =>
      if !Listable(r, id) then Failed
      else if Listed(r, id, AssetName(second)) then Download(id, draft, second)
      else UploadAsset(id, draft, second)
    case UploadAsset(id, draft, second) => RelistAssets(id, draft, second)
    case RelistAssets(id, draft, second) =>
      if Listed(r, id, AssetName(second)) then Download(id, draft, second) else Failed
    case Download(id, draft, second) =>
      if !p.op.Publish? || !Holds(r, id, AssetName(second), AssetData(p.op, second)) then Failed
      else if second then PatchRelease(id, draft) else ListAssets(id, draft, true)
    case PatchRelease(id, _) => ReadBack(id)
    case ReadBack(id) => if exists i :: Public(r, i, p.op.tag) then Published(id) else Failed
    case FindAsset(id) =>
      if !Listable(r, id) then Failed else if Listed(r, id, MANIFEST) then Compare(id, 0) else WriteAsset(id)
    case WriteAsset(id) => FindAgain(id)
    case FindAgain(id) => if Listable(r, id) && Listed(r, id, MANIFEST) then Compare(id, 1) else Failed
    case Compare(id, writes) =>
      if p.op.Upload? && Holds(r, id, MANIFEST, p.op.raw) then Confirmed(id, writes) else Failed
    case _ => Failed
  }

  /** A tag lookup finds the public release of the tag, if there is one. */
  ghost predicate Leads(r: Remote, p: Proc, a: Answer, pc: Pc) {
    match p.pc
    case GetRelease =>
      if pc.ListAssets? then pc == ListAssets(pc.id, false, false) && Lookup(r, p.op.tag, Some(pc.id))
      else pc == PostRelease && Lookup(r, p.op.tag, None)
    case FindRelease =>
      if pc.FindAsset? then Lookup(r, p.op.tag, Some(pc.id)) && !r.releases[pc.id].pre
      else pc == Failed && forall i :: Public(r, i, p.op.tag) ==> r.releases[i].pre
    case _ => pc == Goes(r, p, a)
  }

  /** One API call of one invocation. A call that is not acknowledged raises, whether its write
      committed or not; only upload_manifest's own upload survives that. An acknowledged write has
      committed, except that an upload tool's word is not taken for it. */
  ghost predicate Call(r: Remote, p: Proc, a: Answer, s: Remote, pc: Pc) {
    var e := if a.commits then Write(r.site, p, a) else Nothing;
    && Allowed(r, e) && s == Apply(r, e)
    && (a.acked && !p.pc.UploadAsset? && !p.pc.WriteAsset? ==> a.commits)
    && (if a.acked || p.pc.WriteAsset? then Leads(s, p, a, pc) else pc == Failed)
  }

  datatype State = State(remote: Remote, procs: map<nat, Proc>)

  datatype Event =
    | Begin(op: Op)
    | Step(answer: Answer)
    | Stop
    | Foreign                 // somebody else adds to the remote

  ghost predicate Next(s: State, t: State, pid: nat, e: Event) {
    match e
    case Begin(op) =>
      && pid !in s.procs && (HasRun(op) ==> IsNumeral(op.run))
      && t == s.(procs := s.procs[pid := Proc(op, First(op))])
    case Step(a) =>
      && pid in s.procs && Running(s.procs[pid].pc) && pid in t.procs
      && Call(s.remote, s.procs[pid], a, t.remote, t.procs[pid].pc)
      && t.procs == s.procs[pid := Proc(s.procs[pid].op, t.procs[pid].pc)]
    case Stop =>
      && pid in s.procs && Running(s.procs[pid].pc)
      && t == s.(procs := s.procs[pid := Proc(s.procs[pid].op, Failed)])
    case Foreign => t.procs == s.procs && Grows(s.remote, t.remote) && OnePublic(t.remote)
  }

  ghost predicate Linked(s: State, t: State) {
    exists pid, e :: Next(s, t, pid, e)
  }

  /** A run starts from any remote, with no invocation yet. */
  ghost predicate Run(run: seq<State>) {
    && |run| > 0 && OnePublic(run[0].remote) && run[0].procs == map[]
    && forall i :: 0 <= i < |run| - 1 ==> Linked(run[i], run[i + 1])
  }

  // ------------------------------------------------------------------ what each invocation knows

  /** What has been secured by each point: tag ownership first, then the record, then the evidence. */
  ghost predicate ProcOk(r: Remote, p: Proc) {
    && (HasRun(p.op) ==> IsNumeral(p.op.run))
    && match p.pc
       case ReadRef(action) => HasRun(p.op) && (p.op.Publish? ==> action.Verify?)
       case ReadObject(ref) => HasRun(p.op) && p.op.tag in r.refs && r.refs[p.op.tag] == ref
       case PostObject => p.op.ManageTag?
       case PostRef(_) => p.op.ManageTag?
       case GetRelease => Claimed(r, p.op)
       case PostRelease => Claimed(r, p.op)
       case ListAssets(id, draft, second) => Preserving(r, p.op, id, draft, second)
       case UploadAsset(id, draft, second) => Preserving(r, p.op, id, draft, second)
       case RelistAssets(id, draft, second) => Preserving(r, p.op, id, draft, second)
       case Download(id, draft, second) => Preserving(r, p.op, id, draft, second)
       case PatchRelease(id, draft) => Working(r, p.op, id, draft) && Preserved(r, p.op, id)
       case ReadBack(id) => Working(r, p.op, id, false) && Preserved(r, p.op, id)
       case Published(id) => Working(r, p.op, id, false) && Preserved(r, p.op, id)
       case FindRelease => p.op.Upload?
       case FindAsset(id) => p.op.Upload? && Public(r, id, p.op.tag)
       case WriteAsset(id) => p.op.Upload? && Public(r, id, p.op.tag)
       case FindAgain(id) => p.op.Upload? && Public(r, id, p.op.tag)
       case Compare(id, writes) => p.op.Upload? && Public(r, id, p.op.tag) && writes <= 1
       case Confirmed(id, writes) =>
         p.op.Upload? && Public(r, id, p.op.tag) && writes <= 1 && Holds(r, id, MANIFEST, p.op.raw)
       case Owned => p.op.ManageTag? && Owns(r, p.op.tag, p.op.sha, p.op.run)
       case Free => p.op.ManageTag?
       case Failed => true
  }

  ghost predicate Claimed(r: Remote, op: Op) {
    op.Publish? && Owns(r, op.tag, op.sha, op.run)
  }

  ghost predicate Working(r: Remote, op: Op, id: nat, draft: bool) {
    Claimed(r, op) && id in r.releases && r.releases[id].tag == op.tag && (!draft ==> !r.releases[id].draft)
  }

  /** At work on one evidence file; at the second, the record is already stored. */
  ghost predicate Preserving(r: Remote, op: Op, id: nat, draft: bool, second: bool) {
    Working(r, op, id, draft) && (second ==> Holds(r, id, RECORD, op.record))
  }

  ghost predicate Preserved(r: Remote, op: Op, id: nat) {
    op.Publish? && Holds(r, id, RECORD, op.record) && Holds(r, id, EVIDENCE, op.evidence)
  }

  /** Every write the remote allows only adds. */
  lemma WritesOnlyAdd(r: Remote, e: Effect)
    requires Allowed(r, e)
    ensures Grows(r, Apply(r, e))
  {
  }

  lemma WritesKeepOnePublic(r: Remote, e: Effect)
    requires Allowed(r, e) && OnePublic(r)
    ensures OnePublic(Apply(r, e))
  {
    var s := Apply(r, e);
    forall i, j, tag | Public(s, i, tag) && Public(s, j, tag) ensures i == j {
      if e.MakePublic? {
        assert i != e.id ==> Public(r, i, tag);
        assert j != e.id ==> Public(r, j, tag);
      } else {
        assert Public(r, i, tag) && Public(r, j, tag);
      }
    }
  }

  /** What an invocation knows survives any growth of the remote. */
  lemma KnowledgeSurvives(r: Remote, s: Remote, p: Proc)
    requires ProcOk(r, p) && Grows(r, s)
    ensures ProcOk(s, p)
  {
  }

  predicate AboutTag(pc: Pc) { pc.ReadRef? || pc.ReadObject? || pc.PostObject? || pc.PostRef? }

  predicate AboutAssets(pc: Pc) { pc.ListAssets? || pc.UploadAsset? || pc.RelistAssets? || pc.Download? }

  predicate AboutRelease(pc: Pc) { pc.GetRelease? || pc.PostRelease? || pc.PatchRelease? || pc.ReadBack? }

  lemma TagCallEstablishes(r: Remote, p: Proc, a: Answer, s: Remote, pc: Pc)
    requires ProcOk(s, p) && Call(r, p, a, s, pc)
    requires AboutTag(p.pc)
    ensures ProcOk(s, Proc(p.op, pc))
  {
  }

  lemma AssetCallEstablishes(r: Remote, p: Proc, a: Answer, s: Remote, pc: Pc)
    requires ProcOk(s, p) && Call(r, p, a, s, pc)
    requires AboutAssets(p.pc)
    ensures ProcOk(s, Proc(p.op, pc))
  {
  }

  lemma ReleaseCallEstablishes(r: Remote, p: Proc, a: Answer, s: Remote, pc: Pc)
    requires ProcOk(s, p) && Call(r, p, a, s, pc)
    requires AboutRelease(p.pc)
    ensures ProcOk(s, Proc(p.op, pc))
  {
  }

  lemma UploadCallEstablishes(r: Remote, p: Proc, a: Answer, s: Remote, pc: Pc)
    requires ProcOk(s, p) && Call(r, p, a, s, pc)
    requires !AboutTag(p.pc) && !AboutAssets(p.pc) && !AboutRelease(p.pc)
    ensures ProcOk(s, Proc(p.op, pc))
  {
  }

  /** The call establishes what the next point relies on. */
  lemma CallEstablishes(r: Remote, p: Proc, a: Answer, s: Remote, pc: Pc)
    requires ProcOk(s, p) && Call(r, p, a, s, pc)
    ensures ProcOk(s, Proc(p.op, pc))
  {
    if AboutTag(p.pc) {
      TagCallEstablishes(r, p, a, s, pc);
    } else if AboutAssets(p.pc) {
      AssetCallEstablishes(r, p, a, s, pc);
    } else if AboutRelease(p.pc) {
      ReleaseCallEstablishes(r, p, a, s, pc);
    } else {
      UploadCallEstablishes(r, p, a, s, pc);
    }
  }

  ghost predicate Inv(s: State) {
    OnePublic(s.remote) && forall i :: i in s.procs ==> ProcOk(s.remote, s.procs[i])
  }

  lemma GrowsTransitive(a: Remote, b: Remote, c: Remote)
    requires Grows(a, b) && Grows(b, c)
    ensures Grows(a, c)
  {
  }

  lemma NextKeepsInv(s: State, t: State, pid: nat, e: Event)
    requires Inv(s) && Next(s, t, pid, e)
    ensures Inv(t) && Grows(s.remote, t.remote)
  {
    if e.Step? {
      var p := s.procs[pid];
      WritesOnlyAdd(s.remote, if e.answer.commits then Write(s.remote.site, p, e.answer) else Nothing);
      WritesKeepOnePublic(s.remote, if e.answer.commits then Write(s.remote.site, p, e.answer) else Nothing);
      KnowledgeSurvives(s.remote, t.remote, p);
      CallEstablishes(s.remote, p, e.answer, t.remote, t.procs[pid].pc);
    }
    forall i | i in s.procs ensures ProcOk(t.remote, s.procs[i]) {
      KnowledgeSurvives(s.remote, t.remote, s.procs[i]);
    }
  }

  lemma {:induction false} RunInv(run: seq<State>, i: nat)
    requires Run(run) && i < |run|
    ensures Inv(run[i])
  {
    if i > 0 {
      RunInv(run, i - 1);
      assert Linked(run[i - 1], run[i - 1 + 1]);
      var pid, e :| Next(run[i - 1], run[i], pid, e);
      NextKeepsInv(run[i - 1], run[i], pid, e);
    }
  }

  // ------------------------------------------------------------------ what holds of every run

  /** Nothing stored ever changes, and an invocation that has returned stays as it returned. */
  lemma {:induction false} RemoteOnlyGrows(run: seq<State>, i: nat, j: nat)
    requires Run(run) && i <= j < |run|
    ensures Grows(run[i].remote, run[j].remote)
    ensures forall pid :: pid in run[i].procs ==> pid in run[j].procs
    ensures forall pid :: pid in run[i].procs && !Running(run[i].procs[pid].pc) ==>
      run[j].procs[pid] == run[i].procs[pid]
    decreases j
  {
    if i < j {
      RemoteOnlyGrows(run, i, j - 1);
      RunInv(run, j - 1);
      assert Linked(run[j - 1], run[j - 1 + 1]);
      var pid, e :| Next(run[j - 1], run[j], pid, e);
      NextKeepsInv(run[j - 1], run[j], pid, e);
      GrowsTransitive(run[i].remote, run[j - 1].remote, run[j].remote);
    }
  }

  ghost predicate At(s: State, pid: nat, op: Op, pc: Pc) {
    pid in s.procs && s.procs[pid] == Proc(op, pc)
  }

  /** A confirmed upload wrote at most once, and the tag's public release holds exactly its bytes, then
      and ever after; two confirmations for one tag, whenever made, agree byte for byte. */
  lemma ConfirmationsAgree(
    run: seq<State>, i: nat, j: nat, p: nat, q: nat, a: Op, b: Op, x: nat, y: nat, m: nat, n: nat)
    requires Run(run) && i <= j < |run|
    requires At(run[i], p, a, Confirmed(x, m)) && At(run[j], q, b, Confirmed(y, n))
    ensures a.Upload? && b.Upload? && m <= 1 && n <= 1
    ensures Public(run[j].remote, x, a.tag) && Holds(run[j].remote, x, MANIFEST, a.raw)
    ensures a.tag == b.tag ==> x == y && a.raw == b.raw
  {
    RemoteOnlyGrows(run, i, j);
    RunInv(run, j);
    assert ProcOk(run[j].remote, run[j].procs[p]);
    assert ProcOk(run[j].remote, run[j].procs[q]);
  }

  /** Past its own upload, `upload_manifest` only looks. */
  predicate Looking(pc: Pc) { pc.FindAgain? || pc.Compare? || pc.Confirmed? || pc.Failed? }

  lemma LookingStays(s: State, t: State, pid: nat, other: nat, e: Event)
    requires Next(s, t, other, e) && pid in s.procs && s.procs[pid].op.Upload?
    ensures pid in t.procs && t.procs[pid].op == s.procs[pid].op
    ensures Looking(s.procs[pid].pc) ==> Looking(t.procs[pid].pc)
    ensures s.procs[pid].pc.WriteAsset? ==> t.procs[pid] == s.procs[pid] || Looking(t.procs[pid].pc)
  {
  }

  /** One invocation uploads at most once: after the step that takes it past its upload, whether that
      write committed and whether it was acknowledged, it never stands at an upload again. */
  lemma {:induction false} UploadWritesOnce(run: seq<State>, i: nat, j: nat, pid: nat)
    requires Run(run) && i < j < |run|
    requires pid in run[i].procs && run[i].procs[pid].op.Upload? && run[i].procs[pid].pc.WriteAsset?
    requires pid in run[i + 1].procs && run[i + 1].procs[pid] != run[i].procs[pid]
    ensures pid in run[j].procs && run[j].procs[pid].op == run[i].procs[pid].op && Looking(run[j].procs[pid].pc)
    decreases j
  {
    if i + 1 < j { UploadWritesOnce(run, i, j - 1, pid); }
    LookingInRun(run, j, pid);
  }

  lemma LookingInRun(run: seq<State>, j: nat, pid: nat)
    requires Run(run) && 0 < j < |run| && pid in run[j - 1].procs && run[j - 1].procs[pid].op.Upload?
    ensures
      && pid in run[j].procs && run[j].procs[pid].op == run[j - 1].procs[pid].op
      && (Looking(run[j - 1].procs[pid].pc) ==> Looking(run[j].procs[pid].pc))
      && (run[j - 1].procs[pid].pc.WriteAsset? ==>
            run[j].procs[pid] == run[j - 1].procs[pid] || Looking(run[j].procs[pid].pc))
  {
    assert Linked(run[j - 1], run[j - 1 + 1]);
    var other, e :| Next(run[j - 1], run[j], other, e);
    LookingStays(run[j - 1], run[j], pid, other, e);
  }

  /** In every run the step of an invocation that makes a release public is a publish whose tag is claimed
      by its own commit and run, and which finds both evidence files stored with exactly its bytes. */
  lemma PublicOnlyAfterEvidence(run: seq<State>, k: nat, pid: nat, answer: Answer, id: nat)
    requires Run(run) && k + 1 < |run| && Next(run[k], run[k + 1], pid, Step(answer))
    requires id in run[k].remote.releases && run[k].remote.releases[id].draft
    requires id in run[k + 1].remote.releases && !run[k + 1].remote.releases[id].draft
    ensures var r, p := run[k].remote, run[k].procs[pid];
      && p.op.Publish? && p.pc == PatchRelease(id, true)
      && Preserved(r, p.op, id) && Claimed(r, p.op)
  {
    RunInv(run, k);
    EvidenceBefore(run[k], run[k + 1], pid, answer, id);
  }

  lemma EvidenceBefore(s: State, t: State, pid: nat, answer: Answer, id: nat)
    requires Inv(s) && Next(s, t, pid, Step(answer))
    requires id in s.remote.releases && s.remote.releases[id].draft
    requires id in t.remote.releases && !t.remote.releases[id].draft
    ensures s.procs[pid].op.Publish? && s.procs[pid].pc == PatchRelease(id, true)
    ensures Preserved(s.remote, s.procs[pid].op, id) && Claimed(s.remote, s.procs[pid].op)
  {
    var p := s.procs[pid];
    OnlyPatchPublishes(s.remote, p, answer, t.remote, t.procs[pid].pc, id);
    assert ProcOk(s.remote, p);
  }

  lemma OnlyPatchPublishes(r: Remote, p: Proc, a: Answer, s: Remote, pc: Pc, id: nat)
    requires Call(r, p, a, s, pc)
    requires id in r.releases && r.releases[id].draft && id in s.releases && !s.releases[id].draft
    ensures p.pc == PatchRelease(id, true)
  {
    assert Write(r.site, p, a) == MakePublic(id);
  }

  /** A publish that returned left a public release of its tag holding both files, for good; two that
      returned for one tag had the same commit, run, record and evidence. */
  lemma PublicationsAgree(run: seq<State>, i: nat, j: nat, p: nat, q: nat, a: Op, b: Op, x: nat, y: nat)
    requires Run(run) && i <= j < |run|
    requires At(run[i], p, a, Published(x)) && At(run[j], q, b, Published(y))
    ensures a.Publish? && Public(run[j].remote, x, a.tag) && Preserved(run[j].remote, a, x)
    ensures b.Publish? && (a.tag == b.tag ==> x == y && a == b)
  {
    RemoteOnlyGrows(run, i, j);
    RunInv(run, j);
    PublishedFacts(run[j].remote, a, x);
    PublishedFacts(run[j].remote, b, y);
    if a.tag == b.tag {
      OneOwner(run[j].remote, a.tag, a.sha, a.run, b.sha, b.run);
    }
  }

  lemma PublishedFacts(r: Remote, op: Op, id: nat)
    requires ProcOk(r, Proc(op, Published(id)))
    ensures op.Publish? && Public(r, id, op.tag) && Preserved(r, op, id)
    ensures Owns(r, op.tag, op.sha, op.run) && IsNumeral(op.run)
  {
  }

  /** The pair of commit and run an invocation has seen to own its tag. */
  predicate Claims(p: Proc) {
    p.pc.Owned? || p.pc.GetRelease? || p.pc.PostRelease? || p.pc.PatchRelease? || p.pc.ReadBack? || p.pc.Published?
  }

  /** Over every run at most one (commit, run) pair owns a tag, whoever asks and whenever. */
  lemma OneOwnerPerTag(run: seq<State>, i: nat, j: nat, p: nat, q: nat, a: Proc, b: Proc)
    requires Run(run) && i <= j < |run|
    requires p in run[i].procs && run[i].procs[p] == a && q in run[j].procs && run[j].procs[q] == b
    requires Claims(a) && Claims(b) && a.op.tag == b.op.tag
    ensures HasRun(a.op) && HasRun(b.op) && a.op.sha == b.op.sha && a.op.run == b.op.run
  {
    RemoteOnlyGrows(run, i, j);
    RunInv(run, i);
    RunInv(run, j);
    KnowledgeSurvives(run[i].remote, run[j].remote, a);
    ClaimOwns(run[j].remote, a);
    ClaimOwns(run[j].remote, b);
    OneOwner(run[j].remote, a.op.tag, a.op.sha, a.op.run, b.op.sha, b.op.run);
  }

  lemma ClaimOwns(r: Remote, p: Proc)
    requires ProcOk(r, p) && Claims(p)
    ensures HasRun(p.op) && Owns(r, p.op.tag, p.op.sha, p.op.run) && IsNumeral(p.op.run)
  {
  }

  // ------------------------------------------------------------------ the work gets done

  /** Given what the remote answers, a step has one outcome. */
  lemma OneOutcome(s: State, t: State, u: State, pid: nat, a: Answer)
    requires OnePublic(t.remote) && Next(s, t, pid, Step(a)) && Next(s, u, pid, Step(a))
    ensures t == u
  {
    var p := s.procs[pid];
    assert t.remote == u.remote;
    if a.acked || p.pc.WriteAsset? { OneLead(t.remote, p, a, t.procs[pid].pc, u.procs[pid].pc); }
  }

  lemma OneLead(r: Remote, p: Proc, a: Answer, x: Pc, y: Pc)
    requires OnePublic(r) && Leads(r, p, a, x) && Leads(r, p, a, y)
    ensures x == y
  {
    if p.pc.GetRelease? {
      OneRelease(r, p, a, x, y);
    } else if p.pc.FindRelease? {
      OneFound(r, p, a, x, y);
    }
  }

  lemma OneRelease(r: Remote, p: Proc, a: Answer, x: Pc, y: Pc)
    requires OnePublic(r) && Leads(r, p, a, x) && Leads(r, p, a, y) && p.pc.GetRelease?
    ensures x == y
  {
    assert x.ListAssets? ==> Public(r, x.id, p.op.tag);
    assert y.ListAssets? ==> Public(r, y.id, p.op.tag);
  }

  lemma OneFound(r: Remote, p: Proc, a: Answer, x: Pc, y: Pc)
    requires OnePublic(r) && Leads(r, p, a, x) && Leads(r, p, a, y) && p.pc.FindRelease?
    ensures x == y
  {
    assert x.FindAsset? ==> Public(r, x.id, p.op.tag);
    assert y.FindAsset? ==> Public(r, y.id, p.op.tag);
  }

  /** The remote commits every write and acknowledges every call. */
  function Good(id: nat, sha: string): (a: Answer) { Answer(id, sha, true, true) }

  /** Some run leads from remote `r`, with no invocation yet, to this state. */
  ghost predicate Leading(r: Remote, s: State) {
    exists run :: Run(run) && run[0] == State(r, map[]) && run[|run| - 1] == s
  }

  lemma LeadOn(r: Remote, s: State, t: State)
    requires Leading(r, s) && Linked(s, t)
    ensures Leading(r, t)
  {
    var run :| Run(run) && run[0] == State(r, map[]) && run[|run| - 1] == s;
    var more := run + [t];
    forall i | 0 <= i < |more| - 1 ensures Linked(more[i], more[i + 1]) {
      if i < |run| - 1 { assert Linked(run[i], run[i + 1]); }
    }
    assert more[0] == State(r, map[]) && more[|more| - 1] == t;
  }

  function Alone(r: Remote, op: Op, pc: Pc): (s: State) { State(r, map[0 := Proc(op, pc)]) }

  /** One call of invocation 0, as a step of a run. */
  lemma Perform(start: Remote, op: Op, from: Pc, a: Answer, r: Remote, s: Remote, to: Pc)
    requires Leading(start, Alone(r, op, from)) && Running(from) && Call(r, Proc(op, from), a, s, to)
    ensures Leading(start, Alone(s, op, to))
  {
    assert Next(Alone(r, op, from), Alone(s, op, to), 0, Step(a));
    LeadOn(start, Alone(r, op, from), Alone(s, op, to));
  }

  lemma Started(r: Remote, op: Op)
    requires OnePublic(r) && (HasRun(op) ==> IsNumeral(op.run))
    ensures Leading(r, Alone(r, op, First(op)))
  {
    var run := [State(r, map[])];
    assert Run(run) && run[0] == State(r, map[]);
    assert Next(State(r, map[]), Alone(r, op, First(op)), 0, Begin(op));
    LeadOn(r, State(r, map[]), Alone(r, op, First(op)));
  }

  function WithAsset(r: Remote, id: nat, name: File, data: Bytes): (s: Remote)
    requires id in r.releases
  {
    r.(releases := r.releases[id := r.releases[id].(assets := r.releases[id].assets[name := data])])
  }

  /** A public component release that has room for the product manifest. */
  ghost predicate Open(r: Remote, tag: string, id: nat) {
    OnePublic(r) && Public(r, id, tag) && !r.releases[id].pre && |r.releases[id].assets| < 99
  }

  lemma ManifestFound(start: Remote, s: Remote, tag: string, raw: Bytes, id: nat)
    requires Leading(start, Alone(s, Upload(tag, raw), FindAgain(id))) && Holds(s, id, MANIFEST, raw)
    requires |s.releases[id].assets| < 100
    ensures Leading(start, Alone(s, Upload(tag, raw), Confirmed(id, 1)))
  {
    var op, a := Upload(tag, raw), Good(id, "");
    Perform(start, op, FindAgain(id), a, s, s, Compare(id, 1));
    Perform(start, op, Compare(id, 1), a, s, s, Confirmed(id, 1));
  }

  lemma ManifestMissing(r: Remote, tag: string, raw: Bytes, id: nat)
    requires Open(r, tag, id) && MANIFEST !in r.releases[id].assets
    ensures Leading(r, Alone(r, Upload(tag, raw), WriteAsset(id)))
  {
    var op, a := Upload(tag, raw), Good(id, "");
    Started(r, op);
    Perform(r, op, FindRelease, a, r, r, FindAsset(id));
    Perform(r, op, FindAsset(id), a, r, r, WriteAsset(id));
  }

  /** An upload running alone, from any remote where its tag has a public release without a manifest and
      with room for one, uploads once and confirms its bytes, whether the write that commits is acknowledged
      or not. */
  lemma UploadGetsDone(r: Remote, tag: string, raw: Bytes, id: nat, acked: bool)
    requires Open(r, tag, id) && MANIFEST !in r.releases[id].assets
    ensures var s := WithAsset(r, id, MANIFEST, raw);
      Leading(r, Alone(s, Upload(tag, raw), Confirmed(id, 1))) && Holds(s, id, MANIFEST, raw)
  {
    var s := WithAsset(r, id, MANIFEST, raw);
    ManifestMissing(r, tag, raw, id);
    Perform(r, Upload(tag, raw), WriteAsset(id), Answer(id, "", true, acked), r, s, FindAgain(id));
    ManifestFound(r, s, tag, raw, id);
  }

  /** An upload that was acknowledged but stored nothing is not confirmed. */
  lemma UnstoredUploadFails(r: Remote, tag: string, raw: Bytes, id: nat)
    requires Open(r, tag, id) && MANIFEST !in r.releases[id].assets
    ensures Leading(r, Alone(r, Upload(tag, raw), Failed))
  {
    ManifestMissing(r, tag, raw, id);
    Perform(r, Upload(tag, raw), WriteAsset(id), Answer(id, "", false, true), r, r, FindAgain(id));
    Perform(r, Upload(tag, raw), FindAgain(id), Good(id, ""), r, r, Failed);
  }

  /** Uploading what is already stored writes nothing and confirms it. */
  lemma StoredManifestIsConfirmed(r: Remote, tag: string, raw: Bytes, id: nat)
    requires Open(r, tag, id) && Holds(r, id, MANIFEST, raw)
    ensures Leading(r, Alone(r, Upload(tag, raw), Confirmed(id, 0)))
  {
    var op, a := Upload(tag, raw), Good(id, "");
    Started(r, op);
    Perform(r, op, FindRelease, a, r, r, FindAsset(id));
    Perform(r, op, FindAsset(id), a, r, r, Compare(id, 0));
    Perform(r, op, Compare(id, 0), a, r, r, Confirmed(id, 0));
  }

  /** A manifest goes only to a public release that is not a prerelease. */
  lemma PrereleaseIsRefused(r: Remote, tag: string, raw: Bytes)
    requires OnePublic(r) && forall i :: Public(r, i, tag) ==> r.releases[i].pre
    ensures Leading(r, Alone(r, Upload(tag, raw), Failed))
  {
    Started(r, Upload(tag, raw));
    Perform(r, Upload(tag, raw), FindRelease, Good(0, ""), r, r, Failed);
  }

  /** Other bytes under the manifest's name are refused, and stay. */
  lemma OtherManifestIsRefused(r: Remote, tag: string, raw: Bytes, id: nat)
    requires Open(r, tag, id) && MANIFEST in r.releases[id].assets && !Holds(r, id, MANIFEST, raw)
    ensures Leading(r, Alone(r, Upload(tag, raw), Failed))
  {
    var op, a := Upload(tag, raw), Good(id, "");
    Started(r, op);
    Perform(r, op, FindRelease, a, r, r, FindAsset(id));
    Perform(r, op, FindAsset(id), a, r, r, Compare(id, 0));
    Perform(r, op, Compare(id, 0), a, r, r, Failed);
  }

  // ------------------------------------------------------------------ a tag is created

  /** The remote once this run has created its tag. */
  function WithTag(r: Remote, tag: string, sha: string, run: string, oid: string): (s: Remote) {
    r.(objects := r.objects[oid := TagObject(tag, true, sha, "Release " + tag + r.site + run + "\n")],
       refs := r.refs[tag := Ref(true, oid)])
  }

  /** Creating a tag that does not exist yet ends with the tag owned by this commit and run. */
  lemma CreateGetsDone(r: Remote, tag: string, sha: string, run: string, oid: string)
    requires OnePublic(r) && IsNumeral(run) && tag !in r.refs && oid !in r.objects
    ensures var s := WithTag(r, tag, sha, run, oid);
      && Leading(r, Alone(s, ManageTag(Create, tag, sha, run), Owned))
      && Owns(s, tag, sha, run)
  {
    var op, a := ManageTag(Create, tag, sha, run), Good(0, oid);
    var o := TagObject(tag, true, sha, Message(r.site, tag, run));
    var q, s := r.(objects := r.objects[oid := o]), WithTag(r, tag, sha, run, oid);
    TagIsMissing(r, op);
    Perform(r, op, PostObject, a, r, q, PostRef(oid));
    Perform(r, op, PostRef(oid), a, q, s, ReadRef(Verify));
    TagIsVerified(r, s, op, oid);
  }

  lemma TagIsMissing(r: Remote, op: Op)
    requires OnePublic(r) && op.ManageTag? && op.action.Create? && IsNumeral(op.run) && op.tag !in r.refs
    ensures Leading(r, Alone(r, op, PostObject))
  {
    Started(r, op);
    Perform(r, op, ReadRef(Create), Good(0, ""), r, r, PostObject);
  }

  lemma TagIsVerified(start: Remote, s: Remote, op: Op, oid: string)
    requires Leading(start, Alone(s, op, ReadRef(Verify))) && HasRun(op)
    requires Owns(s, op.tag, op.sha, op.run) && s.refs[op.tag] == Ref(true, oid)
    ensures Leading(start, Alone(s, op, if op.Publish? then GetRelease else Owned))
  {
    Perform(start, op, ReadRef(Verify), Good(0, ""), s, s, ReadObject(s.refs[op.tag]));
    Perform(start, op, ReadObject(s.refs[op.tag]), Good(0, ""), s, s, if op.Publish? then GetRelease else Owned);
  }

  /** Creating a tag that another commit or run owns is refused, and changes nothing. */
  lemma ForeignTagIsRefused(r: Remote, tag: string, sha: string, run: string)
    requires OnePublic(r) && IsNumeral(run) && tag in r.refs && !Owns(r, tag, sha, run)
    ensures Leading(r, Alone(r, ManageTag(Create, tag, sha, run), Failed))
  {
    var op := ManageTag(Create, tag, sha, run);
    Started(r, op);
    Perform(r, op, ReadRef(Create), Good(0, ""), r, r, ReadObject(r.refs[tag]));
    Perform(r, op, ReadObject(r.refs[tag]), Good(0, ""), r, r, Failed);
  }

  // ------------------------------------------------------------------ a release is published

  /** The release that publishing creates, with both files, before and after it is made public. */
  function Built(op: Op, draft: bool): (x: Release)
    requires op.Publish?
  {
    Release(op.tag, draft, false, map[RECORD := op.record, EVIDENCE := op.evidence])
  }

  function WithRelease(r: Remote, id: nat, x: Release): (s: Remote) { r.(releases := r.releases[id := x]) }

  /** One evidence file that is not stored yet: listed, uploaded, listed again and compared. */
  lemma FileIsPreserved(start: Remote, r: Remote, op: Op, id: nat, second: bool, draft: bool)
    requires op.Publish? && Leading(start, Alone(r, op, ListAssets(id, draft, second)))
    requires id in r.releases && r.releases[id].tag == op.tag && |r.releases[id].assets| < 99
    requires AssetName(second) !in r.releases[id].assets
    ensures var s := WithAsset(r, id, if second then EVIDENCE else RECORD, if second then op.evidence else op.record);
      Leading(start, Alone(s, op, if second then PatchRelease(id, draft) else ListAssets(id, draft, true)))
  {
    var s := WithAsset(r, id, if second then EVIDENCE else RECORD, if second then op.evidence else op.record);
    FileIsUploaded(start, r, op, id, second, draft);
    FileIsCompared(start, s, op, id, second, draft);
  }

  lemma FileIsUploaded(start: Remote, r: Remote, op: Op, id: nat, second: bool, draft: bool)
    requires op.Publish? && Leading(start, Alone(r, op, ListAssets(id, draft, second)))
    requires id in r.releases && r.releases[id].tag == op.tag && |r.releases[id].assets| < 99
    requires AssetName(second) !in r.releases[id].assets
    ensures var s := WithAsset(r, id, AssetName(second), AssetData(op, second));
      Leading(start, Alone(s, op, RelistAssets(id, draft, second)))
  {
    var s := WithAsset(r, id, AssetName(second), AssetData(op, second));
    Perform(start, op, ListAssets(id, draft, second), Good(id, ""), r, r, UploadAsset(id, draft, second));
    Perform(start, op, UploadAsset(id, draft, second), Good(id, ""), r, s, RelistAssets(id, draft, second));
  }

  /** Evidence whose upload was acknowledged but stored nothing is refused. */
  lemma UnstoredFileIsRefused(start: Remote, r: Remote, op: Op, id: nat, second: bool, draft: bool)
    requires op.Publish? && Leading(start, Alone(r, op, UploadAsset(id, draft, second)))
    requires id in r.releases && (if second then EVIDENCE else RECORD) !in r.releases[id].assets
    ensures Leading(start, Alone(r, op, Failed))
  {
    var lost := Answer(id, "", false, true);
    Perform(start, op, UploadAsset(id, draft, second), lost, r, r, RelistAssets(id, draft, second));
    Perform(start, op, RelistAssets(id, draft, second), Good(id, ""), r, r, Failed);
  }

  lemma FileIsCompared(start: Remote, s: Remote, op: Op, id: nat, second: bool, draft: bool)
    requires op.Publish? && Leading(start, Alone(s, op, RelistAssets(id, draft, second)))
    requires Holds(s, id, AssetName(second), AssetData(op, second))
    ensures Leading(start, Alone(s, op, if second then PatchRelease(id, draft) else ListAssets(id, draft, true)))
  {
    var to := if second then PatchRelease(id, draft) else ListAssets(id, draft, true);
    Perform(start, op, RelistAssets(id, draft, second), Good(id, ""), s, s, Download(id, draft, second));
    Perform(start, op, Download(id, draft, second), Good(id, ""), s, s, to);
  }

  /** A publish that owns its tag, from a remote without a public release of it, creates one, stores both
      files, and makes it public holding exactly them. */
  lemma PublishGetsDone(r: Remote, op: Op, oid: string, id: nat)
    requires OnePublic(r) && op.Publish? && IsNumeral(op.run) && id !in r.releases
    requires Owns(r, op.tag, op.sha, op.run) && r.refs[op.tag] == Ref(true, oid)
    requires forall i :: !Public(r, i, op.tag)
    ensures var s := WithRelease(r, id, Built(op, false));
      Leading(r, Alone(s, op, Published(id))) && Public(s, id, op.tag) && Preserved(s, op, id)
  {
    var empty := WithRelease(r, id, Release(op.tag, true, false, map[]));
    DraftIsCreated(r, op, oid, id);
    FileIsPreserved(r, empty, op, id, false, true);
    var one := WithAsset(empty, id, RECORD, op.record);
    FileIsPreserved(r, one, op, id, true, true);
    assert WithAsset(one, id, EVIDENCE, op.evidence) == WithRelease(r, id, Built(op, true));
    ReleaseIsPublished(r, r, op, id);
  }

  lemma DraftIsCreated(r: Remote, op: Op, oid: string, id: nat)
    requires OnePublic(r) && op.Publish? && IsNumeral(op.run) && id !in r.releases
    requires Owns(r, op.tag, op.sha, op.run) && r.refs[op.tag] == Ref(true, oid)
    requires forall i :: !Public(r, i, op.tag)
    ensures var empty := WithRelease(r, id, Release(op.tag, true, false, map[]));
      Leading(r, Alone(empty, op, ListAssets(id, true, false)))
  {
    var empty := WithRelease(r, id, Release(op.tag, true, false, map[]));
    Started(r, op);
    TagIsVerified(r, r, op, oid);
    Perform(r, op, GetRelease, Good(id, ""), r, r, PostRelease);
    Perform(r, op, PostRelease, Good(id, ""), r, empty, ListAssets(id, true, false));
  }

  lemma ReleaseIsPublished(start: Remote, r: Remote, op: Op, id: nat)
    requires op.Publish? && id !in r.releases && forall i :: !Public(r, i, op.tag)
    requires Leading(start, Alone(WithRelease(r, id, Built(op, true)), op, PatchRelease(id, true)))
    ensures Leading(start, Alone(WithRelease(r, id, Built(op, false)), op, Published(id)))
  {
    var full, done := WithRelease(r, id, Built(op, true)), WithRelease(r, id, Built(op, false));
    assert forall i :: Public(full, i, op.tag) ==> Public(r, i, op.tag);
    assert Public(done, id, op.tag);
    Perform(start, op, PatchRelease(id, true), Good(id, ""), full, done, ReadBack(id));
    Perform(start, op, ReadBack(id), Good(id, ""), done, done, Published(id));
  }

  lemma StoredFileIsCompared(start: Remote, r: Remote, op: Op, id: nat, second: bool, draft: bool)
    requires op.Publish? && Leading(start, Alone(r, op, ListAssets(id, draft, second)))
    requires id in r.releases && |r.releases[id].assets| < 100 && AssetName(second) in r.releases[id].assets
    ensures var stored := Holds(r, id, if second then EVIDENCE else RECORD, if second then op.evidence else op.record);
      Leading(start, Alone(r, op,
        if !stored then Failed else if second then PatchRelease(id, draft) else ListAssets(id, draft, true)))
  {
    var stored := Holds(r, id, if second then EVIDENCE else RECORD, if second then op.evidence else op.record);
    var to := if !stored then Failed else if second then PatchRelease(id, draft) else ListAssets(id, draft, true);
    Perform(start, op, ListAssets(id, draft, second), Good(id, ""), r, r, Download(id, draft, second));
    Perform(start, op, Download(id, draft, second), Good(id, ""), r, r, to);
  }

  lemma PublicIsFound(r: Remote, op: Op, oid: string, id: nat)
    requires OnePublic(r) && op.Publish? && IsNumeral(op.run) && Public(r, id, op.tag)
    requires Owns(r, op.tag, op.sha, op.run) && r.refs[op.tag] == Ref(true, oid)
    ensures Leading(r, Alone(r, op, ListAssets(id, false, false)))
  {
    Started(r, op);
    TagIsVerified(r, r, op, oid);
    Perform(r, op, GetRelease, Good(id, ""), r, r, ListAssets(id, false, false));
  }

  /** Publishing again what is public already, with both files stored, succeeds without a write; with another
      record stored it is refused. */
  lemma RepublishIsConfirmed(r: Remote, op: Op, oid: string, id: nat)
    requires OnePublic(r) && op.Publish? && IsNumeral(op.run) && Public(r, id, op.tag)
    requires Owns(r, op.tag, op.sha, op.run) && r.refs[op.tag] == Ref(true, oid)
    requires |r.releases[id].assets| < 100 && RECORD in r.releases[id].assets && EVIDENCE in r.releases[id].assets
    ensures Preserved(r, op, id) ==> Leading(r, Alone(r, op, Published(id)))
    ensures r.releases[id].assets[RECORD] != op.record ==> Leading(r, Alone(r, op, Failed))
  {
    PublicIsFound(r, op, oid, id);
    StoredFileIsCompared(r, r, op, id, false, false);
    if Preserved(r, op, id) {
      StoredFileIsCompared(r, r, op, id, true, false);
      Perform(r, op, PatchRelease(id, false), Good(id, ""), r, r, ReadBack(id));
      Perform(r, op, ReadBack(id), Good(id, ""), r, r, Published(id));
    }
  }

  /** Checking a tag succeeds when it does not exist, or is this run's already; verifying needs it to exist. */
  lemma TagIsChecked(r: Remote, tag: string, sha: string, run: string)
    requires OnePublic(r) && IsNumeral(run)
    ensures tag !in r.refs ==> Leading(r, Alone(r, ManageTag(Check, tag, sha, run), Free))
    ensures tag !in r.refs ==> Leading(r, Alone(r, ManageTag(Verify, tag, sha, run), Failed))
    ensures Owns(r, tag, sha, run) ==> Leading(r, Alone(r, ManageTag(Check, tag, sha, run), Owned))
  {
    var check, verify := ManageTag(Check, tag, sha, run), ManageTag(Verify, tag, sha, run);
    Started(r, check);
    if tag !in r.refs {
      Perform(r, check, ReadRef(Check), Good(0, ""), r, r, Free);
      Started(r, verify);
      Perform(r, verify, ReadRef(Verify), Good(0, ""), r, r, Failed);
    } else if Owns(r, tag, sha, run) {
      Perform(r, check, ReadRef(Check), Good(0, ""), r, r, ReadObject(r.refs[tag]));
      Perform(r, check, ReadObject(r.refs[tag]), Good(0, ""), r, r, Owned);
    }
  }
}
