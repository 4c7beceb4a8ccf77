/** E-mail challenges of one tenant, purpose and identity: the issue and verify scripts over their
    four expiring keys, and the limits every run of them keeps. */
module EmailVerification {
  import opened TimedCounters

  const COOLDOWN := 60
  const MAX_TRIES := 5
  const MAX_TOTAL := 30
  const TOTAL_SPAN := 3600

  /** The challenge key: the digest of the issued code. */
  datatype Challenge = Missing | Held(digest: string, expires: nat)

  datatype Cooldown = Never | Until(expires: nat)

  /** The four keys of one identity. */
  datatype Keys = Keys(challenge: Challenge, cooldown: Cooldown, attempts: Counter, total: Counter)

  /** The code is still held. */
  predicate Open(c: Challenge, now: nat) { c.Held? && now < c.expires }

  predicate CoolingDown(k: Keys, now: nat) { k.cooldown.Until? && now < k.cooldown.expires }

  function Issued(k: Keys, now: nat, digest: string, minutes: nat): (k': Keys) {
    Keys(Held(digest, now + minutes * 60), Until(now + COOLDOWN), Absent, k.total)
  }

  /** A submission against an open challenge counts on both counters. */
  function Counted(k: Keys, now: nat): (k': Keys)
    requires Open(k.challenge, now)
    ensures k'.attempts.Live? && k'.total.Live?
  {
    k.(attempts := Incr(k.attempts, now, k.challenge.expires - now), total := Incr(k.total, now, TOTAL_SPAN))
  }

  /** A submission made now is compared: the code is held and both counts are within their limits. */
  predicate Compares(k: Keys, now: nat) {
    Open(k.challenge, now) && Counted(k, now).attempts.count <= MAX_TRIES && Counted(k, now).total.count <= MAX_TOTAL
  }

  predicate Accepts(k: Keys, now: nat, digest: string) {
    Compares(k, now) && k.challenge.digest == digest
  }

  function Submitted(k: Keys, now: nat, digest: string): (k': Keys) {
    if !Open(k.challenge, now) then k
    else if Accepts(k, now, digest) || !Compares(k, now) then Counted(k, now).(challenge := Missing)
    else Counted(k, now)
  }

  // ------------------------------------------------------------------ what has happened

  /** An accepted issue: when, the digest stored, and when it expires. */
  datatype Issue = Issue(time: nat, digest: string, expires: nat)

  /** A submission compared with a stored code: how many codes had been issued by then, when, the digest
      submitted, and the verdict. */
  datatype Comparison = Comparison(serial: nat, time: nat, digest: string, accepted: bool)

  /** The issues and comparisons so far, and behind the comparisons the hits on the total counter. */
  datatype Past = Past(issues: seq<Issue>, comparisons: seq<Comparison>, hits: seq<Hit>, starts: seq<nat>)

  datatype State = State(now: nat, keys: Keys, past: Past)

  datatype Event = Ask(digest: string, minutes: nat) | Submit(digest: string) | Wait(seconds: nat)

  ghost function PastSubmission(k: Keys, p: Past, now: nat, digest: string): (p': Past) {
    if !Open(k.challenge, now) then p
    else
      var starts := StartsAfter(k.total, p.starts, now);
      if !Compares(k, now) then p.(starts := starts)
      else Past(p.issues,
                p.comparisons + [Comparison(|p.issues|, now, digest, Accepts(k, now, digest))],
                p.hits + [Hit(now, if starts == [] then 0 else |starts| - 1, Counted(k, now).total.count)],
                starts)
  }

  /** One call of a script, or the clock going on. */
  ghost function After(s: State, e: Event): (t: State) {
    match e
    case Ask(digest, minutes) =>
      if CoolingDown(s.keys, s.now) then s
      else
        State(s.now, Issued(s.keys, s.now, digest, minutes),
              s.past.(issues := s.past.issues + [Issue(s.now, digest, s.now + minutes * 60)]))
    case Submit(digest) =>
      State(s.now, Submitted(s.keys, s.now, digest), PastSubmission(s.keys, s.past, s.now, digest))
    case Wait(seconds) => s.(now := s.now + seconds)
  }

  /** Where a history of events leads, from empty keys at time `start`. */
  ghost function StateAt(start: nat, history: seq<Event>): (s: State) {
    if history == [] then State(start, Keys(Missing, Never, Absent, Absent), Past([], [], [], []))
    else After(StateAt(start, history[..|history| - 1]), history[|history| - 1])
  }

  // ------------------------------------------------------------------ the promises

  ghost function IssueTimes(issues: seq<Issue>): (r: seq<nat>)
    ensures |r| == |issues| && forall i :: 0 <= i < |r| ==> r[i] == issues[i].time
  {
    if issues == [] then [] else IssueTimes(issues[..|issues| - 1]) + [issues[|issues| - 1].time]
  }

  ghost function ComparedTimes(cs: seq<Comparison>): (r: seq<nat>) {
    if cs == [] then [] else ComparedTimes(cs[..|cs| - 1]) + [cs[|cs| - 1].time]
  }

  /** Submissions compared with one issued code. */
  ghost function Tried(cs: seq<Comparison>, serial: nat): (n: nat) {
    if cs == [] then 0
    else Tried(cs[..|cs| - 1], serial) + if cs[|cs| - 1].serial == serial then 1 else 0
  }

  /** No code is compared more often than its limit. */
  ghost predicate TriesBounded(cs: seq<Comparison>) {
    cs == [] || (TriesBounded(cs[..|cs| - 1]) && Tried(cs, cs[|cs| - 1].serial) <= MAX_TRIES)
  }

  lemma {:induction false} TriedAtMost(cs: seq<Comparison>, serial: nat)
    requires TriesBounded(cs)
    ensures Tried(cs, serial) <= MAX_TRIES
  {
    if cs != [] { TriedAtMost(cs[..|cs| - 1], serial); }
  }

  /** No submission was accepted for this code. */
  ghost predicate Unaccepted(cs: seq<Comparison>, serial: nat) {
    cs == [] ||
      (Unaccepted(cs[..|cs| - 1], serial) && (cs[|cs| - 1].accepted ==> cs[|cs| - 1].serial != serial))
  }

  lemma {:induction false} UnacceptedAt(cs: seq<Comparison>, serial: nat, i: nat)
    requires Unaccepted(cs, serial) && i < |cs| && cs[i].accepted
    ensures cs[i].serial != serial
  {
    if i < |cs| - 1 { UnacceptedAt(cs[..|cs| - 1], serial, i); }
  }

  /** No code is accepted twice. */
  ghost predicate AcceptedOnce(cs: seq<Comparison>) {
    cs == [] ||
      (AcceptedOnce(cs[..|cs| - 1])
       && (cs[|cs| - 1].accepted ==> Unaccepted(cs[..|cs| - 1], cs[|cs| - 1].serial)))
  }

  lemma {:induction false} AcceptedApart(cs: seq<Comparison>, i: nat, j: nat)
    requires AcceptedOnce(cs) && i < j < |cs| && cs[i].accepted && cs[j].accepted
    ensures cs[i].serial != cs[j].serial
  {
    var front := cs[..|cs| - 1];
    if j < |front| {
      AcceptedApart(front, i, j);
    } else {
      UnacceptedAt(front, cs[j].serial, i);
    }
  }

  /** The comparison was with a code issued, still valid and not yet replaced; it was accepted exactly
      when it carried that code's digest. */
  ghost predicate Genuine(c: Comparison, issues: seq<Issue>) {
    && 1 <= c.serial <= |issues|
    && issues[c.serial - 1].time <= c.time < issues[c.serial - 1].expires
    && (c.serial < |issues| ==> c.time <= issues[c.serial].time)
    && (c.accepted <==> c.digest == issues[c.serial - 1].digest)
  }

  ghost predicate AllGenuine(cs: seq<Comparison>, issues: seq<Issue>) {
    cs == [] || (AllGenuine(cs[..|cs| - 1], issues) && Genuine(cs[|cs| - 1], issues))
  }

  lemma {:induction false} GenuineAt(cs: seq<Comparison>, issues: seq<Issue>, i: nat)
    requires AllGenuine(cs, issues) && i < |cs|
    ensures Genuine(cs[i], issues)
  {
    if i < |cs| - 1 { GenuineAt(cs[..|cs| - 1], issues, i); }
  }

  ghost predicate NoneAfter(cs: seq<Comparison>, now: nat) {
    cs == [] || (NoneAfter(cs[..|cs| - 1], now) && cs[|cs| - 1].time <= now)
  }

  lemma {:induction false} TimePasses(cs: seq<Comparison>, now: nat, later: nat)
    requires NoneAfter(cs, now) && now <= later
    ensures NoneAfter(cs, later)
  {
    if cs != [] { TimePasses(cs[..|cs| - 1], now, later); }
  }

  /** The promises of the scripts over a whole history. */
  ghost predicate KeepsLimits(issues: seq<Issue>, cs: seq<Comparison>) {
    Apart(IssueTimes(issues), COOLDOWN) && AllGenuine(cs, issues) && TriesBounded(cs) && AcceptedOnce(cs)
  }

  /** Nothing lies in the future, and the cooldown runs from the last issue. */
  ghost predicate UpToNow(k: Keys, issues: seq<Issue>, cs: seq<Comparison>, now: nat) {
    && (if issues == [] then k.cooldown.Never?
        else issues[|issues| - 1].time <= now && k.cooldown == Until(issues[|issues| - 1].time + COOLDOWN))
    && NoneAfter(cs, now)
  }

  /** A held challenge is the last issue's; the attempts key lives exactly as long as it does, and its
      comparisons are counted there. */
  ghost predicate HeldIsLast(k: Keys, issues: seq<Issue>, cs: seq<Comparison>) {
    k.challenge.Held? ==>
      var tries := if k.attempts.Live? then k.attempts.count else 0;
      && issues != [] && tries <= MAX_TRIES
      && k.challenge == Held(issues[|issues| - 1].digest, issues[|issues| - 1].expires)
      && (k.attempts.Live? ==> k.attempts.expires == k.challenge.expires && k.attempts.count >= 1)
      && Tried(cs, |issues|) <= tries
      && Unaccepted(cs, |issues|)
  }

  /** The keys together with the history that led to them. */
  ghost predicate Sound(s: State) {
    && KeepsLimits(s.past.issues, s.past.comparisons)
    && UpToNow(s.keys, s.past.issues, s.past.comparisons, s.now)
    && HeldIsLast(s.keys, s.past.issues, s.past.comparisons)
    && At(s.past.hits, ComparedTimes(s.past.comparisons))
    && Tracks(s.keys.total, s.past.hits, s.past.starts, TOTAL_SPAN, MAX_TOTAL, s.now)
  }

  /** Earlier comparisons are genuine also after a further issue, and none was with its code. */
  lemma {:induction false} GenuineStays(cs: seq<Comparison>, issues: seq<Issue>, issue: Issue)
    requires AllGenuine(cs, issues) && NoneAfter(cs, issue.time)
    ensures AllGenuine(cs, issues + [issue]) && Tried(cs, |issues| + 1) == 0 && Unaccepted(cs, |issues| + 1)
  {
    if cs != [] { GenuineStays(cs[..|cs| - 1], issues, issue); }
  }

  /** A further issue, a minute or more after the last, keeps the promises. */
  lemma AppendIssue(issues: seq<Issue>, cs: seq<Comparison>, issue: Issue)
    requires KeepsLimits(issues, cs) && NoneAfter(cs, issue.time)
    requires issues != [] ==> issues[|issues| - 1].time + COOLDOWN <= issue.time
    ensures KeepsLimits(issues + [issue], cs) && Tried(cs, |issues| + 1) == 0 && Unaccepted(cs, |issues| + 1)
  {
    assert (issues + [issue])[..|issues|] == issues;
    assert IssueTimes(issues + [issue])[..|issues|] == IssueTimes(issues);
    GenuineStays(cs, issues, issue);
  }

  lemma AppendComparison(issues: seq<Issue>, cs: seq<Comparison>, c: Comparison, tries: nat)
    requires KeepsLimits(issues, cs) && Genuine(c, issues) && tries <= MAX_TRIES
    requires Tried(cs, c.serial) < tries && Unaccepted(cs, c.serial)
    ensures KeepsLimits(issues, cs + [c]) && Tried(cs + [c], c.serial) <= tries
    ensures !c.accepted ==> Unaccepted(cs + [c], c.serial)
  {
    var longer := cs + [c];
    assert longer[..|cs|] == cs;
  }

  lemma NewIssueIsHeld(k: Keys, issues: seq<Issue>, cs: seq<Comparison>, now: nat, digest: string, minutes: nat)
    requires Tried(cs, |issues| + 1) == 0 && Unaccepted(cs, |issues| + 1) && NoneAfter(cs, now)
    ensures var k', more := Issued(k, now, digest, minutes), issues + [Issue(now, digest, now + minutes * 60)];
      HeldIsLast(k', more, cs) && UpToNow(k', more, cs, now)
  {
  }

  lemma IssueKeepsLimits(k: Keys, p: Past, now: nat, issue: Issue)
    requires KeepsLimits(p.issues, p.comparisons) && UpToNow(k, p.issues, p.comparisons, now)
    requires !CoolingDown(k, now) && issue.time == now
    ensures KeepsLimits(p.issues + [issue], p.comparisons)
    ensures Tried(p.comparisons, |p.issues| + 1) == 0 && Unaccepted(p.comparisons, |p.issues| + 1)
  {
    AppendIssue(p.issues, p.comparisons, issue);
  }

  lemma AcceptedIssueKeepsLimits(s: State, digest: string, minutes: nat)
    requires Sound(s) && !CoolingDown(s.keys, s.now)
    ensures var t := After(s, Ask(digest, minutes)); KeepsLimits(t.past.issues, t.past.comparisons)
  {
    IssueKeepsLimits(s.keys, s.past, s.now, Issue(s.now, digest, s.now + minutes * 60));
  }

  lemma AcceptedIssueIsHeld(s: State, digest: string, minutes: nat)
    requires Sound(s) && !CoolingDown(s.keys, s.now)
    ensures var t := After(s, Ask(digest, minutes));
      && UpToNow(t.keys, t.past.issues, t.past.comparisons, t.now)
      && HeldIsLast(t.keys, t.past.issues, t.past.comparisons)
  {
    IssueKeepsLimits(s.keys, s.past, s.now, Issue(s.now, digest, s.now + minutes * 60));
    NewIssueIsHeld(s.keys, s.past.issues, s.past.comparisons, s.now, digest, minutes);
  }

  /** Issuing keeps the promises, refused during the cooldown or not. */
  lemma IssueKeepsSound(s: State, digest: string, minutes: nat)
    requires Sound(s)
    ensures Sound(After(s, Ask(digest, minutes)))
  {
    if !CoolingDown(s.keys, s.now) {
      AcceptedIssueKeepsLimits(s, digest, minutes);
      AcceptedIssueIsHeld(s, digest, minutes);
    }
  }

  /** Counting an attempt leaves room for exactly this comparison. */
  lemma AttemptCounts(s: State)
    requires Sound(s) && Open(s.keys.challenge, s.now)
    ensures Tried(s.past.comparisons, |s.past.issues|) < Counted(s.keys, s.now).attempts.count
    ensures Counted(s.keys, s.now).attempts.expires == s.keys.challenge.expires
  {
  }

  lemma HitsStayTracked(s: State, digest: string)
    requires Sound(s) && Open(s.keys.challenge, s.now)
    ensures var p' := PastSubmission(s.keys, s.past, s.now, digest);
      && Tracks(Counted(s.keys, s.now).total, p'.hits, p'.starts, TOTAL_SPAN, MAX_TOTAL, s.now)
      && At(p'.hits, ComparedTimes(p'.comparisons))
  {
    IncrTracks(s.keys.total, s.past.hits, s.past.starts, TOTAL_SPAN, MAX_TOTAL, s.now);
    if Compares(s.keys, s.now) {
      var p' := PastSubmission(s.keys, s.past, s.now, digest);
      AtAppended(s.past.hits, ComparedTimes(s.past.comparisons), p'.hits[|s.past.hits|]);
      assert p'.comparisons[..|s.past.comparisons|] == s.past.comparisons;
    }
  }

  lemma ComparisonsStayWithinLimits(s: State, digest: string)
    requires Sound(s) && Compares(s.keys, s.now)
    ensures var p' := PastSubmission(s.keys, s.past, s.now, digest);
      && KeepsLimits(s.past.issues, p'.comparisons)
      && HeldIsLast(Submitted(s.keys, s.now, digest), s.past.issues, p'.comparisons)
  {
    AttemptCounts(s);
    var c := Comparison(|s.past.issues|, s.now, digest, Accepts(s.keys, s.now, digest));
    assert Genuine(c, s.past.issues);
    AppendComparison(s.past.issues, s.past.comparisons, c, Counted(s.keys, s.now).attempts.count);
  }

  /** A submission keeps the promises, whether it is compared or not. */
  lemma SubmissionKeepsSound(s: State, digest: string)
    requires Sound(s)
    ensures Sound(After(s, Submit(digest)))
  {
    if Open(s.keys.challenge, s.now) {
      HitsStayTracked(s, digest);
      if Compares(s.keys, s.now) { ComparisonsStayWithinLimits(s, digest); }
    }
  }

  lemma WaitKeepsSound(s: State, seconds: nat)
    requires Sound(s)
    ensures Sound(After(s, Wait(seconds)))
  {
    TimePasses(s.past.comparisons, s.now, s.now + seconds);
  }

  lemma {:induction false} EveryHistoryIsSound(start: nat, history: seq<Event>)
    ensures Sound(StateAt(start, history))
  {
    if history != [] {
      var front, e := history[..|history| - 1], history[|history| - 1];
      EveryHistoryIsSound(start, front);
      match e
      case Ask(digest, minutes) => IssueKeepsSound(StateAt(start, front), digest, minutes);
      case Submit(digest) => SubmissionKeepsSound(StateAt(start, front), digest);
      case Wait(seconds) => WaitKeepsSound(StateAt(start, front), seconds);
    }
  }

  /** Over every history of issues, submissions and waits: a code is compared at most five times and
      accepted at most once; issues are at least a minute apart. */
  lemma EveryHistoryKeepsLimits(start: nat, history: seq<Event>, serial: nat, i: nat, j: nat)
    ensures var p := StateAt(start, history).past;
      && Tried(p.comparisons, serial) <= 5
      && (i < j < |p.comparisons| && p.comparisons[i].accepted && p.comparisons[j].accepted ==>
            p.comparisons[i].serial != p.comparisons[j].serial)
      && (i < j < |p.issues| ==> p.issues[i].time + 60 <= p.issues[j].time)
  {
    EveryHistoryIsSound(start, history);
    var p := StateAt(start, history).past;
    TriedAtMost(p.comparisons, serial);
    if i < j < |p.comparisons| && p.comparisons[i].accepted && p.comparisons[j].accepted {
      AcceptedApart(p.comparisons, i, j);
    }
    if i < j < |p.issues| { StartsApart(IssueTimes(p.issues), COOLDOWN, i, j); }
  }

  /** Over every history: what is compared is compared within the lifetime of the last code issued, and
      accepted exactly when it is that code. */
  lemma EveryComparisonIsGenuine(start: nat, history: seq<Event>, i: nat)
    requires i < |StateAt(start, history).past.comparisons|
    ensures var p := StateAt(start, history).past; Genuine(p.comparisons[i], p.issues)
  {
    EveryHistoryIsSound(start, history);
    var p := StateAt(start, history).past;
    GenuineAt(p.comparisons, p.issues, i);
  }

  /** Over every history an hour sees at most 59 comparisons, and 60 counting both its ends. */
  lemma EveryHourIsLimited(start: nat, history: seq<Event>, from: nat)
    ensures var times := ComparedTimes(StateAt(start, history).past.comparisons);
      Within(times, from, from + 3600) <= 59 && Within(times, from, from + 3600 + 1) <= 60
  {
    EveryHistoryIsSound(start, history);
    var p := StateAt(start, history).past;
    TwicePerStretch(p.hits, p.starts, TOTAL_SPAN, MAX_TOTAL, from);
    CountedByTime(p.hits, ComparedTimes(p.comparisons), from, from + 3600);
    CountedByTime(p.hits, ComparedTimes(p.comparisons), from, from + 3600 + 1);
  }

  // ------------------------------------------------------------------ the right code works

  /** Over every history a new code is refused exactly within 60 seconds of the last one. */
  lemma CooldownIsExact(start: nat, history: seq<Event>, digest: string, minutes: nat)
    ensures var s := StateAt(start, history);
      StateAt(start, history + [Ask(digest, minutes)]).past.issues ==
        if s.past.issues != [] && s.now < s.past.issues[|s.past.issues| - 1].time + 60 then s.past.issues
        else s.past.issues + [Issue(s.now, digest, s.now + minutes * 60)]
  {
    EveryHistoryIsSound(start, history);
    CoolsForAMinute(StateAt(start, history));
    HistoryGrows(start, history, Ask(digest, minutes));
  }

  lemma CoolsForAMinute(s: State)
    requires Sound(s)
    ensures CoolingDown(s.keys, s.now) <==>
      s.past.issues != [] && s.now < s.past.issues[|s.past.issues| - 1].time + 60
  {
    assert UpToNow(s.keys, s.past.issues, s.past.comparisons, s.now);
  }

  /** The code is held, with `n` tries counted against it and at most `used` on the total. */
  ghost predicate OpenAfter(s: State, digest: string, expires: nat, n: nat, used: nat) {
    && s.keys.challenge == Held(digest, expires) && s.now < expires
    && (if n == 0 then Read(s.keys.attempts, s.now).Absent? else s.keys.attempts == Live(n, expires))
    && CountedAt(s.keys.total, s.now) <= used
  }

  lemma WaitStaysOpen(s: State, digest: string, expires: nat, n: nat, used: nat, wait: nat)
    requires OpenAfter(s, digest, expires, n, used) && s.now + wait < expires
    ensures OpenAfter(After(s, Wait(wait)), digest, expires, n, used)
  {
  }

  /** A submission within both limits is compared, and accepted exactly when it carries the code; a wrong
      one leaves the code held. */
  lemma TryCounts(s: State, code: string, expires: nat, n: nat, used: nat, digest: string)
    requires OpenAfter(s, code, expires, n, used) && n < 5 && used < 30
    ensures var t := After(s, Submit(digest));
      && t.past.issues == s.past.issues && t.now == s.now
      && t.past.comparisons ==
           s.past.comparisons + [Comparison(|s.past.issues|, s.now, digest, digest == code)]
      && (digest != code ==> OpenAfter(t, code, expires, n + 1, used + 1))
  {
    IncrCounts(s.keys.total, s.now, TOTAL_SPAN);
    assert Counted(s.keys, s.now).attempts == Live(n + 1, expires);
  }

  /** A try: seconds waited before it, and the digest submitted. */
  datatype Try = Try(wait: nat, digest: string)

  ghost function Waited(tries: seq<Try>): (n: nat) {
    if tries == [] then 0 else Waited(tries[..|tries| - 1]) + tries[|tries| - 1].wait
  }

  /** A history continued by these tries. */
  ghost function Tries(history: seq<Event>, tries: seq<Try>): (h: seq<Event>) {
    if tries == [] then history
    else
      var last := tries[|tries| - 1];
      Tries(history, tries[..|tries| - 1]) + [Wait(last.wait)] + [Submit(last.digest)]
  }

  lemma {:induction false} WrongTriesLeaveOpen(
    start: nat, history: seq<Event>, tries: seq<Try>, code: string, expires: nat, used: nat)
    requires OpenAfter(StateAt(start, history), code, expires, 0, used)
    requires |tries| <= 5 && used + |tries| <= 30
    requires StateAt(start, history).now + Waited(tries) < expires
    requires forall i :: 0 <= i < |tries| ==> tries[i].digest != code
    ensures var s, t := StateAt(start, history), StateAt(start, Tries(history, tries));
      && OpenAfter(t, code, expires, |tries|, used + |tries|) && t.now == s.now + Waited(tries)
      && t.past.issues == s.past.issues && |t.past.comparisons| == |s.past.comparisons| + |tries|
  {
    if tries != [] {
      var front, last := tries[..|tries| - 1], tries[|tries| - 1];
      WrongTriesLeaveOpen(start, history, front, code, expires, used);
      var h := Tries(history, front);
      HistoryGrows(start, h, Wait(last.wait));
      HistoryGrows(start, h + [Wait(last.wait)], Submit(last.digest));
      WaitStaysOpen(StateAt(start, h), code, expires, |front|, used + |front|, last.wait);
      TryCounts(After(StateAt(start, h), Wait(last.wait)), code, expires, |front|, used + |front|, last.digest);
    }
  }

  /** Whatever the history: a code issued now and submitted within its lifetime, after at most four wrong
      tries and within the hourly limit, is accepted; every one of these submissions is compared. */
  lemma RightCodeIsAccepted(
    start: nat, history: seq<Event>, code: string, minutes: nat, tries: seq<Try>, wait: nat)
    requires var s := StateAt(start, history);
      && !CoolingDown(s.keys, s.now) && CountedAt(s.keys.total, s.now) + |tries| + 1 <= 30
    requires |tries| <= 4 && Waited(tries) + wait < minutes * 60
    requires forall i :: 0 <= i < |tries| ==> tries[i].digest != code
    ensures var s := StateAt(start, history);
      var h := Tries(history + [Ask(code, minutes)], tries) + [Wait(wait)] + [Submit(code)];
      var cs := StateAt(start, h).past.comparisons;
      && |cs| == |s.past.comparisons| + |tries| + 1
      && cs[|cs| - 1] == Comparison(|s.past.issues| + 1, s.now + Waited(tries) + wait, code, true)
  {
    var s, issued := StateAt(start, history), history + [Ask(code, minutes)];
    var expires, used := s.now + minutes * 60, CountedAt(s.keys.total, s.now);
    HistoryGrows(start, history, Ask(code, minutes));
    assert OpenAfter(StateAt(start, issued), code, expires, 0, used);
    WrongTriesLeaveOpen(start, issued, tries, code, expires, used);
    var h, n := Tries(issued, tries), |tries|;
    HistoryGrows(start, h, Wait(wait));
    HistoryGrows(start, h + [Wait(wait)], Submit(code));
    WaitStaysOpen(StateAt(start, h), code, expires, n, used + n, wait);
    TryCounts(After(StateAt(start, h), Wait(wait)), code, expires, n, used + n, code);
  }

  // ------------------------------------------------------------------ the scripts

  /** The issuing script: nothing during the cooldown, otherwise a fresh code with fresh attempts. */
  method IssueScript(k: Keys, now: nat, digest: string, minutes: nat) returns (r: Keys, ok: bool)
    ensures ok <==> !CoolingDown(k, now)
    ensures r == if ok then Issued(k, now, digest, minutes) else k
  {
    r, ok := k, false;
    if r.cooldown.Until? && now < r.cooldown.expires {
      return;
    }
    r := r.(cooldown := Until(now + COOLDOWN));
    r := r.(challenge := Held(digest, now + minutes * 60));
    r := r.(attempts := Absent);
    ok := true;
  }

  /** The verifying script: counts the attempt, and compares it only within both limits. */
  method VerifyScript(k: Keys, now: nat, digest: string) returns (r: Keys, ok: bool)
    ensures ok <==> Accepts(k, now, digest)
    ensures r == Submitted(k, now, digest)
  {
    r, ok := k, false;
    if r.challenge.Missing? || r.challenge.expires <= now {
      return;
    }
    var ttl := r.challenge.expires - now;
    r := r.(attempts := Incr(r.attempts, now, ttl));
    r := r.(total := Incr(r.total, now, TOTAL_SPAN));
    if r.attempts.count > MAX_TRIES || r.total.count > MAX_TOTAL {
      r := r.(challenge := Missing);
      return;
    }
    if r.challenge.digest != digest {
      return;
    }
    r := r.(challenge := Missing);
    ok := true;
  }

  /** One identity's keys in the store; each script runs as one step. The events so far determine the
      keys, so the promises above are about this object. */
  class EmailChallenge {
    var now: nat
    var keys: Keys
    ghost const start: nat
    ghost var history: seq<Event>

    ghost predicate Valid()
      reads this
    {
      now == StateAt(start, history).now && keys == StateAt(start, history).keys
    }

    constructor (now: nat)
      ensures Valid() && this.now == start == now && history == []
    {
      this.now, start := now, now;
      keys := Keys(Missing, Never, Absent, Absent);
      history := [];
    }

    method Wait(seconds: nat)
      requires Valid()
      modifies this`now, this`history
      ensures Valid() && history == old(history) + [Event.Wait(seconds)]
    {
      HistoryGrows(start, history, Event.Wait(seconds));
      now, history := now + seconds, history + [Event.Wait(seconds)];
    }

    method Issue(digest: string, minutes: nat) returns (ok: bool)
      requires Valid() && minutes >= 1
      modifies this`keys, this`history
      ensures Valid() && history == old(history) + [Ask(digest, minutes)]
      ensures ok <==> !CoolingDown(old(keys), now)
    {
      AskGrows(start, history, digest, minutes);
      var r;
      r, ok := IssueScript(keys, now, digest, minutes);
      keys, history := r, history + [Ask(digest, minutes)];
    }

    method Consume(digest: string) returns (ok: bool)
      requires Valid()
      modifies this`keys, this`history
      ensures Valid() && history == old(history) + [Submit(digest)]
      ensures ok <==> Accepts(old(keys), now, digest)
    {
      SubmitGrows(start, history, digest);
      var r;
      r, ok := VerifyScript(keys, now, digest);
      keys, history := r, history + [Submit(digest)];
    }
  }

  lemma HistoryGrows(start: nat, history: seq<Event>, e: Event)
    ensures StateAt(start, history + [e]) == After(StateAt(start, history), e)
  {
    assert (history + [e])[..|history|] == history;
  }

  lemma AskGrows(start: nat, history: seq<Event>, digest: string, minutes: nat)
    ensures var s, t := StateAt(start, history), StateAt(start, history + [Ask(digest, minutes)]);
      && t.now == s.now
      && t.keys == if CoolingDown(s.keys, s.now) then s.keys else Issued(s.keys, s.now, digest, minutes)
  {
    HistoryGrows(start, history, Ask(digest, minutes));
  }

  lemma SubmitGrows(start: nat, history: seq<Event>, digest: string)
    ensures var s, t := StateAt(start, history), StateAt(start, history + [Submit(digest)]);
      t.now == s.now && t.keys == Submitted(s.keys, s.now, digest)
  {
    HistoryGrows(start, history, Submit(digest));
  }
}
