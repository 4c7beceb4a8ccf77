/** Redis keys that count and expire, on a whole-second clock, and what such a key lets through over
    every timing of the requests. */
module TimedCounters {

  /** A counter key with its expiry time; an expired key reads as absent. */
  datatype Counter = Absent | Live(count: nat, expires: nat)

  function Read(k: Counter, now: nat): (r: Counter) {
    if k.Live? && now < k.expires then k else Absent
  }

  /** INCR, and EXPIRE when the result is 1. */
  function Incr(k: Counter, now: nat, span: nat): (r: Counter)
    ensures r.Live?
  {
    match Read(k, now)
    case Absent => Live(1, now + span)
    case Live(count, expires) => Live(count + 1, expires)
  }

  /** One allowed hit: when, in which lifetime of the key, and the count it saw. */
  datatype Hit = Hit(time: nat, window: nat, ordinal: nat)

  /** Times at least `span` apart. */
  ghost predicate Apart(starts: seq<nat>, span: nat) {
    |starts| <= 1 ||
      (Apart(starts[..|starts| - 1], span) && starts[|starts| - 2] + span <= starts[|starts| - 1])
  }

  /** Within a lifetime the counts increase. */
  ghost predicate Rising(log: seq<Hit>) {
    log == [] ||
      (Rising(log[..|log| - 1])
       && forall h :: h in log[..|log| - 1] && h.window == log[|log| - 1].window ==> h.ordinal < log[|log| - 1].ordinal)
  }

  ghost predicate Fits(h: Hit, starts: seq<nat>, span: nat, limit: nat) {
    && h.window < |starts| && starts[h.window] <= h.time < starts[h.window] + span
    && 1 <= h.ordinal <= limit && (h.ordinal == 1 ==> h.time == starts[h.window])
  }

  /** A history of allowed hits on one key: lifetimes start at least `span` apart, every hit falls into
      its lifetime, and the counts within a lifetime increase up to the limit. */
  ghost predicate History(log: seq<Hit>, starts: seq<nat>, span: nat, limit: nat) {
    Apart(starts, span) && Rising(log) && forall h :: h in log ==> Fits(h, starts, span, limit)
  }

  /** Hits at or after `from` and before `to`. */
  ghost function CountIn(log: seq<Hit>, from: nat, to: nat): (n: nat) {
    if log == [] then 0
    else CountIn(log[..|log| - 1], from, to) + if from <= log[|log| - 1].time < to then 1 else 0
  }

  /** Hits of one lifetime whose count is at least `low`. */
  ghost function CountOf(log: seq<Hit>, window: nat, low: nat): (n: nat) {
    if log == [] then 0
    else
      var h := log[|log| - 1];
      CountOf(log[..|log| - 1], window, low) + if h.window == window && low <= h.ordinal then 1 else 0
  }

  lemma {:induction false} LifetimeBound(log: seq<Hit>, window: nat, low: nat, top: nat)
    requires 1 <= low && Rising(log)
    requires forall h :: h in log && h.window == window ==> h.ordinal <= top
    ensures CountOf(log, window, low) <= if low <= top then top - low + 1 else 0
  {
    if log != [] {
      var front, h := log[..|log| - 1], log[|log| - 1];
      assert h in log && forall g :: g in front ==> g in log;
      LifetimeBound(front, window, low, if h.window == window && h.ordinal > 0 then h.ordinal - 1 else top);
    }
  }

  lemma LimitPerWindow(log: seq<Hit>, starts: seq<nat>, span: nat, limit: nat, window: nat)
    requires History(log, starts, span, limit)
    ensures CountOf(log, window, 1) <= limit
  {
    LifetimeBound(log, window, 1, limit);
  }

  lemma {:induction false} StartsApart(starts: seq<nat>, span: nat, i: nat, j: nat)
    requires Apart(starts, span) && i < j < |starts|
    ensures starts[i] + span <= starts[j] && (i + 1 < j ==> starts[i] + 2 * span <= starts[j])
    decreases |starts|
  {
    var front := starts[..|starts| - 1];
    if j < |front| {
      StartsApart(front, span, i, j);
    } else if i < j - 1 {
      StartsApart(front, span, i, j - 1);
    }
  }

  /** The earliest lifetime with a hit at or after `from` and before `to`. */
  ghost predicate EarliestIn(log: seq<Hit>, from: nat, to: nat, w: nat) {
    && (exists h :: h in log && from <= h.time < to && h.window == w)
    && (forall h :: h in log && from <= h.time < to ==> w <= h.window)
  }

  lemma {:induction false} FindEarliest(log: seq<Hit>, from: nat, to: nat) returns (w: nat)
    requires exists h :: h in log && from <= h.time < to
    ensures EarliestIn(log, from, to, w)
  {
    var front, last := log[..|log| - 1], log[|log| - 1];
    assert forall h :: h in log <==> h in front || h == last;
    if exists h :: h in front && from <= h.time < to {
      w := FindEarliest(front, from, to);
      if from <= last.time < to && last.window < w { w := last.window; }
    } else {
      w := last.window;
    }
  }

  lemma {:induction false} CountSplits(log: seq<Hit>, from: nat, to: nat, w: nat, low: nat)
    requires forall h :: h in log && from <= h.time < to ==>
      (h.window == w && low <= h.ordinal) || (h.window == w + 1 && 1 <= h.ordinal)
    ensures CountIn(log, from, to) <= CountOf(log, w, low) + CountOf(log, w + 1, 1)
    ensures (forall h :: h in log && from <= h.time < to ==> h.window == w)
      ==> CountIn(log, from, to) <= CountOf(log, w, low)
  {
    if log != [] {
      var front := log[..|log| - 1];
      assert forall h :: h in front ==> h in log;
      assert log[|log| - 1] in log;
      CountSplits(front, from, to, w, low);
    }
  }

  lemma {:induction false} NoneCounted(log: seq<Hit>, from: nat, to: nat)
    requires forall h :: h in log ==> !(from <= h.time < to)
    ensures CountIn(log, from, to) == 0
  {
    if log != [] {
      assert log[|log| - 1] in log && forall h :: h in log[..|log| - 1] ==> h in log;
      NoneCounted(log[..|log| - 1], from, to);
    }
  }

  /** A stretch of `span` seconds touches two lifetimes at most, and the second only in part. */
  lemma TwicePerStretch(log: seq<Hit>, starts: seq<nat>, span: nat, limit: nat, from: nat)
    requires History(log, starts, span, limit) && limit >= 1
    ensures CountIn(log, from, from + span) <= 2 * limit - 1
    ensures CountIn(log, from, from + span + 1) <= 2 * limit
  {
    StretchBound(log, starts, span, limit, from, from + span);
    StretchBound(log, starts, span, limit, from, from + span + 1);
  }

  lemma StretchBound(log: seq<Hit>, starts: seq<nat>, span: nat, limit: nat, from: nat, to: nat)
    requires History(log, starts, span, limit) && limit >= 1 && to <= from + span + 1
    ensures CountIn(log, from, to) <= if to <= from + span then 2 * limit - 1 else 2 * limit
  {
    if forall h :: h in log ==> !(from <= h.time < to) {
      NoneCounted(log, from, to);
      return;
    }
    var w := FindEarliest(log, from, to);
    var low := if starts[w] < from then 2 else 1;
    assert forall h :: h in log ==> Fits(h, starts, span, limit);
    forall h | h in log && from <= h.time < to
      ensures (h.window == w && low <= h.ordinal) || (h.window == w + 1 && 1 <= h.ordinal)
      ensures starts[w] >= from && to <= from + span ==> h.window == w
    {
      if h.window > w { StartsApart(starts, span, w, h.window); }
    }
    CountSplits(log, from, to, w, low);
    LifetimeBound(log, w, low, limit);
    LifetimeBound(log, w + 1, 1, limit);
  }

  /** Appending a hit that saw a larger count than all earlier hits of its lifetime. */
  lemma AppendHit(log: seq<Hit>, starts: seq<nat>, span: nat, limit: nat, h: Hit)
    requires History(log, starts, span, limit)
    requires Fits(h, starts, span, limit)
    requires forall g :: g in log && g.window == h.window ==> g.ordinal < h.ordinal
    ensures History(log + [h], starts, span, limit)
  {
    assert (log + [h])[..|log|] == log;
  }

  /** The stored key against the history of its hits: the open lifetime is the last one. */
  ghost predicate Tracks(k: Counter, log: seq<Hit>, starts: seq<nat>, span: nat, limit: nat, now: nat) {
    && span >= 1 && History(log, starts, span, limit)
    && (k.Absent? <==> starts == [])
    && (k.Live? ==>
          && starts[|starts| - 1] <= now && k.expires == starts[|starts| - 1] + span && k.count >= 1
          && forall h :: h in log && h.window == |starts| - 1 ==> h.ordinal <= k.count)
  }

  ghost function StartsAfter(k: Counter, starts: seq<nat>, now: nat): (s: seq<nat>) {
    if Read(k, now).Absent? then starts + [now] else starts
  }

  /** Opening a lifetime at least `span` after the last one. */
  lemma OpenLifetime(log: seq<Hit>, starts: seq<nat>, span: nat, limit: nat, now: nat)
    requires History(log, starts, span, limit)
    requires starts != [] ==> starts[|starts| - 1] + span <= now
    ensures History(log, starts + [now], span, limit)
    ensures forall h :: h in log ==> h.window < |starts|
  {
    assert (starts + [now])[..|starts|] == starts;
    forall h | h in log ensures Fits(h, starts + [now], span, limit) {
      assert Fits(h, starts, span, limit);
    }
  }

  /** One INCR keeps the history of hits so far, and counts past every hit of the open lifetime. */
  lemma IncrKeeps(k: Counter, log: seq<Hit>, starts: seq<nat>, span: nat, limit: nat, now: nat)
    requires Tracks(k, log, starts, span, limit, now)
    ensures var k', starts' := Incr(k, now, span), StartsAfter(k, starts, now);
      && Tracks(k', log, starts', span, limit, now)
      && now < k'.expires && (k'.count == 1 ==> starts'[|starts'| - 1] == now)
      && forall h :: h in log && h.window == |starts'| - 1 ==> h.ordinal < k'.count
  {
    if Read(k, now).Absent? { OpenLifetime(log, starts, span, limit, now); }
  }

  /** The hit an INCR stands for may be recorded when the count is within the limit. */
  lemma IncrTracks(k: Counter, log: seq<Hit>, starts: seq<nat>, span: nat, limit: nat, now: nat)
    requires Tracks(k, log, starts, span, limit, now)
    ensures var k', starts' := Incr(k, now, span), StartsAfter(k, starts, now);
      && Tracks(k', log, starts', span, limit, now)
      && (k'.count <= limit ==> Tracks(k', log + [Hit(now, |starts'| - 1, k'.count)], starts', span, limit, now))
  {
    var k', starts' := Incr(k, now, span), StartsAfter(k, starts, now);
    IncrKeeps(k, log, starts, span, limit, now);
    if k'.count <= limit { AppendHit(log, starts', span, limit, Hit(now, |starts'| - 1, k'.count)); }
  }

  // ------------------------------------------------------------------ the script over request times

  /** Request times on a clock that never goes back. */
  ghost predicate InOrder(times: seq<nat>) {
    |times| <= 1 || (InOrder(times[..|times| - 1]) && times[|times| - 2] <= times[|times| - 1])
  }

  /** The stored key after requests at these times. */
  ghost function KeyAfter(times: seq<nat>, span: nat): (k: Counter) {
    if times == [] then Absent else Incr(KeyAfter(times[..|times| - 1], span), times[|times| - 1], span)
  }

  /** The times of the requests the script lets through. */
  ghost function Allowed(times: seq<nat>, span: nat, limit: nat): (r: seq<nat>) {
    if times == [] then []
    else
      var earlier := Allowed(times[..|times| - 1], span, limit);
      if CountAfter(times, span) <= limit then earlier + [times[|times| - 1]] else earlier
  }

  /** The count the last request saw. */
  ghost function CountAfter(times: seq<nat>, span: nat): (n: nat)
    requires times != []
  {
    KeyAfter(times, span).count
  }

  lemma OneMoreRequest(times: seq<nat>, now: nat, span: nat, limit: nat)
    requires InOrder(times) && (times != [] ==> times[|times| - 1] <= now)
    ensures var more := times + [now];
      && InOrder(more) && KeyAfter(more, span) == Incr(KeyAfter(times, span), now, span)
      && Allowed(more, span, limit) == if CountAfter(more, span) <= limit then Allowed(times, span, limit) + [now]
                                      else Allowed(times, span, limit)
  {
    assert (times + [now])[..|times|] == times;
  }

  /** Times at or after `from` and before `to`. */
  ghost function Within(times: seq<nat>, from: nat, to: nat): (n: nat) {
    if times == [] then 0
    else Within(times[..|times| - 1], from, to) + if from <= times[|times| - 1] < to then 1 else 0
  }

  /** The log of hits whose times are these. */
  ghost predicate At(log: seq<Hit>, times: seq<nat>) {
    |log| == |times| &&
    (log == [] || (log[|log| - 1].time == times[|times| - 1] && At(log[..|log| - 1], times[..|times| - 1])))
  }

  lemma {:induction false} CountedByTime(log: seq<Hit>, times: seq<nat>, from: nat, to: nat)
    requires At(log, times)
    ensures CountIn(log, from, to) == Within(times, from, to)
  {
    if log != [] { CountedByTime(log[..|log| - 1], times[..|times| - 1], from, to); }
  }

  lemma AtAppended(log: seq<Hit>, times: seq<nat>, h: Hit)
    requires At(log, times)
    ensures At(log + [h], times + [h.time])
  {
    assert (log + [h])[..|log|] == log && (times + [h.time])[..|times|] == times;
  }

  /** The log, and the beginnings of lifetimes, behind what the script let through. */
  ghost predicate Explains(times: seq<nat>, span: nat, limit: nat, log: seq<Hit>, starts: seq<nat>) {
    && Tracks(KeyAfter(times, span), log, starts, span, limit, if times == [] then 0 else times[|times| - 1])
    && At(log, Allowed(times, span, limit))
  }

  lemma ExplainOneMore(times: seq<nat>, now: nat, span: nat, limit: nat, log: seq<Hit>, starts: seq<nat>)
    returns (log': seq<Hit>)
    requires InOrder(times) && (times != [] ==> times[|times| - 1] <= now) && Explains(times, span, limit, log, starts)
    ensures Explains(times + [now], span, limit, log', StartsAfter(KeyAfter(times, span), starts, now))
  {
    OneMoreRequest(times, now, span, limit);
    var k := KeyAfter(times, span);
    IncrTracks(k, log, starts, span, limit, now);
    var h := Hit(now, |StartsAfter(k, starts, now)| - 1, CountAfter(times + [now], span));
    AtAppended(log, Allowed(times, span, limit), h);
    log' := if h.ordinal <= limit then log + [h] else log;
  }

  /** Running the script over any timing is a history of the key. */
  lemma {:induction false} RunIsHistory(times: seq<nat>, span: nat, limit: nat)
    returns (log: seq<Hit>, starts: seq<nat>)
    requires span >= 1 && InOrder(times)
    ensures Explains(times, span, limit, log, starts)
  {
    if times == [] {
      log, starts := [], [];
    } else {
      var front, now := times[..|times| - 1], times[|times| - 1];
      log, starts := RunIsHistory(front, span, limit);
      log := ExplainOneMore(front, now, span, limit, log, starts);
      starts := StartsAfter(KeyAfter(front, span), starts, now);
      assert front + [now] == times;
    }
  }

  /** For every timing of the requests, any stretch of `span` seconds sees at most 2 * limit - 1 allowed,
      and 2 * limit when both its ends are counted. */
  lemma AtMostTwicePerStretch(times: seq<nat>, span: nat, limit: nat, from: nat)
    requires InOrder(times) && span >= 1 && limit >= 1
    ensures Within(Allowed(times, span, limit), from, from + span) <= 2 * limit - 1
    ensures Within(Allowed(times, span, limit), from, from + span + 1) <= 2 * limit
  {
    var log, starts := RunIsHistory(times, span, limit);
    TwicePerStretch(log, starts, span, limit, from);
    CountedByTime(log, Allowed(times, span, limit), from, from + span);
    CountedByTime(log, Allowed(times, span, limit), from, from + span + 1);
  }

  /** Request `i` finds no live key, and so begins a lifetime of it. */
  ghost predicate Begins(times: seq<nat>, span: nat, i: nat)
    requires i < |times|
  {
    Read(KeyAfter(times[..i], span), times[i]).Absent?
  }

  /** Each beginning is recorded, whatever comes after it. */
  lemma {:induction false} BeginningsAreStarts(times: seq<nat>, span: nat, limit: nat, i: nat)
    returns (log: seq<Hit>, starts: seq<nat>, w: nat)
    requires span >= 1 && InOrder(times) && i < |times| && Begins(times, span, i)
    ensures Explains(times, span, limit, log, starts) && w < |starts| && starts[w] == times[i]
    decreases |times|
  {
    var front, now := times[..|times| - 1], times[|times| - 1];
    if i == |front| {
      log, starts := RunIsHistory(front, span, limit);
      w := |starts|;
      assert times[..i] == front;
    } else {
      assert front[..i] == times[..i];
      log, starts, w := BeginningsAreStarts(front, span, limit, i);
    }
    log := ExplainOneMore(front, now, span, limit, log, starts);
    starts := StartsAfter(KeyAfter(front, span), starts, now);
    assert front + [now] == times;
  }

  /** What falls into a lifetime's seconds is counted in that lifetime. */
  lemma WindowByTime(log: seq<Hit>, starts: seq<nat>, span: nat, limit: nat, w: nat)
    requires History(log, starts, span, limit) && w < |starts|
    ensures CountIn(log, starts[w], starts[w] + span) <= CountOf(log, w, 1)
  {
    forall h | h in log && starts[w] <= h.time < starts[w] + span ensures h.window == w && 1 <= h.ordinal {
      assert Fits(h, starts, span, limit);
      if h.window < w { StartsApart(starts, span, h.window, w); }
      if w < h.window { StartsApart(starts, span, w, h.window); }
    }
    CountSplits(log, starts[w], starts[w] + span, w, 1);
  }

  /** For every timing of the requests, a lifetime of the key allows at most `limit`. */
  lemma AtMostLimitPerLifetime(times: seq<nat>, span: nat, limit: nat, i: nat)
    requires InOrder(times) && span >= 1 && i < |times| && Begins(times, span, i)
    ensures Within(Allowed(times, span, limit), times[i], times[i] + span) <= limit
  {
    var log, starts, w := BeginningsAreStarts(times, span, limit, i);
    WindowByTime(log, starts, span, limit, w);
    LimitPerWindow(log, starts, span, limit, w);
    CountedByTime(log, Allowed(times, span, limit), times[i], times[i] + span);
  }

  // ------------------------------------------------------------------ the bound is reached

  /** Requests the open lifetime has counted so far. */
  ghost function CountedAt(k: Counter, now: nat): (n: nat) { if Read(k, now).Live? then k.count else 0 }

  lemma IncrCounts(k: Counter, now: nat, span: nat)
    requires span >= 1
    ensures Incr(k, now, span).count == CountedAt(k, now) + 1 == CountedAt(Incr(k, now, span), now)
    ensures CountedAt(k, now) > 0 ==> Incr(k, now, span).expires == k.expires
  {
  }

  /** One more request within the limit. */
  lemma OneAllowed(times: seq<nat>, more: seq<nat>, now: nat, span: nat, limit: nat, from: nat, to: nat)
    requires InOrder(times) && (times != [] ==> times[|times| - 1] <= now) && from <= now < to
    requires span >= 1 && CountedAt(KeyAfter(times, span), now) < limit && more == times + [now]
    ensures InOrder(more) && KeyAfter(more, span) == Incr(KeyAfter(times, span), now, span)
    ensures Within(Allowed(more, span, limit), from, to) == Within(Allowed(times, span, limit), from, to) + 1
  {
    OneMoreRequest(times, now, span, limit);
    IncrCounts(KeyAfter(times, span), now, span);
    WithinAppended(Allowed(times, span, limit), now, from, to);
  }

  /** A key whose open lifetime, if any, has counted `n` more requests than `k`'s. */
  ghost predicate CountedMore(k: Counter, k': Counter, now: nat, n: nat) {
    CountedAt(k', now) == CountedAt(k, now) + n && (CountedAt(k, now) > 0 ==> k'.Live? && k'.expires == k.expires)
  }

  /** `m` more requests at one instant, all within the limit. */
  lemma {:induction false} Burst(times: seq<nat>, now: nat, m: nat, span: nat, limit: nat, from: nat, to: nat)
    returns (more: seq<nat>)
    requires span >= 1 && InOrder(times) && (times != [] ==> times[|times| - 1] <= now) && from <= now < to
    requires CountedAt(KeyAfter(times, span), now) + m <= limit
    ensures InOrder(more) && (more != [] ==> more[|more| - 1] <= now)
    ensures CountedMore(KeyAfter(times, span), KeyAfter(more, span), now, m)
    ensures Within(Allowed(more, span, limit), from, to) == Within(Allowed(times, span, limit), from, to) + m
  {
    if m == 0 {
      more := times;
    } else {
      var fewer := Burst(times, now, m - 1, span, limit, from, to);
      more := fewer + [now];
      IncrCounts(KeyAfter(fewer, span), now, span);
      OneAllowed(fewer, more, now, span, limit, from, to);
    }
  }

  lemma WithinAppended(times: seq<nat>, now: nat, from: nat, to: nat)
    ensures Within(times + [now], from, to) == Within(times, from, to) + if from <= now < to then 1 else 0
  {
    assert (times + [now])[..|times|] == times;
  }

  /** One early request, the rest of the first lifetime at its last second, and a full second lifetime
      right after: 2 * limit - 1 within `span` seconds. */
  lemma WorstTiming(limit: nat, span: nat) returns (times: seq<nat>)
    requires limit >= 1 && span >= 2
    ensures InOrder(times) && Within(Allowed(times, span, limit), 1, 1 + span) == 2 * limit - 1
  {
    FirstRequest(span, limit);
    times := Burst([0], span - 1, limit - 1, span, limit, 1, 1 + span);
    times := Burst(times, span, limit, span, limit, 1, 1 + span);
  }

  lemma FirstRequest(span: nat, limit: nat)
    requires limit >= 1 && span >= 2
    ensures KeyAfter([0], span) == Live(1, span) && Within(Allowed([0], span, limit), 1, 1 + span) == 0
  {
    OneMoreRequest([], 0, span, limit);
    WithinAppended([], 0, 1, 1 + span);
    assert [] + [0] == [0];
  }

  // ------------------------------------------------------------------ the limiter

  /** A fixed-limit throttle over one key: the request limiter and the e-mail rate buckets. The requests
      made so far determine the stored key, so the bounds above are about this object. */
  class Throttle {
    const limit: nat
    const span: nat
    var now: nat
    var key: Counter
    ghost var times: seq<nat>

    ghost predicate Valid()
      reads this
    {
      && span >= 1 && InOrder(times) && (times != [] ==> times[|times| - 1] <= now)
      && key == KeyAfter(times, span)
    }

    constructor (limit: nat, span: nat, now: nat)
      requires span >= 1
      ensures Valid() && this.limit == limit && this.span == span && this.now == now
      ensures times == []
    {
      this.limit, this.span, this.now := limit, span, now;
      key, times := Absent, [];
    }

    method Wait(seconds: nat)
      requires Valid()
      modifies this`now
      ensures Valid() && now == old(now) + seconds
    {
      now := now + seconds;
    }

    /** The script: count the request, start the expiry on the first, allow it up to the limit. */
    method Consume() returns (ok: bool)
      requires Valid()
      modifies this`key, this`times
      ensures Valid() && times == old(times) + [now]
      ensures Allowed(times, span, limit) ==
        if ok then Allowed(old(times), span, limit) + [now] else Allowed(old(times), span, limit)
    {
      OneMoreRequest(times, now, span, limit);
      CountsFromOne(times, span);
      var k := CountAndExpire(key, now, span);
      ok := k.count <= limit;
      key, times := k, times + [now];
    }
  }

  lemma {:induction false} CountsFromOne(times: seq<nat>, span: nat)
    ensures KeyAfter(times, span).Live? ==> KeyAfter(times, span).count >= 1
  {
    if times != [] { CountsFromOne(times[..|times| - 1], span); }
  }

  /** INCR on the key, then EXPIRE when the count is 1. */
  method CountAndExpire(key: Counter, now: nat, span: nat) returns (k: Counter)
    requires key.Live? ==> key.count >= 1
    ensures k == Incr(key, now, span)
  {
    k := Read(key, now);
    if k.Absent? {
      k := Live(1, 0);
    } else {
      k := k.(count := k.count + 1);
    }
    if k.count == 1 {
      k := k.(expires := now + span);
    }
  }
}
