/** At most so many accepted attempts per key in any one hour. */
module RateLimiter {
  import opened TimeHeap

  /** Instants are nanoseconds. */
  const Hour: int := 60 * 60 * 1_000_000_000

  /** A submitter's public key. */
  type Pk = seq<bv8>

  datatype Attempt = Attempt(pk: Pk, time: int)

  // ----- what the limiter promises, over the whole list of attempts -----

  /** The times of one key's attempts, in order. */
  function TimesOf(a: seq<Attempt>, pk: Pk): (r: seq<int>) {
    if a == [] then []
    else TimesOf(a[..|a| - 1], pk) + if a[|a| - 1].pk == pk then [a[|a| - 1].time] else []
  }

  /** How many instants are after lo and not after hi. */
  function CountIn(times: seq<int>, lo: int, hi: int): (n: nat)
    ensures n <= |times|
  {
    if times == [] then 0
    else CountIn(times[..|times| - 1], lo, hi) + if lo < times[|times| - 1] <= hi then 1 else 0
  }

  /** Fewer than max attempts of the key were accepted in the hour up to now. */
  predicate Permitted(accepted: seq<Attempt>, pk: Pk, now: int, max: int) {
    CountIn(TimesOf(accepted, pk), now - Hour, now) < max
  }

  /** The attempts accepted, when each is accepted exactly if it is permitted then. */
  function Accepted(tried: seq<Attempt>, max: int): (r: seq<Attempt>) {
    if tried == [] then []
    else
      var before := Accepted(tried[..|tried| - 1], max);
      var last := tried[|tried| - 1];
      if Permitted(before, last.pk, last.time, max) then before + [last] else before
  }

  ghost predicate ClockAscends(tried: seq<Attempt>) {
    forall i, j :: 0 <= i < j < |tried| ==> tried[i].time <= tried[j].time
  }

  ghost predicate NotAfter(times: seq<int>, now: int) {
    forall i :: 0 <= i < |times| ==> times[i] <= now
  }

  ghost predicate Ascending(times: seq<int>) {
    forall i, j :: 0 <= i < j < |times| ==> times[i] <= times[j]
  }

  lemma {:induction false} AcceptedInOrder(tried: seq<Attempt>, max: int, pk: Pk, now: int)
    requires ClockAscends(tried) && (tried != [] ==> tried[|tried| - 1].time <= now)
    ensures Ascending(TimesOf(Accepted(tried, max), pk))
    ensures NotAfter(TimesOf(Accepted(tried, max), pk), now)
  {
    hide Permitted, Accepted, TimesOf;
    if tried == [] {
      NothingAccepted(max, pk);
    } else {
      var n := |tried| - 1;
      AcceptedInOrder(tried[..n], max, pk, tried[n].time);
      assert tried == tried[..n] + [tried[n]];
      AcceptedStep(tried[..n], tried[n], max, pk);
    }
  }

  /** An hour's window cannot be moved away from the latest attempt in it and hold more. */
  lemma {:induction false} CountShift(times: seq<int>, lo: int, hi: int, lo': int, hi': int)
    requires lo' <= lo && NotAfter(times, hi')
    ensures CountIn(times, lo, hi) <= CountIn(times, lo', hi')
  {
    if times != [] {
      CountShift(times[..|times| - 1], lo, hi, lo', hi');
    }
  }

  /** Over every run, no window of one hour holds more than max accepted attempts of a key. */
  lemma {:induction false} EveryWindowIsBounded(tried: seq<Attempt>, max: nat, pk: Pk, t: int)
    requires ClockAscends(tried)
    ensures CountIn(TimesOf(Accepted(tried, max), pk), t - Hour, t) <= max
  {
    hide CountIn, Accepted, TimesOf;
    if tried == [] {
      NothingCounted(max, pk, t);
    } else {
      var n := |tried| - 1;
      var last := tried[n];
      var times := TimesOf(Accepted(tried[..n], max), pk);
      EveryWindowIsBounded(tried[..n], max, pk, t);
      assert tried == tried[..n] + [last];
      AcceptedStep(tried[..n], last, max, pk);
      CountStep(times, last.time, t - Hour, t);
      if t - Hour < last.time <= t {
        AcceptedInOrder(tried[..n], max, pk, last.time);
        CountShift(times, t - Hour, t, last.time - Hour, last.time);
      }
    }
  }

  lemma NothingAccepted(max: int, pk: Pk)
    ensures TimesOf(Accepted([], max), pk) == []
  {}

  lemma NothingCounted(max: nat, pk: Pk, t: int)
    ensures CountIn(TimesOf(Accepted([], max), pk), t - Hour, t) == 0
  {}

  lemma CountStep(times: seq<int>, x: int, lo: int, hi: int)
    ensures CountIn(times + [x], lo, hi) == CountIn(times, lo, hi) + if lo < x <= hi then 1 else 0
  {
    assert (times + [x])[..|times|] == times;
  }

  lemma AcceptedStep(tried: seq<Attempt>, a: Attempt, max: int, pk: Pk)
    ensures var before := Accepted(tried, max);
            && Accepted(tried + [a], max) == (if Permitted(before, a.pk, a.time, max) then before + [a] else before)
            && TimesOf(Accepted(tried + [a], max), pk) ==
               (if Permitted(before, a.pk, a.time, max) && a.pk == pk then TimesOf(before, pk) + [a.time]
                else TimesOf(before, pk))
  {
    hide Permitted;
    var before := Accepted(tried, max);
    assert (tried + [a])[..|tried|] == tried;
    assert (before + [a])[..|before|] == before;
  }

  /** An attempt is refused only when its window is full. */
  lemma RefusedOnlyWhenFull(tried: seq<Attempt>, max: nat, pk: Pk, now: int)
    requires ClockAscends(tried) && (tried != [] ==> tried[|tried| - 1].time <= now)
    ensures !Permitted(Accepted(tried, max), pk, now, max)
       <==> CountIn(TimesOf(Accepted(tried, max), pk), now - Hour, now) == max
  {
    EveryWindowIsBounded(tried, max, pk, now);
  }

  // ----- one key's heap -----

  /** The heap holds one key's accepted times from the k-th on; the earlier ones are an hour old. */
  ghost predicate TracksFrom(heap: seq<int>, times: seq<int>, now: int, k: int) {
    && 0 <= k <= |times|
    && multiset(heap) == multiset(times[k..])
    && NotAfter(times[..k], now - Hour)
  }

  ghost predicate Tracks(heap: seq<int>, times: seq<int>, now: int) {
    Ordered(heap) && exists k :: TracksFrom(heap, times, now, k)
  }

  lemma TracksLater(heap: seq<int>, times: seq<int>, now: int, later: int)
    requires Tracks(heap, times, now) && now <= later
    ensures Tracks(heap, times, later)
  {
    var k :| TracksFrom(heap, times, now, k);
    assert TracksFrom(heap, times, later, k);
  }

  lemma SameElement(a: seq<int>, b: seq<int>, v: int)
    requires multiset(a) == multiset(b)
    ensures v in a <==> v in b
  {
    assert v in multiset(a) <==> v in multiset(b);
  }

  /** Taking the least out of the heap takes the earliest of the times out. */
  lemma PopTracks(heap: seq<int>, times: seq<int>, now: int, x: int, rest: seq<int>)
    requires Tracks(heap, times, now) && Ascending(times)
    requires Ordered(rest) && multiset(heap) == multiset(rest) + multiset{x}
    requires x <= now - Hour && forall i :: 0 <= i < |heap| ==> x <= heap[i]
    ensures Tracks(rest, times, now)
  {
    hide Ordered, TracksFrom, Ascending;
    var k :| TracksFrom(heap, times, now, k);
    PopTracksFrom(heap, times, now, x, rest, k);
  }

  lemma PopTracksFrom(heap: seq<int>, times: seq<int>, now: int, x: int, rest: seq<int>, k: int)
    requires TracksFrom(heap, times, now, k) && Ascending(times)
    requires multiset(heap) == multiset(rest) + multiset{x}
    requires x <= now - Hour && forall i :: 0 <= i < |heap| ==> x <= heap[i]
    ensures TracksFrom(rest, times, now, k + 1)
  {
    hide NotAfter, Ascending;
    OneMore(times[..k], now - Hour, x);
    TailAscends(times, k);
    assert x in multiset(heap);
    LeastIsFirst(heap, times[k..], x);
    HeadOff(times, k);
    LessOne(heap, rest, times[k + 1..], x);
  }

  lemma TailAscends(times: seq<int>, k: nat)
    requires Ascending(times) && k <= |times|
    ensures Ascending(times[k..])
  {}

  lemma HeadOff(times: seq<int>, k: nat)
    requires k < |times|
    ensures times[k..] == [times[k..][0]] + times[k + 1..]
    ensures times[..k + 1] == times[..k] + [times[k..][0]]
  {}

  lemma OneMore(times: seq<int>, now: int, x: int)
    requires NotAfter(times, now) && x <= now
    ensures NotAfter(times + [x], now)
  {}

  lemma LeastIsFirst(heap: seq<int>, s: seq<int>, x: int)
    requires multiset(heap) == multiset(s) && x in multiset(heap) && Ascending(s)
    requires forall i :: 0 <= i < |heap| ==> x <= heap[i]
    ensures s != [] && s[0] == x
  {
    assert x in s;
    var p :| 0 <= p < |s| && s[p] == x;
    assert s[0] <= s[p];
    var first := s[0];
    assert first in s;
    SameElement(heap, s, first);
  }

  lemma LessOne(heap: seq<int>, rest: seq<int>, tail: seq<int>, x: int)
    requires multiset(heap) == multiset(rest) + multiset{x}
    requires multiset(heap) == multiset([x] + tail)
    ensures multiset(rest) == multiset(tail)
  {
    assert multiset([x] + tail) == multiset{x} + multiset(tail);
    assert multiset(rest) == multiset(heap) - multiset{x} == multiset(tail);
  }

  /** Once nothing an hour old is left, the heap counts the window. */
  lemma TrackedCount(heap: seq<int>, times: seq<int>, now: int)
    requires Tracks(heap, times, now) && NotAfter(times, now)
    requires forall i :: 0 <= i < |heap| ==> now - Hour < heap[i]
    ensures |heap| == CountIn(times, now - Hour, now)
  {
    var k :| TracksFrom(heap, times, now, k);
    assert |heap| == |multiset(heap)| == |times| - k;
    forall i | k <= i < |times| ensures now - Hour < times[i] {
      var v := times[k..][i - k];
      assert v in times[k..];
      SameElement(heap, times[k..], v);
    }
    CountSplit(times, k, now - Hour, now);
  }

  lemma {:induction false} CountSplit(times: seq<int>, k: nat, lo: int, hi: int)
    requires k <= |times| && NotAfter(times[..k], lo)
    requires forall i :: k <= i < |times| ==> lo < times[i] <= hi
    ensures CountIn(times, lo, hi) == |times| - k
  {
    if times != [] {
      var n := |times| - 1;
      if k <= n {
        assert times[..n][..k] == times[..k];
        CountSplit(times[..n], k, lo, hi);
      } else {
        assert times[..k][n] == times[n] <= lo;
        assert NotAfter(times[..n][..n], lo) by {
          forall i | 0 <= i < n ensures times[..n][..n][i] <= lo { assert times[..k][i] <= lo; }
        }
        CountSplit(times[..n], n, lo, hi);
      }
    }
  }

  lemma PushTracks(heap: seq<int>, times: seq<int>, now: int, pushed: seq<int>)
    requires Tracks(heap, times, now)
    requires Ordered(pushed) && multiset(pushed) == multiset(heap) + multiset{now}
    ensures Tracks(pushed, times + [now], now)
  {
    var k :| TracksFrom(heap, times, now, k);
    assert (times + [now])[k..] == times[k..] + [now];
    assert (times + [now])[..k] == times[..k];
    assert TracksFrom(pushed, times + [now], now, k);
  }

  lemma NothingTracked(now: int)
    ensures Tracks([], [], now)
  {
    assert TracksFrom([], [], now, 0);
  }

  // ----- the limiter -----

  ghost function Clock(tried: seq<Attempt>): (t: int) {
    if tried == [] then 0 else tried[|tried| - 1].time
  }

  ghost predicate HeapTracks(attempts: map<Pk, seq<int>>, tried: seq<Attempt>, max: int, pk: Pk) {
    var times := TimesOf(Accepted(tried, max), pk);
    if pk in attempts then Tracks(attempts[pk], times, Clock(tried)) else times == []
  }

  class AttemptCounter {
    var attempts: map<Pk, seq<int>>
    const maxAttempt: nat
    /** Every call made so far. */
    ghost var tried: seq<Attempt>

    ghost predicate Valid()
      reads this
    {
      && ClockAscends(tried)
      && (tried == [] ==> attempts == map[])
      && forall pk :: HeapTracks(attempts, tried, maxAttempt, pk)
    }

    constructor (maxAttemptPerHour: nat)
      ensures Valid() && maxAttempt == maxAttemptPerHour && tried == []
    {
      attempts, maxAttempt, tried := map[], maxAttemptPerHour, [];
    }

    /**
     * Under a clock that never goes back, the attempt is accepted exactly
     * when fewer than maxAttempt were accepted for the key in the last hour.
     */
    method RecordAttempt(pk: Pk, now: int) returns (ok: bool)
      requires Valid() && (tried != [] ==> Clock(tried) <= now)
      modifies this
      ensures Valid()
      ensures tried == old(tried) + [Attempt(pk, now)]
      ensures ok <==> CountIn(TimesOf(Accepted(old(tried), maxAttempt), pk), now - Hour, now) < maxAttempt
      ensures Accepted(tried, maxAttempt) == Accepted(old(tried), maxAttempt) + if ok then [Attempt(pk, now)] else []
    {
      hide Tracks, Ordered, CountIn, Accepted, TimesOf, HeapTracks, ClockAscends, NotAfter, Ascending;
      ghost var times := TimesOf(Accepted(tried, maxAttempt), pk);
      AcceptedInOrder(tried, maxAttempt, pk, now);
      var t := if pk in attempts then attempts[pk] else [];
      HeapAtCall(attempts, tried, maxAttempt, pk, now);
      t := DropOld(t, times, now);
      TrackedCount(t, times, now);
      ok := |t| < maxAttempt;
      if ok {
        var pushed := Push(t, now);
        PushTracks(t, times, now, pushed);
        t := pushed;
      }
      ghost var a := Attempt(pk, now);
      AcceptedStep(tried, a, maxAttempt, pk);
      ClockGoesOn(tried, a);
      ghost var next := tried + [a];
      var heaps := attempts[pk := t];
      forall other ensures HeapTracks(heaps, next, maxAttempt, other) {
        HeapAfterCall(attempts, tried, a, maxAttempt, t, other);
      }
      attempts := heaps;
      tried := next;
    }
  }

  /** What is an hour old is popped. */
  method DropOld(heap: seq<int>, ghost times: seq<int>, now: int) returns (t: seq<int>)
    requires Tracks(heap, times, now) && Ordered(heap) && Ascending(times)
    ensures Tracks(t, times, now) && Ordered(t) && forall i :: 0 <= i < |t| ==> now - Hour < t[i]
  {
    hide Tracks, Ordered, Ascending;
    t := heap;
    while !(|t| == 0 || t[0] > now - Hour)
      invariant Tracks(t, times, now) && Ordered(t)
      decreases |t|
    {
      var x, rest := Pop(t);
      PopTracks(t, times, now, x, rest);
      t := rest;
    }
    AllRecent(t, now);
  }

  lemma ClockGoesOn(tried: seq<Attempt>, a: Attempt)
    requires ClockAscends(tried) && (tried != [] ==> Clock(tried) <= a.time)
    ensures ClockAscends(tried + [a])
  {}

  lemma HeapAtCall(attempts: map<Pk, seq<int>>, tried: seq<Attempt>, max: int, pk: Pk, now: int)
    requires HeapTracks(attempts, tried, max, pk)
    requires (tried == [] ==> attempts == map[]) && (tried != [] ==> Clock(tried) <= now)
    ensures var t := if pk in attempts then attempts[pk] else [];
            Tracks(t, TimesOf(Accepted(tried, max), pk), now) && Ordered(t)
  {
    NothingTracked(now);
    if pk in attempts {
      TracksLater(attempts[pk], TimesOf(Accepted(tried, max), pk), Clock(tried), now);
    }
  }

  /** One key's attempt leaves every heap as it should be. */
  lemma HeapAfterCall(attempts: map<Pk, seq<int>>, tried: seq<Attempt>, a: Attempt, max: int, t: seq<int>, other: Pk)
    requires HeapTracks(attempts, tried, max, other)
    requires (tried == [] ==> attempts == map[]) && (tried != [] ==> Clock(tried) <= a.time)
    requires Tracks(t, TimesOf(Accepted(tried + [a], max), a.pk), a.time)
    ensures HeapTracks(attempts[a.pk := t], tried + [a], max, other)
  {
    hide Tracks, Permitted, Accepted, TimesOf;
    AcceptedStep(tried, a, max, other);
    if other in attempts {
      TracksLater(attempts[other], TimesOf(Accepted(tried, max), other), Clock(tried), a.time);
    }
  }

  lemma AllRecent(t: seq<int>, now: int)
    requires Ordered(t) && (|t| == 0 || t[0] > now - Hour)
    ensures forall i :: 0 <= i < |t| ==> now - Hour < t[i]
  {
    forall i | 0 <= i < |t| ensures now - Hour < t[i] { RootIsLeast(t, i); }
  }
}
