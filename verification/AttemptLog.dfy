/**
 * What both rate limiters promise, said over the unbounded log of all attempts, and the bounded
 * bucket of recent attempts that stands for it.
 */
module AttemptLog {
  datatype Attempt = Attempt(key: string, at: real)

  predicate Sorted(times: seq<real>) {
    forall i, j :: 0 <= i < j < |times| ==> times[i] <= times[j]
  }

  /** The clock never runs backwards. */
  predicate Ordered(log: seq<Attempt>) {
    forall i, j :: 0 <= i < j < |log| ==> log[i].at <= log[j].at
  }

  predicate NotBefore(log: seq<Attempt>, now: real) {
    log != [] ==> log[|log| - 1].at <= now
  }

  /** The times of the attempts on one key, allowed or blocked, oldest first. */
  function TimesOf(log: seq<Attempt>, key: string): seq<real> {
    if log == [] then []
    else
      var last := log[|log| - 1];
      TimesOf(log[..|log| - 1], key) + if last.key == key then [last.at] else []
  }

  /** How many of the times lie after the cutoff. */
  function CountAfter(times: seq<real>, cutoff: real): nat {
    if times == [] then 0
    else CountAfter(times[..|times| - 1], cutoff) + if times[|times| - 1] > cutoff then 1 else 0
  }

  /** An attempt is allowed when fewer than `max` earlier ones on its key lie in the window before it. */
  predicate Admits(log: seq<Attempt>, key: string, now: real, window: real, max: nat) {
    CountAfter(TimesOf(log, key), now - window) < max
  }

  // ---- the log ----

  lemma TimesOfAppend(log: seq<Attempt>, a: Attempt, key: string)
    ensures TimesOf(log + [a], key) == TimesOf(log, key) + if a.key == key then [a.at] else []
  {
    assert (log + [a])[..|log|] == log;
  }

  predicate AllAtMost(times: seq<real>, t: real) {
    forall i :: 0 <= i < |times| ==> times[i] <= t
  }

  lemma {:induction false} TimesOrdered(log: seq<Attempt>, key: string, now: real)
    requires Ordered(log) && NotBefore(log, now)
    ensures Sorted(TimesOf(log, key)) && AllAtMost(TimesOf(log, key), now)
  {
    if log != [] {
      TimesOrdered(log[..|log| - 1], key, log[|log| - 1].at);
    }
  }

  /** What other keys do never matters. */
  lemma {:induction false} OtherKeysIgnored(log: seq<Attempt>, others: seq<Attempt>, key: string)
    requires forall a :: a in others ==> a.key != key
    ensures TimesOf(log + others, key) == TimesOf(log, key)
  {
    if others == [] {
      assert log + others == log;
    } else {
      var init := others[..|others| - 1];
      OtherKeysIgnored(log, init, key);
      assert log + others == (log + init) + [others[|others| - 1]];
      TimesOfAppend(log + init, others[|others| - 1], key);
    }
  }

  lemma {:induction false} CountSplit(a: seq<real>, b: seq<real>, cutoff: real)
    ensures CountAfter(a + b, cutoff) == CountAfter(a, cutoff) + CountAfter(b, cutoff)
  {
    if b == [] {
      assert a + b == a;
    } else {
      assert (a + b)[..|a + b| - 1] == a + b[..|b| - 1];
      CountSplit(a, b[..|b| - 1], cutoff);
    }
  }

  lemma {:induction false} CountNone(times: seq<real>, cutoff: real)
    requires AllAtMost(times, cutoff)
    ensures CountAfter(times, cutoff) == 0
  {
    if times != [] { CountNone(times[..|times| - 1], cutoff); }
  }

  lemma {:induction false} CountAll(times: seq<real>, cutoff: real)
    requires forall i :: 0 <= i < |times| ==> times[i] > cutoff
    ensures CountAfter(times, cutoff) == |times|
  {
    if times != [] { CountAll(times[..|times| - 1], cutoff); }
  }

  lemma {:induction false} CountLower(times: seq<real>, low: real, high: real)
    requires low <= high
    ensures CountAfter(times, high) <= CountAfter(times, low)
  {
    if times != [] { CountLower(times[..|times| - 1], low, high); }
  }

  /** The attempts on the key after the cutoff, by their places in the log. */
  function Recent(log: seq<Attempt>, key: string, cutoff: real): set<nat> {
    set i: nat | i < |log| && log[i].key == key && log[i].at > cutoff
  }

  lemma {:induction false} RecentCounted(log: seq<Attempt>, key: string, cutoff: real)
    ensures |Recent(log, key, cutoff)| == CountAfter(TimesOf(log, key), cutoff)
  {
    if log != [] {
      var n := |log| - 1;
      var init, last := log[..n], log[n];
      RecentCounted(init, key, cutoff);
      var earlier := Recent(init, key, cutoff);
      if last.key == key && last.at > cutoff {
        assert Recent(log, key, cutoff) == earlier + {n};
      } else {
        assert Recent(log, key, cutoff) == earlier;
      }
      if last.key == key {
        var times := TimesOf(init, key) + [last.at];
        assert times[..|times| - 1] == TimesOf(init, key);
      } else {
        assert TimesOf(init, key) + [] == TimesOf(init, key);
      }
    }
  }

  /** An attempt is allowed if and only if fewer than the maximum of attempts on its key lie in its window. */
  lemma AdmitsIff(log: seq<Attempt>, key: string, now: real, window: real, max: nat)
    ensures Admits(log, key, now, window, max) <==>
      |set i: nat | i < |log| && log[i].key == key && log[i].at > now - window| < max
  {
    RecentCounted(log, key, now - window);
    assert Recent(log, key, now - window) == set i: nat | i < |log| && log[i].key == key && log[i].at > now - window;
  }

  // ---- the window guarantee ----

  predicate AllowedAt(times: seq<real>, i: nat, window: real, max: nat)
    requires i < |times|
  {
    CountAfter(times[..i], times[i] - window) < max
  }

  /** How many of the first `n` attempts were allowed and fell into the window that starts after `start`. */
  function AllowedIn(times: seq<real>, n: nat, start: real, window: real, max: nat): nat
    requires n <= |times|
  {
    if n == 0 then 0
    else
      AllowedIn(times, n - 1, start, window, max) +
      if start < times[n - 1] <= start + window && AllowedAt(times, n - 1, window, max) then 1 else 0
  }

  lemma {:induction false} AllowedCounted(times: seq<real>, n: nat, start: real, window: real, max: nat)
    requires n <= |times|
    ensures AllowedIn(times, n, start, window, max) <= CountAfter(times[..n], start)
  {
    if n > 0 {
      AllowedCounted(times, n - 1, start, window, max);
      assert times[..n][..n - 1] == times[..n - 1];
    }
  }

  /** No window of the given length, wherever it starts, holds more than `max` allowed attempts. */
  lemma {:induction false} WindowHoldsAtMostMax(times: seq<real>, n: nat, start: real, window: real, max: nat)
    requires n <= |times|
    ensures AllowedIn(times, n, start, window, max) <= max
  {
    if n > 0 {
      WindowHoldsAtMostMax(times, n - 1, start, window, max);
      if start < times[n - 1] <= start + window && AllowedAt(times, n - 1, window, max) {
        AllowedCounted(times, n - 1, start, window, max);
        CountLower(times[..n - 1], times[n - 1] - window, start);
      }
    }
  }

  /** The answer to an attempt is what its place among the attempts on its key says. */
  lemma AdmitsIsAllowedAt(log: seq<Attempt>, a: Attempt, window: real, max: nat)
    ensures var times := TimesOf(log + [a], a.key);
      times != [] && AllowedAt(times, |times| - 1, window, max) == Admits(log, a.key, a.at, window, max)
  {
    TimesOfAppend(log, a, a.key);
    var times := TimesOf(log + [a], a.key);
    assert times[..|times| - 1] == TimesOf(log, a.key);
  }

  // ---- the guarantee over the answers of a run ----

  /** Every answer is the one the log of the attempts before it gives. */
  predicate Answered(log: seq<Attempt>, answers: seq<bool>, window: real, max: nat) {
    |answers| == |log| &&
    forall i :: 0 <= i < |log| ==> answers[i] == Admits(log[..i], log[i].key, log[i].at, window, max)
  }

  /** Which of the first `n` attempts were on the key, were allowed and fell into the window after `start`. */
  function AllowedWithin(
      log: seq<Attempt>, answers: seq<bool>, n: nat, key: string, start: real, window: real): set<nat>
    requires n <= |log| && n <= |answers|
  {
    set i: nat | i < n && AllowedHere(log, answers, i, key, start, window)
  }

  predicate AllowedHere(log: seq<Attempt>, answers: seq<bool>, i: nat, key: string, start: real, window: real)
    requires i < |log| && i < |answers|
  {
    log[i].key == key && answers[i] && start < log[i].at <= start + window
  }

  lemma {:induction false} AllowedInPrefix(times: seq<real>, t: real, n: nat, start: real, window: real, max: nat)
    requires n <= |times|
    ensures AllowedIn(times + [t], n, start, window, max) == AllowedIn(times, n, start, window, max)
  {
    if n > 0 {
      AllowedInPrefix(times, t, n - 1, start, window, max);
      assert (times + [t])[..n - 1] == times[..n - 1];
    }
  }

  /** Among the first `n` attempts, the last is added if it was allowed and lies in the window. */
  lemma AllowedWithinNext(log: seq<Attempt>, answers: seq<bool>, n: nat, key: string, start: real, window: real)
    requires n < |log| && n < |answers|
    ensures |AllowedWithin(log, answers, n + 1, key, start, window)| ==
      |AllowedWithin(log, answers, n, key, start, window)| +
      if log[n].key == key && answers[n] && start < log[n].at <= start + window then 1 else 0
  {
    var one := AllowedHere(log, answers, n, key, start, window);
    hide AllowedHere;
    var here := AllowedWithin(log, answers, n, key, start, window);
    if one {
      assert AllowedWithin(log, answers, n + 1, key, start, window) == here + {n};
    } else {
      assert AllowedWithin(log, answers, n + 1, key, start, window) == here;
    }
  }

  /** The attempts on a key that a run allows in a window are those its times allow there. */
  lemma {:induction false} AllowedWithinCounted(
      log: seq<Attempt>, answers: seq<bool>, n: nat, key: string, start: real, window: real, max: nat)
    requires Answered(log, answers, window, max) && n <= |log|
    ensures var times := TimesOf(log[..n], key);
      |AllowedWithin(log, answers, n, key, start, window)| == AllowedIn(times, |times|, start, window, max)
  {
    hide Admits, AllowedAt;
    if n == 0 {
      assert AllowedWithin(log, answers, n, key, start, window) == {};
    } else {
      hide AllowedWithin;
      var a, before := log[n - 1], TimesOf(log[..n - 1], key);
      AllowedWithinCounted(log, answers, n - 1, key, start, window, max);
      AllowedWithinNext(log, answers, n - 1, key, start, window);
      assert log[..n] == log[..n - 1] + [a];
      TimesOfAppend(log[..n - 1], a, key);
      if a.key == key {
        AdmitsIsAllowedAt(log[..n - 1], a, window, max);
        AllowedInPrefix(before, a.at, |before|, start, window, max);
      } else {
        assert before + [] == before;
      }
    }
  }

  /** Whatever the run, no window of the given length holds more than `max` allowed attempts on one key. */
  lemma RunAllowsAtMostMax(
      log: seq<Attempt>, answers: seq<bool>, key: string, start: real, window: real, max: nat)
    requires Answered(log, answers, window, max)
    ensures |AllowedWithin(log, answers, |log|, key, start, window)| <= max
  {
    AllowedWithinCounted(log, answers, |log|, key, start, window, max);
    var times := TimesOf(log[..|log|], key);
    WindowHoldsAtMostMax(times, |times|, start, window, max);
  }

  // ---- buckets ----

  /** Without the leading times that have expired. */
  function Pruned(bucket: seq<real>, cutoff: real): (r: seq<real>)
    ensures |r| <= |bucket| && (r != [] ==> r[0] > cutoff)
  {
    if bucket != [] && bucket[0] <= cutoff then Pruned(bucket[1..], cutoff) else bucket
  }

  /** Adding an attempt to a pruned bucket pushes the oldest one out when it is full. */
  function Pushed(bucket: seq<real>, now: real, max: nat): seq<real>
    requires max > 0
  {
    if |bucket| < max then bucket + [now] else bucket[1..] + [now]
  }

  /** The bucket holds the latest attempts; what a bucket with room left lacks has expired. */
  predicate StandsFor(bucket: seq<real>, times: seq<real>, cutoff: real, max: nat) {
    |bucket| <= max && |bucket| <= |times| && times[|times| - |bucket|..] == bucket &&
    (|bucket| < max ==> AllAtMost(times[..|times| - |bucket|], cutoff))
  }

  lemma {:induction false} PrunedParts(bucket: seq<real>, cutoff: real)
    ensures var k := |bucket| - |Pruned(bucket, cutoff)|;
      bucket[k..] == Pruned(bucket, cutoff) && AllAtMost(bucket[..k], cutoff)
  {
    if bucket != [] && bucket[0] <= cutoff {
      PrunedParts(bucket[1..], cutoff);
      var k := |bucket| - |Pruned(bucket, cutoff)|;
      assert bucket[..k] == [bucket[0]] + bucket[1..][..k - 1];
      assert bucket[k..] == bucket[1..][k - 1..];
    }
  }

  /** The times behind position `e` have all expired when the bucket behind it has room left. */
  lemma DroppedExpired(times: seq<real>, d: nat, e: nat, before: real, cutoff: real)
    requires Sorted(times) && before <= cutoff && d <= e <= |times| && AllAtMost(times[d..e], cutoff)
    requires d < e || AllAtMost(times[..d], before)
    ensures AllAtMost(times[..e], cutoff)
  {
    if d < e { assert times[d..e][0] == times[d]; }
    forall i | 0 <= i < e ensures times[i] <= cutoff {
      if i >= d { assert times[d..e][i - d] == times[i]; } else if d == e { assert times[..d][i] == times[i]; }
    }
  }

  lemma SuffixParts(times: seq<real>, d: nat, e: nat)
    requires d <= e <= |times|
    ensures times[d..][e - d..] == times[e..] && times[d..][..e - d] == times[d..e]
  {
  }

  lemma PrunedIsSuffix(bucket: seq<real>, times: seq<real>, before: real, cutoff: real, max: nat)
    requires Sorted(times) && before <= cutoff && StandsFor(bucket, times, before, max)
    ensures StandsFor(Pruned(bucket, cutoff), times, cutoff, max)
  {
    hide Pruned, Sorted, AllAtMost;
    var p := Pruned(bucket, cutoff);
    var d, e := |times| - |bucket|, |times| - |p|;
    PrunedParts(bucket, cutoff);
    SuffixParts(times, d, e);
    if |p| < max {
      DroppedExpired(times, d, e, before, cutoff);
    }
  }

  lemma LiveSuffix(times: seq<real>, e: nat, cutoff: real)
    requires Sorted(times) && e < |times| && times[e] > cutoff
    ensures CountAfter(times[e..], cutoff) == |times| - e
  {
    CountAll(times[e..], cutoff);
  }

  lemma SuffixCounts(p: seq<real>, times: seq<real>, cutoff: real, max: nat)
    requires Sorted(times) && StandsFor(p, times, cutoff, max) && (p != [] ==> p[0] > cutoff)
    ensures |p| < max <==> CountAfter(times, cutoff) < max
  {
    hide CountAfter, Sorted, AllAtMost;
    var e := |times| - |p|;
    if p == [] { CountNone([], cutoff); } else { LiveSuffix(times, e, cutoff); }
    if |p| < max { CountNone(times[..e], cutoff); }
    CountSplit(times[..e], p, cutoff);
    assert times == times[..e] + p;
  }

  /** Pruning keeps the bucket faithful, and its size then answers the question about the whole log. */
  lemma PrunedStandsFor(bucket: seq<real>, times: seq<real>, before: real, cutoff: real, max: nat)
    requires Sorted(times) && before <= cutoff && StandsFor(bucket, times, before, max)
    ensures var p := Pruned(bucket, cutoff);
      StandsFor(p, times, cutoff, max) && (|p| < max <==> CountAfter(times, cutoff) < max)
  {
    PrunedIsSuffix(bucket, times, before, cutoff, max);
    SuffixCounts(Pruned(bucket, cutoff), times, cutoff, max);
  }

  /** Forgetting a bucket all of whose times have expired keeps it faithful. */
  lemma SweptStandsFor(bucket: seq<real>, times: seq<real>, before: real, cutoff: real, max: nat)
    requires Sorted(times) && before <= cutoff && StandsFor(bucket, times, before, max) && max > 0
    requires bucket == [] || bucket[|bucket| - 1] <= cutoff
    ensures StandsFor([], times, cutoff, max)
  {
    assert times[..|times|] == times;
    if bucket != [] {
      assert times[|times| - 1] == bucket[|bucket| - 1];
    }
  }

  lemma PushedStandsFor(bucket: seq<real>, times: seq<real>, now: real, cutoff: real, max: nat)
    requires max > 0 && StandsFor(bucket, times, cutoff, max)
    ensures StandsFor(Pushed(bucket, now, max), times + [now], cutoff, max) && 0 < |Pushed(bucket, now, max)| <= max
  {
    var d := |times| - |bucket|;
    var all := times + [now];
    assert all[d..] == times[d..] + [now];
    if |bucket| == max {
      assert all[d + 1..] == times[d..][1..] + [now];
    } else {
      assert all[..d] == times[..d];
    }
  }

  lemma LaterStandsFor(bucket: seq<real>, times: seq<real>, before: real, cutoff: real, max: nat)
    requires before <= cutoff && StandsFor(bucket, times, before, max)
    ensures StandsFor(bucket, times, cutoff, max)
  {
  }
}
