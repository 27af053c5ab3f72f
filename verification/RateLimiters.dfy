/** The in-memory limiter with its deques, the Redis limiter with its sorted sets, and both on one run. */
module RateLimiters {
  import opened AttemptLog

  const CLEANUP_INTERVAL := 128

  function BucketOf(buckets: map<string, seq<real>>, key: string): seq<real> {
    if key in buckets then buckets[key] else []
  }

  /** The cutoff of the latest call. */
  function LastCutoff(log: seq<Attempt>, window: real): real {
    if log == [] then 0.0 else log[|log| - 1].at - window
  }

  ghost predicate Faithful(bucket: seq<real>, log: seq<Attempt>, key: string, window: real, max: nat) {
    StandsFor(bucket, TimesOf(log, key), LastCutoff(log, window), max)
  }

  /** Every attempt so far is in the log, and the log goes on with attempts that are not older. */
  lemma NextCutoff(log: seq<Attempt>, key: string, now: real, window: real, bucket: seq<real>, max: nat)
    requires Ordered(log) && NotBefore(log, now) && Faithful(bucket, log, key, window, max)
    ensures Sorted(TimesOf(log, key)) && AllAtMost(TimesOf(log, key), now)
    ensures StandsFor(bucket, TimesOf(log, key), now - window, max)
  {
    TimesOrdered(log, key, now);
    if log != [] { LaterStandsFor(bucket, TimesOf(log, key), LastCutoff(log, window), now - window, max); }
  }

  ghost predicate AllStandFor(buckets: map<string, seq<real>>, log: seq<Attempt>, cutoff: real, max: nat) {
    forall key :: StandsFor(BucketOf(buckets, key), TimesOf(log, key), cutoff, max)
  }

  /** Moving on to a later cutoff, with or without dropping expired buckets, loses nothing. */
  lemma SweptFaithful(before: map<string, seq<real>>, after: map<string, seq<real>>, log: seq<Attempt>, now: real,
      window: real, max: nat)
    requires Ordered(log) && NotBefore(log, now) && max > 0 && AllStandFor(before, log, LastCutoff(log, window), max)
    requires forall key :: SweptFrom(BucketOf(before, key), BucketOf(after, key), now - window)
    ensures AllStandFor(after, log, now - window, max)
  {
    forall key ensures StandsFor(BucketOf(after, key), TimesOf(log, key), now - window, max) {
      var bucket := BucketOf(before, key);
      NextCutoff(log, key, now, window, bucket, max);
      assert SweptFrom(bucket, BucketOf(after, key), now - window);
      if BucketOf(after, key) != bucket {
        SweptStandsFor(bucket, TimesOf(log, key), now - window, now - window, max);
      }
    }
  }

  /** One attempt: the pruned bucket gives the answer of the log, and the pushed bucket stands for the longer log. */
  lemma BucketStep(bucket: seq<real>, log: seq<Attempt>, key: string, now: real, window: real, max: nat)
    requires Ordered(log) && NotBefore(log, now) && max > 0 && StandsFor(bucket, TimesOf(log, key), now - window, max)
    ensures var p := Pruned(bucket, now - window);
      (|p| < max <==> Admits(log, key, now, window, max)) &&
      0 < |Pushed(p, now, max)| <= max &&
      StandsFor(Pushed(p, now, max), TimesOf(log, key) + [now], now - window, max)
  {
    hide TimesOf, CountAfter, StandsFor, Pruned, Pushed;
    TimesOrdered(log, key, now);
    PrunedStandsFor(bucket, TimesOf(log, key), now - window, now - window, max);
    PushedStandsFor(Pruned(bucket, now - window), TimesOf(log, key), now, now - window, max);
  }

  lemma LoggedFaithful(buckets: map<string, seq<real>>, log: seq<Attempt>, key: string, now: real, window: real,
      max: nat, bucket: seq<real>)
    requires AllStandFor(buckets, log, now - window, max)
    requires StandsFor(bucket, TimesOf(log, key) + [now], now - window, max)
    ensures var longer := log + [Attempt(key, now)];
      AllStandFor(buckets[key := bucket], longer, LastCutoff(longer, window), max)
  {
    hide StandsFor, TimesOf;
    var longer := log + [Attempt(key, now)];
    forall k ensures StandsFor(BucketOf(buckets[key := bucket], k), TimesOf(longer, k), now - window, max) {
      LoggedTimes(log, key, now, k);
    }
  }

  lemma LoggedTimes(log: seq<Attempt>, key: string, now: real, k: string)
    ensures TimesOf(log + [Attempt(key, now)], k) == if k == key then TimesOf(log, k) + [now] else TimesOf(log, k)
  {
    TimesOfAppend(log, Attempt(key, now), k);
    assert TimesOf(log, k) + [] == TimesOf(log, k);
  }

  predicate Expired(bucket: seq<real>, cutoff: real) {
    bucket == [] || bucket[|bucket| - 1] <= cutoff
  }

  predicate SweptFrom(before: seq<real>, after: seq<real>, cutoff: real) {
    after == before || (after == [] && Expired(before, cutoff))
  }

  class InMemoryRateLimiter {
    const maxRequests: nat
    const windowSeconds: real
    var buckets: map<string, seq<real>>
    var callCount: nat
    ghost var log: seq<Attempt>

    ghost predicate Valid()
      reads this
    {
      maxRequests > 0 && Ordered(log) && AllStandFor(buckets, log, LastCutoff(log, windowSeconds), maxRequests)
    }

    constructor (maxRequests: nat, windowSeconds: real)
      requires maxRequests > 0
      ensures Valid() && this.maxRequests == maxRequests && this.windowSeconds == windowSeconds && log == []
    {
      this.maxRequests, this.windowSeconds := maxRequests, windowSeconds;
      buckets, callCount, log := map[], 0, [];
    }

    /** Removes the keys all of whose times have expired. */
    method SweepExpired(cutoff: real)
      modifies this`buckets
      ensures forall key :: SweptFrom(BucketOf(old(buckets), key), BucketOf(buckets, key), cutoff)
      ensures forall key :: key in buckets ==> !Expired(buckets[key], cutoff)
    {
      ghost var before := buckets;
      var expiredKeys := set key | key in buckets && Expired(buckets[key], cutoff);
      while expiredKeys != {}
        invariant forall key :: key in buckets ==> key in before && buckets[key] == before[key]
        invariant forall key :: key in before && key !in buckets ==> Expired(before[key], cutoff)
        invariant forall key :: key in buckets && Expired(buckets[key], cutoff) ==> key in expiredKeys
        decreases expiredKeys
      {
        var key :| key in expiredKeys;
        buckets := buckets - {key};
        expiredKeys := expiredKeys - {key};
      }
    }

    /**
     * Answers for the attempt made now.  The answer is the one the whole log of attempts gives, the
     * bucket of the key stays bounded, and every 128th call leaves no expired bucket of other keys.
     */
    method IsAllowed(key: string, now: real) returns (allowed: bool)
      requires Valid() && NotBefore(log, now)
      modifies this
      ensures Valid() && log == old(log) + [Attempt(key, now)]
      ensures allowed == Admits(old(log), key, now, windowSeconds, maxRequests)
      ensures key in buckets && 0 < |buckets[key]| <= maxRequests
      ensures callCount == old(callCount) + 1
      ensures callCount % CLEANUP_INTERVAL == 0 ==>
        forall other :: other in buckets && other != key ==> !Expired(buckets[other], now - windowSeconds)
    {
      hide AllStandFor, StandsFor, TimesOf;
      var cutoff := now - windowSeconds;
      callCount := callCount + 1;
      if callCount % CLEANUP_INTERVAL == 0 {
        SweepExpired(cutoff);
      }
      SweptFaithful(old(buckets), buckets, log, now, windowSeconds, maxRequests);
      var timestamps := if key in buckets then buckets[key] else [];
      BucketStep(timestamps, log, key, now, windowSeconds, maxRequests);
      ghost var pruned := Pruned(timestamps, cutoff);
      while timestamps != [] && timestamps[0] <= cutoff
        invariant Pruned(timestamps, cutoff) == pruned
        decreases |timestamps|
      {
        timestamps := timestamps[1..];
      }
      allowed := |timestamps| < maxRequests;
      if !allowed {
        timestamps := timestamps[1..];
      }
      timestamps := timestamps + [now];
      assert timestamps == Pushed(pruned, now, maxRequests);
      LoggedFaithful(buckets, log, key, now, windowSeconds, maxRequests, timestamps);
      buckets := buckets[key := timestamps];
      log := log + [Attempt(key, now)];
    }
  }

  // ---- sorted sets ----

  datatype Entry = Entry(score: real, member: string)

  predicate LexBefore(a: string, b: string) {
    b != [] && (a == [] || a[0] < b[0] || (a[0] == b[0] && LexBefore(a[1..], b[1..])))
  }

  /** Sorted sets order by score, and by member where scores are equal. */
  predicate Precedes(a: Entry, b: Entry) {
    a.score < b.score || (a.score == b.score && LexBefore(a.member, b.member))
  }

  function Insert(entries: seq<Entry>, e: Entry): seq<Entry> {
    if entries == [] then [e]
    else if Precedes(e, entries[0]) then [e] + entries
    else [entries[0]] + Insert(entries[1..], e)
  }

  function WithoutMember(entries: seq<Entry>, member: string): seq<Entry> {
    if entries == [] then []
    else (if entries[0].member == member then [] else [entries[0]]) + WithoutMember(entries[1..], member)
  }

  /** ZADD: a member that is there already moves to its new score. */
  function ZAdd(entries: seq<Entry>, e: Entry): seq<Entry> {
    Insert(WithoutMember(entries, e.member), e)
  }

  /** ZREMRANGEBYSCORE from minus infinity up to the cutoff. */
  function ZRemoveUpTo(entries: seq<Entry>, cutoff: real): seq<Entry> {
    if entries == [] then []
    else (if entries[0].score <= cutoff then [] else [entries[0]]) + ZRemoveUpTo(entries[1..], cutoff)
  }

  function Scores(entries: seq<Entry>): (r: seq<real>)
    ensures |r| == |entries| && forall i :: 0 <= i < |r| ==> r[i] == entries[i].score
  {
    if entries == [] then [] else [entries[0].score] + Scores(entries[1..])
  }

  predicate UniqueMembers(entries: seq<Entry>) {
    forall i, j :: 0 <= i < j < |entries| ==> entries[i].member != entries[j].member
  }

  predicate HasMember(entries: seq<Entry>, member: string) {
    exists i :: 0 <= i < |entries| && entries[i].member == member
  }

  lemma {:induction false} NewMember(entries: seq<Entry>, member: string)
    requires !HasMember(entries, member)
    ensures WithoutMember(entries, member) == entries
  {
    if entries != [] {
      assert entries[0].member != member;
      assert forall i :: 0 <= i < |entries[1..]| ==> entries[1..][i] == entries[i + 1];
      NewMember(entries[1..], member);
    }
  }

  /** Ties in score do not matter: the scores of a set that gains a latest entry gain its score at the end. */
  lemma {:induction false} InsertedScores(entries: seq<Entry>, e: Entry)
    requires Sorted(Scores(entries)) && AllAtMost(Scores(entries), e.score)
    ensures Scores(Insert(entries, e)) == Scores(entries) + [e.score]
  {
    if entries != [] {
      var scores := Scores(entries);
      if Precedes(e, entries[0]) {
        assert forall i :: 0 <= i < |scores| ==> scores[i] == e.score by {
          assert forall i :: 0 <= i < |scores| ==> scores[0] <= scores[i] <= e.score;
        }
        assert [e.score] + scores == scores + [e.score];
      } else {
        assert forall i :: 0 <= i < |scores| - 1 ==> Scores(entries[1..])[i] == scores[i + 1];
        InsertedScores(entries[1..], e);
      }
    }
  }

  /** On sorted scores, removing by score removes a prefix. */
  lemma {:induction false} RemovedScores(entries: seq<Entry>, cutoff: real)
    requires Sorted(Scores(entries))
    ensures Scores(ZRemoveUpTo(entries, cutoff)) == Pruned(Scores(entries), cutoff)
  {
    if entries != [] {
      var scores := Scores(entries);
      assert scores[1..] == Scores(entries[1..]);
      assert forall i :: 0 <= i < |scores| - 1 ==> scores[1..][i] == scores[i + 1];
      RemovedScores(entries[1..], cutoff);
      if scores[0] > cutoff {
        assert scores[1..] == [] || scores[1..][0] == scores[1];
        assert Pruned(scores[1..], cutoff) == scores[1..];
      }
    }
  }

  lemma ScoresSuffix(entries: seq<Entry>, k: nat)
    requires k <= |entries|
    ensures Scores(entries[k..]) == Scores(entries)[k..]
  {
  }

  lemma SortedSuffix(times: seq<real>, k: nat, t: real)
    requires Sorted(times) && AllAtMost(times, t) && k <= |times|
    ensures Sorted(times[k..]) && AllAtMost(times[k..], t)
  {
  }

  lemma LeastFirst(times: seq<real>)
    requires Sorted(times) && times != []
    ensures Sorted(times[1..]) && forall i :: 0 <= i < |times| ==> times[0] <= times[i]
  {
  }

  lemma {:induction false} FirstIsLeast(entries: seq<Entry>)
    requires entries != [] && Sorted(Scores(entries))
    ensures Sorted(Scores(entries[1..])) && forall i :: 0 <= i < |entries| ==> entries[0].score <= entries[i].score
  {
    hide Sorted;
    ScoresSuffix(entries, 1);
    LeastFirst(Scores(entries));
    forall i | 0 <= i < |entries| ensures entries[0].score <= entries[i].score {
      assert Scores(entries)[i] == entries[i].score;
    }
  }

  /** Removing by score removes a prefix of a sorted set. */
  lemma {:induction false} RemovedIsSuffix(entries: seq<Entry>, cutoff: real)
    requires Sorted(Scores(entries))
    ensures var live := ZRemoveUpTo(entries, cutoff);
      |live| <= |entries| && live == entries[|entries| - |live|..]
  {
    hide Sorted, Scores;
    if entries != [] {
      FirstIsLeast(entries);
      if entries[0].score > cutoff {
        NothingRemoved(entries, cutoff);
      } else {
        RemovedIsSuffix(entries[1..], cutoff);
      }
    }
  }

  lemma {:induction false} NothingRemoved(entries: seq<Entry>, cutoff: real)
    requires forall i :: 0 <= i < |entries| ==> entries[i].score > cutoff
    ensures ZRemoveUpTo(entries, cutoff) == entries
  {
    if entries != [] { NothingRemoved(entries[1..], cutoff); }
  }

  lemma {:induction false} InsertedMembers(entries: seq<Entry>, e: Entry)
    requires UniqueMembers(entries) && !HasMember(entries, e.member)
    ensures UniqueMembers(Insert(entries, e)) && |Insert(entries, e)| == |entries| + 1
    ensures forall i :: 0 <= i < |Insert(entries, e)| ==> Insert(entries, e)[i] == e || Insert(entries, e)[i] in entries
  {
    if entries != [] && !Precedes(e, entries[0]) {
      var rest := entries[1..];
      assert forall i :: 0 <= i < |rest| ==> rest[i] == entries[i + 1];
      InsertedMembers(rest, e);
      assert entries[0].member != e.member;
      assert forall x :: x in rest ==> x.member != entries[0].member;
    }
  }

  /** A sorted set with the time from which on the server may drop it. */
  datatype Stored = Stored(entries: seq<Entry>, deadline: real)

  function EntriesOf(sets: map<string, Stored>, key: string): seq<Entry> {
    if key in sets then sets[key].entries else []
  }

  /** Python's int(): towards zero. */
  function Truncated(x: real): int {
    if x >= 0.0 then x.Floor else -((-x).Floor)
  }

  /** The time to live outlasts the window, whatever the window is. */
  lemma TtlOutlastsWindow(window: real)
    ensures (Truncated(window) + 1) as real > window
  {
  }

  /** The sorted sets as buckets. */
  function ScoresOf(sets: map<string, Stored>): map<string, seq<real>> {
    map key | key in sets :: Scores(sets[key].entries)
  }

  /** The oldest entry leaves a full set. */
  lemma OldestRemoved(live: seq<Entry>)
    requires live != [] && UniqueMembers(live)
    ensures WithoutMember(live, live[0].member) == live[1..]
  {
    NewMember(live[1..], live[0].member);
  }

  /** A set that a fresh latest entry can enter. */
  ghost predicate Ready(entries: seq<Entry>, e: Entry) {
    Sorted(Scores(entries)) && AllAtMost(Scores(entries), e.score) && UniqueMembers(entries) && !HasMember(entries, e.member)
  }

  lemma SuffixHasMember(entries: seq<Entry>, k: nat, member: string)
    requires k <= |entries| && HasMember(entries[k..], member)
    ensures HasMember(entries, member)
  {
    var i :| 0 <= i < |entries[k..]| && entries[k..][i].member == member;
    assert entries[k + i].member == member;
  }

  lemma ReadySuffix(entries: seq<Entry>, e: Entry, k: nat)
    requires Ready(entries, e) && k <= |entries|
    ensures Ready(entries[k..], e) && Scores(entries[k..]) == Scores(entries)[k..]
  {
    hide Sorted, AllAtMost, HasMember;
    ScoresSuffix(entries, k);
    SortedSuffix(Scores(entries), k, e.score);
    if HasMember(entries[k..], e.member) { SuffixHasMember(entries, k, e.member); }
  }

  lemma LiveSet(entries: seq<Entry>, e: Entry, cutoff: real)
    requires Ready(entries, e)
    ensures var live := ZRemoveUpTo(entries, cutoff);
      Ready(live, e) && Scores(live) == Pruned(Scores(entries), cutoff) && forall x :: x in live ==> x in entries
  {
    RemovedScores(entries, cutoff);
    RemovedIsSuffix(entries, cutoff);
    ReadySuffix(entries, e, |entries| - |ZRemoveUpTo(entries, cutoff)|);
  }

  lemma RoomInSet(live: seq<Entry>, e: Entry, max: nat)
    requires max > 0 && Ready(live, e)
    ensures var room := if |live| < max then live else WithoutMember(live, live[0].member);
      Ready(room, e) && Scores(room) + [e.score] == Pushed(Scores(live), e.score, max) && forall x :: x in room ==> x in live
  {
    if |live| >= max {
      OldestRemoved(live);
      ReadySuffix(live, e, 1);
    }
  }

  /** What one run of the script does to the scores of a set. */
  lemma ScriptStep(entries: seq<Entry>, e: Entry, cutoff: real, max: nat)
    requires max > 0 && Ready(entries, e)
    ensures var live := ZRemoveUpTo(entries, cutoff);
      |live| == |Pruned(Scores(entries), cutoff)| &&
      var room := if |live| < max then live else WithoutMember(live, live[0].member);
      Scores(ZAdd(room, e)) == Pushed(Pruned(Scores(entries), cutoff), e.score, max) &&
      UniqueMembers(ZAdd(room, e)) && AllAtMost(Scores(ZAdd(room, e)), e.score) &&
      forall x :: x in ZAdd(room, e) ==> x == e || x in entries
  {
    hide Ready, Scores, Pruned, ZAdd, UniqueMembers, WithoutMember;
    var live := ZRemoveUpTo(entries, cutoff);
    LiveSet(entries, e, cutoff);
    RoomInSet(live, e, max);
    RoomStep(if |live| < max then live else WithoutMember(live, live[0].member), e);
  }

  lemma RoomStep(room: seq<Entry>, e: Entry)
    requires Ready(room, e)
    ensures Scores(ZAdd(room, e)) == Scores(room) + [e.score] && UniqueMembers(ZAdd(room, e))
    ensures AllAtMost(Scores(ZAdd(room, e)), e.score)
    ensures forall x :: x in ZAdd(room, e) ==> x == e || x in room
  {
    NewMember(room, e.member);
    InsertedScores(room, e);
    InsertedMembers(room, e);
  }

  /** The script: prunes the set, drops the oldest entry of a full one, and adds the new entry. */
  method RunScript(entries: seq<Entry>, cutoff: real, e: Entry, max: nat) returns (allowed: bool, after: seq<Entry>)
    requires max > 0 && Ready(entries, e)
    ensures allowed == (|Pruned(Scores(entries), cutoff)| < max)
    ensures Scores(after) == Pushed(Pruned(Scores(entries), cutoff), e.score, max)
    ensures UniqueMembers(after) && AllAtMost(Scores(after), e.score) && forall x :: x in after ==> x == e || x in entries
  {
    hide Ready, Scores, Pruned, Pushed, ZAdd, UniqueMembers, WithoutMember;
    ScriptStep(entries, e, cutoff, max);
    after := ZRemoveUpTo(entries, cutoff);
    allowed := |after| < max;
    if allowed {
      after := ZAdd(after, e);
      return;
    }
    if after != [] {
      after := WithoutMember(after, after[0].member);
    }
    after := ZAdd(after, e);
  }

  /** Distinct known members, none of them younger than the deadline allows. */
  ghost predicate StoredWell(stored: Stored, used: set<string>, ttl: int) {
    UniqueMembers(stored.entries) && (forall e :: e in stored.entries ==> e.member in used) &&
    AllAtMost(Scores(stored.entries), stored.deadline - ttl as real)
  }

  lemma StoredWithMore(stored: Stored, used: set<string>, more: set<string>, ttl: int)
    requires StoredWell(stored, used, ttl) && used <= more
    ensures StoredWell(stored, more, ttl)
  {
  }

  lemma ReadyForNew(entries: seq<Entry>, e: Entry, used: set<string>)
    requires UniqueMembers(entries) && (forall x :: x in entries ==> x.member in used) && e.member !in used
    requires Sorted(Scores(entries)) && AllAtMost(Scores(entries), e.score)
    ensures Ready(entries, e)
  {
    forall i | 0 <= i < |entries| ensures entries[i].member != e.member {
      assert entries[i] in entries;
    }
  }

  /** The state of one key before the script runs on it. */
  lemma KeyReady(sets: map<string, Stored>, key: string, log: seq<Attempt>, e: Entry, window: real, max: nat,
      used: set<string>, ttl: int)
    requires Ordered(log) && NotBefore(log, e.score) && AllStandFor(ScoresOf(sets), log, e.score - window, max)
    requires (key in sets ==> StoredWell(sets[key], used, ttl)) && e.member !in used
    ensures Ready(EntriesOf(sets, key), e) && BucketOf(ScoresOf(sets), key) == Scores(EntriesOf(sets, key))
    ensures StandsFor(Scores(EntriesOf(sets, key)), TimesOf(log, key), e.score - window, max)
    ensures forall x :: x in EntriesOf(sets, key) ==> x.member in used
  {
    var entries := EntriesOf(sets, key);
    assert StandsFor(BucketOf(ScoresOf(sets), key), TimesOf(log, key), e.score - window, max);
    SortedBucket(Scores(entries), log, key, e.score, window, max);
    ReadyForNew(entries, e, used);
  }

  lemma ScriptStoredWell(entries: seq<Entry>, after: seq<Entry>, e: Entry, used: set<string>, ttl: int)
    requires UniqueMembers(after) && AllAtMost(Scores(after), e.score) && forall x :: x in after ==> x == e || x in entries
    requires forall x :: x in entries ==> x.member in used
    ensures StoredWell(Stored(after, e.score + ttl as real), used + {e.member}, ttl)
  {
  }

  /** The server dropping a key whose time to live has run out is like sweeping it. */
  lemma DroppedIsSwept(sets: map<string, Stored>, key: string, window: real, now: real, used: set<string>)
    requires key in sets && StoredWell(sets[key], used, Truncated(window) + 1) && sets[key].deadline <= now
    ensures forall k :: SweptFrom(BucketOf(ScoresOf(sets), k), BucketOf(ScoresOf(sets - {key}), k), now - window)
  {
    DroppedWasExpired(sets[key], window, now);
    forall k ensures SweptFrom(BucketOf(ScoresOf(sets), k), BucketOf(ScoresOf(sets - {key}), k), now - window) {
      if k in sets && k != key { assert k in sets - {key}; }
    }
  }

  class RedisRateLimiter {
    const maxRequests: nat
    const windowSeconds: real
    var sets: map<string, Stored>
    ghost var log: seq<Attempt>
    ghost var used: set<string>

    function Ttl(): int {
      Truncated(windowSeconds) + 1
    }

    ghost predicate Valid()
      reads this
    {
      maxRequests > 0 && Ordered(log) &&
      AllStandFor(ScoresOf(sets), log, LastCutoff(log, windowSeconds), maxRequests) &&
      forall key :: key in sets ==> StoredWell(sets[key], used, Ttl())
    }

    constructor (maxRequests: nat, windowSeconds: real)
      requires maxRequests > 0
      ensures Valid() && this.maxRequests == maxRequests && this.windowSeconds == windowSeconds
      ensures log == [] && used == {}
    {
      this.maxRequests, this.windowSeconds := maxRequests, windowSeconds;
      sets, log, used := map[], [], {};
    }

    /**
     * Runs the script for the attempt made now under a fresh member name.  The server may have
     * dropped the key by itself once its time to live had run out.
     */
    method IsAllowed(key: string, now: real, member: string, dropped: bool) returns (allowed: bool)
      requires Valid() && NotBefore(log, now) && member !in used
      requires dropped ==> key in sets && sets[key].deadline <= now
      modifies this
      ensures Valid() && log == old(log) + [Attempt(key, now)] && used == old(used) + {member}
      ensures allowed == Admits(old(log), key, now, windowSeconds, maxRequests)
      ensures key in sets && 0 < |sets[key].entries| <= maxRequests
    {
      hide AllStandFor, StandsFor, TimesOf, Scores, ScoresOf, Pruned, Pushed, Ready, StoredWell, UniqueMembers;
      var cutoff := now - windowSeconds;
      ghost var before, usedBefore, e := sets, used, Entry(now, member);
      if dropped {
        DroppedIsSwept(sets, key, windowSeconds, now, used);
        sets := sets - {key};
      }
      SweptFaithful(ScoresOf(before), ScoresOf(sets), log, now, windowSeconds, maxRequests);
      KeyReady(sets, key, log, e, windowSeconds, maxRequests, used, Ttl());
      var entries := EntriesOf(sets, key);
      BucketStep(Scores(entries), log, key, now, windowSeconds, maxRequests);
      ghost var entriesBefore := entries;
      allowed, entries := RunScript(entries, cutoff, Entry(now, member), maxRequests);
      ScriptStoredWell(entriesBefore, entries, e, used, Ttl());
      var stored := Stored(entries, now + Ttl() as real);
      LoggedFaithful(ScoresOf(sets), log, key, now, windowSeconds, maxRequests, Scores(entries));
      ScoresOfUpdate(sets, key, stored);
      sets := sets[key := stored];
      log := log + [Attempt(key, now)];
      used := used + {member};
      forall k | k in sets && k != key ensures StoredWell(sets[k], used, Ttl()) {
        StoredWithMore(before[k], usedBefore, used, Ttl());
      }
    }
  }

  lemma ScoresOfUpdate(sets: map<string, Stored>, key: string, stored: Stored)
    ensures ScoresOf(sets[key := stored]) == ScoresOf(sets)[key := Scores(stored.entries)]
  {
  }

  /** What the server drops by itself has expired for the limiter, too. */
  lemma DroppedWasExpired(stored: Stored, window: real, now: real)
    requires AllAtMost(Scores(stored.entries), stored.deadline - (Truncated(window) + 1) as real) && stored.deadline <= now
    ensures Expired(Scores(stored.entries), now - window)
  {
    TtlOutlastsWindow(window);
  }

  lemma SortedBucket(bucket: seq<real>, log: seq<Attempt>, key: string, now: real, window: real, max: nat)
    requires Ordered(log) && NotBefore(log, now) && StandsFor(bucket, TimesOf(log, key), now - window, max)
    ensures Sorted(bucket) && AllAtMost(bucket, now)
  {
    TimesOrdered(log, key, now);
    var times := TimesOf(log, key);
    assert forall i :: 0 <= i < |bucket| ==> bucket[i] == times[|times| - |bucket| + i];
  }

  // ---- both limiters on one run ----

  datatype Call = Call(key: string, at: real, member: string, late: bool)

  function LogOf(calls: seq<Call>): (r: seq<Attempt>)
    ensures |r| == |calls| && forall i :: 0 <= i < |r| ==> r[i] == Attempt(calls[i].key, calls[i].at)
  {
    if calls == [] then [] else LogOf(calls[..|calls| - 1]) + [Attempt(calls[|calls| - 1].key, calls[|calls| - 1].at)]
  }

  function MembersOf(calls: seq<Call>): set<string> {
    set i | 0 <= i < |calls| :: calls[i].member
  }

  /** A run the two limiters can share: the clock never runs backwards and member names are unique. */
  predicate CommonRun(calls: seq<Call>) {
    forall i, j :: 0 <= i < j < |calls| ==> calls[i].at <= calls[j].at && calls[i].member != calls[j].member
  }

  /**
   * Both limiters give the same answers on every common run, whenever the server chooses to drop
   * keys that have outlived their time: the answers of the attempt log. So neither of them ever
   * allows more than the maximum of calls on one key in a window of the configured length.
   */
  method RunBoth(calls: seq<Call>, maxRequests: nat, windowSeconds: real) returns (memory: seq<bool>, redis: seq<bool>)
    requires maxRequests > 0 && CommonRun(calls)
    ensures memory == redis && |memory| == |calls|
    ensures forall i :: 0 <= i < |calls| ==>
      memory[i] == Admits(LogOf(calls[..i]), calls[i].key, calls[i].at, windowSeconds, maxRequests)
    ensures forall key: string, start: real ::
      |AllowedWithin(LogOf(calls), memory, |calls|, key, start, windowSeconds)| <= maxRequests
  {
    hide Admits, AllowedWithin, AllStandFor, LogOf, StoredWell, CommonRun;
    var inMemory := new InMemoryRateLimiter(maxRequests, windowSeconds);
    var onRedis := new RedisRateLimiter(maxRequests, windowSeconds);
    memory, redis := [], [];
    var n := 0;
    EmptyLog(calls);
    while n < |calls|
      invariant 0 <= n <= |calls| && |memory| == n && memory == redis
      invariant inMemory.Valid() && onRedis.Valid() && fresh(inMemory) && fresh(onRedis)
      invariant inMemory.maxRequests == onRedis.maxRequests == maxRequests
      invariant inMemory.windowSeconds == onRedis.windowSeconds == windowSeconds
      invariant inMemory.log == LogOf(calls[..n]) == onRedis.log && onRedis.used == MembersOf(calls[..n])
      invariant forall i :: 0 <= i < n ==>
        memory[i] == Admits(LogOf(calls[..i]), calls[i].key, calls[i].at, windowSeconds, maxRequests)
    {
      var call := calls[n];
      NextCall(calls, n);
      var a := inMemory.IsAllowed(call.key, call.at);
      var dropped := call.late && call.key in onRedis.sets && onRedis.sets[call.key].deadline <= call.at;
      var b := onRedis.IsAllowed(call.key, call.at, call.member, dropped);
      memory, redis := memory + [a], redis + [b];
      n := n + 1;
    }
    AnswersOfLog(calls, memory, windowSeconds, maxRequests);
    forall key: string, start: real
      ensures |AllowedWithin(LogOf(calls), memory, |calls|, key, start, windowSeconds)| <= maxRequests
    {
      RunAllowsAtMostMax(LogOf(calls), memory, key, start, windowSeconds, maxRequests);
    }
  }

  lemma {:induction false} AnswersOfLog(calls: seq<Call>, answers: seq<bool>, window: real, max: nat)
    requires |answers| == |calls|
    requires forall i :: 0 <= i < |calls| ==>
      answers[i] == Admits(LogOf(calls[..i]), calls[i].key, calls[i].at, window, max)
    ensures Answered(LogOf(calls), answers, window, max)
  {
    hide Admits, LogOf;
    var log := LogOf(calls);
    forall i | 0 <= i < |log| ensures answers[i] == Admits(log[..i], log[i].key, log[i].at, window, max) {
      LogPrefix(calls, i);
    }
  }

  lemma {:induction false} LogPrefix(calls: seq<Call>, n: nat)
    requires n <= |calls|
    ensures LogOf(calls)[..n] == LogOf(calls[..n])
  {
    hide LogOf;
  }

  lemma EmptyLog(calls: seq<Call>)
    ensures LogOf(calls[..0]) == [] && MembersOf(calls[..0]) == {}
  {
  }

  /** The next call of a common run comes no earlier than the logged ones, and its member is new. */
  lemma NextCall(calls: seq<Call>, n: nat)
    requires CommonRun(calls) && n < |calls|
    ensures NotBefore(LogOf(calls[..n]), calls[n].at) && calls[n].member !in MembersOf(calls[..n])
    ensures LogOf(calls[..n + 1]) == LogOf(calls[..n]) + [Attempt(calls[n].key, calls[n].at)]
    ensures MembersOf(calls[..n + 1]) == MembersOf(calls[..n]) + {calls[n].member}
  {
    assert calls[..n + 1][..n] == calls[..n];
  }
}
