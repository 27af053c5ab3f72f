/**
 * The polling event streams: a high-water mark that is fetched inclusively, and a bounded window of
 * recently sent ids that filters out what the overlap fetches again.
 */
module EventStream {
  import opened Prelude

  datatype Event = Event(id: nat, at: int)

  const SSE_SEEN_MAX: nat := 2000

  function Ids(events: seq<Event>): (r: seq<nat>)
    ensures |r| == |events| && forall i :: 0 <= i < |r| ==> r[i] == events[i].id
  {
    seq(|events|, i requires 0 <= i < |events| => events[i].id)
  }

  function LastOf<T>(s: seq<T>, n: nat): seq<T> {
    if |s| <= n then s else s[|s| - n..]
  }

  /** The high-water mark: the latest time sent, but not before the start. */
  function Mark(since: int, sent: seq<Event>): int {
    if sent == [] then since
    else
      var rest := Mark(since, sent[..|sent| - 1]);
      if sent[|sent| - 1].at > rest then sent[|sent| - 1].at else rest
  }

  /** One row: sent unless its id is among the last `max` ones sent. */
  function SendOne(sent: seq<Event>, row: Event, max: nat): seq<Event> {
    if row.id in Ids(LastOf(sent, max)) then sent else sent + [row]
  }

  function SendAll(sent: seq<Event>, rows: seq<Event>, max: nat): seq<Event> {
    if rows == [] then sent else SendOne(SendAll(sent, rows[..|rows| - 1], max), rows[|rows| - 1], max)
  }

  // ---- the generator ----

  class EventGenerator {
    const since: int
    var lastSeen: int
    var seenIds: set<nat>
    var seenQueue: seq<nat>
    ghost var sent: seq<Event>

    /** The queue holds the last ids sent, the set holds what the queue holds, the mark is the latest time sent. */
    ghost predicate Valid()
      reads this
    {
      seenQueue == Ids(LastOf(sent, SSE_SEEN_MAX)) && Distinct(seenQueue) &&
      (forall id :: id in seenIds <==> id in seenQueue) && lastSeen == Mark(since, sent)
    }

    constructor (since: int)
      ensures Valid() && this.since == since && sent == []
    {
      this.since := since;
      lastSeen, seenIds, seenQueue, sent := since, {}, [], [];
    }

    method Send(row: Event)
      requires Valid() && row.id !in seenIds
      modifies this
      ensures Valid() && sent == old(sent) + [row]
    {
      hide Distinct, LastOf, Ids;
      ShiftedIds(sent, row, SSE_SEEN_MAX);
      ShiftedMembers(seenQueue, row.id, SSE_SEEN_MAX);
      seenIds := seenIds + {row.id};
      seenQueue := seenQueue + [row.id];
      if |seenQueue| > SSE_SEEN_MAX {
        var oldest := seenQueue[0];
        seenQueue := seenQueue[1..];
        seenIds := seenIds - {oldest};
      }
      lastSeen := if row.at > lastSeen then row.at else lastSeen;
      sent := sent + [row];
      assert sent[..|sent| - 1] == old(sent);
    }

    /** One poll: sends the fetched rows that the window does not know, in their order. */
    method Poll(rows: seq<Event>) returns (delivered: seq<Event>)
      requires Valid()
      modifies this
      ensures Valid() && sent == SendAll(old(sent), rows, SSE_SEEN_MAX) == old(sent) + delivered
    {
      hide SendAll, LastOf, Ids, Distinct, Mark;
      delivered := [];
      NothingSent(sent, SSE_SEEN_MAX);
      assert rows[..0] == [];
      var i := 0;
      while i < |rows|
        invariant 0 <= i <= |rows| && Valid()
        invariant sent == SendAll(old(sent), rows[..i], SSE_SEEN_MAX) == old(sent) + delivered
      {
        SendNext(old(sent), rows, i, SSE_SEEN_MAX);
        if rows[i].id !in seenIds {
          Send(rows[i]);
          delivered := delivered + [rows[i]];
        }
        i := i + 1;
      }
      assert rows[..i] == rows;
    }
  }

  lemma NothingSent(sent: seq<Event>, max: nat)
    ensures SendAll(sent, [], max) == sent == sent + []
  {
  }

  /** One more row. */
  lemma SendNext(sent: seq<Event>, rows: seq<Event>, n: nat, max: nat)
    requires n < |rows|
    ensures var now := SendAll(sent, rows[..n], max);
      SendAll(sent, rows[..n + 1], max) == if rows[n].id in Ids(LastOf(now, max)) then now else now + [rows[n]]
  {
    hide Ids, LastOf;
    assert rows[..n + 1][..n] == rows[..n];
  }

  /** A new id enters the queue, and the oldest leaves a queue that has become too long. */
  function Shifted(queue: seq<nat>, id: nat, max: nat): seq<nat> {
    if |queue| + 1 > max then (queue + [id])[1..] else queue + [id]
  }

  lemma ShiftedIds(sent: seq<Event>, row: Event, max: nat)
    ensures Shifted(Ids(LastOf(sent, max)), row.id, max) == Ids(LastOf(sent + [row], max))
  {
    var last := LastOf(sent, max);
    assert Ids(last + [row]) == Ids(last) + [row.id];
    if |last| + 1 > max {
      assert LastOf(sent + [row], max) == (last + [row])[1..];
    } else {
      assert LastOf(sent + [row], max) == last + [row];
    }
  }

  lemma ShiftedMembers(queue: seq<nat>, id: nat, max: nat)
    requires Distinct(queue) && id !in queue
    ensures Distinct(Shifted(queue, id, max))
    ensures forall x :: x in Shifted(queue, id, max) <==>
      (x in queue || x == id) && (|queue| + 1 > max ==> x != (queue + [id])[0])
  {
    var longer := queue + [id];
    var first, rest := longer[0], longer[1..];
    assert forall i :: 0 <= i < |rest| ==> rest[i] == longer[i + 1] && longer[i + 1] != first;
    forall x ensures x in longer <==> x in queue || x == id {
    }
    forall x ensures x in rest <==> x in longer && x != first {
      if x in longer && x != first {
        var i :| 0 <= i < |longer| && longer[i] == x;
        assert rest[i - 1] == x;
      }
    }
  }

  // ---- one poll under the assumptions on the table ----

  predicate InOrder(events: seq<Event>) {
    forall i, j :: 0 <= i < j < |events| ==> events[i].at <= events[j].at
  }

  predicate DistinctIds(events: seq<Event>) {
    forall i, j :: 0 <= i < j < |events| ==> events[i].id != events[j].id
  }

  predicate NotAfter(events: seq<Event>, t: int) {
    forall i :: 0 <= i < |events| ==> events[i].at <= t
  }

  function CountAt(events: seq<Event>, t: int): nat {
    if events == [] then 0
    else CountAt(events[..|events| - 1], t) + if events[|events| - 1].at == t then 1 else 0
  }

  /** The rows that were not sent before. */
  function Unsent(rows: seq<Event>, sent: seq<Event>): seq<Event> {
    if rows == [] then []
    else
      var last := rows[|rows| - 1];
      Unsent(rows[..|rows| - 1], sent) + if last in sent then [] else [last]
  }

  /** The rows a query for times from `mark` on returns: all of them once, in the order of time. */
  ghost predicate Fetched(table: set<Event>, mark: int, rows: seq<Event>) {
    (forall e :: e in rows <==> e in table && e.at >= mark) && InOrder(rows) && DistinctIds(rows)
  }

  lemma {:induction false} UnsentMembers(rows: seq<Event>, sent: seq<Event>)
    ensures forall e :: e in Unsent(rows, sent) <==> e in rows && e !in sent
  {
    if rows != [] {
      UnsentMembers(rows[..|rows| - 1], sent);
      assert rows == rows[..|rows| - 1] + [rows[|rows| - 1]];
    }
  }

  lemma {:induction false} UnsentOrdered(rows: seq<Event>, sent: seq<Event>)
    requires InOrder(rows) && DistinctIds(rows)
    ensures InOrder(Unsent(rows, sent)) && DistinctIds(Unsent(rows, sent))
  {
    if rows != [] {
      var init, last := rows[..|rows| - 1], rows[|rows| - 1];
      UnsentOrdered(init, sent);
      UnsentMembers(init, sent);
      var u := Unsent(init, sent);
      forall i | 0 <= i < |u| ensures u[i].at <= last.at && u[i].id != last.id {
        assert u[i] in init;
      }
    }
  }

  lemma {:induction false} CountSplit(a: seq<Event>, b: seq<Event>, t: int)
    ensures CountAt(a + b, t) == CountAt(a, t) + CountAt(b, t)
  {
    if b == [] {
      assert a + b == a;
    } else {
      assert (a + b)[..|a + b| - 1] == a + b[..|b| - 1];
      CountSplit(a, b[..|b| - 1], t);
    }
  }

  lemma {:induction false} CountAll(events: seq<Event>, t: int)
    requires forall i :: 0 <= i < |events| ==> events[i].at == t
    ensures CountAt(events, t) == |events|
  {
    if events != [] { CountAll(events[..|events| - 1], t); }
  }

  lemma {:induction false} UnsentGrows(rows: seq<Event>, n: nat, sent: seq<Event>, t: int)
    requires n <= |rows|
    ensures CountAt(Unsent(rows[..n], sent), t) <= CountAt(Unsent(rows, sent), t)
    decreases |rows|
  {
    if n < |rows| {
      var init := rows[..|rows| - 1];
      assert init[..n] == rows[..n];
      UnsentGrows(init, n, sent, t);
      CountSplit(Unsent(init, sent), if rows[|rows| - 1] in sent then [] else [rows[|rows| - 1]], t);
    } else {
      assert rows[..n] == rows;
    }
  }

  lemma TailTies(events: seq<Event>, k: nat, t: int)
    requires InOrder(events) && NotAfter(events, t) && k < |events| && events[k].at == t
    ensures CountAt(events[k..], t) == |events| - k
  {
    CountAll(events[k..], t);
  }

  lemma LastHas(events: seq<Event>, k: nat, max: nat)
    requires k < |events| && |events| - k <= max
    ensures events[k].id in Ids(LastOf(events, max))
  {
    var last := LastOf(events, max);
    var j := k - (|events| - |last|);
    assert last[j] == events[k] && Ids(last)[j] == last[j].id;
  }

  /** In a sequence ordered by time, the events at its latest time are the last ones. */
  lemma TiesAreLast(events: seq<Event>, k: nat, t: int, max: nat)
    requires InOrder(events) && NotAfter(events, t) && k < |events| && events[k].at == t && CountAt(events, t) <= max
    ensures events[k].id in Ids(LastOf(events, max))
  {
    hide InOrder, NotAfter, LastOf, Ids;
    TailTies(events, k, t);
    CountSplit(events[..k], events[k..], t);
    assert events == events[..k] + events[k..];
    LastHas(events, k, max);
  }

  /** Ids name events: the same id always comes with the same event. */
  ghost predicate Named(all: set<Event>) {
    forall e, f :: e in all && f in all && e.id == f.id ==> e == f
  }

  ghost predicate From(events: seq<Event>, all: set<Event>) {
    forall e :: e in events ==> e in all
  }

  /** A row is known to the window exactly when it was sent before, up to row `n`. */
  lemma WindowKnows(sent: seq<Event>, rows: seq<Event>, n: nat, mark: int, max: nat, all: set<Event>)
    requires Named(all) && From(sent, all) && From(rows, all) && InOrder(sent) && NotAfter(sent, mark)
    requires InOrder(rows) && DistinctIds(rows) && n < |rows| && forall i :: 0 <= i < |rows| ==> rows[i].at >= mark
    requires CountAt(sent + Unsent(rows, sent), mark) <= max
    ensures rows[n].id in Ids(LastOf(sent + Unsent(rows[..n], sent), max)) <==> rows[n] in sent
  {
    var init, row := rows[..n], rows[n];
    var u := Unsent(init, sent);
    var now := sent + u;
    UnsentMembers(init, sent);
    if row in sent {
      KnownRow(sent, rows, n, mark, max);
    } else {
      var last := LastOf(now, max);
      forall i | 0 <= i < |last| ensures last[i].id != row.id {
        assert last[i] in now;
        if last[i] in u { assert last[i] in init; }
      }
    }
  }

  lemma KnownRow(sent: seq<Event>, rows: seq<Event>, n: nat, mark: int, max: nat)
    requires InOrder(sent) && NotAfter(sent, mark)
    requires InOrder(rows) && DistinctIds(rows) && n < |rows| && forall i :: 0 <= i < |rows| ==> rows[i].at >= mark
    requires CountAt(sent + Unsent(rows, sent), mark) <= max && rows[n] in sent
    ensures rows[n].id in Ids(LastOf(sent + Unsent(rows[..n], sent), max))
  {
    var init, row := rows[..n], rows[n];
    var u := Unsent(init, sent);
    var now := sent + u;
    UnsentMembers(init, sent);
    var k :| 0 <= k < |sent| && sent[k] == row;
    forall i | 0 <= i < |u| ensures u[i].at == mark {
      assert u[i] in init;
    }
    UnsentGrows(rows, n, sent, mark);
    CountSplit(sent, Unsent(rows, sent), mark);
    CountSplit(sent, u, mark);
    assert now[k] == row;
    TiesAreLast(now, k, mark, max);
  }

  /** As long as the ties at the mark fit the window, a poll sends exactly the rows not sent before. */
  lemma {:induction false} PollSendsUnsent(sent: seq<Event>, rows: seq<Event>, n: nat, mark: int, max: nat, all: set<Event>)
    requires Named(all) && From(sent, all) && From(rows, all) && InOrder(sent) && NotAfter(sent, mark)
    requires InOrder(rows) && DistinctIds(rows) && n <= |rows| && forall i :: 0 <= i < |rows| ==> rows[i].at >= mark
    requires CountAt(sent + Unsent(rows, sent), mark) <= max
    ensures SendAll(sent, rows[..n], max) == sent + Unsent(rows[..n], sent)
  {
    hide InOrder, DistinctIds, NotAfter, Named, From, LastOf, Ids, CountAt;
    if n > 0 {
      PollSendsUnsent(sent, rows, n - 1, mark, max, all);
      WindowKnows(sent, rows, n - 1, mark, max, all);
      assert rows[..n][..n - 1] == rows[..n - 1];
    }
  }

  // ---- whole runs ----

  /** One poll: the visible events, and the rows in the order the query returned them. */
  datatype PollOf = PollOf(table: set<Event>, rows: seq<Event>)

  /** Everything sent in a run of polls. */
  function RunLog(polls: seq<PollOf>, max: nat): seq<Event> {
    if polls == [] then [] else SendAll(RunLog(polls[..|polls| - 1], max), polls[|polls| - 1].rows, max)
  }

  function TiesOf(events: set<Event>, t: int): set<Event> {
    set e | e in events && e.at == t
  }

  /** From the start on, no more events than the window holds share one time. */
  ghost predicate TiesFit(since: int, all: set<Event>, max: nat) {
    forall t :: t >= since ==> |TiesOf(all, t)| <= max
  }

  /**
   * Poll `k` fetches what is visible, and what has become visible since the poll before it is not
   * older than what has been sent.
   */
  ghost predicate PollFits(since: int, polls: seq<PollOf>, k: nat, max: nat, all: set<Event>)
    requires k < |polls|
  {
    var mark := Mark(since, RunLog(polls[..k], max));
    polls[k].table <= all && Fetched(polls[k].table, mark, polls[k].rows) &&
    (k > 0 ==> forall e :: e in polls[k].table && e !in polls[k - 1].table ==> e.at >= mark)
  }

  /** What the sent events are like at any moment. */
  ghost predicate SentWell(since: int, sent: seq<Event>, all: set<Event>) {
    From(sent, all) && InOrder(sent) && DistinctIds(sent) && forall i :: 0 <= i < |sent| ==> sent[i].at >= since
  }

  lemma {:induction false} MarkBounds(since: int, sent: seq<Event>)
    ensures Mark(since, sent) >= since && NotAfter(sent, Mark(since, sent))
  {
    if sent != [] { MarkBounds(since, sent[..|sent| - 1]); }
  }

  lemma {:induction false} CountIsTies(events: seq<Event>, t: int, all: set<Event>)
    requires DistinctIds(events) && From(events, all)
    ensures CountAt(events, t) <= |TiesOf(all, t)|
    decreases |events|
  {
    if events != [] {
      var init, last := events[..|events| - 1], events[|events| - 1];
      if last.at == t {
        forall e | e in init ensures e in all - {last} {
          var i :| 0 <= i < |init| && init[i] == e;
          assert events[i] == e;
        }
        CountIsTies(init, t, all - {last});
        assert TiesOf(all - {last}, t) == TiesOf(all, t) - {last};
        assert last in events;
      } else {
        CountIsTies(init, t, all);
      }
    }
  }

  lemma AppendedWell(since: int, sent: seq<Event>, rows: seq<Event>, all: set<Event>, mark: int)
    requires Named(all) && SentWell(since, sent, all) && From(rows, all) && mark == Mark(since, sent)
    requires InOrder(rows) && DistinctIds(rows) && forall i :: 0 <= i < |rows| ==> rows[i].at >= mark
    ensures SentWell(since, sent + Unsent(rows, sent), all)
  {
    var u := Unsent(rows, sent);
    MarkBounds(since, sent);
    UnsentMembers(rows, sent);
    UnsentOrdered(rows, sent);
    forall i, j | 0 <= i < |sent| && 0 <= j < |u| ensures sent[i].at <= u[j].at && sent[i].id != u[j].id {
      assert u[j] in u && sent[i] in sent;
    }
    forall j | 0 <= j < |u| ensures u[j].at >= since {
      assert u[j] in rows;
    }
  }

  /** One poll of a run keeps the sent events well, and sends every visible event that was not sent before. */
  lemma PollKeepsWell(since: int, sent: seq<Event>, table: set<Event>, rows: seq<Event>, max: nat, all: set<Event>)
    requires Named(all) && TiesFit(since, all, max) && SentWell(since, sent, all) && table <= all
    requires Fetched(table, Mark(since, sent), rows)
    ensures SentWell(since, SendAll(sent, rows, max), all)
    ensures forall e :: e in SendAll(sent, rows, max) <==> e in sent || e in rows
  {
    hide CountAt, SendAll, InOrder, DistinctIds, Named, NotAfter;
    var mark := Mark(since, sent);
    MarkBounds(since, sent);
    forall i | 0 <= i < |rows| ensures rows[i].at >= mark {
      assert rows[i] in rows;
    }
    AppendedWell(since, sent, rows, all, mark);
    CountIsTies(sent + Unsent(rows, sent), mark, all);
    assert |TiesOf(all, mark)| <= max;
    PollSendsUnsent(sent, rows, |rows|, mark, max, all);
    assert rows[..|rows|] == rows;
    UnsentMembers(rows, sent);
  }

  /** Each poll fetches what is visible from the mark on; nothing is said about when events become visible. */
  ghost predicate PollFetches(since: int, polls: seq<PollOf>, k: nat, max: nat, all: set<Event>)
    requires k < |polls|
  {
    polls[k].table <= all && Fetched(polls[k].table, Mark(since, RunLog(polls[..k], max)), polls[k].rows)
  }

  /** In every poll of the run, the query returns what is visible from the mark on. */
  ghost predicate Polled(since: int, polls: seq<PollOf>, max: nat, all: set<Event>) {
    forall k :: 0 <= k < |polls| ==> PollFetches(since, polls, k, max, all)
  }

  /** Some poll sees the event, and nothing later than the event has been sent before that poll. */
  ghost predicate SeenInTime(since: int, polls: seq<PollOf>, max: nat, e: Event) {
    exists k :: 0 <= k < |polls| && SeenAt(since, polls, k, max, e)
  }

  ghost predicate SeenAt(since: int, polls: seq<PollOf>, k: nat, max: nat, e: Event)
    requires k < |polls|
  {
    e in polls[k].table && e.at >= Mark(since, RunLog(polls[..k], max))
  }

  lemma SeenInPrefix(since: int, polls: seq<PollOf>, max: nat, e: Event)
    requires polls != []
    ensures var init := polls[..|polls| - 1];
      SeenInTime(since, polls, max, e) <==> SeenInTime(since, init, max, e) || SeenAt(since, polls, |polls| - 1, max, e)
  {
    hide RunLog;
    var init := polls[..|polls| - 1];
    forall k | 0 <= k < |init| ensures SeenAt(since, init, k, max, e) == SeenAt(since, polls, k, max, e) {
      assert init[..k] == polls[..k];
    }
  }

  /**
   * Whenever events become visible, every run delivers in the order of time and never twice, and it
   * delivers an event exactly when some poll sees it before anything later has been sent: one that
   * arrives below the mark is lost.
   */
  lemma {:induction false} DeliveredIff(since: int, polls: seq<PollOf>, max: nat, all: set<Event>)
    requires Named(all) && TiesFit(since, all, max) && Polled(since, polls, max, all)
    ensures SentWell(since, RunLog(polls, max), all)
    ensures forall e :: e in RunLog(polls, max) <==> SeenInTime(since, polls, max, e)
  {
    hide SentWell, TiesFit, Named, SendAll, SeenInTime;
    if polls == [] {
      EmptySentWell(since, all);
      forall e ensures !SeenInTime(since, polls, max, e) {
        NothingSeen(since, max, e);
      }
    } else {
      var init, n := polls[..|polls| - 1], |polls| - 1;
      forall k | 0 <= k < n ensures PollFetches(since, init, k, max, all) {
        assert PollFetches(since, polls, k, max, all);
        assert init[..k] == polls[..k];
      }
      DeliveredIff(since, init, max, all);
      assert PollFetches(since, polls, n, max, all);
      PollKeepsWell(since, RunLog(init, max), polls[n].table, polls[n].rows, max, all);
      forall e ensures e in RunLog(polls, max) <==> SeenInTime(since, polls, max, e) {
        SeenInPrefix(since, polls, max, e);
      }
    }
  }

  lemma NothingSeen(since: int, max: nat, e: Event)
    ensures !SeenInTime(since, [], max, e)
  {
  }

  /**
   * If new events are never older than what has been sent, every run delivers exactly once each event
   * from `since` on that was visible to some poll.
   */
  lemma {:induction false} ExactlyOnce(since: int, polls: seq<PollOf>, max: nat, all: set<Event>)
    requires Named(all) && TiesFit(since, all, max) && forall k :: 0 <= k < |polls| ==> PollFits(since, polls, k, max, all)
    ensures SentWell(since, RunLog(polls, max), all)
    ensures forall e :: e in RunLog(polls, max) <==> e.at >= since && exists k :: 0 <= k < |polls| && e in polls[k].table
  {
    hide SentWell, TiesFit, Named, RunLog;
    forall k | 0 <= k < |polls| ensures PollFetches(since, polls, k, max, all) {
      assert PollFits(since, polls, k, max, all);
    }
    DeliveredIff(since, polls, max, all);
    forall e ensures e in RunLog(polls, max) <==> e.at >= since && exists k :: 0 <= k < |polls| && e in polls[k].table {
      if SeenInTime(since, polls, max, e) {
        var k :| 0 <= k < |polls| && SeenAt(since, polls, k, max, e);
        MarkBounds(since, RunLog(polls[..k], max));
      } else if e.at >= since && exists k :: 0 <= k < |polls| && e in polls[k].table {
        var k :| 0 <= k < |polls| && e in polls[k].table;
        VisibleIsSeen(since, polls, k, max, all, e);
      }
    }
  }

  /** An event below the mark was visible to the poll before, so some earlier poll saw it in time. */
  lemma {:induction false} VisibleIsSeen(since: int, polls: seq<PollOf>, k: nat, max: nat, all: set<Event>, e: Event)
    requires k < |polls| && e in polls[k].table && e.at >= since
    requires forall i :: 0 <= i < |polls| ==> PollFits(since, polls, i, max, all)
    ensures SeenInTime(since, polls, max, e)
  {
    assert PollFits(since, polls, k, max, all);
    if e.at >= Mark(since, RunLog(polls[..k], max)) {
      assert SeenAt(since, polls, k, max, e);
    } else {
      assert polls[..0] == [];
      VisibleIsSeen(since, polls, k - 1, max, all, e);
    }
  }

  lemma EmptySentWell(since: int, all: set<Event>)
    ensures SentWell(since, [], all)
  {
  }

  // ---- the bound on ties is needed ----

  lemma {:induction false} SendGrows(sent: seq<Event>, rows: seq<Event>, n: nat, max: nat)
    requires n <= |rows|
    ensures |sent| <= |SendAll(sent, rows[..n], max)| <= |SendAll(sent, rows, max)|
    ensures sent <= SendAll(sent, rows, max)
    decreases |rows|
  {
    if n < |rows| {
      var init := rows[..|rows| - 1];
      assert init[..n] == rows[..n];
      SendGrows(sent, init, n, max);
    } else {
      assert rows[..n] == rows;
      if n > 0 {
        SendGrows(sent, rows[..n - 1], n - 1, max);
        assert rows[..n - 1][..n - 1] == rows[..n - 1];
      }
    }
  }

  lemma {:induction false} CountNone(events: seq<Event>, t: int)
    requires forall i :: 0 <= i < |events| ==> events[i].at < t
    ensures CountAt(events, t) == 0
  {
    if events != [] { CountNone(events[..|events| - 1], t); }
  }

  lemma {:induction false} TailAt(events: seq<Event>, t: int)
    requires InOrder(events) && NotAfter(events, t)
    ensures CountAt(events, t) <= |events|
    ensures forall i :: |events| - CountAt(events, t) <= i < |events| ==> events[i].at == t
  {
    if events != [] {
      var init, last := events[..|events| - 1], events[|events| - 1];
      TailAt(init, t);
      if last.at < t { CountNone(init, t); }
    }
  }

  lemma OutsideWindow(sent: seq<Event>, k: nat, max: nat)
    requires DistinctIds(sent) && k + max < |sent|
    ensures sent[k].id !in Ids(LastOf(sent, max))
  {
    var last := LastOf(sent, max);
    assert forall i :: 0 <= i < |last| ==> last[i] == sent[|sent| - max + i];
  }

  lemma Resends(sent: seq<Event>, rows: seq<Event>, n: nat, max: nat)
    requires n < |rows| && rows[n].id !in Ids(LastOf(sent, max))
    ensures SendAll(sent, rows, max) != sent
  {
    hide Ids, LastOf;
    SendGrows(sent, rows, n, max);
    SendGrows(sent, rows, n + 1, max);
    SendGrows(sent, rows[..n], n, max);
    assert rows[..n][..n] == rows[..n] && rows[..n + 1][..n] == rows[..n];
  }

  lemma NothingUnsent(rows: seq<Event>, sent: seq<Event>)
    requires forall e :: e in rows ==> e in sent
    ensures Unsent(rows, sent) == []
  {
    UnsentMembers(rows, sent);
    SomeMember(Unsent(rows, sent));
  }

  /**
   * When nothing has changed, the next poll fetches the events at the mark again and sends nothing,
   * exactly when no more of them share the mark than the window holds.
   */
  lemma QuietPoll(since: int, sent: seq<Event>, rows: seq<Event>, max: nat, all: set<Event>)
    requires Named(all) && SentWell(since, sent, all) && InOrder(rows) && DistinctIds(rows)
    requires forall e :: e in rows <==> e in sent && e.at == Mark(since, sent)
    ensures SendAll(sent, rows, max) == sent <==> CountAt(sent, Mark(since, sent)) <= max
  {
    hide Named, SendAll, CountAt, Ids, LastOf;
    var mark := Mark(since, sent);
    MarkBounds(since, sent);
    if CountAt(sent, mark) <= max {
      NothingUnsent(rows, sent);
      assert sent + [] == sent && rows[..|rows|] == rows;
      forall i | 0 <= i < |rows| ensures rows[i].at >= mark {
        assert rows[i] in rows;
      }
      PollSendsUnsent(sent, rows, |rows|, mark, max, all);
    } else {
      TailAt(sent, mark);
      var k := |sent| - max - 1;
      assert sent[k].at == mark && sent[k] in sent;
      OutsideWindow(sent, k, max);
      var n :| 0 <= n < |rows| && rows[n] == sent[k];
      Resends(sent, rows, n, max);
    }
  }

  // ---- exactly when no event is ever sent twice ----

  ghost predicate NeverTwice(since: int, max: nat, all: set<Event>) {
    forall polls :: Polled(since, polls, max, all) ==> DistinctIds(RunLog(polls, max))
  }

  /** The events of a set, each once. */
  lemma {:induction false} Listed(events: set<Event>) returns (rows: seq<Event>)
    ensures |rows| == |events| && Distinct(rows) && forall e :: e in rows <==> e in events
  {
    rows := [];
    if events != {} {
      var e :| e in events;
      var rest := Listed(events - {e});
      rows := rest + [e];
    }
  }

  lemma NamedApart(rows: seq<Event>, all: set<Event>)
    requires Named(all) && From(rows, all) && Distinct(rows)
    ensures DistinctIds(rows)
  {
    forall i, j | 0 <= i < j < |rows| ensures rows[i].id != rows[j].id {
      assert rows[i] in rows && rows[j] in rows;
    }
  }

  lemma UnknownRow(rows: seq<Event>, n: nat, max: nat)
    requires DistinctIds(rows) && n < |rows|
    ensures rows[n].id !in Ids(LastOf(rows[..n], max))
  {
    var last := LastOf(rows[..n], max);
    var ids := Ids(last);
    forall i | 0 <= i < |ids| ensures ids[i] != rows[n].id {
      assert last[i] == rows[n - |last| + i];
    }
  }

  /** A first poll sends all its rows. */
  lemma {:induction false} FirstPollSends(rows: seq<Event>, n: nat, max: nat)
    requires DistinctIds(rows) && n <= |rows|
    ensures SendAll([], rows[..n], max) == rows[..n]
  {
    hide DistinctIds, Ids, LastOf;
    if n > 0 {
      FirstPollSends(rows, n - 1, max);
      SendNext([], rows, n - 1, max);
      UnknownRow(rows, n - 1, max);
      assert rows[..n] == rows[..n - 1] + [rows[n - 1]];
    }
  }

  /** Sending adds rows only. */
  lemma {:induction false} SendsRows(sent: seq<Event>, rows: seq<Event>, max: nat)
    ensures forall e :: e in SendAll(sent, rows, max) ==> e in sent || e in rows
  {
    hide Ids, LastOf;
    if rows != [] { SendsRows(sent, rows[..|rows| - 1], max); }
  }

  lemma {:induction false} MarkOfTies(since: int, rows: seq<Event>, t: int)
    requires t >= since && rows != [] && forall i :: 0 <= i < |rows| ==> rows[i].at == t
    ensures Mark(since, rows) == t
  {
    if |rows| > 1 { MarkOfTies(since, rows[..|rows| - 1], t); }
  }

  /** When more events than the window holds share a time, polling for them twice sends one of them again. */
  lemma SecondPollRepeats(since: int, rows: seq<Event>, t: int, max: nat, all: set<Event>)
    requires Named(all) && From(rows, all) && DistinctIds(rows) && t >= since && |rows| > max
    requires forall i :: 0 <= i < |rows| ==> rows[i].at == t
    ensures !DistinctIds(SendAll(rows, rows, max))
  {
    hide SendAll, Named, From, Mark, CountAt;
    MarkOfTies(since, rows, t);
    CountAll(rows, t);
    assert SentWell(since, rows, all);
    forall e ensures e in rows <==> e in rows && e.at == t {
    }
    QuietPoll(since, rows, rows, max, all);
    SendGrows(rows, rows, |rows|, max);
    SendsRows(rows, rows, max);
    LongerRepeats(rows, SendAll(rows, rows, max));
  }

  lemma LongerRepeats(rows: seq<Event>, longer: seq<Event>)
    requires rows <= longer && longer != rows && forall e :: e in longer ==> e in rows
    ensures !DistinctIds(longer)
  {
    var e := longer[|rows|];
    assert e in longer;
    var i :| 0 <= i < |rows| && rows[i] == e;
    assert longer[i] == e;
  }

  /** Two polls of the events at `t`, and nothing else. */
  lemma TwoPolls(since: int, t: int, max: nat, all: set<Event>) returns (polls: seq<PollOf>)
    requires Named(all) && t >= since && |TiesOf(all, t)| > max
    ensures Polled(since, polls, max, all) && !DistinctIds(RunLog(polls, max))
  {
    hide SendAll, Mark, Named, Distinct;
    var ties := TiesOf(all, t);
    var rows := Listed(ties);
    NamedApart(rows, all);
    forall i | 0 <= i < |rows| ensures rows[i].at == t {
      assert rows[i] in rows;
    }
    var poll := PollOf(ties, rows);
    polls := [poll, poll];
    FirstPollSends(rows, |rows|, max);
    assert rows[..|rows|] == rows && polls[..0] == [] && polls[..1] == [poll] && [poll][..0] == [];
    assert RunLog([], max) == [];
    assert RunLog([poll], max) == SendAll([], rows, max) == rows;
    assert RunLog(polls, max) == SendAll(rows, rows, max);
    MarkOfTies(since, rows, t);
    EmptyMark(since);
    assert PollFetches(since, polls, 0, max, all);
    assert PollFetches(since, polls, 1, max, all);
    SecondPollRepeats(since, rows, t, max, all);
  }

  lemma EmptyMark(since: int)
    ensures Mark(since, []) == since
  {
  }

  /**
   * No run of polls ever sends an event twice, whenever events become visible, exactly when from the
   * start on no more events than the window holds share one time.
   */
  lemma NoRepeatIff(since: int, max: nat, all: set<Event>)
    requires Named(all)
    ensures NeverTwice(since, max, all) <==> TiesFit(since, all, max)
  {
    hide Named, RunLog, DistinctIds;
    if TiesFit(since, all, max) {
      forall polls | Polled(since, polls, max, all) ensures DistinctIds(RunLog(polls, max)) {
        DeliveredIff(since, polls, max, all);
      }
    } else {
      var t :| t >= since && |TiesOf(all, t)| > max;
      var polls := TwoPolls(since, t, max, all);
    }
  }
}
