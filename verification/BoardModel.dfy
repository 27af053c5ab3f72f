/**
 * The rows one board owns: tasks, dependency edges, approvals with their task links, the
 * activity log and the agents that may act.  Queries are the program's SQL statements.
 */
module BoardModel {
  import opened Prelude

  type TaskId = nat
  type AgentId = nat
  type ApprovalId = nat
  type BoardId = nat
  type Time = nat

  datatype Status = Inbox | InProgress | Review | Done

  datatype Task = Task(
    title: string,
    status: Status,
    assignee: Option<AgentId>,
    inProgressAt: Option<Time>,
    previousInProgressAt: Option<Time>)

  datatype Agent = Agent(board: Option<BoardId>, isLead: bool)

  datatype Rules = Rules(
    requireApproval: bool,
    requireReview: bool,
    commentForReview: bool,
    blockWhilePending: bool,
    onlyLeadChangesStatus: bool)

  datatype EventKind = TaskCreated | TaskUpdated | StatusChanged | TaskComment

  datatype Event = Event(kind: EventKind, task: TaskId, agent: Option<AgentId>, message: string, at: Time)

  datatype ApprovalStatus = Pending | Approved | Rejected

  datatype Approval = Approval(primary: Option<TaskId>, status: ApprovalStatus)

  datatype Link = Link(approval: ApprovalId, task: TaskId)

  datatype Edge = Edge(task: TaskId, dependsOn: TaskId)

  /** `firstLead` is the row that the unordered query for the board's lead returns first. */
  datatype Board = Board(
    id: BoardId,
    rules: Rules,
    agents: map<AgentId, Agent>,
    firstLead: Option<AgentId>,
    tasks: map<TaskId, Task>,
    edges: seq<Edge>,
    approvals: map<ApprovalId, Approval>,
    links: seq<Link>,
    log: seq<Event>,
    clock: Time)

  function EmptyBoard(id: BoardId, rules: Rules): Board {
    Board(id, rules, map[], None, map[], [], map[], [], [], 0)
  }

  // ---- dependencies ----

  predicate DoneTask(tasks: map<TaskId, Task>, id: TaskId) {
    id in tasks && tasks[id].status == Done
  }

  /** Some dependency of `id` recorded in `edges` is not done. */
  predicate Blocked(tasks: map<TaskId, Task>, edges: seq<Edge>, id: TaskId) {
    exists i :: 0 <= i < |edges| && edges[i].task == id && !DoneTask(tasks, edges[i].dependsOn)
  }

  predicate AnyNotDone(tasks: map<TaskId, Task>, deps: seq<TaskId>) {
    exists i :: 0 <= i < |deps| && !DoneTask(tasks, deps[i])
  }

  /** Nothing is happening on the task: it waits in the inbox, unassigned and not started. */
  predicate Parked(t: Task) {
    t.status == Inbox && t.assignee == None && t.inProgressAt == None
  }

  function EdgesOf(id: TaskId, deps: seq<TaskId>): (r: seq<Edge>)
    ensures |r| == |deps|
    ensures forall i :: 0 <= i < |deps| ==> r[i] == Edge(id, deps[i])
  {
    seq(|deps|, i requires 0 <= i < |deps| => Edge(id, deps[i]))
  }

  /** Replace all dependencies of one task. */
  function ReplaceEdges(edges: seq<Edge>, id: TaskId, deps: seq<TaskId>): (r: seq<Edge>)
    ensures forall e :: e in r <==> (e in edges && e.task != id) || (e.task == id && e.dependsOn in deps)
  {
    var kept := Filter(edges, (e: Edge) => e.task != id);
    var added := EdgesOf(id, deps);
    assert forall d :: d in deps ==> Edge(id, d) in added by {
      forall d | d in deps ensures Edge(id, d) in added {
        var i :| 0 <= i < |deps| && deps[i] == d;
        assert added[i] == Edge(id, d);
      }
    }
    kept + added
  }

  function DropTaskEdges(edges: seq<Edge>, id: TaskId): (r: seq<Edge>)
    ensures forall e :: e in r <==> e in edges && e.task != id && e.dependsOn != id
  {
    Filter(edges, (e: Edge) => e.task != id && e.dependsOn != id)
  }

  /** Ids of the tasks that depend on `id`, in edge order. */
  function Dependents(edges: seq<Edge>, id: TaskId): (r: seq<TaskId>)
    ensures forall t :: t in r <==> Edge(t, id) in edges
  {
    if edges == [] then []
    else
      var rest := Dependents(edges[..|edges| - 1], id);
      var last := edges[|edges| - 1];
      assert edges == edges[..|edges| - 1] + [last];
      if last.dependsOn == id then rest + [last.task] else rest
  }

  // ---- approvals ----

  predicate HasLinks(links: seq<Link>, a: ApprovalId) {
    exists i :: 0 <= i < |links| && links[i].approval == a
  }

  function LinkedTasks(links: seq<Link>, a: ApprovalId): (r: seq<TaskId>)
    ensures forall t :: t in r <==> Link(a, t) in links
    ensures r != [] <==> HasLinks(links, a)
  {
    if links == [] then []
    else
      var rest := LinkedTasks(links[..|links| - 1], a);
      var last := links[|links| - 1];
      assert links == links[..|links| - 1] + [last];
      assert HasLinks(links[..|links| - 1], a) ==> HasLinks(links, a) by {
        if HasLinks(links[..|links| - 1], a) {
          var i :| 0 <= i < |links| - 1 && links[..|links| - 1][i].approval == a;
          assert links[i].approval == a;
        }
      }
      if last.approval == a then
        assert links[|links| - 1].approval == a;
        rest + [last.task]
      else
        assert HasLinks(links, a) ==> HasLinks(links[..|links| - 1], a) by {
          if HasLinks(links, a) {
            var i :| 0 <= i < |links| && links[i].approval == a;
            assert links[..|links| - 1][i].approval == a;
          }
        }
        rest
  }

  /**
   * Approval `a` is about task `t`: by its links or, for old rows without any link, by its
   * primary task.
   */
  predicate Names(approvals: map<ApprovalId, Approval>, links: seq<Link>, a: ApprovalId, t: TaskId) {
    a in approvals &&
    (Link(a, t) in links || (!HasLinks(links, a) && approvals[a].primary == Some(t)))
  }

  predicate PendingFor(approvals: map<ApprovalId, Approval>, links: seq<Link>, a: ApprovalId, t: TaskId) {
    Names(approvals, links, a, t) && approvals[a].status == Pending
  }

  predicate HasPending(b: Board, t: TaskId) {
    exists a :: a in b.approvals && PendingFor(b.approvals, b.links, a, t)
  }

  predicate HasApproved(b: Board, t: TaskId) {
    exists a :: a in b.approvals && b.approvals[a].status == Approved &&
      (b.approvals[a].primary == Some(t) || Link(a, t) in b.links)
  }

  // ---- activity log ----

  function Append(b: Board, kind: EventKind, t: TaskId, agent: Option<AgentId>, message: string): Board {
    b.(log := b.log + [Event(kind, t, agent, message, b.clock)], clock := b.clock + 1)
  }

  function StatusName(s: Status): string {
    match s
    case Inbox => "inbox"
    case InProgress => "in_progress"
    case Review => "review"
    case Done => "done"
  }

  function MovedMessage(s: Status, title: string): string {
    "Task moved to " + StatusName(s) + ": " + title + "."
  }

  function ReturnedMessage(title: string): string {
    "Task returned to inbox: dependency reopened (" + title + ")."
  }

  const REVIEW_PREFIX := "Task moved to review:"

  /** The row filter of the query for the workers who moved a task to review. */
  predicate IsReviewRow(e: Event, t: TaskId) {
    e.task == t && e.kind == StatusChanged && REVIEW_PREFIX <= e.message && e.agent.Some?
  }

  /** The prefix test singles out the transitions into review, whatever the title says. */
  lemma MovedMatchesReviewOnly(s: Status, title: string)
    ensures REVIEW_PREFIX <= MovedMessage(s, title) <==> s == Review
  {
    var m := MovedMessage(s, title);
    match s {
      case Inbox => assert m[14] == 'i'; assert REVIEW_PREFIX[14] == 'r';
      case InProgress => assert m[14] == 'i'; assert REVIEW_PREFIX[14] == 'r';
      case Done => assert m[14] == 'd'; assert REVIEW_PREFIX[14] == 'r';
      case Review => assert m == REVIEW_PREFIX + (" " + title + ".");
    }
  }

  lemma ReturnedNeverMatches(title: string)
    ensures !(REVIEW_PREFIX <= ReturnedMessage(title))
  {
    assert ReturnedMessage(title)[5] == 'r';
    assert REVIEW_PREFIX[5] == 'm';
  }

  /** The text holds something other than white space. */
  predicate HasText(s: string) {
    exists i :: 0 <= i < |s| && !IsSpace(s[i])
  }

  function LatestComment(log: seq<Event>, t: TaskId, agent: AgentId, since: Time): (r: Option<Event>)
    ensures r.Some? ==>
      r.value in log && r.value.task == t && r.value.kind == TaskComment &&
      r.value.agent == Some(agent) && since <= r.value.at
  {
    if log == [] then None
    else
      var e := log[|log| - 1];
      if e.task == t && e.kind == TaskComment && e.agent == Some(agent) && since <= e.at then Some(e)
      else LatestComment(log[..|log| - 1], t, agent, since)
  }
}
