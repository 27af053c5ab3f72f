/**
 * What one accepted request does to the board.  Each rule set is written here as the table of
 * its effects; TaskService performs the same updates step by step, as the program does.
 */
module TaskRules {
  import opened Prelude
  import opened BoardModel
  import opened DependencyGraph

  datatype Refusal = Forbidden | NotFound | Conflict | Unprocessable

  /** Tag ids and custom field values are checked by their own components. */
  datatype SideInput = Absent | WellFormed | Malformed

  datatype Actor = User | AgentActor(id: AgentId)

  datatype Patch = Patch(
    title: Option<string>,
    otherFields: bool,
    status: Option<Status>,
    assignee: Option<Option<AgentId>>,
    dependsOn: Option<seq<TaskId>>,
    comment: Option<string>,
    tags: SideInput,
    fields: SideInput)

  /** The task as the rules leave it, with the dependency rows, before anything is committed. */
  datatype Draft = Draft(task: Task, edges: seq<Edge>)

  // ---- dependency validation ----

  ghost function ValidateDependencies(b: Board, id: TaskId, deps: seq<TaskId>): Result<seq<TaskId>, Refusal> {
    var wanted := Dedupe(deps);
    if id in wanted then Err(Unprocessable)
    else if wanted == [] then Ok([])
    else if exists d :: d in wanted && d !in b.tasks then Err(NotFound)
    else if Cyclic(ReplaceEdges(b.edges, id, wanted)) then Err(Conflict)
    else Ok(wanted)
  }

  ghost function PatchedEdges(b: Board, id: TaskId, deps: Option<seq<TaskId>>): Result<seq<Edge>, Refusal>
    requires id in b.tasks
  {
    if deps == None then Ok(b.edges)
    else if b.tasks[id].status == Done then Err(Conflict)
    else
      var wanted :- ValidateDependencies(b, id, deps.value);
      Ok(ReplaceEdges(b.edges, id, wanted))
  }

  // ---- gates ----

  predicate PendingGate(b: Board, id: TaskId, after: Status, patch: Patch)
    requires id in b.tasks
  {
    var before := b.tasks[id].status;
    patch.status.Some? && patch.status.value != before && before != after && b.rules.blockWhilePending ==>
      !HasPending(b, id)
  }

  predicate ReviewGate(b: Board, id: TaskId, after: Status)
    requires id in b.tasks
  {
    var before := b.tasks[id].status;
    before != Done && after == Done && b.rules.requireReview ==> before == Review
  }

  predicate ApprovalGate(b: Board, id: TaskId, after: Status)
    requires id in b.tasks
  {
    b.tasks[id].status != Done && after == Done && b.rules.requireApproval ==> HasApproved(b, id)
  }

  predicate Gates(b: Board, id: TaskId, after: Status, patch: Patch)
    requires id in b.tasks
  {
    PendingGate(b, id, after, patch) && ReviewGate(b, id, after) && ApprovalGate(b, id, after)
  }

  /** Moving to review may need a comment: in the request itself, or a recent one by its author. */
  predicate ReviewCommentGiven(b: Board, before: Task, after: Task, id: TaskId, patch: Patch) {
    var author := if after.assignee.Some? then after.assignee else before.assignee;
    var since := if after.previousInProgressAt.Some? then after.previousInProgressAt else before.inProgressAt;
    (patch.comment.Some? && HasText(patch.comment.value)) ||
    (author.Some? && since.Some? &&
      var latest := LatestComment(b.log, id, author.value, since.value);
      latest.Some? && HasText(latest.value.message))
  }

  // ---- the three rule sets ----

  function ToInbox(t: Task): Task {
    t.(status := Inbox, assignee := None, previousInProgressAt := t.inProgressAt, inProgressAt := None)
  }

  function ToReview(t: Task): Task {
    t.(status := Review, assignee := None, previousInProgressAt := t.inProgressAt, inProgressAt := None)
  }

  function WorkerDraft(b: Board, id: TaskId, me: AgentId, patch: Patch): Result<Draft, Refusal>
    requires id in b.tasks && me in b.agents
  {
    var t := b.tasks[id];
    if b.agents[me].board.Some? && b.agents[me].board.value != b.id then Err(Forbidden)
    else if t.assignee.Some? && t.assignee.value != me && patch.status.Some? then Err(Forbidden)
    else if patch.dependsOn.Some? || patch.tags != Absent || patch.title.Some? || patch.otherFields ||
      patch.assignee.Some? then Err(Forbidden)
    else if patch.status == None then Ok(Draft(t, b.edges))
    else if b.rules.onlyLeadChangesStatus then Err(Forbidden)
    else if patch.status.value != Inbox && Blocked(b.tasks, b.edges, id) then Err(Conflict)
    else
      Ok(Draft(match patch.status.value
        case Inbox => ToInbox(t)
        case Review => ToReview(t)
        case Done => t.(status := Done, assignee := Some(me))
        case InProgress => t.(status := InProgress, assignee := Some(me), inProgressAt := Some(b.clock)),
        b.edges))
  }

  /** The fields a request names are written over the result of the rules. */
  function WithFields(t: Task, patch: Patch): Task {
    var titled := if patch.title.Some? then t.(title := patch.title.value) else t;
    if patch.assignee.Some? then titled.(assignee := patch.assignee.value) else titled
  }

  function AdminStatus(t: Task, status: Option<Status>, now: Time): Task {
    match status
    case None => t
    case Some(Inbox) => ToInbox(t)
    case Some(Review) => ToReview(t)
    case Some(InProgress) => t.(status := InProgress, inProgressAt := Some(now))
    case Some(Done) => t.(status := Done)
  }

  ghost function AdminDraft(b: Board, id: TaskId, patch: Patch): Result<Draft, Refusal>
    requires id in b.tasks
  {
    var t := b.tasks[id];
    if patch.tags == Malformed then Err(NotFound)
    else
      var edges :- PatchedEdges(b, id, patch.dependsOn);
      var target := patch.status;
      var staysDone := t.status == Done && (target == None || target == Some(Done));
      if Blocked(b.tasks, edges, id) && !staysDone then
        var titled := WithFields(t, patch.(assignee := None));
        Ok(Draft(titled.(status := Inbox, assignee := None, inProgressAt := None, previousInProgressAt := None), edges))
      else if patch.assignee.Some? && patch.assignee.value.Some? && patch.assignee.value.value !in b.agents then
        Err(NotFound)
      else if patch.assignee.Some? && patch.assignee.value.Some? && ElsewhereAgent(b, patch.assignee.value.value) then
        Err(Conflict)
      else Ok(Draft(WithFields(AdminStatus(t, target, b.clock), patch), edges))
  }

  predicate ElsewhereAgent(b: Board, a: AgentId)
    requires a in b.agents
  {
    b.agents[a].board.Some? && b.agents[a].board.value != b.id
  }

  /** Whom a lead may assign: any agent that is no lead, of this board or of none. */
  predicate Assignable(b: Board, a: AgentId) {
    a in b.agents && !b.agents[a].isLead && (b.agents[a].board == None || b.agents[a].board == Some(b.id))
  }

  /** May this agent take back a task it moved to review? */
  predicate Returnable(b: Board, lead: AgentId, a: AgentId) {
    a != lead && a in b.agents && b.agents[a].board == Some(b.id) && !b.agents[a].isLead
  }

  /** The agents recorded on the log rows about moves of `t` into review, oldest first. */
  function ReviewRows(log: seq<Event>, t: TaskId): seq<AgentId> {
    if log == [] then []
    else
      var rest := ReviewRows(log[..|log| - 1], t);
      var e := log[|log| - 1];
      if IsReviewRow(e, t) then rest + [e.agent.value] else rest
  }

  function LastReturnable(b: Board, lead: AgentId, rows: seq<AgentId>): (r: Option<AgentId>)
  {
    if rows == [] then None
    else if Returnable(b, lead, rows[|rows| - 1]) then Some(rows[|rows| - 1])
    else LastReturnable(b, lead, rows[..|rows| - 1])
  }

  function LeadAssignment(b: Board, t: Task, patch: Patch): Result<Task, Refusal> {
    match patch.assignee
    case None => Ok(t)
    case Some(None) => Ok(t.(assignee := None))
    case Some(Some(a)) =>
      if a !in b.agents then Err(NotFound)
      else if b.agents[a].isLead then Err(Forbidden)
      else if ElsewhereAgent(b, a) then Err(Conflict)
      else Ok(t.(assignee := Some(a)))
  }

  function LeadStatus(b: Board, id: TaskId, lead: AgentId, t: Task, patch: Patch): Result<Task, Refusal> {
    if patch.status == None then Ok(t)
    else if t.status != Review then
      if t.status == Inbox && patch.status.value == InProgress && patch.assignee.Some? && patch.assignee.value.Some?
      then Ok(t.(status := InProgress))
      else Err(Forbidden)
    else match patch.status.value
      case Done => Ok(t.(status := Done))
      case Inbox =>
        Ok(t.(status := Inbox, inProgressAt := None,
          assignee := LastReturnable(b, lead, ReviewRows(b.log, id))))
      case _ => Err(Forbidden)
  }

  ghost function LeadDraft(b: Board, id: TaskId, lead: AgentId, patch: Patch): Result<Draft, Refusal>
    requires id in b.tasks
  {
    if patch.comment.Some? || patch.title.Some? || patch.otherFields then Err(Forbidden)
    else
      var edges :- PatchedEdges(b, id, patch.dependsOn);
      if patch.tags == Malformed then Err(NotFound)
      else if Blocked(b.tasks, edges, id) && (patch.status.Some? || patch.assignee.Some?) then Err(Conflict)
      else
        var given :- LeadAssignment(b, b.tasks[id], patch);
        var moved :- LeadStatus(b, id, lead, given, patch);
        Ok(Draft(moved, edges))
  }

  // ---- committing a draft ----

  predicate NeedsReset(t: Task) {
    t.status != Inbox || t.assignee != None || t.inProgressAt != None
  }

  /** A dependency of `d` toggled done or undone. */
  function ReconcileOne(b: Board, d: TaskId, title: string, reopened: bool, actor: Option<AgentId>): Board {
    if d !in b.tasks || b.tasks[d].status == Done then b
    else if reopened && NeedsReset(b.tasks[d]) then
      Append(b.(tasks := b.tasks[d := b.tasks[d].(status := Inbox, assignee := None, inProgressAt := None)]),
        StatusChanged, d, actor, ReturnedMessage(title))
    else Append(b, TaskUpdated, d, actor, "Dependency completion changed: " + title + ".")
  }

  function ReconcileRows(b: Board, rows: seq<TaskId>, title: string, reopened: bool, actor: Option<AgentId>): Board {
    if rows == [] then b
    else
      ReconcileOne(ReconcileRows(b, rows[..|rows| - 1], title, reopened, actor),
        rows[|rows| - 1], title, reopened, actor)
  }

  function Reconcile(b: Board, id: TaskId, before: Status, actor: Option<AgentId>): Board
    requires id in b.tasks
  {
    if (before == Done) == (b.tasks[id].status == Done) then b
    else ReconcileRows(b, Dependents(b.edges, id), b.tasks[id].title, before == Done, actor)
  }

  function Written(b: Board, id: TaskId, draft: Draft): Board {
    b.(tasks := b.tasks[id := draft.task], edges := draft.edges, clock := b.clock + 1)
  }

  function RecordComment(b: Board, id: TaskId, actor: Option<AgentId>, comment: Option<string>): Board {
    if comment.Some? && HasText(comment.value) then Append(b, TaskComment, id, actor, comment.value) else b
  }

  function RecordUpdate(b: Board, id: TaskId, actor: Option<AgentId>, before: Status): Board
    requires id in b.tasks
  {
    var t := b.tasks[id];
    if t.status != before then Append(b, StatusChanged, id, actor, MovedMessage(t.status, t.title))
    else Append(b, TaskUpdated, id, actor, "Task updated: " + t.title + ".")
  }

  function Commit(b: Board, id: TaskId, actor: Option<AgentId>, draft: Draft, comment: Option<string>): Board
    requires id in b.tasks
  {
    var before := b.tasks[id].status;
    var commented := RecordComment(Written(b, id, draft), id, actor, comment);
    Reconcile(RecordUpdate(commented, id, actor, before), id, before, actor)
  }

  function AssignReviewToLead(b: Board, before: Status, t: Task): Task {
    if t.status == Review && before != Review && b.firstLead.Some? then t.(assignee := b.firstLead) else t
  }

  /** Gates and commit shared by workers and administrators. */
  function Finalize(b: Board, id: TaskId, actor: Option<AgentId>, draft: Draft, patch: Patch, toReview: bool):
      Result<Board, Refusal>
    requires id in b.tasks
  {
    var before := b.tasks[id];
    if !Gates(b, id, draft.task.status, patch) then Err(Conflict)
    else if toReview && b.rules.commentForReview && !ReviewCommentGiven(b, before, draft.task, id, patch) then
      Err(Unprocessable)
    else if patch.fields == Malformed then Err(Unprocessable)
    else
      var final := draft.(task := AssignReviewToLead(b, before.status, draft.task));
      Ok(Commit(b, id, actor, final, patch.comment))
  }

  ghost function ApplyPatch(b: Board, id: TaskId, actor: Actor, patch: Patch): Result<Board, Refusal> {
    match actor
    case AgentActor(me) =>
      if me !in b.agents then Err(Forbidden)
      else if ElsewhereAgent(b, me) then Err(Forbidden)
      else if id !in b.tasks then Err(NotFound)
      else if b.agents[me].isLead then
        var draft :- LeadDraft(b, id, me, patch);
        if !Gates(b, id, draft.task.status, patch) then Err(Conflict)
        else if patch.fields == Malformed then Err(Unprocessable)
        else Ok(Commit(b, id, Some(me), draft, None))
      else
        var draft :- WorkerDraft(b, id, me, patch);
        Finalize(b, id, Some(me), draft, patch, patch.status == Some(Review))
    case User =>
      if id !in b.tasks then Err(NotFound)
      else
        var draft :- AdminDraft(b, id, patch);
        // a blocked task is forced back to the inbox, whatever status was asked for
        Finalize(b, id, None, draft, patch, patch.status == Some(Review) && draft.task.status == Review)
  }

  // ---- creating and deleting ----

  datatype NewTask = NewTask(
    title: string,
    status: Status,
    assignee: Option<AgentId>,
    dependsOn: seq<TaskId>,
    tags: SideInput,
    fields: SideInput)

  ghost function ApplyCreate(b: Board, id: TaskId, n: NewTask): Result<Board, Refusal> {
    if id in b.tasks then Err(Conflict)
    else
      var deps :- ValidateDependencies(b, id, n.dependsOn);
      if n.tags == Malformed then Err(NotFound)
      else if AnyNotDone(b.tasks, deps) && (n.assignee.Some? || n.status != Inbox) then Err(Conflict)
      else if n.fields == Malformed then Err(Unprocessable)
      else
        var created := b.(
          tasks := b.tasks[id := Task(n.title, n.status, n.assignee, None, None)],
          edges := b.edges + EdgesOf(id, deps));
        Ok(Append(created, TaskCreated, id, None, "Task created: " + n.title + "."))
  }

  /** What becomes of an approval whose primary task is deleted; `links` no longer mention the task. */
  function AfterTaskDeleted(a: ApprovalId, approval: Approval, links: seq<Link>, t: TaskId): Option<Approval> {
    if approval.primary != Some(t) then Some(approval)
    else
      var remaining := LinkedTasks(links, a);
      if remaining == [] then None else Some(approval.(primary := Some(remaining[0])))
  }

  function DropTaskLinks(links: seq<Link>, t: TaskId): (r: seq<Link>)
    ensures forall l :: l in r <==> l in links && l.task != t
  {
    Filter(links, (l: Link) => l.task != t)
  }

  function DropTaskEvents(log: seq<Event>, t: TaskId): (r: seq<Event>)
    ensures forall e :: e in r <==> e in log && e.task != t
  {
    Filter(log, (e: Event) => e.task != t)
  }

  function RepointedApprovals(approvals: map<ApprovalId, Approval>, links: seq<Link>, t: TaskId):
      map<ApprovalId, Approval>
  {
    map a | a in approvals && AfterTaskDeleted(a, approvals[a], links, t).Some? ::
      AfterTaskDeleted(a, approvals[a], links, t).value
  }

  function ApplyDelete(b: Board, id: TaskId): Result<Board, Refusal> {
    if id !in b.tasks then Err(NotFound)
    else
      var links := DropTaskLinks(b.links, id);
      Ok(b.(
        log := DropTaskEvents(b.log, id),
        links := links,
        approvals := RepointedApprovals(b.approvals, links, id),
        edges := DropTaskEdges(b.edges, id),
        tasks := b.tasks - {id}))
  }

  function ApplyComment(b: Board, id: TaskId, agent: Option<AgentId>, message: string): Result<Board, Refusal> {
    if id !in b.tasks then Err(NotFound)
    else if !HasText(message) then Err(Unprocessable)
    else Ok(Append(b, TaskComment, id, agent, message))
  }

  // ---- approvals ----

  /** Some task among `tasks` has a pending approval other than `except`. */
  predicate PendingConflict(b: Board, tasks: seq<TaskId>, except: Option<ApprovalId>) {
    exists t, a :: t in tasks && a in b.approvals && Some(a) != except && PendingFor(b.approvals, b.links, a, t)
  }

  function LinksOf(a: ApprovalId, tasks: seq<TaskId>): (r: seq<Link>)
    ensures |r| == |tasks|
    ensures forall i :: 0 <= i < |tasks| ==> r[i] == Link(a, tasks[i])
  {
    seq(|tasks|, i requires 0 <= i < |tasks| => Link(a, tasks[i]))
  }

  function ApplyNewApproval(b: Board, a: ApprovalId, taskIds: seq<TaskId>, status: ApprovalStatus):
      Result<Board, Refusal>
  {
    var tasks := Dedupe(taskIds);
    if a in b.approvals || HasLinks(b.links, a) then Err(Conflict)
    else if status == Pending && PendingConflict(b, tasks, None) then Err(Conflict)
    else
      Ok(b.(
        approvals := b.approvals[a := Approval(if tasks == [] then None else Some(tasks[0]), status)],
        links := b.links + LinksOf(a, tasks)))
  }

  /** The tasks an approval is about: its links or, failing that, its primary task. */
  function ApprovalTasks(b: Board, a: ApprovalId): seq<TaskId>
    requires a in b.approvals
  {
    var linked := LinkedTasks(b.links, a);
    if linked != [] then linked
    else if b.approvals[a].primary.Some? then [b.approvals[a].primary.value]
    else []
  }

  function ApplyApprovalStatus(b: Board, a: ApprovalId, status: Option<ApprovalStatus>): Result<Board, Refusal> {
    if a !in b.approvals then Err(NotFound)
    else if status == None then Ok(b)
    else if status.value == Pending && b.approvals[a].status != Pending &&
      PendingConflict(b, ApprovalTasks(b, a), Some(a)) then Err(Conflict)
    else Ok(b.(approvals := b.approvals[a := b.approvals[a].(status := status.value)]))
  }

  // ---- requests and runs ----

  datatype Request =
    | CreateTask(id: TaskId, task: NewTask)
    | PatchTask(id: TaskId, actor: Actor, patch: Patch)
    | DeleteTask(id: TaskId)
    | PostComment(id: TaskId, agent: Option<AgentId>, message: string)
    | CreateApproval(approval: ApprovalId, tasks: seq<TaskId>, status: ApprovalStatus)
    | PatchApproval(approval: ApprovalId, newStatus: Option<ApprovalStatus>)
    | SetRules(rules: Rules)
    | SetAgents(agents: map<AgentId, Agent>, firstLead: Option<AgentId>)

  /** `lead` is a possible first row of the query for the leads of this board. */
  predicate FirstLeadOf(board: BoardId, agents: map<AgentId, Agent>, lead: Option<AgentId>) {
    match lead
    case None => forall a :: a in agents ==> !(agents[a].board == Some(board) && agents[a].isLead)
    case Some(a) => a in agents && agents[a].board == Some(board) && agents[a].isLead
  }

  ghost function Apply(b: Board, r: Request): Result<Board, Refusal> {
    match r
    case CreateTask(id, task) => ApplyCreate(b, id, task)
    case PatchTask(id, actor, patch) => ApplyPatch(b, id, actor, patch)
    case DeleteTask(id) => ApplyDelete(b, id)
    case PostComment(id, agent, message) => ApplyComment(b, id, agent, message)
    case CreateApproval(a, tasks, status) => ApplyNewApproval(b, a, tasks, status)
    case PatchApproval(a, status) => ApplyApprovalStatus(b, a, status)
    case SetRules(rules) => Ok(b.(rules := rules))
    case SetAgents(agents, lead) =>
      if FirstLeadOf(b.id, agents, lead) then Ok(b.(agents := agents, firstLead := lead)) else Err(Unprocessable)
  }

  /** A refused request leaves the board as it was. */
  ghost function Step(b: Board, r: Request): Board {
    var result := Apply(b, r);
    if result.Ok? then result.value else b
  }

  ghost function Run(b: Board, requests: seq<Request>): Board {
    if requests == [] then b
    else Step(Run(b, requests[..|requests| - 1]), requests[|requests| - 1])
  }
}
