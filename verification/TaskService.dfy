/**
 * The task and approval endpoints of one board, as the program runs them: rules assign to a draft
 * of the task, a refusal abandons the draft, and a commit writes it and reconciles the dependents.
 */
module TaskService {
  import opened Prelude
  import opened BoardModel
  import opened DependencyGraph
  import opened TaskRules
  import opened BoardInvariants
  import opened BoardRuns

  /** The fields a request writes over the task; the administrator rules may rewrite it. */
  datatype Updates = Updates(title: Option<string>, status: Option<Status>, assignee: Option<Option<AgentId>>)

  function SetAttributes(t: Task, updates: Updates): Task {
    var t1 := if updates.title.Some? then t.(title := updates.title.value) else t;
    var t2 := if updates.status.Some? then t1.(status := updates.status.value) else t1;
    if updates.assignee.Some? then t2.(assignee := updates.assignee.value) else t2
  }

  /** One update in progress: the draft row and the session's pending dependency rows. */
  class TaskUpdateInput {
    const id: TaskId
    const patch: Patch
    const previous: Task
    var task: Task
    var updates: Updates
    var edges: seq<Edge>

    constructor (id: TaskId, patch: Patch, task: Task, edges: seq<Edge>)
      ensures this.id == id && this.patch == patch && previous == task
      ensures this.task == task && this.edges == edges
      ensures updates == Updates(patch.title, patch.status, patch.assignee)
    {
      this.id, this.patch, previous, this.task, this.edges := id, patch, task, task, edges;
      updates := Updates(patch.title, patch.status, patch.assignee);
    }

    ghost predicate Fresh(b: Board)
      reads this
    {
      id in b.tasks && previous == b.tasks[id] && task == previous && edges == b.edges &&
      updates == Updates(patch.title, patch.status, patch.assignee)
    }

    /** Applying the pending field writes gives the draft that the rules allow. */
    ghost predicate Holds(draft: Draft)
      reads this
    {
      SetAttributes(task, updates) == draft.task && edges == draft.edges
    }
  }

  /** Outcome of an endpoint: it performs the request, or refuses it and changes nothing. */
  ghost predicate Performs(before: Board, r: Request, after: Board, refusal: Option<Refusal>) {
    match Apply(before, r)
    case Ok(b) => refusal == None && after == b
    case Err(e) => refusal == Some(e) && after == before
  }

  class TaskService {
    const id: BoardId
    var rules: Rules
    var agents: map<AgentId, Agent>
    var firstLead: Option<AgentId>
    var tasks: map<TaskId, Task>
    var edges: seq<Edge>
    var approvals: map<ApprovalId, Approval>
    var links: seq<Link>
    var log: seq<Event>
    var clock: Time

    function State(): Board
      reads this
    {
      Board(id, rules, agents, firstLead, tasks, edges, approvals, links, log, clock)
    }

    ghost predicate Valid()
      reads this
    {
      BoardInv(State())
    }

    constructor (id: BoardId, rules: Rules)
      ensures Valid() && State() == EmptyBoard(id, rules)
    {
      this.id, this.rules := id, rules;
      agents, firstLead, tasks, edges, approvals, links, log, clock := map[], None, map[], [], map[], [], [], 0;
      EmptyBoardInv(id, rules);
    }

    // ---- helpers that read ----

    method ValidateDependencyUpdate(t: TaskId, deps: seq<TaskId>) returns (r: Result<seq<TaskId>, Refusal>)
      requires Valid()
      ensures r == ValidateDependencies(State(), t, deps)
    {
      var wanted := Dedupe(deps);
      if t in wanted {
        return Err(Unprocessable);
      }
      if wanted == [] {
        return Ok([]);
      }
      if exists d :: d in wanted && d !in tasks {
        return Err(NotFound);
      }
      var overlay := ReplaceEdges(edges, t, wanted);
      var cycle := HasCycle(tasks.Keys, overlay);
      return if cycle then Err(Conflict) else Ok(wanted);
    }

    /** Walks the matching log rows from the newest to the oldest. */
    method LastWorkerWhoMovedTaskToReview(t: TaskId, lead: AgentId) returns (who: Option<AgentId>)
      ensures who == LastReturnable(State(), lead, ReviewRows(log, t))
    {
      var i := |log|;
      assert log[..i] == log;
      while i > 0
        invariant 0 <= i <= |log|
        invariant LastReturnable(State(), lead, ReviewRows(log, t)) ==
          LastReturnable(State(), lead, ReviewRows(log[..i], t))
      {
        var e := log[i - 1];
        assert log[..i][..i - 1] == log[..i - 1];
        if IsReviewRow(e, t) && Returnable(State(), lead, e.agent.value) {
          return e.agent;
        }
        i := i - 1;
      }
      return None;
    }

    // ---- rule sets ----

    method ReplaceTaskDependencies(u: TaskUpdateInput) returns (refusal: Option<Refusal>)
      requires Valid() && u.Fresh(State())
      modifies u`edges
      ensures match PatchedEdges(State(), u.id, u.patch.dependsOn)
        case Ok(rows) => refusal == None && u.edges == rows
        case Err(e) => refusal == Some(e)
    {
      if u.patch.dependsOn == None {
        return None;
      }
      if u.task.status == Done {
        return Some(Conflict);
      }
      var wanted := ValidateDependencyUpdate(u.id, u.patch.dependsOn.value);
      if wanted.Err? {
        return Some(wanted.error);
      }
      u.edges := ReplaceEdges(u.edges, u.id, wanted.value);
      return None;
    }

    method ApplyNonLeadAgentTaskRules(u: TaskUpdateInput, me: AgentId) returns (refusal: Option<Refusal>)
      requires u.Fresh(State()) && me in agents
      modifies u
      ensures match WorkerDraft(State(), u.id, me, u.patch)
        case Ok(draft) => refusal == None && u.Holds(draft) && u.updates == old(u.updates)
        case Err(e) => refusal == Some(e)
    {
      if agents[me].board.Some? && agents[me].board.value != id {
        return Some(Forbidden);
      }
      if u.task.assignee.Some? && u.task.assignee.value != me && u.updates.status.Some? {
        return Some(Forbidden);
      }
      if u.patch.dependsOn.Some? || u.patch.tags != Absent || u.updates.title.Some? || u.patch.otherFields ||
        u.updates.assignee.Some? {
        return Some(Forbidden);
      }
      if u.updates.status.Some? {
        if rules.onlyLeadChangesStatus {
          return Some(Forbidden);
        }
        var status := u.updates.status.value;
        if status != Inbox && Blocked(tasks, edges, u.id) {
          return Some(Conflict);
        }
        if status == Inbox {
          u.task := u.task.(assignee := None);
          u.task := u.task.(previousInProgressAt := u.task.inProgressAt);
          u.task := u.task.(inProgressAt := None);
        } else if status == Review {
          u.task := u.task.(previousInProgressAt := u.task.inProgressAt);
          u.task := u.task.(assignee := None);
          u.task := u.task.(inProgressAt := None);
        } else {
          u.task := u.task.(assignee := Some(me));
          if status == InProgress {
            u.task := u.task.(inProgressAt := Some(clock));
          }
        }
      }
      return None;
    }

    method ApplyAdminTaskRules(u: TaskUpdateInput) returns (refusal: Option<Refusal>)
      requires Valid() && u.Fresh(State())
      modifies u
      ensures match AdminDraft(State(), u.id, u.patch)
        case Ok(draft) => refusal == None && u.Holds(draft) &&
          ((u.updates.status == Some(Review)) <==> (u.patch.status == Some(Review) && draft.task.status == Review))
        case Err(e) => refusal == Some(e)
    {
      hide PatchedEdges, Blocked;
      if u.patch.tags == Malformed {
        return Some(NotFound);
      }
      refusal := ReplaceTaskDependencies(u);
      if refusal.Some? {
        return;
      }
      var target := if u.updates.status.Some? then u.updates.status.value else u.task.status;
      if Blocked(tasks, u.edges, u.id) && !(u.task.status == Done && target == Done) {
        u.task := u.task.(status := Inbox, assignee := None, inProgressAt := None);
        u.updates := u.updates.(status := Some(Inbox), assignee := Some(None));
      }
      if u.updates.status.Some? {
        if u.updates.status.value == Inbox || u.updates.status.value == Review {
          u.task := u.task.(previousInProgressAt := u.task.inProgressAt);
          u.task := u.task.(assignee := None);
          u.task := u.task.(inProgressAt := None);
        } else if u.updates.status.value == InProgress {
          u.task := u.task.(inProgressAt := Some(clock));
        }
      }
      if u.updates.assignee.Some? && u.updates.assignee.value.Some? {
        var a := u.updates.assignee.value.value;
        if a !in agents {
          return Some(NotFound);
        }
        if agents[a].board.Some? && agents[a].board.value != id {
          return Some(Conflict);
        }
      }
      return None;
    }

    method LeadApplyAssignment(u: TaskUpdateInput) returns (refusal: Option<Refusal>)
      modifies u`task
      ensures match LeadAssignment(State(), old(u.task), u.patch)
        case Ok(t) => refusal == None && u.task == t
        case Err(e) => refusal == Some(e)
      ensures refusal == None <==>
        u.patch.assignee == None || u.patch.assignee == Some(None) || Assignable(State(), u.patch.assignee.value.value)
      ensures u.task == old(u.task).(assignee := u.task.assignee)
      ensures u.task.assignee ==
        if refusal == None && u.patch.assignee.Some? then u.patch.assignee.value else old(u.task.assignee)
    {
      if u.patch.assignee == None {
        return None;
      }
      if u.patch.assignee.value == None {
        u.task := u.task.(assignee := None);
        return None;
      }
      var a := u.patch.assignee.value.value;
      if a !in agents {
        return Some(NotFound);
      }
      if agents[a].isLead {
        return Some(Forbidden);
      }
      if ElsewhereAgent(State(), a) {
        return Some(Conflict);
      }
      u.task := u.task.(assignee := Some(a));
      return None;
    }

    method LeadApplyStatus(u: TaskUpdateInput, lead: AgentId) returns (refusal: Option<Refusal>)
      modifies u`task
      ensures match LeadStatus(State(), u.id, lead, old(u.task), u.patch)
        case Ok(t) => refusal == None && u.task == t
        case Err(e) => refusal == Some(e)
    {
      if u.patch.status == None {
        return None;
      }
      var target := u.patch.status.value;
      if u.task.status != Review {
        var assigning := u.patch.assignee.Some? && u.patch.assignee.value.Some?;
        if u.task.status == Inbox && target == InProgress && assigning {
          u.task := u.task.(status := target);
          return None;
        }
        return Some(Forbidden);
      }
      if target != Done && target != Inbox {
        return Some(Forbidden);
      }
      if target == Inbox {
        var who := LastWorkerWhoMovedTaskToReview(u.id, lead);
        u.task := u.task.(assignee := who);
        u.task := u.task.(inProgressAt := None);
      }
      u.task := u.task.(status := target);
      return None;
    }

    // ---- recording and reconciling ----

    method RecordActivity(kind: EventKind, t: TaskId, agent: Option<AgentId>, message: string)
      modifies this`log, this`clock
      ensures State() == Append(old(State()), kind, t, agent, message)
    {
      log := log + [Event(kind, t, agent, message, clock)];
      clock := clock + 1;
    }

    method RecordTaskUpdate(t: TaskId, actor: Option<AgentId>, before: Status)
      requires t in tasks
      modifies this`log, this`clock
      ensures State() == RecordUpdate(old(State()), t, actor, before)
    {
      if tasks[t].status != before {
        RecordActivity(StatusChanged, t, actor, MovedMessage(tasks[t].status, tasks[t].title));
      } else {
        RecordActivity(TaskUpdated, t, actor, "Task updated: " + tasks[t].title + ".");
      }
    }

    method ReconcileDependent(d: TaskId, title: string, reopened: bool, actor: Option<AgentId>)
      modifies this
      ensures State() == ReconcileOne(old(State()), d, title, reopened, actor)
    {
      if d !in tasks || tasks[d].status == Done {
        return;
      }
      if reopened && NeedsReset(tasks[d]) {
        tasks := tasks[d := tasks[d].(status := Inbox, assignee := None, inProgressAt := None)];
        RecordActivity(StatusChanged, d, actor, ReturnedMessage(title));
      } else {
        RecordActivity(TaskUpdated, d, actor, "Dependency completion changed: " + title + ".");
      }
    }

    method ReconcileDependents(t: TaskId, before: Status, actor: Option<AgentId>)
      requires t in tasks
      modifies this
      ensures State() == Reconcile(old(State()), t, before, actor)
    {
      if (before == Done) == (tasks[t].status == Done) {
        return;
      }
      var rows := Dependents(edges, t);
      var title := tasks[t].title;
      var reopened := before == Done && tasks[t].status != Done;
      for i := 0 to |rows|
        invariant State() == ReconcileRows(old(State()), rows[..i], title, reopened, actor)
      {
        assert rows[..i + 1][..i] == rows[..i];
        ReconcileDependent(rows[i], title, reopened, actor);
      }
      assert rows[..|rows|] == rows;
    }

    method CommitUpdate(u: TaskUpdateInput, actor: Option<AgentId>, comment: Option<string>)
      requires u.id in tasks && u.previous == tasks[u.id]
      modifies this
      ensures State() == Commit(old(State()), u.id, actor, Draft(old(u.task), old(u.edges)), comment)
    {
      tasks := tasks[u.id := u.task];
      edges := u.edges;
      clock := clock + 1;
      if comment.Some? && HasText(comment.value) {
        RecordActivity(TaskComment, u.id, actor, comment.value);
      }
      RecordTaskUpdate(u.id, actor, u.previous.status);
      ReconcileDependents(u.id, u.previous.status, actor);
    }

    method FinalizeUpdatedTask(u: TaskUpdateInput, actor: Option<AgentId>, ghost draft: Draft)
        returns (refusal: Option<Refusal>)
      requires u.id in tasks && u.previous == tasks[u.id] && u.Holds(draft)
      modifies this, u
      ensures match Finalize(old(State()), u.id, actor, draft, u.patch, old(u.updates.status == Some(Review)))
        case Ok(b) => refusal == None && State() == b
        case Err(e) => refusal == Some(e) && State() == old(State())
    {
      u.task := SetAttributes(u.task, u.updates);
      if !Gates(State(), u.id, u.task.status, u.patch) {
        return Some(Conflict);
      }
      if u.updates.status == Some(Review) && rules.commentForReview &&
        !ReviewCommentGiven(State(), u.previous, u.task, u.id, u.patch) {
        return Some(Unprocessable);
      }
      if u.task.status == Review && u.previous.status != Review && firstLead.Some? {
        u.task := u.task.(assignee := firstLead);
      }
      if u.patch.fields == Malformed {
        return Some(Unprocessable);
      }
      CommitUpdate(u, actor, u.patch.comment);
      return None;
    }

    method ApplyLeadTaskUpdate(u: TaskUpdateInput, lead: AgentId) returns (refusal: Option<Refusal>)
      requires Valid() && u.Fresh(State()) && lead in agents && agents[lead].isLead && !ElsewhereAgent(State(), lead)
      modifies this, u
      ensures match ApplyPatch(old(State()), u.id, AgentActor(lead), u.patch)
        case Ok(b) => refusal == None && State() == b
        case Err(e) => refusal == Some(e) && State() == old(State())
    {
      hide Gates, Commit, PatchedEdges, Blocked;
      if u.patch.comment.Some? || u.patch.title.Some? || u.patch.otherFields {
        return Some(Forbidden);
      }
      refusal := ReplaceTaskDependencies(u);
      if refusal.Some? {
        return;
      }
      if u.patch.tags == Malformed {
        return Some(NotFound);
      }
      if Blocked(tasks, u.edges, u.id) && (u.patch.status.Some? || u.patch.assignee.Some?) {
        return Some(Conflict);
      }
      refusal := LeadApplyAssignment(u);
      if refusal.Some? {
        return;
      }
      refusal := LeadApplyStatus(u, lead);
      if refusal.Some? {
        return;
      }
      assert LeadDraft(State(), u.id, lead, u.patch) == Ok(Draft(u.task, u.edges));
      if !Gates(State(), u.id, u.task.status, u.patch) {
        return Some(Conflict);
      }
      if u.patch.fields == Malformed {
        return Some(Unprocessable);
      }
      CommitUpdate(u, Some(lead), None);
      return None;
    }

    // ---- endpoints ----

    method UpdateTask(t: TaskId, actor: Actor, patch: Patch) returns (refusal: Option<Refusal>)
      requires Valid()
      modifies this
      ensures Valid() && Performs(old(State()), PatchTask(t, actor, patch), State(), refusal)
    {
      StepKeepsGraph(State(), PatchTask(t, actor, patch));
      StepKeepsApprovals(State(), PatchTask(t, actor, patch));
      if actor.AgentActor? && (actor.id !in agents || ElsewhereAgent(State(), actor.id)) {
        return Some(Forbidden);
      }
      if t !in tasks {
        return Some(NotFound);
      }
      var u := new TaskUpdateInput(t, patch, tasks[t], edges);
      if actor.AgentActor? && agents[actor.id].isLead {
        refusal := ApplyLeadTaskUpdate(u, actor.id);
        return;
      }
      if actor.AgentActor? {
        refusal := ApplyNonLeadAgentTaskRules(u, actor.id);
        if refusal.Some? {
          return;
        }
        ghost var draft := WorkerDraft(State(), t, actor.id, patch).value;
        refusal := FinalizeUpdatedTask(u, Some(actor.id), draft);
      } else {
        refusal := ApplyAdminTaskRules(u);
        if refusal.Some? {
          return;
        }
        ghost var draft := AdminDraft(State(), t, patch).value;
        refusal := FinalizeUpdatedTask(u, None, draft);
      }
    }

    method CreateTaskRow(t: TaskId, n: NewTask) returns (refusal: Option<Refusal>)
      requires Valid()
      modifies this
      ensures Valid() && Performs(old(State()), CreateTask(t, n), State(), refusal)
    {
      hide Cyclic, Dedupe, ReplaceEdges, AnyNotDone, GraphInv, LinksInv, OnePending;
      StepKeepsGraph(State(), CreateTask(t, n));
      StepKeepsApprovals(State(), CreateTask(t, n));
      if t in tasks {
        return Some(Conflict);
      }
      var deps := ValidateDependencyUpdate(t, n.dependsOn);
      if deps.Err? {
        return Some(deps.error);
      }
      if n.tags == Malformed {
        return Some(NotFound);
      }
      if AnyNotDone(tasks, deps.value) && (n.assignee.Some? || n.status != Inbox) {
        return Some(Conflict);
      }
      if n.fields == Malformed {
        return Some(Unprocessable);
      }
      tasks := tasks[t := Task(n.title, n.status, n.assignee, None, None)];
      edges := edges + EdgesOf(t, deps.value);
      RecordActivity(TaskCreated, t, None, "Task created: " + n.title + ".");
      return None;
    }

    method CreateApprovalRow(a: ApprovalId, taskIds: seq<TaskId>, status: ApprovalStatus)
        returns (refusal: Option<Refusal>)
      requires Valid()
      modifies this
      ensures Valid() && Performs(old(State()), CreateApproval(a, taskIds, status), State(), refusal)
    {
      StepKeepsApprovals(State(), CreateApproval(a, taskIds, status));
      var wanted := Dedupe(taskIds);
      if a in approvals || HasLinks(links, a) {
        return Some(Conflict);
      }
      if status == Pending && PendingConflict(State(), wanted, None) {
        return Some(Conflict);
      }
      approvals := approvals[a := Approval(if wanted == [] then None else Some(wanted[0]), status)];
      links := links + LinksOf(a, wanted);
      return None;
    }

    method UpdateApproval(a: ApprovalId, status: Option<ApprovalStatus>) returns (refusal: Option<Refusal>)
      requires Valid()
      modifies this
      ensures Valid() && Performs(old(State()), PatchApproval(a, status), State(), refusal)
    {
      StepKeepsApprovals(State(), PatchApproval(a, status));
      if a !in approvals {
        return Some(NotFound);
      }
      if status.Some? {
        if status.value == Pending && approvals[a].status != Pending {
          var about := ApprovalTasks(State(), a);
          if PendingConflict(State(), about, Some(a)) {
            return Some(Conflict);
          }
        }
        approvals := approvals[a := approvals[a].(status := status.value)];
      }
      return None;
    }

    method DeleteTaskRow(t: TaskId) returns (refusal: Option<Refusal>)
      requires Valid()
      modifies this
      ensures Valid() && Performs(old(State()), DeleteTask(t), State(), refusal)
    {
      StepKeepsGraph(State(), DeleteTask(t));
      StepKeepsApprovals(State(), DeleteTask(t));
      if t !in tasks {
        return Some(NotFound);
      }
      DeleteTaskAndRelatedRecords(t);
      return None;
    }

    method DeleteTaskAndRelatedRecords(t: TaskId)
      requires t in tasks
      modifies this
      ensures ApplyDelete(old(State()), t) == Ok(State())
    {
      log := DropTaskEvents(log, t);
      var primary := set a | a in approvals && approvals[a].primary == Some(t);
      links := DropTaskLinks(links, t);
      RepointPrimaryApprovals(t, primary);
      edges := DropTaskEdges(edges, t);
      tasks := tasks - {t};
    }

    /** Approvals whose primary task goes away move on to their next linked task, or go away too. */
    method RepointPrimaryApprovals(t: TaskId, primary: set<ApprovalId>)
      requires primary == set a | a in approvals && approvals[a].primary == Some(t)
      modifies this`approvals
      ensures approvals == RepointedApprovals(old(approvals), links, t)
    {
      var todo := primary;
      while todo != {}
        invariant todo <= primary
        invariant forall a :: a in todo ==> a in approvals && approvals[a] == old(approvals)[a]
        invariant forall a :: a in approvals ==> a in old(approvals)
        invariant forall a :: a in old(approvals) && a !in todo ==>
          (if a in approvals then Some(approvals[a]) else None) == AfterTaskDeleted(a, old(approvals)[a], links, t)
      {
        var a :| a in todo;
        var remaining := LinkedTasks(links, a);
        if remaining != [] {
          approvals := approvals[a := approvals[a].(primary := Some(remaining[0]))];
        } else {
          approvals := approvals - {a};
        }
        todo := todo - {a};
      }
    }
  }
}
