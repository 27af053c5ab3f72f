/** Guarantees over every run of requests against one board. */
module BoardRuns {
  import opened Prelude
  import opened BoardModel
  import opened DependencyGraph
  import opened TaskRules
  import opened BoardInvariants
  import opened ApprovalInvariants

  // ---- the commit an accepted patch performs ----

  /** The draft that an accepted patch commits; review tasks are already with the lead. */
  ghost function CommittedDraft(b: Board, id: TaskId, actor: Actor, patch: Patch): Draft
    requires id in b.tasks && ApplyPatch(b, id, actor, patch).Ok?
  {
    match actor
    case AgentActor(me) =>
      if b.agents[me].isLead then LeadDraft(b, id, me, patch).value
      else
        var draft := WorkerDraft(b, id, me, patch).value;
        draft.(task := AssignReviewToLead(b, b.tasks[id].status, draft.task))
    case User =>
      var draft := AdminDraft(b, id, patch).value;
      draft.(task := AssignReviewToLead(b, b.tasks[id].status, draft.task))
  }

  function AgentOf(actor: Actor): Option<AgentId> {
    if actor.AgentActor? then Some(actor.id) else None
  }

  ghost function CommittedComment(b: Board, actor: Actor, patch: Patch): Option<string>
  {
    if actor.AgentActor? && actor.id in b.agents && b.agents[actor.id].isLead then None else patch.comment
  }

  lemma PatchCommits(b: Board, id: TaskId, actor: Actor, patch: Patch)
    requires ApplyPatch(b, id, actor, patch).Ok?
    ensures id in b.tasks && (actor.AgentActor? ==> actor.id in b.agents)
    ensures ApplyPatch(b, id, actor, patch).value ==
      Commit(b, id, AgentOf(actor), CommittedDraft(b, id, actor, patch), CommittedComment(b, actor, patch))
    ensures Gates(b, id, CommittedDraft(b, id, actor, patch).task.status, patch)
  {
  }

  lemma CommittedEdges(b: Board, id: TaskId, actor: Actor, patch: Patch)
    requires GraphInv(b) && ApplyPatch(b, id, actor, patch).Ok?
    ensures id in b.tasks && EdgesFor(b, id, CommittedDraft(b, id, actor, patch).edges)
  {
    if actor.User? {
      AdminDraftEdges(b, id, patch);
      PatchedEdgesFor(b, id, patch.dependsOn);
    } else if b.agents[actor.id].isLead {
      LeadDraftEdges(b, id, actor.id, patch);
      PatchedEdgesFor(b, id, patch.dependsOn);
    }
  }

  // ---- dependency safety ----

  /** A lead edits dependencies so that a task under way ends up blocked. */
  ghost predicate LeadBlocks(b: Board, r: Request) {
    r.PatchTask? && r.actor.AgentActor? && r.actor.id in b.agents && b.agents[r.actor.id].isLead &&
    r.id in b.tasks && LeadBlocksActiveTask(b, r.id, r.patch)
  }

  ghost predicate BlockedByLead(b: Board, r: Request) {
    Apply(b, r).Ok? && LeadBlocks(b, r)
  }

  /**
   * One accepted update keeps every dependent safe exactly when it is not a lead's dependency edit
   * that leaves a task under way blocked.
   */
  lemma PatchKeepsSafe(b: Board, id: TaskId, actor: Actor, patch: Patch)
    requires GraphInv(b) && DependencySafe(b) && ApplyPatch(b, id, actor, patch).Ok?
    ensures GraphInv(ApplyPatch(b, id, actor, patch).value)
    ensures DependencySafe(ApplyPatch(b, id, actor, patch).value) <==> !LeadBlocks(b, PatchTask(id, actor, patch))
  {
    PatchCommits(b, id, actor, patch);
    CommittedEdges(b, id, actor, patch);
    CommitSafe(b, id, AgentOf(actor), CommittedDraft(b, id, actor, patch), CommittedComment(b, actor, patch));
    if actor.User? {
      AdminDraftSafe(b, id, patch);
    } else if b.agents[actor.id].isLead {
      LeadDraftSafe(b, id, actor.id, patch);
    } else {
      WorkerDraftSafe(b, id, actor.id, patch);
    }
  }

  /** Adding or dropping other tasks' rows leaves a task as blocked as it was, or less. */
  lemma SafeAmongFewer(b: Board, tasks: map<TaskId, Task>, edges: seq<Edge>, t: TaskId)
    requires DependencySafe(b) && t in b.tasks && t in tasks && tasks[t] == b.tasks[t]
    requires forall e :: e in edges && e.task == t ==>
      e in b.edges && DoneTask(b.tasks, e.dependsOn) == DoneTask(tasks, e.dependsOn)
    requires Blocked(tasks, edges, t)
    ensures tasks[t].status == Done || Parked(tasks[t])
  {
    var i :| 0 <= i < |edges| && edges[i].task == t && !DoneTask(tasks, edges[i].dependsOn);
    assert edges[i] in edges;
    BlockedBy(b.tasks, b.edges, edges[i]);
  }

  lemma CreatedEdges(edges: seq<Edge>, id: TaskId, deps: seq<TaskId>)
    ensures forall e :: e in edges + EdgesOf(id, deps) <==> e in edges || (e.task == id && e.dependsOn in deps)
  {
    var added := EdgesOf(id, deps);
    forall d | d in deps ensures Edge(id, d) in added {
      var i :| 0 <= i < |deps| && deps[i] == d;
      assert added[i] == Edge(id, d);
    }
  }

  lemma CreateShape(b: Board, id: TaskId, n: NewTask) returns (deps: seq<TaskId>)
    requires ApplyCreate(b, id, n).Ok?
    ensures id !in b.tasks && (forall d :: d in deps ==> d in b.tasks)
    ensures deps == [] || !Cyclic(ReplaceEdges(b.edges, id, deps))
    ensures AnyNotDone(b.tasks, deps) ==> n.assignee == None && n.status == Inbox
    ensures var c := ApplyCreate(b, id, n).value;
      c.edges == b.edges + EdgesOf(id, deps) && SameRest(b, c) &&
      c.tasks == b.tasks[id := Task(n.title, n.status, n.assignee, None, None)]
  {
    deps := ValidateDependencies(b, id, n.dependsOn).value;
  }

  lemma CreateKeepsSafe(b: Board, id: TaskId, n: NewTask)
    requires GraphInv(b) && DependencySafe(b) && ApplyCreate(b, id, n).Ok?
    ensures DependencySafe(ApplyCreate(b, id, n).value)
  {
    var c := ApplyCreate(b, id, n).value;
    var deps := CreateShape(b, id, n);
    CreatedEdges(b.edges, id, deps);
    assert forall d :: d in b.tasks ==> c.tasks[d] == b.tasks[d];
    forall t | t in c.tasks && Blocked(c.tasks, c.edges, t)
      ensures c.tasks[t].status == Done || Parked(c.tasks[t])
    {
      if t == id {
        var i :| 0 <= i < |c.edges| && c.edges[i].task == t && !DoneTask(c.tasks, c.edges[i].dependsOn);
        assert c.edges[i] in c.edges && c.edges[i].dependsOn in deps;
        var k :| 0 <= k < |deps| && deps[k] == c.edges[i].dependsOn;
        assert AnyNotDone(b.tasks, deps);
      } else {
        SafeAmongFewer(b, c.tasks, c.edges, t);
      }
    }
  }

  lemma DeleteKeepsSafe(b: Board, id: TaskId)
    requires GraphInv(b) && DependencySafe(b) && id in b.tasks
    ensures DependencySafe(ApplyDelete(b, id).value)
  {
    var tasks, edges := b.tasks - {id}, DropTaskEdges(b.edges, id);
    forall t | t in tasks && Blocked(tasks, edges, t)
      ensures tasks[t].status == Done || Parked(tasks[t])
    {
      SafeAmongFewer(b, tasks, edges, t);
    }
    assert ApplyDelete(b, id).value.tasks == tasks && ApplyDelete(b, id).value.edges == edges;
  }

  // ---- every request keeps the board invariant ----

  lemma StepKeepsGraph(b: Board, r: Request)
    requires GraphInv(b)
    ensures GraphInv(Step(b, r))
  {
    if Apply(b, r).Ok? {
      match r {
        case CreateTask(id, n) => CreateKeepsGraph(b, id, n);
        case PatchTask(id, actor, patch) =>
          PatchCommits(b, id, actor, patch);
          CommittedEdges(b, id, actor, patch);
          CommitEffect(b, id, AgentOf(actor), CommittedDraft(b, id, actor, patch), CommittedComment(b, actor, patch));
        case DeleteTask(id) => FewerEdgesAcyclic(b.edges, ApplyDelete(b, id).value.edges);
        case _ =>
      }
    }
  }

  lemma CreateKeepsGraph(b: Board, id: TaskId, n: NewTask)
    requires GraphInv(b) && ApplyCreate(b, id, n).Ok?
    ensures GraphInv(ApplyCreate(b, id, n).value)
  {
    var c := ApplyCreate(b, id, n).value;
    var deps := CreateShape(b, id, n);
    CreatedEdges(b.edges, id, deps);
    var replaced := ReplaceEdges(b.edges, id, deps);
    if deps == [] {
      FewerEdgesAcyclic(b.edges, c.edges);
    } else {
      FewerEdgesAcyclic(replaced, c.edges);
    }
  }

  lemma StepKeepsApprovals(b: Board, r: Request)
    requires GraphInv(b) && LinksInv(b) && OnePending(b)
    ensures LinksInv(Step(b, r)) && OnePending(Step(b, r))
  {
    if Apply(b, r).Ok? {
      match r {
        case PatchTask(id, actor, patch) =>
          PatchCommits(b, id, actor, patch);
          CommittedEdges(b, id, actor, patch);
          CommitEffect(b, id, AgentOf(actor), CommittedDraft(b, id, actor, patch), CommittedComment(b, actor, patch));
        case DeleteTask(id) => DeleteKeeps(b, id);
        case CreateApproval(a, tasks, status) => NewApprovalKeeps(b, a, tasks, status);
        case PatchApproval(a, status) => ApprovalStatusKeeps(b, a, status);
        case _ =>
      }
    }
  }

  lemma StepKeepsSafe(b: Board, r: Request)
    requires GraphInv(b) && DependencySafe(b) && !BlockedByLead(b, r)
    ensures DependencySafe(Step(b, r))
  {
    if Apply(b, r).Ok? {
      match r {
        case CreateTask(id, n) => CreateKeepsSafe(b, id, n);
        case PatchTask(id, actor, patch) => PatchKeepsSafe(b, id, actor, patch);
        case DeleteTask(id) => DeleteKeepsSafe(b, id);
        case _ =>
      }
    }
  }

  lemma EmptyBoardInv(id: BoardId, rules: Rules)
    ensures BoardInv(EmptyBoard(id, rules)) && DependencySafe(EmptyBoard(id, rules))
  {
    var b := EmptyBoard(id, rules);
    TopologicalMeansAcyclic(b.edges, []);
  }

  /**
   * Every run: dependencies stay acyclic inside the board, and each task has at most one pending
   * approval.
   */
  lemma {:induction false} RunKeepsBoard(id: BoardId, rules: Rules, requests: seq<Request>)
    ensures BoardInv(Run(EmptyBoard(id, rules), requests))
  {
    if requests == [] {
      EmptyBoardInv(id, rules);
    } else {
      var init := requests[..|requests| - 1];
      RunKeepsBoard(id, rules, init);
      StepKeepsGraph(Run(EmptyBoard(id, rules), init), requests[|requests| - 1]);
      StepKeepsApprovals(Run(EmptyBoard(id, rules), init), requests[|requests| - 1]);
    }
  }

  /** No request of the run is an accepted lead edit of that kind. */
  ghost predicate NoLeadBlocks(b: Board, requests: seq<Request>) {
    forall i :: 0 <= i < |requests| ==> !BlockedByLead(Run(b, requests[..i]), requests[i])
  }

  /** Every run without such an edit leaves each task with an unfinished dependency done or parked. */
  lemma {:induction false} RunKeepsSafe(id: BoardId, rules: Rules, requests: seq<Request>)
    requires NoLeadBlocks(EmptyBoard(id, rules), requests)
    ensures DependencySafe(Run(EmptyBoard(id, rules), requests))
  {
    var b := EmptyBoard(id, rules);
    if requests == [] {
      EmptyBoardInv(id, rules);
    } else {
      var init := requests[..|requests| - 1];
      assert forall i :: 0 <= i < |init| ==> init[..i] == requests[..i];
      RunKeepsSafe(id, rules, init);
      RunKeepsBoard(id, rules, init);
      StepKeepsSafe(Run(b, init), requests[|requests| - 1]);
    }
  }

  const STARTED := NewTask("build", InProgress, None, [], Absent, Absent)
  const WAITING := NewTask("design", Inbox, None, [], Absent, Absent)
  const DEPEND_ON_2 := Patch(None, false, None, None, Some([2]), None, Absent, Absent)

  /**
   * The exception is real: a lead adds an unfinished dependency to a task in progress, the request
   * is accepted, and the task stays in progress although it is blocked.
   */
  lemma LeadEditCanBlockActiveTask()
    ensures var requests := [
        SetAgents(map[7 := Agent(Some(0), true)], Some(7)),
        CreateTask(1, STARTED), CreateTask(2, WAITING), PatchTask(1, AgentActor(7), DEPEND_ON_2)];
      !DependencySafe(Run(EmptyBoard(0, Rules(false, false, false, false, false)), requests))
  {
    var r0 := SetAgents(map[7 := Agent(Some(0), true)], Some(7));
    var r1, r2 := CreateTask(1, STARTED), CreateTask(2, WAITING);
    var r3 := PatchTask(1, AgentActor(7), DEPEND_ON_2);
    var b := EmptyBoard(0, Rules(false, false, false, false, false));
    RunSnoc(b, [], r0);
    var b1 := Run(b, [r0]);
    assert [] + [r0] == [r0] && [r0] + [r1] == [r0, r1] && [r0, r1] + [r2] == [r0, r1, r2];
    assert [r0, r1, r2] + [r3] == [r0, r1, r2, r3];
    assert FirstLeadOf(0, r0.agents, r0.firstLead);
    assert b1 == b.(agents := r0.agents, firstLead := r0.firstLead);
    RunSnoc(b, [r0], r1);
    CreatedIs(b1, 1, STARTED);
    var b2 := Run(b, [r0, r1]);
    RunSnoc(b, [r0, r1], r2);
    CreatedIs(b2, 2, WAITING);
    RunSnoc(b, [r0, r1, r2], r3);
    RunKeepsBoard(0, b.rules, [r0, r1, r2]);
    LeadEditAccepted(Run(b, [r0, r1, r2]));
  }

  lemma RunSnoc(b: Board, init: seq<Request>, r: Request)
    ensures Run(b, init + [r]) == Step(Run(b, init), r)
  {
    assert (init + [r])[..|init|] == init;
  }

  lemma CreatedIs(b: Board, id: TaskId, n: NewTask)
    requires id !in b.tasks && n.dependsOn == [] && n.tags == Absent && n.fields == Absent
    ensures var c := Step(b, CreateTask(id, n));
      SameRest(b, c) && c.edges == b.edges && c.tasks == b.tasks[id := Task(n.title, n.status, n.assignee, None, None)]
  {
    assert Dedupe(n.dependsOn) == [];
    assert ValidateDependencies(b, id, n.dependsOn) == Ok([]);
    assert b.edges + EdgesOf(id, []) == b.edges;
  }

  lemma OneDependency()
    ensures Dedupe([2]) == [2] && !Cyclic(ReplaceEdges([], 1, [2]))
  {
    assert [2][..0] == [];
    var edges := ReplaceEdges([], 1, [2]);
    TopologicalAppend(edges, [2], 1);
    assert [2] + [1] == [2, 1];
    TopologicalMeansAcyclic(edges, [2, 1]);
  }

  lemma LeadEditEdges(b: Board)
    requires b.edges == [] && 1 in b.tasks && 2 in b.tasks && b.tasks[1].status == InProgress
    ensures PatchedEdges(b, 1, Some([2])).Ok?
  {
    hide Cyclic, ReplaceEdges;
    OneDependency();
    var wanted := Dedupe([2]);
    assert wanted == [2] && 1 !in wanted && forall d :: d in wanted ==> d in b.tasks;
    assert ValidateDependencies(b, 1, [2]) == Ok(wanted);
  }

  lemma LeadEditDraft(b: Board)
    requires b.edges == [] && 1 in b.tasks && 2 in b.tasks && b.tasks[1].status == InProgress
    ensures LeadDraft(b, 1, 7, DEPEND_ON_2).Ok? && LeadDraft(b, 1, 7, DEPEND_ON_2).value.task == b.tasks[1]
  {
    hide PatchedEdges;
    LeadEditEdges(b);
  }

  lemma LeadEditAccepted(b: Board)
    requires GraphInv(b) && b.edges == [] && b.id == 0
    requires 1 in b.tasks && 2 in b.tasks && b.tasks[1].status == InProgress && b.tasks[2].status == Inbox
    requires b.agents == map[7 := Agent(Some(0), true)]
    ensures !DependencySafe(Step(b, PatchTask(1, AgentActor(7), DEPEND_ON_2)))
  {
    LeadEditDraft(b);
    assert Gates(b, 1, InProgress, DEPEND_ON_2);
    assert ApplyPatch(b, 1, AgentActor(7), DEPEND_ON_2).Ok?;
    assert DependencySafe(b);
    hide ApplyPatch, LeadDraft, DependencySafe, Gates;
    assert !DoneTask(b.tasks, 2) && 2 in Dedupe([2]);
    PatchKeepsSafe(b, 1, AgentActor(7), DEPEND_ON_2);
    assert LeadBlocks(b, PatchTask(1, AgentActor(7), DEPEND_ON_2));
  }
}
