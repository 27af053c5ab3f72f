/** What every request keeps: acyclic dependencies, safe dependents, one pending approval a task. */
module BoardInvariants {
  import opened Prelude
  import opened BoardModel
  import opened DependencyGraph
  import opened TaskRules

  // ---- the invariants ----

  ghost predicate GraphInv(b: Board) {
    !Cyclic(b.edges) && forall e :: e in b.edges ==> e.task in b.tasks && e.dependsOn in b.tasks
  }

  /** A task with an unfinished dependency is done itself, or nothing is happening on it. */
  ghost predicate DependencySafe(b: Board) {
    forall t :: t in b.tasks && Blocked(b.tasks, b.edges, t) ==> b.tasks[t].status == Done || Parked(b.tasks[t])
  }

  ghost predicate OnePending(b: Board) {
    forall t, x, y :: PendingFor(b.approvals, b.links, x, t) && PendingFor(b.approvals, b.links, y, t) ==> x == y
  }

  /** The primary task of an approval with links is one of its linked tasks. */
  ghost predicate LinksInv(b: Board) {
    (forall l :: l in b.links ==> l.approval in b.approvals) &&
    forall a :: a in b.approvals && HasLinks(b.links, a) ==>
      b.approvals[a].primary.Some? && Link(a, b.approvals[a].primary.value) in b.links
  }

  ghost predicate BoardInv(b: Board) {
    GraphInv(b) && LinksInv(b) && OnePending(b)
  }

  // ---- reconciliation touches exactly the unfinished dependents ----

  function Reset(t: Task): Task {
    t.(status := Inbox, assignee := None, inProgressAt := None)
  }

  ghost predicate SameRest(b: Board, c: Board) {
    c.(tasks := b.tasks, edges := b.edges, log := b.log, clock := b.clock) == b
  }

  /** What a toggled dependency does to the task of one row. */
  function Toggled(t: Task, reopened: bool): Task {
    if reopened && t.status != Done then Reset(t) else t
  }

  lemma AppendRest(b: Board, kind: EventKind, t: TaskId, agent: Option<AgentId>, message: string)
    ensures var c := Append(b, kind, t, agent, message);
      SameRest(b, c) && c.edges == b.edges && c.tasks == b.tasks
  {
  }

  lemma ReconcileOneEffect(b: Board, d: TaskId, title: string, reopened: bool, actor: Option<AgentId>)
    ensures var c := ReconcileOne(b, d, title, reopened, actor);
      SameRest(b, c) && c.edges == b.edges && c.tasks.Keys == b.tasks.Keys &&
      forall t :: t in b.tasks ==> c.tasks[t] == if t == d then Toggled(b.tasks[t], reopened) else b.tasks[t]
  {
    if d in b.tasks && b.tasks[d].status != Done {
      if reopened && NeedsReset(b.tasks[d]) {
        var moved := b.(tasks := b.tasks[d := b.tasks[d].(status := Inbox, assignee := None, inProgressAt := None)]);
        AppendRest(moved, StatusChanged, d, actor, ReturnedMessage(title));
        assert moved.tasks.Keys == b.tasks.Keys;
      } else {
        AppendRest(b, TaskUpdated, d, actor, "Dependency completion changed: " + title + ".");
      }
    }
  }

  lemma {:induction false} ReconcileEffect(b: Board, rows: seq<TaskId>, title: string, reopened: bool, actor: Option<AgentId>)
    ensures var c := ReconcileRows(b, rows, title, reopened, actor);
      SameRest(b, c) && c.edges == b.edges && c.tasks.Keys == b.tasks.Keys &&
      forall t :: t in b.tasks ==> c.tasks[t] == if t in rows then Toggled(b.tasks[t], reopened) else b.tasks[t]
  {
    if rows != [] {
      var init, d := rows[..|rows| - 1], rows[|rows| - 1];
      assert rows == init + [d];
      ReconcileEffect(b, init, title, reopened, actor);
      ReconcileOneEffect(ReconcileRows(b, init, title, reopened, actor), d, title, reopened, actor);
    }
  }

  lemma ReconcileDependents(b: Board, id: TaskId, before: Status, actor: Option<AgentId>)
    requires id in b.tasks
    ensures var c := Reconcile(b, id, before, actor);
      SameRest(b, c) && c.edges == b.edges && c.tasks.Keys == b.tasks.Keys &&
      var reopened := before == Done && b.tasks[id].status != Done;
      forall t :: t in b.tasks ==> c.tasks[t] == Toggled(b.tasks[t], reopened && Edge(t, id) in b.edges)
  {
    ReconcileEffect(b, Dependents(b.edges, id), b.tasks[id].title, before == Done, actor);
  }

  /** Dependencies of other tasks are untouched, and the new rows name known tasks without a cycle. */
  ghost predicate EdgesFor(b: Board, id: TaskId, edges: seq<Edge>) {
    !Cyclic(edges) &&
    (forall e :: e in edges ==> e.task in b.tasks && e.dependsOn in b.tasks) &&
    forall e: Edge :: e.task != id ==> (e in edges <==> e in b.edges)
  }

  lemma NoSelfEdge(edges: seq<Edge>, id: TaskId)
    requires !Cyclic(edges)
    ensures Edge(id, id) !in edges
  {
    assert Edge(id, id) in edges ==> Walk(edges, [id, id]);
  }

  lemma RecordCommentTasks(b: Board, id: TaskId, actor: Option<AgentId>, comment: Option<string>)
    ensures RecordComment(b, id, actor, comment).tasks == b.tasks
  {
  }

  lemma RecordsRest(b: Board, id: TaskId, actor: Option<AgentId>, before: Status, comment: Option<string>)
    requires id in b.tasks
    ensures var c := RecordUpdate(RecordComment(b, id, actor, comment), id, actor, before);
      SameRest(b, c) && c.edges == b.edges && c.tasks == b.tasks
  {
  }

  /** Another task after `id` was committed: dependents of a reopened task are reset. */
  function AfterToggle(b: Board, id: TaskId, draft: Draft, t: TaskId): Task
    requires id in b.tasks && t in b.tasks
  {
    Toggled(b.tasks[t],
      b.tasks[id].status == Done && draft.task.status != Done && Edge(t, id) in draft.edges)
  }

  lemma CommitEffect(b: Board, id: TaskId, actor: Option<AgentId>, draft: Draft, comment: Option<string>)
    requires id in b.tasks && EdgesFor(b, id, draft.edges)
    ensures var c := Commit(b, id, actor, draft, comment);
      SameRest(b, c) && c.edges == draft.edges && c.tasks.Keys == b.tasks.Keys &&
      c.tasks[id] == draft.task &&
      forall t :: t in b.tasks && t != id ==> c.tasks[t] == AfterToggle(b, id, draft, t)
  {
    var before := b.tasks[id].status;
    NoSelfEdge(draft.edges, id);
    var written := Written(b, id, draft);
    var logged := RecordUpdate(RecordComment(written, id, actor, comment), id, actor, before);
    assert SameRest(b, logged) && logged.edges == draft.edges && logged.tasks == written.tasks by {
      RecordsRest(written, id, actor, before, comment);
    }
    ReconcileDependents(logged, id, before, actor);
  }

  // ---- drafts ----

  lemma PatchedEdgesFor(b: Board, id: TaskId, deps: Option<seq<TaskId>>)
    requires GraphInv(b) && id in b.tasks && PatchedEdges(b, id, deps).Ok?
    ensures EdgesFor(b, id, PatchedEdges(b, id, deps).value)
  {
    hide Cyclic, Dedupe, Walk;
    if deps.Some? {
      var wanted := Dedupe(deps.value);
      if wanted == [] {
        FewerEdgesAcyclic(b.edges, ReplaceEdges(b.edges, id, []));
      }
    }
  }

  lemma LeadDraftEdges(b: Board, id: TaskId, lead: AgentId, patch: Patch)
    requires id in b.tasks && LeadDraft(b, id, lead, patch).Ok?
    ensures PatchedEdges(b, id, patch.dependsOn) == Ok(LeadDraft(b, id, lead, patch).value.edges)
  {
  }

  lemma AdminDraftEdges(b: Board, id: TaskId, patch: Patch)
    requires id in b.tasks && AdminDraft(b, id, patch).Ok?
    ensures PatchedEdges(b, id, patch.dependsOn) == Ok(AdminDraft(b, id, patch).value.edges)
  {
  }

  /** The patched task itself ends up safe. */
  ghost predicate DraftSafe(b: Board, id: TaskId, draft: Draft) {
    Blocked(b.tasks, draft.edges, id) ==> draft.task.status == Done || Parked(draft.task)
  }

  /** Committing keeps everyone safe exactly when the patched task itself is safe. */
  lemma CommitSafe(b: Board, id: TaskId, actor: Option<AgentId>, draft: Draft, comment: Option<string>)
    requires GraphInv(b) && DependencySafe(b) && id in b.tasks && EdgesFor(b, id, draft.edges)
    ensures GraphInv(Commit(b, id, actor, draft, comment))
    ensures DependencySafe(Commit(b, id, actor, draft, comment)) <==> DraftSafe(b, id, draft)
  {
    var c := Commit(b, id, actor, draft, comment);
    CommitEffect(b, id, actor, draft, comment);
    NoSelfEdge(draft.edges, id);
    assert forall d :: d in b.tasks && d != id ==> DoneTask(c.tasks, d) == DoneTask(b.tasks, d);
    assert Blocked(c.tasks, c.edges, id) == Blocked(b.tasks, draft.edges, id) by {
      BlockedAgrees(b.tasks, draft.edges, c.tasks, c.edges, id);
    }
    forall t | t in c.tasks && t != id && Blocked(c.tasks, c.edges, t)
      ensures c.tasks[t].status == Done || Parked(c.tasks[t])
    {
      var i :| 0 <= i < |c.edges| && c.edges[i].task == t && !DoneTask(c.tasks, c.edges[i].dependsOn);
      var e := c.edges[i];
      assert e in c.edges && e in b.edges;
      if e.dependsOn != id || b.tasks[id].status != Done {
        BlockedBy(b.tasks, b.edges, e);
      }
    }
  }

  lemma BlockedBy(tasks: map<TaskId, Task>, edges: seq<Edge>, e: Edge)
    requires e in edges && !DoneTask(tasks, e.dependsOn)
    ensures Blocked(tasks, edges, e.task)
  {
    var i :| 0 <= i < |edges| && edges[i] == e;
    assert edges[i].task == e.task && !DoneTask(tasks, edges[i].dependsOn);
  }

  /** Being blocked depends only on the task's own edges and on which of its dependencies are done. */
  lemma BlockedAgrees(tasks: map<TaskId, Task>, edges: seq<Edge>, tasks': map<TaskId, Task>, edges': seq<Edge>, id: TaskId)
    requires forall d :: Edge(id, d) in edges <==> Edge(id, d) in edges'
    requires forall d :: Edge(id, d) in edges ==> DoneTask(tasks, d) == DoneTask(tasks', d)
    ensures Blocked(tasks, edges, id) == Blocked(tasks', edges', id)
  {
    if Blocked(tasks, edges, id) {
      var i :| 0 <= i < |edges| && edges[i].task == id && !DoneTask(tasks, edges[i].dependsOn);
      assert edges[i] == Edge(id, edges[i].dependsOn);
      BlockedBy(tasks', edges', edges[i]);
    }
    if Blocked(tasks', edges', id) {
      var i :| 0 <= i < |edges'| && edges'[i].task == id && !DoneTask(tasks', edges'[i].dependsOn);
      assert edges'[i] == Edge(id, edges'[i].dependsOn);
      BlockedBy(tasks, edges, edges'[i]);
    }
  }

  lemma WorkerDraftSafe(b: Board, id: TaskId, me: AgentId, patch: Patch)
    requires DependencySafe(b) && id in b.tasks && me in b.agents && WorkerDraft(b, id, me, patch).Ok?
    ensures DraftSafe(b, id, WorkerDraft(b, id, me, patch).value)
  {
  }

  lemma AdminDraftSafe(b: Board, id: TaskId, patch: Patch)
    requires id in b.tasks && AdminDraft(b, id, patch).Ok?
    ensures DraftSafe(b, id, AdminDraft(b, id, patch).value)
  {
  }

  /**
   * The one unsafe edit: a lead changes only the dependencies of a task that is under way, and the
   * new dependencies are not all done.
   */
  predicate LeadBlocksActiveTask(b: Board, id: TaskId, patch: Patch)
    requires id in b.tasks
  {
    patch.dependsOn.Some? && patch.status == None && patch.assignee == None &&
    AnyNotDone(b.tasks, Dedupe(patch.dependsOn.value)) && !Parked(b.tasks[id])
  }

  lemma BlockedByReplacement(b: Board, id: TaskId, deps: seq<TaskId>)
    ensures Blocked(b.tasks, ReplaceEdges(b.edges, id, deps), id) == AnyNotDone(b.tasks, deps)
  {
    var edges := ReplaceEdges(b.edges, id, deps);
    if AnyNotDone(b.tasks, deps) {
      var i :| 0 <= i < |deps| && !DoneTask(b.tasks, deps[i]);
      BlockedBy(b.tasks, edges, Edge(id, deps[i]));
    }
    if Blocked(b.tasks, edges, id) {
      var i :| 0 <= i < |edges| && edges[i].task == id && !DoneTask(b.tasks, edges[i].dependsOn);
      assert edges[i] in edges;
    }
  }

  lemma LeadDraftSafe(b: Board, id: TaskId, lead: AgentId, patch: Patch)
    requires DependencySafe(b) && id in b.tasks && LeadDraft(b, id, lead, patch).Ok?
    ensures DraftSafe(b, id, LeadDraft(b, id, lead, patch).value) <==> !LeadBlocksActiveTask(b, id, patch)
  {
    LeadDraftEdges(b, id, lead, patch);
    if Blocked(b.tasks, LeadDraft(b, id, lead, patch).value.edges, id) {
      assert patch.status == None && patch.assignee == None;
      assert LeadDraft(b, id, lead, patch).value.task == b.tasks[id];
    }
    if patch.dependsOn.Some? {
      BlockedByReplacement(b, id, Dedupe(patch.dependsOn.value));
      assert b.tasks[id].status != Done;
    }
  }
}
