/**
 * Updates of a task, read off the rows of the board alone: when one is accepted, with which refusal
 * otherwise, and what it changes.
 */
module BoardUpdates {
  import opened Prelude
  import opened BoardModel
  import opened DependencyGraph
  import opened TaskRules
  import opened BoardInvariants
  import opened BoardRuns

  // ---- the rows a rule looks at ----

  /** Approval `a` is about the task: it is linked to it or, having no link at all, was made for it. */
  ghost predicate About(b: Board, a: ApprovalId, t: TaskId)
    requires a in b.approvals
  {
    Link(a, t) in b.links ||
    (b.approvals[a].primary == Some(t) && forall l :: l in b.links ==> l.approval != a)
  }

  ghost predicate PendingRow(b: Board, a: ApprovalId, t: TaskId) {
    a in b.approvals && b.approvals[a].status == Pending && About(b, a, t)
  }

  /** An approval counts as approved for its linked tasks and the task it was made for. */
  ghost predicate ApprovedRow(b: Board, a: ApprovalId, t: TaskId) {
    a in b.approvals && b.approvals[a].status == Approved && (Link(a, t) in b.links || b.approvals[a].primary == Some(t))
  }

  ghost predicate Finished(b: Board, t: TaskId) {
    t in b.tasks && b.tasks[t].status == Done
  }

  /** After the update, `x` depends on `y`. */
  ghost predicate DependsAfter(b: Board, id: TaskId, patch: Patch, x: TaskId, y: TaskId) {
    if x == id && patch.dependsOn.Some? then y in patch.dependsOn.value else Edge(x, y) in b.edges
  }

  /** After the update, some dependency of the task is unfinished. */
  ghost predicate Unfinished(b: Board, id: TaskId, patch: Patch) {
    exists d :: DependsAfter(b, id, patch, id, d) && !Finished(b, d)
  }

  /** With the new dependencies, some walk along dependencies returns to its start. */
  ghost predicate Loops(b: Board, id: TaskId, patch: Patch) {
    exists p: seq<TaskId> :: ClosedWalk(b, id, patch, p)
  }

  ghost predicate ClosedWalk(b: Board, id: TaskId, patch: Patch, p: seq<TaskId>) {
    |p| >= 2 && p[0] == p[|p| - 1] && forall i :: 0 <= i < |p| - 1 ==> DependsAfter(b, id, patch, p[i], p[i + 1])
  }

  ghost predicate CommentBy(e: Event, t: TaskId, author: AgentId, since: Time) {
    e.task == t && e.kind == TaskComment && e.agent == Some(author) && e.at >= since
  }

  ghost predicate Visible(s: string) {
    exists k :: 0 <= k < |s| && !IsSpace(s[k])
  }

  /** The latest comment by the author on the task since then says something. */
  ghost predicate Commented(log: seq<Event>, t: TaskId, author: AgentId, since: Time) {
    exists i :: 0 <= i < |log| && LatestAt(log, i, t, author, since) && Visible(log[i].message)
  }

  ghost predicate LatestAt(log: seq<Event>, i: nat, t: TaskId, author: AgentId, since: Time)
    requires i < |log|
  {
    CommentBy(log[i], t, author, since) && forall j :: i < j < |log| ==> !CommentBy(log[j], t, author, since)
  }

  // ---- the same rows as the rules see them ----

  lemma PendingRows(b: Board, t: TaskId)
    ensures HasPending(b, t) <==> exists a :: PendingRow(b, a, t)
  {
    forall a | a in b.approvals ensures PendingFor(b.approvals, b.links, a, t) <==> PendingRow(b, a, t) {
      LinksAmong(b.links, a);
    }
    if a :| PendingRow(b, a, t) { assert PendingFor(b.approvals, b.links, a, t); }
  }

  lemma LinksAmong(links: seq<Link>, a: ApprovalId)
    ensures HasLinks(links, a) <==> exists l :: l in links && l.approval == a
  {
    if l :| l in links && l.approval == a {
      var i :| 0 <= i < |links| && links[i] == l;
    }
    if HasLinks(links, a) {
      var i :| 0 <= i < |links| && links[i].approval == a;
      assert links[i] in links;
    }
  }

  lemma ApprovedRows(b: Board, t: TaskId)
    ensures HasApproved(b, t) <==> exists a :: ApprovedRow(b, a, t)
  {
    if a :| ApprovedRow(b, a, t) { assert a in b.approvals; }
    if HasApproved(b, t) {
      var a :| a in b.approvals && b.approvals[a].status == Approved &&
        (b.approvals[a].primary == Some(t) || Link(a, t) in b.links);
      assert ApprovedRow(b, a, t);
    }
  }

  lemma UnfinishedRows(b: Board, id: TaskId, patch: Patch, edges: seq<Edge>)
    requires forall d :: Edge(id, d) in edges <==> DependsAfter(b, id, patch, id, d)
    ensures Blocked(b.tasks, edges, id) <==> Unfinished(b, id, patch)
  {
    if Blocked(b.tasks, edges, id) {
      var i :| 0 <= i < |edges| && edges[i].task == id && !DoneTask(b.tasks, edges[i].dependsOn);
      assert edges[i] == Edge(id, edges[i].dependsOn) && edges[i] in edges;
      assert DependsAfter(b, id, patch, id, edges[i].dependsOn);
    }
    if Unfinished(b, id, patch) {
      var d :| DependsAfter(b, id, patch, id, d) && !Finished(b, d);
      BlockedBy(b.tasks, edges, Edge(id, d));
    }
  }

  lemma LoopRows(b: Board, id: TaskId, patch: Patch, edges: seq<Edge>)
    requires forall x, y :: Edge(x, y) in edges <==> DependsAfter(b, id, patch, x, y)
    ensures Cyclic(edges) <==> Loops(b, id, patch)
  {
    if Cyclic(edges) {
      var p :| Walk(edges, p) && |p| >= 2 && p[0] == p[|p| - 1];
      assert ClosedWalk(b, id, patch, p);
    }
    if Loops(b, id, patch) {
      var p :| ClosedWalk(b, id, patch, p);
      assert Walk(edges, p);
    }
  }

  lemma {:induction false} LatestRows(log: seq<Event>, t: TaskId, author: AgentId, since: Time)
    ensures var latest := LatestComment(log, t, author, since);
      if latest.Some? then exists i :: 0 <= i < |log| && LatestAt(log, i, t, author, since) && log[i] == latest.value
      else forall i :: 0 <= i < |log| ==> !CommentBy(log[i], t, author, since)
  {
    if log != [] {
      var n := |log| - 1;
      var init := log[..n];
      if CommentBy(log[n], t, author, since) {
        assert LatestAt(log, n, t, author, since);
      } else {
        LatestRows(init, t, author, since);
        if LatestComment(init, t, author, since).Some? {
          var latest := LatestComment(init, t, author, since).value;
          var i :| 0 <= i < n && LatestAt(init, i, t, author, since) && init[i] == latest;
          forall j | i < j < |log| ensures !CommentBy(log[j], t, author, since) {
            if j < n { assert log[j] == init[j]; }
          }
          assert log[i] == init[i] && LatestAt(log, i, t, author, since);
        } else {
          forall i | 0 <= i < |log| ensures !CommentBy(log[i], t, author, since) {
            if i < n { assert log[i] == init[i]; }
          }
        }
      }
    }
  }

  lemma CommentedRows(log: seq<Event>, t: TaskId, author: AgentId, since: Time)
    ensures var latest := LatestComment(log, t, author, since);
      (latest.Some? && HasText(latest.value.message)) <==> Commented(log, t, author, since)
  {
    LatestRows(log, t, author, since);
    var latest := LatestComment(log, t, author, since);
    if Commented(log, t, author, since) {
      var i :| 0 <= i < |log| && LatestAt(log, i, t, author, since) && Visible(log[i].message);
      var j :| 0 <= j < |log| && LatestAt(log, j, t, author, since) && log[j] == latest.value;
      assert i == j;
    }
  }

  // ---- when an update is accepted ----

  /** Why new dependencies are refused, if they are. */
  ghost function DependencyRefusal(b: Board, id: TaskId, patch: Patch): Option<Refusal>
    requires id in b.tasks
  {
    if patch.dependsOn == None then None
    else if b.tasks[id].status == Done then Some(Conflict)
    else if id in patch.dependsOn.value then Some(Unprocessable)
    else if exists d :: d in patch.dependsOn.value && d !in b.tasks then Some(NotFound)
    else if Loops(b, id, patch) then Some(Conflict)
    else None
  }

  /** The board's rules let the task go to this status. */
  ghost predicate MayBecome(b: Board, id: TaskId, after: Status, patch: Patch)
    requires id in b.tasks
  {
    var before := b.tasks[id].status;
    (b.rules.blockWhilePending && patch.status.Some? && patch.status.value != before && after != before ==>
      forall a :: !PendingRow(b, a, id)) &&
    (b.rules.requireReview && before != Done && after == Done ==> before == Review) &&
    (b.rules.requireApproval && before != Done && after == Done ==> exists a :: ApprovedRow(b, a, id))
  }

  /** A comment comes with the update, or its author has commented since the task was started. */
  ghost predicate ReviewExplained(b: Board, id: TaskId, patch: Patch, author: Option<AgentId>)
    requires id in b.tasks
  {
    (patch.comment.Some? && Visible(patch.comment.value)) ||
    (author.Some? && b.tasks[id].inProgressAt.Some? &&
    Commented(b.log, id, author.value, b.tasks[id].inProgressAt.value))
  }

  ghost function FinalRefusal(
      b: Board, id: TaskId, after: Status, patch: Patch, toReview: bool, author: Option<AgentId>): Option<Refusal>
    requires id in b.tasks
  {
    if !MayBecome(b, id, after, patch) then Some(Conflict)
    else if toReview && b.rules.commentForReview && !ReviewExplained(b, id, patch, author) then Some(Unprocessable)
    else if patch.fields == Malformed then Some(Unprocessable)
    else None
  }

  function Wanted(t: Task, patch: Patch): Status {
    if patch.status.Some? then patch.status.value else t.status
  }

  /** A worker moves only its own or unassigned tasks, and changes nothing but the status. */
  ghost function WorkerRefusal(b: Board, id: TaskId, me: AgentId, patch: Patch): Option<Refusal>
    requires id in b.tasks
  {
    var t := b.tasks[id];
    var foreign := t.assignee.Some? && t.assignee.value != me;
    if patch.status.Some? && (foreign || b.rules.onlyLeadChangesStatus) then Some(Forbidden)
    else if patch.dependsOn.Some? || patch.tags != Absent || patch.title.Some? || patch.otherFields ||
      patch.assignee.Some? then Some(Forbidden)
    else if patch.status.Some? && patch.status.value != Inbox && Unfinished(b, id, patch) then Some(Conflict)
    else FinalRefusal(b, id, Wanted(t, patch), patch, patch.status == Some(Review), t.assignee)
  }

  /** The user's update is turned into a move back to the inbox. */
  ghost predicate ForcedBack(b: Board, id: TaskId, patch: Patch)
    requires id in b.tasks
  {
    Unfinished(b, id, patch) && !(b.tasks[id].status == Done && Wanted(b.tasks[id], patch) == Done)
  }

  ghost function UserRefusal(b: Board, id: TaskId, patch: Patch): Option<Refusal>
    requires id in b.tasks
  {
    var t := b.tasks[id];
    var named := if patch.assignee.Some? then patch.assignee.value else None;
    if patch.tags == Malformed then Some(NotFound)
    else if DependencyRefusal(b, id, patch).Some? then DependencyRefusal(b, id, patch)
    else if ForcedBack(b, id, patch) then FinalRefusal(b, id, Inbox, patch, false, None)
    else if named.Some? && named.value !in b.agents then Some(NotFound)
    else if named.Some? && b.agents[named.value].board.Some? && b.agents[named.value].board != Some(b.id) then
      Some(Conflict)
    else
      FinalRefusal(b, id, Wanted(t, patch), patch, patch.status == Some(Review),
        if named.Some? then named else t.assignee)
  }

  /** A lead may take a task out of review, or start an inbox task while assigning it. */
  predicate LeadMayMove(before: Status, after: Status, assigns: bool) {
    (before == Review && (after == Done || after == Inbox)) || (before == Inbox && after == InProgress && assigns)
  }

  ghost function LeadRefusal(b: Board, id: TaskId, patch: Patch): Option<Refusal>
    requires id in b.tasks
  {
    var t := b.tasks[id];
    var named := if patch.assignee.Some? then patch.assignee.value else None;
    if patch.comment.Some? || patch.title.Some? || patch.otherFields then Some(Forbidden)
    else if DependencyRefusal(b, id, patch).Some? then DependencyRefusal(b, id, patch)
    else if patch.tags == Malformed then Some(NotFound)
    else if (patch.status.Some? || patch.assignee.Some?) && Unfinished(b, id, patch) then Some(Conflict)
    else if named.Some? && named.value !in b.agents then Some(NotFound)
    else if named.Some? && b.agents[named.value].isLead then Some(Forbidden)
    else if named.Some? && b.agents[named.value].board.Some? && b.agents[named.value].board != Some(b.id) then
      Some(Conflict)
    else if patch.status.Some? && !LeadMayMove(t.status, patch.status.value, named.Some?) then Some(Forbidden)
    else FinalRefusal(b, id, Wanted(t, patch), patch, false, None)
  }

  /** Why an update is refused; nothing if it is accepted. */
  ghost function UpdateRefusal(b: Board, id: TaskId, actor: Actor, patch: Patch): Option<Refusal> {
    if actor.AgentActor? && (actor.id !in b.agents ||
      (b.agents[actor.id].board.Some? && b.agents[actor.id].board != Some(b.id))) then Some(Forbidden)
    else if id !in b.tasks then Some(NotFound)
    else if actor.User? then UserRefusal(b, id, patch)
    else if b.agents[actor.id].isLead then LeadRefusal(b, id, patch)
    else WorkerRefusal(b, id, actor.id, patch)
  }

  ghost predicate Answers<T>(result: Result<T, Refusal>, refusal: Option<Refusal>) {
    match refusal
    case None => result.Ok?
    case Some(e) => result == Err(e)
  }

  lemma NoNewDependencies(b: Board, id: TaskId, patch: Patch)
    requires patch.dependsOn == None
    ensures forall x, y :: Edge(x, y) in b.edges <==> DependsAfter(b, id, patch, x, y)
  {
  }

  lemma NewDependencies(b: Board, id: TaskId, patch: Patch)
    requires patch.dependsOn.Some?
    ensures var edges := ReplaceEdges(b.edges, id, Dedupe(patch.dependsOn.value));
      forall x, y :: Edge(x, y) in edges <==> DependsAfter(b, id, patch, x, y)
  {
    var edges := ReplaceEdges(b.edges, id, Dedupe(patch.dependsOn.value));
    forall x, y ensures Edge(x, y) in edges <==> DependsAfter(b, id, patch, x, y) {
      assert Edge(x, y).task == x && Edge(x, y).dependsOn == y;
    }
  }

  /** New dependencies replace the task's own and no others, and are refused for the reasons given. */
  lemma PatchedRows(b: Board, id: TaskId, patch: Patch)
    requires GraphInv(b) && id in b.tasks
    ensures Answers(PatchedEdges(b, id, patch.dependsOn), DependencyRefusal(b, id, patch))
    ensures var edges := PatchedEdges(b, id, patch.dependsOn);
      edges.Ok? ==> forall x, y :: Edge(x, y) in edges.value <==> DependsAfter(b, id, patch, x, y)
  {
    hide Cyclic, Loops, ReplaceEdges, Dedupe, DependsAfter;
    if patch.dependsOn == None {
      NoNewDependencies(b, id, patch);
    } else {
      var deps := patch.dependsOn.value;
      var wanted := Dedupe(deps);
      var edges := ReplaceEdges(b.edges, id, wanted);
      NewDependencies(b, id, patch);
      LoopRows(b, id, patch, edges);
      if wanted == [] {
        FewerEdgesAcyclic(b.edges, edges);
        SomeMember(deps);
      }
    }
  }

  lemma GateRows(b: Board, id: TaskId, after: Status, patch: Patch)
    requires id in b.tasks
    ensures Gates(b, id, after, patch) <==> MayBecome(b, id, after, patch)
  {
    hide HasPending, HasApproved, PendingRow, ApprovedRow;
    PendingRows(b, id);
    ApprovedRows(b, id);
  }

  lemma ReviewCommentRows(b: Board, id: TaskId, after: Task, patch: Patch, author: Option<AgentId>)
    requires id in b.tasks && after.previousInProgressAt == b.tasks[id].inProgressAt
    requires author == if after.assignee.Some? then after.assignee else b.tasks[id].assignee
    ensures ReviewCommentGiven(b, b.tasks[id], after, id, patch) <==> ReviewExplained(b, id, patch, author)
  {
    hide LatestComment, Commented;
    var since := b.tasks[id].inProgressAt;
    if author.Some? && since.Some? { CommentedRows(b.log, id, author.value, since.value); }
  }

  lemma WorkerAnswers(b: Board, id: TaskId, me: AgentId, patch: Patch)
    requires GraphInv(b) && id in b.tasks && me in b.agents && !b.agents[me].isLead
    requires b.agents[me].board == None || b.agents[me].board == Some(b.id)
    ensures Answers(ApplyPatch(b, id, AgentActor(me), patch), WorkerRefusal(b, id, me, patch))
  {
    hide Gates, MayBecome, Blocked, Unfinished, ReviewCommentGiven, ReviewExplained, Commit;
    if patch.dependsOn == None {
      NoNewDependencies(b, id, patch);
      UnfinishedRows(b, id, patch, b.edges);
    }
    var draft := WorkerDraft(b, id, me, patch);
    GateRows(b, id, Wanted(b.tasks[id], patch), patch);
    if draft.Ok? && patch.status == Some(Review) {
      ReviewCommentRows(b, id, draft.value.task, patch, b.tasks[id].assignee);
    }
  }

  lemma UserAnswers(b: Board, id: TaskId, patch: Patch)
    requires GraphInv(b) && id in b.tasks
    ensures Answers(ApplyPatch(b, id, User, patch), UserRefusal(b, id, patch))
  {
    hide Gates, MayBecome, Blocked, Unfinished, ReviewCommentGiven, ReviewExplained, Commit, PatchedEdges, DependencyRefusal;
    PatchedRows(b, id, patch);
    var edges := PatchedEdges(b, id, patch.dependsOn);
    if edges.Ok? {
      UnfinishedRows(b, id, patch, edges.value);
      var draft := AdminDraft(b, id, patch);
      GateRows(b, id, Inbox, patch);
      GateRows(b, id, Wanted(b.tasks[id], patch), patch);
      if draft.Ok? && patch.status == Some(Review) && !ForcedBack(b, id, patch) {
        var named := if patch.assignee.Some? then patch.assignee.value else None;
        ReviewCommentRows(b, id, draft.value.task, patch, if named.Some? then named else b.tasks[id].assignee);
      }
    }
  }

  lemma LeadAnswers(b: Board, id: TaskId, lead: AgentId, patch: Patch)
    requires GraphInv(b) && id in b.tasks && lead in b.agents && b.agents[lead].isLead
    requires b.agents[lead].board == None || b.agents[lead].board == Some(b.id)
    ensures Answers(ApplyPatch(b, id, AgentActor(lead), patch), LeadRefusal(b, id, patch))
  {
    hide Gates, MayBecome, Blocked, Unfinished, Commit, PatchedEdges, DependencyRefusal, LastReturnable;
    PatchedRows(b, id, patch);
    var edges := PatchedEdges(b, id, patch.dependsOn);
    if edges.Ok? {
      UnfinishedRows(b, id, patch, edges.value);
      GateRows(b, id, Wanted(b.tasks[id], patch), patch);
    }
  }

  /** An update is accepted, or refused for the first reason that applies, by the rows of the board alone. */
  lemma UpdateAnswered(b: Board, id: TaskId, actor: Actor, patch: Patch)
    requires GraphInv(b)
    ensures Answers(ApplyPatch(b, id, actor, patch), UpdateRefusal(b, id, actor, patch))
  {
    hide WorkerRefusal, UserRefusal, LeadRefusal, WorkerDraft, AdminDraft, LeadDraft, Finalize, Gates, Commit;
    if id in b.tasks {
      if actor.User? {
        UserAnswers(b, id, patch);
      } else if actor.id in b.agents && (b.agents[actor.id].board == None || b.agents[actor.id].board == Some(b.id)) {
        if b.agents[actor.id].isLead { LeadAnswers(b, id, actor.id, patch); } else { WorkerAnswers(b, id, actor.id, patch); }
      }
    }
  }

  // ---- what an accepted update changes ----

  /** Only tasks, dependencies, the log and the clock may differ. */
  ghost predicate RestStays(b: Board, c: Board) {
    c.id == b.id && c.rules == b.rules && c.agents == b.agents && c.firstLead == b.firstLead &&
    c.approvals == b.approvals && c.links == b.links
  }

  /** A worker claims what it moves on and gives up what it returns; a task new in review goes to the lead. */
  ghost predicate WorkerLeaves(b: Board, id: TaskId, me: AgentId, patch: Patch, u: Task)
    requires id in b.tasks
  {
    var t := b.tasks[id];
    match patch.status
    case None => u == t
    case Some(InProgress) => u == Task(t.title, InProgress, Some(me), Some(b.clock), t.previousInProgressAt)
    case Some(Done) => u == Task(t.title, Done, Some(me), t.inProgressAt, t.previousInProgressAt)
    case Some(Inbox) => u == Task(t.title, Inbox, None, None, t.inProgressAt)
    case Some(Review) => u == Task(t.title, Review, if t.status == Review then None else b.firstLead, None, t.inProgressAt)
  }

  /** A user sets title, status and assignee, unless the task is forced back to the inbox. */
  ghost predicate UserLeaves(b: Board, id: TaskId, patch: Patch, u: Task)
    requires id in b.tasks
  {
    var t := b.tasks[id];
    var parked := patch.status == Some(Inbox) || patch.status == Some(Review);
    u.title == (if patch.title.Some? then patch.title.value else t.title) &&
    if ForcedBack(b, id, patch) then
      u.status == Inbox && u.assignee == None && u.inProgressAt == None && u.previousInProgressAt == None
    else
      u.status == Wanted(t, patch) &&
      u.inProgressAt ==
        (if parked then None else if patch.status == Some(InProgress) then Some(b.clock) else t.inProgressAt) &&
      u.previousInProgressAt == (if parked then t.inProgressAt else t.previousInProgressAt) &&
      u.assignee ==
        if u.status == Review && t.status != Review && b.firstLead.Some? then b.firstLead
        else if patch.assignee.Some? then patch.assignee.value
        else if parked then None else t.assignee
  }

  /** A lead moves and assigns; to whom a returned task goes is said by the history of the board. */
  ghost predicate LeadLeaves(b: Board, id: TaskId, patch: Patch, u: Task)
    requires id in b.tasks
  {
    var t := b.tasks[id];
    var returned := t.status == Review && patch.status == Some(Inbox);
    u.title == t.title && u.status == Wanted(t, patch) && u.previousInProgressAt == t.previousInProgressAt &&
    u.inProgressAt == (if returned then None else t.inProgressAt) &&
    (!returned ==> u.assignee == if patch.assignee.Some? then patch.assignee.value else t.assignee)
  }

  ghost predicate Leaves(b: Board, id: TaskId, actor: Actor, patch: Patch, u: Task)
    requires id in b.tasks
  {
    match actor
    case User => UserLeaves(b, id, patch, u)
    case AgentActor(me) =>
      if me in b.agents && b.agents[me].isLead then LeadLeaves(b, id, patch, u) else WorkerLeaves(b, id, me, patch, u)
  }

  /** Another task is touched only if it depends on one that stops being done. */
  ghost predicate OtherLeft(b: Board, id: TaskId, patch: Patch, now: Status, x: TaskId, y: Task)
    requires id in b.tasks && x in b.tasks
  {
    var was := b.tasks[x];
    if b.tasks[id].status == Done && now != Done && DependsAfter(b, id, patch, x, id) && was.status != Done then
      y == Task(was.title, Inbox, None, None, was.previousInProgressAt)
    else y == was
  }

  lemma DraftDependencies(b: Board, id: TaskId, actor: Actor, patch: Patch)
    requires GraphInv(b) && ApplyPatch(b, id, actor, patch).Ok?
    ensures id in b.tasks
    ensures var edges := CommittedDraft(b, id, actor, patch).edges;
      forall x, y :: Edge(x, y) in edges <==> DependsAfter(b, id, patch, x, y)
  {
    hide GraphInv, DependsAfter, Gates, Commit;
    PatchCommits(b, id, actor, patch);
    PatchedRows(b, id, patch);
    if actor.User? {
      AdminDraftEdges(b, id, patch);
    } else if b.agents[actor.id].isLead {
      LeadDraftEdges(b, id, actor.id, patch);
    }
  }

  lemma WorkerDraftLeaves(b: Board, id: TaskId, me: AgentId, patch: Patch)
    requires id in b.tasks && me in b.agents && WorkerDraft(b, id, me, patch).Ok?
    ensures var draft := WorkerDraft(b, id, me, patch).value;
      WorkerLeaves(b, id, me, patch, AssignReviewToLead(b, b.tasks[id].status, draft.task))
  {
    hide Blocked;
  }

  lemma UserDraftLeaves(b: Board, id: TaskId, patch: Patch)
    requires GraphInv(b) && id in b.tasks && AdminDraft(b, id, patch).Ok?
    ensures var draft := AdminDraft(b, id, patch).value;
      UserLeaves(b, id, patch, AssignReviewToLead(b, b.tasks[id].status, draft.task))
  {
    hide PatchedEdges, Blocked, Unfinished, GraphInv, DependsAfter;
    PatchedRows(b, id, patch);
    UnfinishedRows(b, id, patch, PatchedEdges(b, id, patch.dependsOn).value);
  }

  lemma LeadDraftLeaves(b: Board, id: TaskId, lead: AgentId, patch: Patch)
    requires id in b.tasks && LeadDraft(b, id, lead, patch).Ok?
    ensures LeadLeaves(b, id, patch, LeadDraft(b, id, lead, patch).value.task)
  {
    hide PatchedEdges, Blocked, LastReturnable;
  }

  lemma DraftLeaves(b: Board, id: TaskId, actor: Actor, patch: Patch)
    requires GraphInv(b) && ApplyPatch(b, id, actor, patch).Ok?
    ensures id in b.tasks && Leaves(b, id, actor, patch, CommittedDraft(b, id, actor, patch).task)
  {
    hide Gates, Commit, GraphInv, WorkerLeaves, UserLeaves, LeadLeaves, AssignReviewToLead;
    PatchCommits(b, id, actor, patch);
    if actor.User? {
      UserDraftLeaves(b, id, patch);
    } else if b.agents[actor.id].isLead {
      LeadDraftLeaves(b, id, actor.id, patch);
    } else {
      WorkerDraftLeaves(b, id, actor.id, patch);
    }
  }

  /**
   * An accepted update leaves its task as its actor's rules say, replaces the dependencies it names,
   * and otherwise touches only unfinished tasks that depend on one that is reopened.
   */
  lemma UpdateEffect(b: Board, id: TaskId, actor: Actor, patch: Patch)
    requires GraphInv(b) && ApplyPatch(b, id, actor, patch).Ok?
    ensures id in b.tasks
    ensures var c := ApplyPatch(b, id, actor, patch).value;
      RestStays(b, c) && c.tasks.Keys == b.tasks.Keys &&
      Leaves(b, id, actor, patch, c.tasks[id]) &&
      (forall x, y :: Edge(x, y) in c.edges <==> DependsAfter(b, id, patch, x, y)) &&
      forall x :: x in b.tasks && x != id ==> OtherLeft(b, id, patch, c.tasks[id].status, x, c.tasks[x])
  {
    hide ApplyPatch, Commit, CommittedDraft, Gates, Leaves, GraphInv, EdgesFor, DependsAfter;
    PatchCommits(b, id, actor, patch);
    CommittedEdges(b, id, actor, patch);
    DraftDependencies(b, id, actor, patch);
    DraftLeaves(b, id, actor, patch);
    CommitEffect(b, id, AgentOf(actor), CommittedDraft(b, id, actor, patch), CommittedComment(b, actor, patch));
  }

  /** The update of a worker, field by field. */
  lemma WorkerUpdateEffect(b: Board, id: TaskId, me: AgentId, patch: Patch)
    requires GraphInv(b) && me in b.agents && !b.agents[me].isLead && ApplyPatch(b, id, AgentActor(me), patch).Ok?
    ensures var c := ApplyPatch(b, id, AgentActor(me), patch).value;
      id in b.tasks && id in c.tasks && WorkerLeaves(b, id, me, patch, c.tasks[id]) && c.edges == b.edges
  {
    hide Gates, Commit;
    UpdateEffect(b, id, AgentActor(me), patch);
    PatchCommits(b, id, AgentActor(me), patch);
    CommittedEdges(b, id, AgentActor(me), patch);
    CommitEffect(b, id, Some(me), CommittedDraft(b, id, AgentActor(me), patch), CommittedComment(b, AgentActor(me), patch));
  }

  // ---- pending approvals ----

  /** On a board that says so, no requested change of status succeeds while an approval for the task is pending. */
  lemma PendingStopsMoves(b: Board, id: TaskId, actor: Actor, patch: Patch)
    requires GraphInv(b) && ApplyPatch(b, id, actor, patch).Ok? && id in b.tasks && b.rules.blockWhilePending
    requires patch.status.Some? && patch.status.value != b.tasks[id].status
    requires id in ApplyPatch(b, id, actor, patch).value.tasks
    requires ApplyPatch(b, id, actor, patch).value.tasks[id].status != b.tasks[id].status
    ensures forall a :: !PendingRow(b, a, id)
  {
    hide ApplyPatch, Commit, CommittedDraft, GraphInv, EdgesFor, PendingRow, SameRest;
    PatchCommits(b, id, actor, patch);
    CommittedEdges(b, id, actor, patch);
    var draft := CommittedDraft(b, id, actor, patch);
    CommitEffect(b, id, AgentOf(actor), draft, CommittedComment(b, actor, patch));
    GateRows(b, id, draft.task.status, patch);
  }

  /** The same at each request of every run. */
  lemma RunPendingStopsMoves(board: BoardId, rules: Rules, requests: seq<Request>, k: nat)
    requires k < |requests| && requests[k].PatchTask? && requests[k].patch.status.Some?
    requires var b, t := Run(EmptyBoard(board, rules), requests[..k]), requests[k].id;
      b.rules.blockWhilePending && t in b.tasks && requests[k].patch.status.value != b.tasks[t].status &&
      Apply(b, requests[k]).Ok? && t in Step(b, requests[k]).tasks &&
      Step(b, requests[k]).tasks[t].status != b.tasks[t].status
    ensures forall a :: !PendingRow(Run(EmptyBoard(board, rules), requests[..k]), a, requests[k].id)
  {
    hide ApplyPatch, PendingRow, GraphInv;
    RunKeepsBoard(board, rules, requests[..k]);
    var b := Run(EmptyBoard(board, rules), requests[..k]);
    PendingStopsMoves(b, requests[k].id, requests[k].actor, requests[k].patch);
  }

  // ---- what an accepted update leaves in the log ----

  predicate Entry(e: Event, kind: EventKind, t: TaskId, agent: Option<AgentId>, message: string) {
    e.kind == kind && e.task == t && e.agent == agent && e.message == message
  }

  /** The comment of a worker or user, if it says something. */
  ghost predicate CommentLogged(b: Board, actor: Actor, patch: Patch) {
    patch.comment.Some? && Visible(patch.comment.value) &&
    !(actor.AgentActor? && actor.id in b.agents && b.agents[actor.id].isLead)
  }

  function Sender(actor: Actor): Option<AgentId> {
    match actor
    case User => None
    case AgentActor(me) => Some(me)
  }

  /** The entry about the task itself. */
  ghost predicate UpdateEntry(e: Event, id: TaskId, sender: Option<AgentId>, before: Task, after: Task) {
    if before.status == after.status then Entry(e, TaskUpdated, id, sender, "Task updated: " + after.title + ".")
    else
      var name := match after.status
        case Inbox => "inbox"
        case InProgress => "in_progress"
        case Review => "review"
        case Done => "done";
      Entry(e, StatusChanged, id, sender, "Task moved to " + name + ": " + after.title + ".")
  }

  /** The entry about a task that depends on one that was finished or reopened. */
  ghost predicate DependentTold(e: Event, d: TaskId, title: string, returned: bool, sender: Option<AgentId>) {
    if returned then
      Entry(e, StatusChanged, d, sender, "Task returned to inbox: dependency reopened (" + title + ").")
    else Entry(e, TaskUpdated, d, sender, "Dependency completion changed: " + title + ".")
  }

  /** Those of the rows that are unfinished tasks, in their order. */
  function Waiting(tasks: map<TaskId, Task>, rows: seq<TaskId>): (r: seq<TaskId>)
    ensures forall d :: d in r <==> d in rows && d in tasks && tasks[d].status != Done
  {
    if rows == [] then []
    else
      var rest, d := Waiting(tasks, rows[..|rows| - 1]), rows[|rows| - 1];
      assert rows == rows[..|rows| - 1] + [d];
      if d in tasks && tasks[d].status != Done then rest + [d] else rest
  }

  /** From position `n` on, the log has one entry for each of the tasks, which returns those that were not parked. */
  ghost predicate ToldFrom(
      log: seq<Event>, n: nat, told: seq<TaskId>, tasks: map<TaskId, Task>, title: string, reopened: bool,
      sender: Option<AgentId>)
  {
    |log| == n + |told| && forall i :: 0 <= i < |told| ==> ToldAt(log, n, told, i, tasks, title, reopened, sender)
  }

  ghost predicate ToldAt(
      log: seq<Event>, n: nat, told: seq<TaskId>, i: nat, tasks: map<TaskId, Task>, title: string, reopened: bool,
      sender: Option<AgentId>)
    requires i < |told| && n + i < |log|
  {
    var d := told[i];
    d in tasks && DependentTold(log[n + i], d, title, reopened && !Parked(tasks[d]) && d !in told[..i], sender)
  }

  lemma {:induction false} DependentsLogged(
      b: Board, rows: seq<TaskId>, title: string, reopened: bool, sender: Option<AgentId>)
    ensures var c := ReconcileRows(b, rows, title, reopened, sender);
      b.log <= c.log && ToldFrom(c.log, |b.log|, Waiting(b.tasks, rows), b.tasks, title, reopened, sender)
  {
    if rows != [] {
      var init, d := rows[..|rows| - 1], rows[|rows| - 1];
      assert rows == init + [d];
      DependentsLogged(b, init, title, reopened, sender);
      var m := ReconcileRows(b, init, title, reopened, sender);
      ReconcileEffect(b, init, title, reopened, sender);
      OneDependentLogged(m, d, title, reopened, sender);
      var c := ReconcileOne(m, d, title, reopened, sender);
      ToldNext(b, m.log, c.log, init, d, title, reopened, sender);
    }
  }

  lemma OneDependentLogged(b: Board, d: TaskId, title: string, reopened: bool, sender: Option<AgentId>)
    ensures var c := ReconcileOne(b, d, title, reopened, sender);
      b.log <= c.log &&
      if d in b.tasks && b.tasks[d].status != Done then
        |c.log| == |b.log| + 1 && DependentTold(c.log[|b.log|], d, title, reopened && !Parked(b.tasks[d]), sender)
      else c.log == b.log
  {
    hide Append;
    if d in b.tasks && b.tasks[d].status != Done {
      if reopened && !Parked(b.tasks[d]) {
        var moved := b.(tasks := b.tasks[d := b.tasks[d].(status := Inbox, assignee := None, inProgressAt := None)]);
        AppendLogs(moved, StatusChanged, d, sender, ReturnedMessage(title));
      } else {
        AppendLogs(b, TaskUpdated, d, sender, "Dependency completion changed: " + title + ".");
      }
    }
  }

  lemma AppendLogs(b: Board, kind: EventKind, t: TaskId, agent: Option<AgentId>, message: string)
    ensures var c := Append(b, kind, t, agent, message);
      |c.log| == |b.log| + 1 && b.log <= c.log && Entry(c.log[|b.log|], kind, t, agent, message)
  {
  }

  /** Those told before stay told in a longer log and a longer list. */
  lemma ToldKept(middle: seq<Event>, after: seq<Event>, n: nat, told: seq<TaskId>, next: seq<TaskId>, i: nat,
      tasks: map<TaskId, Task>, title: string, reopened: bool, sender: Option<AgentId>)
    requires ToldFrom(middle, n, told, tasks, title, reopened, sender) && middle <= after && told <= next && i < |told|
    ensures n + i < |after| && ToldAt(after, n, next, i, tasks, title, reopened, sender)
  {
    hide DependentTold;
    assert ToldAt(middle, n, told, i, tasks, title, reopened, sender);
    assert next[..i] == told[..i] && after[n + i] == middle[n + i];
  }

  lemma ToldLast(middle: seq<Event>, after: seq<Event>, n: nat, told: seq<TaskId>, d: TaskId,
      tasks: map<TaskId, Task>, title: string, reopened: bool, sender: Option<AgentId>)
    requires ToldFrom(middle, n, told, tasks, title, reopened, sender) && |after| == |middle| + 1 && d in tasks
    requires DependentTold(after[|middle|], d, title, reopened && !Parked(tasks[d]) && d !in told, sender)
    ensures ToldAt(after, n, told + [d], |told|, tasks, title, reopened, sender)
  {
    hide DependentTold, Parked;
    assert (told + [d])[..|told|] == told;
  }

  /** One more row: a task that has been told before is parked by now. */
  lemma ToldNext(b: Board, middle: seq<Event>, after: seq<Event>, init: seq<TaskId>, d: TaskId, title: string,
      reopened: bool, sender: Option<AgentId>)
    requires ToldFrom(middle, |b.log|, Waiting(b.tasks, init), b.tasks, title, reopened, sender) && middle <= after
    requires
      if d in b.tasks && b.tasks[d].status != Done then
        |after| == |middle| + 1 &&
        DependentTold(after[|middle|], d, title, reopened && d !in init && !Parked(b.tasks[d]), sender)
      else after == middle
    ensures ToldFrom(after, |b.log|, Waiting(b.tasks, init + [d]), b.tasks, title, reopened, sender)
  {
    var told, next := Waiting(b.tasks, init), Waiting(b.tasks, init + [d]);
    WaitingNext(b.tasks, init, d);
    hide DependentTold, Waiting, Parked, ToldAt;
    if d in b.tasks && b.tasks[d].status != Done {
      ToldLast(middle, after, |b.log|, told, d, b.tasks, title, reopened, sender);
      forall i | 0 <= i < |told| ensures ToldAt(after, |b.log|, next, i, b.tasks, title, reopened, sender) {
        ToldKept(middle, after, |b.log|, told, next, i, b.tasks, title, reopened, sender);
      }
    } else {
      assert next == told;
    }
  }

  lemma WaitingNext(tasks: map<TaskId, Task>, init: seq<TaskId>, d: TaskId)
    ensures Waiting(tasks, init + [d]) ==
      Waiting(tasks, init) + if d in tasks && tasks[d].status != Done then [d] else []
    ensures d in tasks && tasks[d].status != Done ==> (d in Waiting(tasks, init) <==> d in init)
  {
    assert (init + [d])[..|init|] == init;
  }

  lemma CommentEntry(b: Board, id: TaskId, sender: Option<AgentId>, comment: Option<string>)
    ensures var c := RecordComment(b, id, sender, comment);
      if comment.Some? && Visible(comment.value) then
        |c.log| == |b.log| + 1 && b.log <= c.log && Entry(c.log[|b.log|], TaskComment, id, sender, comment.value)
      else c.log == b.log
  {
  }

  lemma OwnEntry(b: Board, id: TaskId, sender: Option<AgentId>, before: Task)
    requires id in b.tasks
    ensures var c := RecordUpdate(b, id, sender, before.status);
      |c.log| == |b.log| + 1 && b.log <= c.log && UpdateEntry(c.log[|b.log|], id, sender, before, b.tasks[id])
  {
  }

  /** Whether the update finished the task or reopened it. */
  predicate TogglesDone(before: Status, after: Status) {
    (before == Done) != (after == Done)
  }

  /** The tasks to be told, when `c` is the board after the update. */
  ghost function Told(b: Board, c: Board, id: TaskId): seq<TaskId>
    requires id in b.tasks && id in c.tasks
  {
    if TogglesDone(b.tasks[id].status, c.tasks[id].status) then Waiting(c.tasks, Dependents(c.edges, id)) else []
  }

  lemma CommitLog(b: Board, id: TaskId, sender: Option<AgentId>, draft: Draft, comment: Option<string>)
    requires id in b.tasks
    ensures var c := Commit(b, id, sender, draft, comment);
      var n := if comment.Some? && Visible(comment.value) then |b.log| + 1 else |b.log|;
      b.log <= c.log && n < |c.log| &&
      (n > |b.log| ==> Entry(c.log[|b.log|], TaskComment, id, sender, comment.value)) &&
      UpdateEntry(c.log[n], id, sender, b.tasks[id], draft.task) &&
      var tasks := Written(b, id, draft).tasks;
      var told := if TogglesDone(b.tasks[id].status, draft.task.status) then Waiting(tasks, Dependents(draft.edges, id))
        else [];
      ToldFrom(c.log, n + 1, told, tasks, draft.task.title, b.tasks[id].status == Done, sender)
  {
    hide RecordComment, RecordUpdate, ReconcileRows, UpdateEntry, DependentTold, Entry, Visible, ToldFrom, Waiting;
    var written := Written(b, id, draft);
    RecordCommentTasks(written, id, sender, comment);
    RecordsRest(written, id, sender, b.tasks[id].status, comment);
    CommentEntry(written, id, sender, comment);
    var commented := RecordComment(written, id, sender, comment);
    OwnEntry(commented, id, sender, b.tasks[id]);
    var logged := RecordUpdate(commented, id, sender, b.tasks[id].status);
    DependentsLogged(logged, Dependents(logged.edges, id), draft.task.title, b.tasks[id].status == Done, sender);
    NobodyTold(logged.log, written.tasks, draft.task.title, b.tasks[id].status == Done, sender);
  }

  lemma NobodyTold(log: seq<Event>, tasks: map<TaskId, Task>, title: string, reopened: bool, sender: Option<AgentId>)
    ensures ToldFrom(log, |log|, [], tasks, title, reopened, sender)
  {
  }

  lemma {:induction false} WaitingAlike(xs: map<TaskId, Task>, ys: map<TaskId, Task>, rows: seq<TaskId>)
    requires forall d :: d in rows ==>
      (d in xs && xs[d].status != Done <==> d in ys && ys[d].status != Done)
    ensures Waiting(xs, rows) == Waiting(ys, rows)
  {
    if rows != [] {
      var init := rows[..|rows| - 1];
      assert forall d :: d in init ==> d in rows;
      WaitingAlike(xs, ys, init);
    }
  }

  /** Told of the tasks as they were before the update, which changed none of those told. */
  lemma ToldAlike(log: seq<Event>, n: nat, told: seq<TaskId>, xs: map<TaskId, Task>, ys: map<TaskId, Task>,
      title: string, reopened: bool, sender: Option<AgentId>)
    requires ToldFrom(log, n, told, xs, title, reopened, sender)
    requires forall d :: d in told && d in xs ==> d in ys && ys[d] == xs[d]
    ensures ToldFrom(log, n, told, ys, title, reopened, sender)
  {
    hide DependentTold;
    forall i | 0 <= i < |told| ensures ToldAt(log, n, told, i, ys, title, reopened, sender) {
      assert ToldAt(log, n, told, i, xs, title, reopened, sender);
    }
  }

  /**
   * An accepted update adds to the log the sender's comment, if there is one, then one entry about
   * the task, then, if it finished or reopened the task, one entry for each unfinished task that
   * depends on it, and nothing else.  Dependents that were not parked are told that they return.
   */
  lemma UpdateLogged(b: Board, id: TaskId, actor: Actor, patch: Patch)
    requires GraphInv(b) && ApplyPatch(b, id, actor, patch).Ok?
    ensures var c := ApplyPatch(b, id, actor, patch).value;
      id in b.tasks && id in c.tasks &&
      var n := if CommentLogged(b, actor, patch) then |b.log| + 1 else |b.log|;
      b.log <= c.log && n < |c.log| &&
      (n > |b.log| ==> Entry(c.log[|b.log|], TaskComment, id, Sender(actor), patch.comment.value)) &&
      UpdateEntry(c.log[n], id, Sender(actor), b.tasks[id], c.tasks[id]) &&
      ToldFrom(c.log, n + 1, Told(b, c, id), b.tasks, c.tasks[id].title, b.tasks[id].status == Done, Sender(actor))
  {
    hide ApplyPatch, Commit, CommittedDraft, Gates, GraphInv, EdgesFor, SameRest, UpdateEntry, Entry, Visible;
    hide ToldFrom, Waiting;
    PatchCommits(b, id, actor, patch);
    CommittedEdges(b, id, actor, patch);
    var draft := CommittedDraft(b, id, actor, patch);
    var c := ApplyPatch(b, id, actor, patch).value;
    CommitEffect(b, id, AgentOf(actor), draft, CommittedComment(b, actor, patch));
    CommitLog(b, id, AgentOf(actor), draft, CommittedComment(b, actor, patch));
    var tasks, rows := Written(b, id, draft).tasks, Dependents(draft.edges, id);
    EdgesAcyclic(b, id, draft.edges);
    NoSelfEdge(draft.edges, id);
    WaitingAlike(tasks, c.tasks, rows);
    var n := if CommentLogged(b, actor, patch) then |b.log| + 1 else |b.log|;
    ToldAlike(c.log, n + 1, Told(b, c, id), tasks, b.tasks, draft.task.title, b.tasks[id].status == Done, Sender(actor));
  }

  lemma EdgesAcyclic(b: Board, id: TaskId, edges: seq<Edge>)
    requires EdgesFor(b, id, edges)
    ensures !Cyclic(edges)
  {
  }
}
