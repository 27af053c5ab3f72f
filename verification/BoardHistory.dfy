/** What the activity log and the gates guarantee about the history of a board. */
module BoardHistory {
  import opened Prelude
  import opened BoardModel
  import opened TaskRules
  import opened BoardInvariants
  import opened BoardRuns

  // ---- reaching done ----

  lemma OnlyPatchChangesStatus(b: Board, r: Request, t: TaskId)
    requires GraphInv(b) && t in b.tasks && t in Step(b, r).tasks
    requires Step(b, r).tasks[t].status != b.tasks[t].status && Step(b, r).tasks[t].status != Inbox
    ensures r.PatchTask? && r.id == t && Apply(b, r).Ok?
    ensures Step(b, r).tasks[t] == CommittedDraft(b, t, r.actor, r.patch).task
  {
    match r {
      case PatchTask(id, actor, patch) =>
        PatchCommits(b, id, actor, patch);
        CommittedEdges(b, id, actor, patch);
        CommitEffect(b, id, AgentOf(actor), CommittedDraft(b, id, actor, patch), CommittedComment(b, actor, patch));
      case CreateTask(id, n) =>
        var deps := CreateShape(b, id, n);
      case _ =>
    }
  }

  lemma DoneDraftNotBlocked(b: Board, id: TaskId, actor: Actor, patch: Patch)
    requires ApplyPatch(b, id, actor, patch).Ok? && id in b.tasks && b.tasks[id].status != Done
    requires CommittedDraft(b, id, actor, patch).task.status == Done
    ensures !Blocked(b.tasks, CommittedDraft(b, id, actor, patch).edges, id)
  {
    if actor.User? {
      AdminDraftEdges(b, id, patch);
    } else if b.agents[actor.id].isLead {
      LeadDraftEdges(b, id, actor.id, patch);
    }
  }

  /**
   * Whoever asks for it, a task turns done only by an update of that task, with all its
   * dependencies done, with an approved approval unless the board waived it, and from review when
   * the board insists on review.
   */
  lemma DoneOnlyThroughGates(b: Board, r: Request, t: TaskId)
    requires GraphInv(b) && t in b.tasks && t in Step(b, r).tasks
    requires b.tasks[t].status != Done && Step(b, r).tasks[t].status == Done
    ensures r.PatchTask? && r.id == t
    ensures forall d :: Edge(t, d) in Step(b, r).edges ==> DoneTask(Step(b, r).tasks, d)
    ensures b.rules.requireApproval ==> HasApproved(b, t)
    ensures b.rules.requireReview ==> b.tasks[t].status == Review
  {
    var c := Step(b, r);
    OnlyPatchChangesStatus(b, r, t);
    var draft := CommittedDraft(b, t, r.actor, r.patch);
    PatchCommits(b, t, r.actor, r.patch);
    CommittedEdges(b, t, r.actor, r.patch);
    CommitEffect(b, t, AgentOf(r.actor), draft, CommittedComment(b, r.actor, r.patch));
    DoneDraftNotBlocked(b, t, r.actor, r.patch);
    forall d | Edge(t, d) in c.edges ensures DoneTask(c.tasks, d) {
      if !DoneTask(b.tasks, d) {
        BlockedBy(b.tasks, draft.edges, Edge(t, d));
      }
    }
  }

  /** The same over whole runs: at each request of every run. */
  lemma RunDoneOnlyThroughGates(id: BoardId, rules: Rules, requests: seq<Request>, k: nat, t: TaskId)
    requires k < |requests|
    requires var b := Run(EmptyBoard(id, rules), requests[..k]);
      t in b.tasks && t in Step(b, requests[k]).tasks &&
      b.tasks[t].status != Done && Step(b, requests[k]).tasks[t].status == Done
    ensures var b := Run(EmptyBoard(id, rules), requests[..k]);
      var c := Run(EmptyBoard(id, rules), requests[..k + 1]);
      requests[k].PatchTask? && requests[k].id == t &&
      (forall d :: Edge(t, d) in c.edges ==> DoneTask(c.tasks, d)) &&
      (b.rules.requireApproval ==> HasApproved(b, t)) &&
      (b.rules.requireReview ==> b.tasks[t].status == Review)
  {
    RunKeepsBoard(id, rules, requests[..k]);
    DoneOnlyThroughGates(Run(EmptyBoard(id, rules), requests[..k]), requests[k], t);
    assert requests[..k + 1][..k] == requests[..k];
  }

  // ---- what a lead can do ----

  /** The two moves of a lead: out of review, or into work together with an assignment. */
  predicate LeadMove(before: Status, after: Status, assigns: bool) {
    (before == Review && (after == Done || after == Inbox)) || (before == Inbox && after == InProgress && assigns)
  }

  /**
   * What a lead's update makes of its task: nothing but the status, the assignee and, when the task
   * returns from review, the time of its start changes. The status moves only as requested and only
   * in one of the two ways, and a named assignee is one a lead may assign.
   */
  predicate LeadChange(b: Board, patch: Patch, t: Task, u: Task) {
    var assigns := patch.assignee.Some? && patch.assignee.value.Some?;
    var returned := t.status == Review && u.status == Inbox;
    u == t.(status := u.status, assignee := u.assignee, inProgressAt := if returned then None else t.inProgressAt) &&
    u.status == (if patch.status.Some? then patch.status.value else t.status) &&
    (patch.status.Some? ==> LeadMove(t.status, u.status, assigns)) &&
    (assigns ==> Assignable(b, patch.assignee.value.value)) &&
    (!returned ==> u.assignee == if patch.assignee.Some? then patch.assignee.value else t.assignee)
  }

  lemma LeadDraftChange(b: Board, id: TaskId, lead: AgentId, patch: Patch)
    requires id in b.tasks && LeadDraft(b, id, lead, patch).Ok?
    ensures LeadChange(b, patch, b.tasks[id], LeadDraft(b, id, lead, patch).value.task)
  {
    hide PatchedEdges, LastReturnable, Blocked;
  }

  /** An accepted update by a lead changes its task in this way, and no other task. */
  lemma LeadUpdateEffect(b: Board, id: TaskId, lead: AgentId, patch: Patch)
    requires GraphInv(b) && lead in b.agents && b.agents[lead].isLead && id in b.tasks
    requires ApplyPatch(b, id, AgentActor(lead), patch).Ok?
    ensures var c := ApplyPatch(b, id, AgentActor(lead), patch).value;
      c.tasks.Keys == b.tasks.Keys && LeadChange(b, patch, b.tasks[id], c.tasks[id]) &&
      forall t :: t in b.tasks && t != id ==> c.tasks[t] == b.tasks[t]
  {
    PatchCommits(b, id, AgentActor(lead), patch);
    CommittedEdges(b, id, AgentActor(lead), patch);
    LeadDraftChange(b, id, lead, patch);
    hide LeadDraft, ApplyPatch, Commit;
    CommitEffect(b, id, Some(lead), CommittedDraft(b, id, AgentActor(lead), patch), None);
  }

  // ---- the log knows who moved a task into review ----

  lemma AppendRows(log: seq<Event>, e: Event, t: TaskId)
    ensures ReviewRows(log + [e], t) ==
      if IsReviewRow(e, t) then ReviewRows(log, t) + [e.agent.value] else ReviewRows(log, t)
  {
    assert (log + [e])[..|log|] == log;
  }

  lemma ReconcileOneRows(b: Board, d: TaskId, title: string, reopened: bool, actor: Option<AgentId>, t: TaskId)
    ensures ReviewRows(ReconcileOne(b, d, title, reopened, actor).log, t) == ReviewRows(b.log, t)
  {
    var c := ReconcileOne(b, d, title, reopened, actor);
    ReturnedNeverMatches(title);
    if c.log != b.log {
      AppendRows(b.log, c.log[|b.log|], t);
    }
  }

  lemma {:induction false} ReconcileAddsNoRows(
      b: Board, rows: seq<TaskId>, title: string, reopened: bool, actor: Option<AgentId>, t: TaskId)
    ensures ReviewRows(ReconcileRows(b, rows, title, reopened, actor).log, t) == ReviewRows(b.log, t)
  {
    if rows != [] {
      ReconcileAddsNoRows(b, rows[..|rows| - 1], title, reopened, actor, t);
      ReconcileOneRows(ReconcileRows(b, rows[..|rows| - 1], title, reopened, actor),
        rows[|rows| - 1], title, reopened, actor, t);
    }
  }

  lemma RecordCommentRows(b: Board, id: TaskId, actor: Option<AgentId>, comment: Option<string>, t: TaskId)
    ensures ReviewRows(RecordComment(b, id, actor, comment).log, t) == ReviewRows(b.log, t)
  {
    var c := RecordComment(b, id, actor, comment);
    if c.log != b.log {
      AppendRows(b.log, c.log[|b.log|], t);
    }
  }

  lemma RecordUpdateRows(b: Board, id: TaskId, actor: Option<AgentId>, before: Status, t: TaskId)
    requires id in b.tasks
    ensures ReviewRows(RecordUpdate(b, id, actor, before).log, t) ==
      if t == id && actor.Some? && b.tasks[id].status == Review && before != Review
      then ReviewRows(b.log, t) + [actor.value] else ReviewRows(b.log, t)
  {
    MovedMatchesReviewOnly(b.tasks[id].status, b.tasks[id].title);
    AppendRows(b.log, RecordUpdate(b, id, actor, before).log[|b.log|], t);
  }

  lemma ReconcileKeepsRows(b: Board, id: TaskId, before: Status, actor: Option<AgentId>, t: TaskId)
    requires id in b.tasks
    ensures ReviewRows(Reconcile(b, id, before, actor).log, t) == ReviewRows(b.log, t)
  {
    ReconcileAddsNoRows(b, Dependents(b.edges, id), b.tasks[id].title, before == Done, actor, t);
  }

  lemma CommitRows(b: Board, id: TaskId, actor: Option<AgentId>, draft: Draft, comment: Option<string>, t: TaskId)
    requires id in b.tasks
    ensures ReviewRows(Commit(b, id, actor, draft, comment).log, t) ==
      if t == id && actor.Some? && draft.task.status == Review && b.tasks[id].status != Review
      then ReviewRows(b.log, t) + [actor.value] else ReviewRows(b.log, t)
  {
    hide ReviewRows, RecordComment, RecordUpdate, Reconcile;
    var before := b.tasks[id].status;
    var written := Written(b, id, draft);
    RecordCommentTasks(written, id, actor, comment);
    RecordsRest(written, id, actor, before, comment);
    var commented := RecordComment(written, id, actor, comment);
    RecordCommentRows(written, id, actor, comment, t);
    RecordUpdateRows(commented, id, actor, before, t);
    ReconcileKeepsRows(RecordUpdate(commented, id, actor, before), id, before, actor, t);
  }

  /** The request moved task `t` from another status into review, and an agent sent it. */
  ghost predicate MovesToReview(b: Board, r: Request, t: TaskId) {
    r.PatchTask? && r.actor.AgentActor? &&
    t in b.tasks && t in Step(b, r).tasks &&
    b.tasks[t].status != Review && Step(b, r).tasks[t].status == Review
  }

  /** The agents that moved the present task `t` into review, oldest first, read off the states of the run. */
  ghost function ReviewMoves(b: Board, requests: seq<Request>, t: TaskId): seq<AgentId> {
    if requests == [] || t !in Run(b, requests).tasks then []
    else
      var init, r := requests[..|requests| - 1], requests[|requests| - 1];
      ReviewMoves(b, init, t) + if MovesToReview(Run(b, init), r, t) then [r.actor.id] else []
  }

  ghost predicate LogNamesTasks(b: Board) {
    forall e :: e in b.log ==> e.task in b.tasks
  }

  lemma {:induction false} NoRowsForUnknownTask(log: seq<Event>, t: TaskId)
    requires forall e :: e in log ==> e.task != t
    ensures ReviewRows(log, t) == []
  {
    if log != [] {
      assert log[|log| - 1] in log;
      NoRowsForUnknownTask(log[..|log| - 1], t);
    }
  }

  lemma {:induction false} DroppedRows(log: seq<Event>, id: TaskId, t: TaskId)
    requires t != id
    ensures ReviewRows(DropTaskEvents(log, id), t) == ReviewRows(log, t)
  {
    var keep := (e: Event) => e.task != id;
    if log != [] {
      var init, last := log[..|log| - 1], log[|log| - 1];
      assert log == init + [last];
      FilterAppend(init, [last], keep);
      DroppedRows(init, id, t);
      if keep(last) {
        assert Filter([last], keep) == [last];
        AppendRows(Filter(init, keep), last, t);
      } else {
        assert Filter([last], keep) == [];
        assert Filter(log, keep) == Filter(init, keep);
      }
    }
  }

  lemma ReconcileOneNames(b: Board, d: TaskId, title: string, reopened: bool, actor: Option<AgentId>)
    requires LogNamesTasks(b)
    ensures LogNamesTasks(ReconcileOne(b, d, title, reopened, actor))
  {
    ReconcileOneEffect(b, d, title, reopened, actor);
  }

  lemma {:induction false} ReconcileNames(b: Board, rows: seq<TaskId>, title: string, reopened: bool, actor: Option<AgentId>)
    requires LogNamesTasks(b)
    ensures LogNamesTasks(ReconcileRows(b, rows, title, reopened, actor))
  {
    if rows != [] {
      ReconcileNames(b, rows[..|rows| - 1], title, reopened, actor);
      ReconcileOneNames(ReconcileRows(b, rows[..|rows| - 1], title, reopened, actor),
        rows[|rows| - 1], title, reopened, actor);
    }
  }

  lemma WrittenNames(b: Board, id: TaskId, draft: Draft)
    requires LogNamesTasks(b) && id in b.tasks
    ensures LogNamesTasks(Written(b, id, draft))
  {
    assert Written(b, id, draft).tasks.Keys == b.tasks.Keys;
  }

  lemma RecordsNames(b: Board, id: TaskId, actor: Option<AgentId>, before: Status, comment: Option<string>)
    requires LogNamesTasks(b) && id in b.tasks
    ensures LogNamesTasks(RecordUpdate(RecordComment(b, id, actor, comment), id, actor, before))
  {
    assert LogNamesTasks(RecordComment(b, id, actor, comment));
  }

  lemma CommitNames(b: Board, id: TaskId, actor: Option<AgentId>, draft: Draft, comment: Option<string>)
    requires LogNamesTasks(b) && id in b.tasks
    ensures LogNamesTasks(Commit(b, id, actor, draft, comment))
  {
    hide RecordUpdate, RecordComment, ReconcileRows, LogNamesTasks;
    var before := b.tasks[id].status;
    var written := Written(b, id, draft);
    WrittenNames(b, id, draft);
    RecordsNames(written, id, actor, before, comment);
    RecordCommentTasks(written, id, actor, comment);
    RecordsRest(written, id, actor, before, comment);
    var logged := RecordUpdate(RecordComment(written, id, actor, comment), id, actor, before);
    ReconcileNames(logged, Dependents(logged.edges, id), logged.tasks[id].title, before == Done, actor);
  }

  lemma StepKeepsLogNames(b: Board, r: Request)
    requires LogNamesTasks(b)
    ensures LogNamesTasks(Step(b, r))
  {
    if Apply(b, r).Ok? {
      match r {
        case CreateTask(id, n) => var deps := CreateShape(b, id, n);
        case PatchTask(id, actor, patch) =>
          hide ApplyPatch, Commit, CommittedDraft, LogNamesTasks, Gates;
          PatchCommits(b, id, actor, patch);
          CommitNames(b, id, AgentOf(actor), CommittedDraft(b, id, actor, patch), CommittedComment(b, actor, patch));
        case _ =>
      }
    }
  }

  lemma PatchRows(b: Board, id: TaskId, actor: Actor, patch: Patch, t: TaskId)
    requires GraphInv(b) && ApplyPatch(b, id, actor, patch).Ok? && t in b.tasks
    ensures ReviewRows(ApplyPatch(b, id, actor, patch).value.log, t) ==
      ReviewRows(b.log, t) + if MovesToReview(b, PatchTask(id, actor, patch), t) then [actor.id] else []
  {
    hide ReviewRows, ApplyPatch, Commit, CommittedDraft, GraphInv, EdgesFor, Gates, SameRest;
    PatchCommits(b, id, actor, patch);
    CommittedEdges(b, id, actor, patch);
    var draft := CommittedDraft(b, id, actor, patch);
    CommitRows(b, id, AgentOf(actor), draft, CommittedComment(b, actor, patch), t);
    CommitEffect(b, id, AgentOf(actor), draft, CommittedComment(b, actor, patch));
  }

  lemma PatchKeepsTasks(b: Board, id: TaskId, actor: Actor, patch: Patch)
    requires GraphInv(b) && ApplyPatch(b, id, actor, patch).Ok?
    ensures ApplyPatch(b, id, actor, patch).value.tasks.Keys == b.tasks.Keys
  {
    hide ApplyPatch, Commit, CommittedDraft, GraphInv, EdgesFor, Gates, SameRest;
    PatchCommits(b, id, actor, patch);
    CommittedEdges(b, id, actor, patch);
    CommitEffect(b, id, AgentOf(actor), CommittedDraft(b, id, actor, patch), CommittedComment(b, actor, patch));
  }

  lemma OneMoreEvent(b: Board, c: Board, t: TaskId)
    requires |c.log| == |b.log| + 1 && c.log[..|b.log|] == b.log
    requires c.log[|b.log|].kind != StatusChanged
    ensures ReviewRows(c.log, t) == ReviewRows(b.log, t)
  {
    assert c.log == b.log + [c.log[|b.log|]];
    AppendRows(b.log, c.log[|b.log|], t);
  }

  lemma PatchStepRows(b: Board, id: TaskId, actor: Actor, patch: Patch, t: TaskId)
    requires GraphInv(b) && ApplyPatch(b, id, actor, patch).Ok? && t in ApplyPatch(b, id, actor, patch).value.tasks
    ensures ReviewRows(ApplyPatch(b, id, actor, patch).value.log, t) ==
      ReviewRows(b.log, t) + if MovesToReview(b, PatchTask(id, actor, patch), t) then [actor.id] else []
  {
    hide ReviewRows, ApplyPatch, MovesToReview, GraphInv;
    PatchKeepsTasks(b, id, actor, patch);
    PatchRows(b, id, actor, patch, t);
  }

  /** One request adds to the matched log rows exactly its own transition into review. */
  lemma StepRows(b: Board, r: Request, t: TaskId)
    requires GraphInv(b) && t in Step(b, r).tasks
    ensures ReviewRows(Step(b, r).log, t) ==
      ReviewRows(b.log, t) + if MovesToReview(b, r, t) then [r.actor.id] else []
  {
    hide ReviewRows, ApplyPatch, GraphInv, ValidateDependencies, AnyNotDone, RepointedApprovals, DropTaskEvents;
    if Apply(b, r).Ok? {
      match r {
        case CreateTask(id, n) => OneMoreEvent(b, Step(b, r), t);
        case PatchTask(id, actor, patch) => PatchStepRows(b, id, actor, patch, t);
        case DeleteTask(id) => DroppedRows(b.log, id, t);
        case PostComment(id, agent, message) => OneMoreEvent(b, Step(b, r), t);
        case _ =>
      }
    }
  }

  /** In every run, the matched log rows of a task are exactly its transitions into review by agents. */
  lemma {:induction false} RowsAreReviewMoves(id: BoardId, rules: Rules, requests: seq<Request>, t: TaskId)
    ensures LogNamesTasks(Run(EmptyBoard(id, rules), requests))
    ensures ReviewRows(Run(EmptyBoard(id, rules), requests).log, t) == ReviewMoves(EmptyBoard(id, rules), requests, t)
  {
    var b := EmptyBoard(id, rules);
    if requests != [] {
      var init, r := requests[..|requests| - 1], requests[|requests| - 1];
      RowsAreReviewMoves(id, rules, init, t);
      RunKeepsBoard(id, rules, init);
      StepKeepsLogNames(Run(b, init), r);
      if t in Run(b, requests).tasks {
        StepRows(Run(b, init), r, t);
      } else {
        NoRowsForUnknownTask(Run(b, requests).log, t);
      }
    }
  }

  // ---- the query reads the rows newest first ----

  /** Log times are distinct and increase along the log, all of them before `clock`. */
  ghost predicate LogOrdered(log: seq<Event>, clock: Time) {
    log == [] || (log[|log| - 1].at < clock && LogOrdered(log[..|log| - 1], log[|log| - 1].at))
  }

  lemma {:induction false} OrderedBefore(log: seq<Event>, clock: Time)
    requires LogOrdered(log, clock)
    ensures forall e :: e in log ==> e.at < clock
  {
    if log != [] {
      assert log == log[..|log| - 1] + [log[|log| - 1]];
      OrderedBefore(log[..|log| - 1], log[|log| - 1].at);
    }
  }

  lemma OrderedLater(log: seq<Event>, clock: Time, later: Time)
    requires LogOrdered(log, clock) && clock <= later
    ensures LogOrdered(log, later)
  {
  }

  lemma AppendOrdered(b: Board, kind: EventKind, t: TaskId, agent: Option<AgentId>, message: string)
    requires LogOrdered(b.log, b.clock)
    ensures LogOrdered(Append(b, kind, t, agent, message).log, Append(b, kind, t, agent, message).clock)
  {
    var c := Append(b, kind, t, agent, message);
    assert c.log[..|c.log| - 1] == b.log;
  }

  lemma OrderedInit(log: seq<Event>, clock: Time)
    requires LogOrdered(log, clock) && log != []
    ensures LogOrdered(log[..|log| - 1], log[|log| - 1].at) && log[|log| - 1].at < clock
  {
  }

  lemma OrderedAppend(log: seq<Event>, last: Event, clock: Time)
    requires LogOrdered(log, last.at) && last.at < clock
    ensures LogOrdered(log + [last], clock)
  {
    assert (log + [last])[..|log|] == log;
  }

  lemma FilterLast(init: seq<Event>, last: Event, keep: Event -> bool)
    ensures Filter(init + [last], keep) == if keep(last) then Filter(init, keep) + [last] else Filter(init, keep)
  {
    FilterAppend(init, [last], keep);
  }

  lemma FilterLastOrdered(init: seq<Event>, last: Event, keep: Event -> bool, clock: Time)
    requires LogOrdered(Filter(init, keep), last.at) && last.at < clock
    ensures LogOrdered(Filter(init + [last], keep), clock)
  {
    hide LogOrdered, Filter;
    var kept := Filter(init, keep);
    FilterLast(init, last, keep);
    if keep(last) { OrderedAppend(kept, last, clock); } else { OrderedLater(kept, last.at, clock); }
  }

  lemma NothingOrdered(clock: Time)
    ensures LogOrdered([], clock)
  {
  }

  lemma {:induction false} FilterOrdered(log: seq<Event>, keep: Event -> bool, clock: Time)
    requires LogOrdered(log, clock)
    ensures LogOrdered(Filter(log, keep), clock)
  {
    if log == [] {
      NothingOrdered(clock);
    } else {
      hide LogOrdered, Filter;
      var init, last := log[..|log| - 1], log[|log| - 1];
      OrderedInit(log, clock);
      FilterOrdered(init, keep, last.at);
      FilterLastOrdered(init, last, keep, clock);
      assert init + [last] == log;
    }
  }

  lemma ReconcileOneOrdered(b: Board, d: TaskId, title: string, reopened: bool, actor: Option<AgentId>)
    requires LogOrdered(b.log, b.clock)
    ensures var c := ReconcileOne(b, d, title, reopened, actor); LogOrdered(c.log, c.clock)
  {
    hide LogOrdered, ReturnedMessage, Append;
    if d in b.tasks {
      AppendOrdered(b.(tasks := b.tasks[d := Reset(b.tasks[d])]), StatusChanged, d, actor, ReturnedMessage(title));
      AppendOrdered(b, TaskUpdated, d, actor, "Dependency completion changed: " + title + ".");
    }
  }

  lemma {:induction false} ReconcileOrdered(b: Board, rows: seq<TaskId>, title: string, reopened: bool, actor: Option<AgentId>)
    requires LogOrdered(b.log, b.clock)
    ensures var c := ReconcileRows(b, rows, title, reopened, actor); LogOrdered(c.log, c.clock)
  {
    hide LogOrdered, ReconcileOne;
    if rows != [] {
      var init, d := rows[..|rows| - 1], rows[|rows| - 1];
      ReconcileOrdered(b, init, title, reopened, actor);
      ReconcileOneOrdered(ReconcileRows(b, init, title, reopened, actor), d, title, reopened, actor);
    }
  }

  lemma RecordsOrdered(b: Board, id: TaskId, actor: Option<AgentId>, before: Status, comment: Option<string>)
    requires LogOrdered(b.log, b.clock) && id in b.tasks
    ensures LogOrdered(RecordComment(b, id, actor, comment).log, RecordComment(b, id, actor, comment).clock)
    ensures LogOrdered(RecordUpdate(b, id, actor, before).log, RecordUpdate(b, id, actor, before).clock)
  {
    hide LogOrdered, HasText, MovedMessage, Append;
    if comment.Some? {
      AppendOrdered(b, TaskComment, id, actor, comment.value);
    }
    var t := b.tasks[id];
    AppendOrdered(b, StatusChanged, id, actor, MovedMessage(t.status, t.title));
    AppendOrdered(b, TaskUpdated, id, actor, "Task updated: " + t.title + ".");
  }

  lemma CommitOrdered(b: Board, id: TaskId, actor: Option<AgentId>, draft: Draft, comment: Option<string>)
    requires LogOrdered(b.log, b.clock) && id in b.tasks
    ensures LogOrdered(Commit(b, id, actor, draft, comment).log, Commit(b, id, actor, draft, comment).clock)
  {
    hide LogOrdered, RecordComment, RecordUpdate, ReconcileRows;
    var before := b.tasks[id].status;
    var written := Written(b, id, draft);
    RecordCommentTasks(written, id, actor, comment);
    RecordsRest(written, id, actor, before, comment);
    OrderedLater(b.log, b.clock, written.clock);
    RecordsOrdered(written, id, actor, before, comment);
    var commented := RecordComment(written, id, actor, comment);
    RecordsOrdered(commented, id, actor, before, None);
    var logged := RecordUpdate(commented, id, actor, before);
    ReconcileOrdered(logged, Dependents(logged.edges, id), logged.tasks[id].title, before == Done, actor);
  }

  lemma DropOrdered(log: seq<Event>, t: TaskId, clock: Time)
    requires LogOrdered(log, clock)
    ensures LogOrdered(DropTaskEvents(log, t), clock)
  {
    FilterOrdered(log, (e: Event) => e.task != t, clock);
  }

  lemma PatchLogOrdered(b: Board, t: TaskId, actor: Actor, patch: Patch)
    requires LogOrdered(b.log, b.clock) && ApplyPatch(b, t, actor, patch).Ok?
    ensures LogOrdered(ApplyPatch(b, t, actor, patch).value.log, ApplyPatch(b, t, actor, patch).value.clock)
  {
    hide LogOrdered, ApplyPatch, Commit, CommittedDraft, Gates;
    PatchCommits(b, t, actor, patch);
    CommitOrdered(b, t, AgentOf(actor), CommittedDraft(b, t, actor, patch), CommittedComment(b, actor, patch));
  }

  lemma CreateLogOrdered(b: Board, t: TaskId, n: NewTask)
    requires LogOrdered(b.log, b.clock) && ApplyCreate(b, t, n).Ok?
    ensures LogOrdered(ApplyCreate(b, t, n).value.log, ApplyCreate(b, t, n).value.clock)
  {
    hide LogOrdered, ValidateDependencies, AnyNotDone;
    AppendOrdered(b, TaskCreated, t, None, "Task created: " + n.title + ".");
  }

  lemma DeleteLogOrdered(b: Board, t: TaskId)
    requires LogOrdered(b.log, b.clock) && ApplyDelete(b, t).Ok?
    ensures LogOrdered(ApplyDelete(b, t).value.log, ApplyDelete(b, t).value.clock)
  {
    hide LogOrdered, DropTaskEvents, DropTaskLinks, RepointedApprovals, DropTaskEdges;
    DropOrdered(b.log, t, b.clock);
  }

  lemma StepLogOrdered(b: Board, r: Request)
    requires LogOrdered(b.log, b.clock)
    ensures LogOrdered(Step(b, r).log, Step(b, r).clock)
  {
    hide LogOrdered, ApplyPatch, ApplyCreate, ApplyDelete;
    if Apply(b, r).Ok? {
      match r {
        case PatchTask(t, actor, patch) => PatchLogOrdered(b, t, actor, patch);
        case DeleteTask(t) => DeleteLogOrdered(b, t);
        case CreateTask(t, n) => CreateLogOrdered(b, t, n);
        case PostComment(t, agent, message) => AppendOrdered(b, TaskComment, t, agent, message);
        case _ =>
      }
    }
  }

  lemma {:induction false} RunLogOrdered(id: BoardId, rules: Rules, requests: seq<Request>)
    ensures var b := Run(EmptyBoard(id, rules), requests); LogOrdered(b.log, b.clock)
  {
    hide Step;
    if requests != [] {
      var init, r := requests[..|requests| - 1], requests[|requests| - 1];
      RunLogOrdered(id, rules, init);
      StepLogOrdered(Run(EmptyBoard(id, rules), init), r);
    }
  }

  function Reversed<T>(s: seq<T>): (r: seq<T>)
    ensures |r| == |s| && forall i :: 0 <= i < |s| ==> r[i] == s[|s| - 1 - i]
  {
    if s == [] then [] else [s[|s| - 1]] + Reversed(s[..|s| - 1])
  }

  /** By strictly descending time, exactly the entries that match. */
  ghost predicate Lists(rows: seq<Event>, log: seq<Event>, keep: Event -> bool) {
    (forall i, j :: 0 <= i < j < |rows| ==> rows[i].at > rows[j].at) &&
    forall e :: e in rows <==> e in log && keep(e)
  }

  /** The newest matching event heads a descending listing; the rest lists the older ones. */
  lemma NewestFirst(init: seq<Event>, last: Event, keep: Event -> bool, rows: seq<Event>)
    requires forall e :: e in init ==> e.at < last.at
    requires keep(last) && Lists(rows, init + [last], keep)
    ensures rows != [] && rows[0] == last && Lists(rows[1..], init, keep)
  {
    assert last in rows;
    assert rows[0] in rows;
    var k :| 0 <= k < |rows| && rows[k] == last;
    assert k == 0;
    forall e ensures e in rows[1..] <==> e in init && keep(e) {
      assert e in rows <==> e == last || e in rows[1..];
      if e in rows[1..] {
        var i :| 0 <= i < |rows[1..]| && rows[1..][i] == e;
        assert rows[0].at > rows[i + 1].at;
      }
    }
  }

  lemma OthersListed(init: seq<Event>, last: Event, keep: Event -> bool, rows: seq<Event>)
    requires !keep(last) && Lists(rows, init + [last], keep)
    ensures Lists(rows, init, keep)
  {
  }

  lemma NothingListed(keep: Event -> bool, rows: seq<Event>)
    requires Lists(rows, [], keep)
    ensures rows == [] == Reversed(Filter([], keep))
  {
    SomeMember(rows);
  }

  lemma ReversedLast(s: seq<Event>, last: Event)
    ensures Reversed(s + [last]) == [last] + Reversed(s)
  {
    assert (s + [last])[..|s|] == s;
  }

  lemma {:induction false} DescendingIsReversed(log: seq<Event>, clock: Time, keep: Event -> bool, rows: seq<Event>)
    requires LogOrdered(log, clock) && Lists(rows, log, keep)
    ensures rows == Reversed(Filter(log, keep))
  {
    hide LogOrdered, Filter, Reversed, Lists;
    if log == [] {
      NothingListed(keep, rows);
    } else {
      var init, last := log[..|log| - 1], log[|log| - 1];
      assert log == init + [last];
      OrderedInit(log, clock);
      FilterLast(init, last, keep);
      if keep(last) {
        OrderedBefore(init, last.at);
        NewestFirst(init, last, keep, rows);
        DescendingIsReversed(init, last.at, keep, rows[1..]);
        ReversedLast(Filter(init, keep), last);
        assert rows == [last] + rows[1..];
      } else {
        OthersListed(init, last, keep, rows);
        DescendingIsReversed(init, last.at, keep, rows);
      }
    }
  }

  function MatchedBy(t: TaskId): Event -> bool {
    (e: Event) => IsReviewRow(e, t)
  }

  lemma {:induction false} RowsAreFiltered(log: seq<Event>, t: TaskId)
    ensures var matching := Filter(log, MatchedBy(t));
      |matching| == |ReviewRows(log, t)| &&
      forall i :: 0 <= i < |matching| ==> matching[i].agent == Some(ReviewRows(log, t)[i])
  {
    if log != [] {
      var init, last := log[..|log| - 1], log[|log| - 1];
      assert log == init + [last];
      FilterLast(init, last, MatchedBy(t));
      RowsAreFiltered(init, t);
    }
  }

  /**
   * Any listing of the matching rows by descending time is the log order reversed, so reading the
   * log backwards is what the ordered query returns.
   */
  lemma DescendingRowsAreReversed(log: seq<Event>, clock: Time, t: TaskId, rows: seq<Event>)
    requires LogOrdered(log, clock)
    requires forall i, j :: 0 <= i < j < |rows| ==> rows[i].at > rows[j].at
    requires forall e :: e in rows <==> e in log && IsReviewRow(e, t)
    ensures |rows| == |ReviewRows(log, t)|
    ensures forall i :: 0 <= i < |rows| ==> rows[i].agent == Some(ReviewRows(log, t)[|rows| - 1 - i])
  {
    assert Lists(rows, log, MatchedBy(t));
    hide LogOrdered, Filter, ReviewRows, Lists, MatchedBy;
    RowsAreFiltered(log, t);
    DescendingIsReversed(log, clock, MatchedBy(t), rows);
  }

  // ---- times that tie ----

  predicate Ascending(events: seq<Event>) {
    forall i, j :: 0 <= i < j < |events| ==> events[i].at <= events[j].at
  }

  /** What a query ordered by descending time may return for these entries. */
  ghost predicate Listing(rows: seq<Event>, matching: seq<Event>) {
    multiset(rows) == multiset(matching) && forall i, j :: 0 <= i < j < |rows| ==> rows[i].at >= rows[j].at
  }

  /** Entries of one time do not differ. */
  predicate TiesAlike(matching: seq<Event>) {
    forall i, j :: 0 <= i < j < |matching| && matching[i].at == matching[j].at ==> matching[i] == matching[j]
  }

  lemma {:induction false} SameBag(s: seq<Event>)
    ensures multiset(Reversed(s)) == multiset(s)
  {
    if s != [] {
      SameBag(s[..|s| - 1]);
      assert s == s[..|s| - 1] + [s[|s| - 1]];
    }
  }

  lemma ReversedListing(matching: seq<Event>)
    requires Ascending(matching)
    ensures Listing(Reversed(matching), matching)
  {
    SameBag(matching);
  }

  /** If ties are alike, a listing starts with the latest entry. */
  lemma LatestFirst(rows: seq<Event>, matching: seq<Event>)
    requires Ascending(matching) && TiesAlike(matching) && Listing(rows, matching) && matching != []
    ensures rows != [] && rows[0] == matching[|matching| - 1]
    ensures Listing(rows[1..], matching[..|matching| - 1])
  {
    var last := matching[|matching| - 1];
    SameMembers(matching, rows, last);
    SameMembers(rows, matching, rows[0]);
    var k :| 0 <= k < |rows| && rows[k] == last;
    var i :| 0 <= i < |matching| && matching[i] == rows[0];
    assert rows[0].at == last.at;
    LessOne(rows, matching);
  }

  lemma LessOne(rows: seq<Event>, matching: seq<Event>)
    requires multiset(rows) == multiset(matching) && rows != [] && matching != [] && rows[0] == matching[|matching| - 1]
    ensures multiset(rows[1..]) == multiset(matching[..|matching| - 1])
  {
    LessFirst(rows);
    LessLast(matching);
  }

  lemma LessFirst(rows: seq<Event>)
    requires rows != []
    ensures multiset(rows[1..]) == multiset(rows) - multiset{rows[0]}
  {
    assert rows == [rows[0]] + rows[1..];
  }

  lemma LessLast(rows: seq<Event>)
    requires rows != []
    ensures multiset(rows[..|rows| - 1]) == multiset(rows) - multiset{rows[|rows| - 1]}
  {
    assert rows == rows[..|rows| - 1] + [rows[|rows| - 1]];
  }

  lemma {:induction false} ListingUnique(rows: seq<Event>, matching: seq<Event>)
    requires Ascending(matching) && TiesAlike(matching) && Listing(rows, matching)
    ensures rows == Reversed(matching)
  {
    if matching == [] {
      assert multiset(rows) == multiset{};
      SomeMember(rows);
    } else {
      LatestFirst(rows, matching);
      ListingUnique(rows[1..], matching[..|matching| - 1]);
      assert rows == [rows[0]] + rows[1..];
    }
  }

  /** Two neighbours that tie and differ. */
  lemma {:induction false} DifferingNeighbours(matching: seq<Event>, i: nat, j: nat) returns (k: nat)
    requires Ascending(matching) && i < j < |matching| && matching[i].at == matching[j].at && matching[i] != matching[j]
    ensures k + 1 < |matching| && matching[k].at == matching[k + 1].at && matching[k] != matching[k + 1]
    decreases j - i
  {
    if matching[i] != matching[i + 1] { k := i; } else { k := DifferingNeighbours(matching, i + 1, j); }
  }

  lemma SwappedBag(s: seq<Event>, k: nat)
    requires k + 1 < |s|
    ensures multiset(s[k := s[k + 1]][k + 1 := s[k]]) == multiset(s)
  {
    var once := s[k := s[k + 1]];
    ReplacedBag(s, k, s[k + 1]);
    ReplacedBag(once, k + 1, s[k]);
  }

  lemma ReplacedBag(s: seq<Event>, k: nat, e: Event)
    requires k < |s|
    ensures s[k] in multiset(s) && multiset(s[k := e]) == multiset(s) - multiset{s[k]} + multiset{e}
  {
  }

  /** Swapping them gives another listing. */
  lemma OtherListing(matching: seq<Event>, k: nat) returns (rows: seq<Event>)
    requires Ascending(matching) && k + 1 < |matching|
    requires matching[k].at == matching[k + 1].at && matching[k] != matching[k + 1]
    ensures Listing(rows, matching) && rows != Reversed(matching)
  {
    var swapped := matching[k := matching[k + 1]][k + 1 := matching[k]];
    SwappedBag(matching, k);
    rows := Reversed(swapped);
    ReversedListing(swapped);
    assert rows[|matching| - 1 - k] == swapped[k] != Reversed(matching)[|matching| - 1 - k];
  }

  /**
   * For a clock that may stand still: the query by descending time is sure to return the matching
   * entries in reversed log order exactly when those that tie do not differ.
   */
  lemma ListingIff(matching: seq<Event>)
    requires Ascending(matching)
    ensures (forall rows :: Listing(rows, matching) ==> rows == Reversed(matching)) <==> TiesAlike(matching)
  {
    hide Listing, Ascending;
    if TiesAlike(matching) {
      forall rows | Listing(rows, matching) ensures rows == Reversed(matching) {
        ListingUnique(rows, matching);
      }
    } else {
      var i, j :| 0 <= i < j < |matching| && matching[i].at == matching[j].at && matching[i] != matching[j];
      var k := DifferingNeighbours(matching, i, j);
      var rows := OtherListing(matching, k);
    }
  }

  /** `who` is the most recent of `moves` that may take the task back. */
  ghost predicate MostRecentReturnable(b: Board, lead: AgentId, moves: seq<AgentId>, who: Option<AgentId>) {
    match who
    case None => forall i :: 0 <= i < |moves| ==> !Returnable(b, lead, moves[i])
    case Some(a) =>
      exists i :: 0 <= i < |moves| && moves[i] == a && Returnable(b, lead, a) &&
        forall j :: i < j < |moves| ==> !Returnable(b, lead, moves[j])
  }

  lemma {:induction false} LastReturnableIsMostRecent(b: Board, lead: AgentId, rows: seq<AgentId>)
    ensures MostRecentReturnable(b, lead, rows, LastReturnable(b, lead, rows))
  {
    if rows != [] && !Returnable(b, lead, rows[|rows| - 1]) {
      var init := rows[..|rows| - 1];
      LastReturnableIsMostRecent(b, lead, init);
      var who := LastReturnable(b, lead, init);
      if who.Some? {
        var i :| 0 <= i < |init| && init[i] == who.value &&
          forall j :: i < j < |init| ==> !Returnable(b, lead, init[j]);
        assert rows[i] == who.value;
        assert forall j :: i < j < |rows| ==> !Returnable(b, lead, rows[j]);
      }
    }
  }

  lemma LeadReturnCommits(b: Board, t: TaskId, lead: AgentId, patch: Patch)
    requires GraphInv(b) && ApplyPatch(b, t, AgentActor(lead), patch).Ok? && b.agents[lead].isLead
    requires t in b.tasks && b.tasks[t].status == Review && patch.status == Some(Inbox)
    ensures var c := ApplyPatch(b, t, AgentActor(lead), patch).value;
      t in c.tasks && c.tasks[t].status == Inbox && c.tasks[t].inProgressAt == None &&
      c.tasks[t].assignee == LastReturnable(b, lead, ReviewRows(b.log, t))
  {
    var draft := CommittedDraft(b, t, AgentActor(lead), patch);
    PatchCommits(b, t, AgentActor(lead), patch);
    CommittedEdges(b, t, AgentActor(lead), patch);
    CommitEffect(b, t, Some(lead), draft, None);
    LeadInboxDraft(b, t, lead, patch);
  }

  lemma LeadInboxDraft(b: Board, t: TaskId, lead: AgentId, patch: Patch)
    requires t in b.tasks && b.tasks[t].status == Review && patch.status == Some(Inbox)
    requires LeadDraft(b, t, lead, patch).Ok?
    ensures var after := LeadDraft(b, t, lead, patch).value.task;
      after.status == Inbox && after.inProgressAt == None &&
      after.assignee == LastReturnable(b, lead, ReviewRows(b.log, t))
  {
  }

  /**
   * After any run, a lead who returns a review task to the inbox gives it to the agent who most
   * recently moved it into review and is still a non-lead agent of this board, if there is one.
   */
  lemma LeadReturnsToLastMover(id: BoardId, rules: Rules, requests: seq<Request>, t: TaskId, lead: AgentId, patch: Patch)
    requires var b := Run(EmptyBoard(id, rules), requests);
      ApplyPatch(b, t, AgentActor(lead), patch).Ok? && b.agents[lead].isLead &&
      t in b.tasks && b.tasks[t].status == Review && patch.status == Some(Inbox)
    ensures var b := Run(EmptyBoard(id, rules), requests);
      var c := ApplyPatch(b, t, AgentActor(lead), patch).value;
      t in c.tasks && c.tasks[t].status == Inbox && c.tasks[t].inProgressAt == None &&
      MostRecentReturnable(b, lead, ReviewMoves(EmptyBoard(id, rules), requests, t), c.tasks[t].assignee)
  {
    var b := Run(EmptyBoard(id, rules), requests);
    RunKeepsBoard(id, rules, requests);
    RowsAreReviewMoves(id, rules, requests, t);
    LeadReturnCommits(b, t, lead, patch);
    LastReturnableIsMostRecent(b, lead, ReviewRows(b.log, t));
  }
}
