/**
 * Creating and deleting tasks, commenting, and creating and resolving approvals, read off the rows of
 * the board alone: when a request is accepted, with which refusal otherwise, and what it changes.
 */
module BoardRecords {
  import opened Prelude
  import opened BoardModel
  import opened DependencyGraph
  import opened TaskRules
  import opened BoardInvariants
  import opened BoardRuns
  import opened BoardUpdates

  // ---- resolving approvals ----

  /** Another pending approval is about a task that this one is about. */
  ghost predicate Rivalled(b: Board, a: ApprovalId)
    requires a in b.approvals
  {
    exists t, x :: About(b, a, t) && x != a && PendingRow(b, x, t)
  }

  ghost function ResolveRefusal(b: Board, a: ApprovalId, status: Option<ApprovalStatus>): Option<Refusal> {
    if a !in b.approvals then Some(NotFound)
    else if status == Some(Pending) && b.approvals[a].status != Pending && Rivalled(b, a) then Some(Conflict)
    else None
  }

  lemma ApprovalTasksRows(b: Board, a: ApprovalId, t: TaskId)
    requires a in b.approvals
    ensures t in ApprovalTasks(b, a) <==> About(b, a, t)
  {
    LinksAmong(b.links, a);
  }

  lemma PendingForRow(b: Board, a: ApprovalId, t: TaskId)
    ensures PendingFor(b.approvals, b.links, a, t) <==> PendingRow(b, a, t)
  {
    LinksAmong(b.links, a);
  }

  /** Some approval other than the excepted one is pending for one of the tasks. */
  ghost predicate PendingAmong(b: Board, tasks: seq<TaskId>, except: Option<ApprovalId>) {
    exists t: TaskId, x: ApprovalId :: t in tasks && Some(x) != except && PendingRow(b, x, t)
  }

  lemma ConflictRows(b: Board, tasks: seq<TaskId>, except: Option<ApprovalId>)
    ensures PendingConflict(b, tasks, except) <==> PendingAmong(b, tasks, except)
  {
    hide PendingFor, PendingRow;
    if PendingConflict(b, tasks, except) {
      var t, x :| t in tasks && x in b.approvals && Some(x) != except && PendingFor(b.approvals, b.links, x, t);
      PendingForRow(b, x, t);
    }
    if PendingAmong(b, tasks, except) {
      var t: TaskId, x: ApprovalId :| t in tasks && Some(x) != except && PendingRow(b, x, t);
      PendingForRow(b, x, t);
      PendingIsKnown(b, x, t);
    }
  }

  lemma PendingIsKnown(b: Board, a: ApprovalId, t: TaskId)
    requires PendingRow(b, a, t)
    ensures a in b.approvals
  {
  }

  /** A request to change an approval is refused exactly for an unknown one, or a rivalled re-opening. */
  lemma ResolveAnswered(b: Board, a: ApprovalId, status: Option<ApprovalStatus>)
    ensures Answers(Apply(b, PatchApproval(a, status)), ResolveRefusal(b, a, status))
  {
    hide PendingConflict, PendingRow, About, ApprovalTasks;
    if a in b.approvals {
      var tasks := ApprovalTasks(b, a);
      ConflictRows(b, tasks, Some(a));
      forall t ensures t in tasks <==> About(b, a, t) {
        ApprovalTasksRows(b, a, t);
      }
      RivalledBy(b, a, tasks);
    }
  }

  lemma RivalledBy(b: Board, a: ApprovalId, tasks: seq<TaskId>)
    requires a in b.approvals && forall t :: t in tasks <==> About(b, a, t)
    ensures Rivalled(b, a) <==> PendingAmong(b, tasks, Some(a))
  {
    hide PendingRow, About;
    if Rivalled(b, a) {
      var t, x :| About(b, a, t) && x != a && PendingRow(b, x, t);
      assert t in tasks && Some(x) != Some(a);
    }
    if PendingAmong(b, tasks, Some(a)) {
      var t: TaskId, x: ApprovalId :| t in tasks && Some(x) != Some(a) && PendingRow(b, x, t);
      assert About(b, a, t) && x != a;
    }
  }

  /** An accepted request gives the approval the status that was asked for, and changes nothing else. */
  lemma ResolveEffect(b: Board, a: ApprovalId, status: Option<ApprovalStatus>)
    requires Apply(b, PatchApproval(a, status)).Ok?
    ensures var c := Apply(b, PatchApproval(a, status)).value;
      a in b.approvals && c.approvals.Keys == b.approvals.Keys &&
      c.approvals[a].primary == b.approvals[a].primary &&
      c.approvals[a].status == (if status.Some? then status.value else b.approvals[a].status) &&
      (forall x :: x in b.approvals && x != a ==> c.approvals[x] == b.approvals[x]) &&
      c.(approvals := b.approvals) == b
  {
  }

  /**
   * So an approval that has been approved counts as approved for every task it is about, one that has
   * been re-opened is pending for them, and one that has been rejected counts for neither.
   */
  lemma ResolveCounts(b: Board, a: ApprovalId, status: ApprovalStatus, t: TaskId)
    requires Apply(b, PatchApproval(a, Some(status))).Ok?
    ensures a in b.approvals
    ensures var c := Apply(b, PatchApproval(a, Some(status))).value;
      (status == Approved && About(b, a, t) ==> HasApproved(c, t)) &&
      (status == Pending && About(b, a, t) ==> HasPending(c, t)) &&
      (PendingRow(c, a, t) <==> status == Pending && About(b, a, t)) &&
      (ApprovedRow(c, a, t) ==> status == Approved)
  {
    ResolveEffect(b, a, Some(status));
    var c := Apply(b, PatchApproval(a, Some(status))).value;
    assert About(c, a, t) == About(b, a, t);
    ApprovedRows(c, t);
    PendingRows(c, t);
    if status == Approved && About(b, a, t) { assert ApprovedRow(c, a, t); }
    if status == Pending && About(b, a, t) { assert PendingRow(c, a, t); }
  }

  // ---- new approvals ----

  ghost function NewApprovalRefusal(b: Board, a: ApprovalId, tasks: seq<TaskId>, status: ApprovalStatus): Option<Refusal> {
    if a in b.approvals || exists l :: l in b.links && l.approval == a then Some(Conflict)
    else if status == Pending && PendingAmong(b, tasks, None) then Some(Conflict)
    else None
  }

  /** A new approval is refused exactly if its id is taken, or if it is pending and so is another one for its tasks. */
  lemma NewApprovalAnswered(b: Board, a: ApprovalId, tasks: seq<TaskId>, status: ApprovalStatus)
    ensures Answers(Apply(b, CreateApproval(a, tasks, status)), NewApprovalRefusal(b, a, tasks, status))
  {
    hide PendingConflict, PendingAmong, HasLinks;
    LinksAmong(b.links, a);
    ConflictRows(b, Dedupe(tasks), None);
    SamePending(b, Dedupe(tasks), tasks);
  }

  lemma SamePending(b: Board, tasks: seq<TaskId>, others: seq<TaskId>)
    requires forall t :: t in tasks <==> t in others
    ensures PendingAmong(b, tasks, None) <==> PendingAmong(b, others, None)
  {
    hide PendingRow;
  }

  lemma {:induction false} DedupeStarts(s: seq<TaskId>)
    ensures s != [] ==> Dedupe(s) != [] && Dedupe(s)[0] == s[0]
  {
    if |s| > 1 { DedupeStarts(s[..|s| - 1]); }
  }

  /** It is stored with its status and its first task, linked to each of its tasks; nothing else changes. */
  lemma NewApprovalEffect(b: Board, a: ApprovalId, tasks: seq<TaskId>, status: ApprovalStatus)
    requires Apply(b, CreateApproval(a, tasks, status)).Ok?
    ensures var c := Apply(b, CreateApproval(a, tasks, status)).value;
      a !in b.approvals &&
      c.approvals == b.approvals[a := Approval(if tasks == [] then None else Some(tasks[0]), status)] &&
      b.links <= c.links && (forall l :: l in c.links <==> l in b.links || (l.approval == a && l.task in tasks)) &&
      c.(approvals := b.approvals, links := b.links) == b
  {
    var c := Apply(b, CreateApproval(a, tasks, status)).value;
    var wanted := Dedupe(tasks);
    DedupeStarts(tasks);
    if tasks == [] { SomeMember(wanted); }
    NewLinks(b.links, a, wanted);
  }

  lemma NewLinks(links: seq<Link>, a: ApprovalId, tasks: seq<TaskId>)
    ensures forall l :: l in links + LinksOf(a, tasks) <==> l in links || (l.approval == a && l.task in tasks)
  {
    var added := LinksOf(a, tasks);
    forall l ensures l in added <==> l.approval == a && l.task in tasks {
      if l.approval == a && l.task in tasks {
        var i :| 0 <= i < |tasks| && tasks[i] == l.task;
        assert added[i] == l;
      }
    }
  }

  // ---- new tasks ----

  /** What a new task depends on, as an update of its dependencies would say it. */
  function Depending(deps: seq<TaskId>): Patch {
    Patch(None, false, None, None, Some(deps), None, Absent, Absent)
  }

  ghost function CreateRefusal(b: Board, id: TaskId, n: NewTask): Option<Refusal> {
    if id in b.tasks then Some(Conflict)
    else if id in n.dependsOn then Some(Unprocessable)
    else if exists d :: d in n.dependsOn && d !in b.tasks then Some(NotFound)
    else if n.tags == Malformed then Some(NotFound)
    else if (n.assignee.Some? || n.status != Inbox) && exists d :: d in n.dependsOn && !Finished(b, d) then Some(Conflict)
    else if n.fields == Malformed then Some(Unprocessable)
    else None
  }

  /** Nothing depends on a task that does not exist yet, so its dependencies close no cycle. */
  lemma NewTaskClosesNoLoop(b: Board, id: TaskId, deps: seq<TaskId>)
    requires GraphInv(b) && id !in b.tasks && id !in deps
    ensures !Cyclic(ReplaceEdges(b.edges, id, deps))
  {
    var edges := ReplaceEdges(b.edges, id, deps);
    if Cyclic(edges) {
      var p :| |p| >= 2 && p[0] == p[|p| - 1] && Walk(edges, p);
      forall i | 0 < i < |p| ensures p[i] != id {
        assert Edge(p[i - 1], p[i - 1 + 1]) in edges;
      }
      WalkStays(b, id, deps, p);
    }
  }

  lemma WalkStays(b: Board, id: TaskId, deps: seq<TaskId>, p: seq<TaskId>)
    requires Walk(ReplaceEdges(b.edges, id, deps), p) && forall i :: 0 <= i < |p| ==> p[i] != id
    ensures Walk(b.edges, p)
  {
  }

  lemma UnfinishedAmong(b: Board, deps: seq<TaskId>)
    ensures AnyNotDone(b.tasks, Dedupe(deps)) <==> exists d :: d in deps && !Finished(b, d)
  {
    var wanted := Dedupe(deps);
    if AnyNotDone(b.tasks, wanted) {
      var i :| 0 <= i < |wanted| && !DoneTask(b.tasks, wanted[i]);
      assert wanted[i] in deps && !Finished(b, wanted[i]);
    }
    if d :| d in deps && !Finished(b, d) {
      assert d in wanted;
      var i :| 0 <= i < |wanted| && wanted[i] == d;
      assert !DoneTask(b.tasks, wanted[i]);
    }
  }

  /** A new task is accepted, or refused for the first reason that applies. */
  lemma CreateAnswered(b: Board, id: TaskId, n: NewTask)
    requires GraphInv(b)
    ensures Answers(Apply(b, CreateTask(id, n)), CreateRefusal(b, id, n))
  {
    hide Cyclic, ReplaceEdges, AnyNotDone, GraphInv, Finished;
    var wanted := Dedupe(n.dependsOn);
    UnfinishedAmong(b, n.dependsOn);
    if id !in b.tasks && id !in n.dependsOn {
      NewTaskClosesNoLoop(b, id, wanted);
      if wanted == [] { SomeMember(n.dependsOn); }
      SameUnknown(b, n.dependsOn);
    }
  }

  lemma SameUnknown(b: Board, deps: seq<TaskId>)
    ensures (exists d :: d in Dedupe(deps) && d !in b.tasks) <==> exists d :: d in deps && d !in b.tasks
  {
    if d :| d in Dedupe(deps) && d !in b.tasks { assert d in deps; }
    if d :| d in deps && d !in b.tasks { assert d in Dedupe(deps); }
  }

  /** The task, its dependencies and one log entry are added, and nothing else changes. */
  lemma CreateEffect(b: Board, id: TaskId, n: NewTask)
    requires Apply(b, CreateTask(id, n)).Ok?
    ensures var c := Apply(b, CreateTask(id, n)).value;
      id !in b.tasks && c.tasks == b.tasks[id := Task(n.title, n.status, n.assignee, None, None)] &&
      (forall x, y :: Edge(x, y) in c.edges <==> Edge(x, y) in b.edges || (x == id && y in n.dependsOn)) &&
      |c.log| == |b.log| + 1 && b.log <= c.log &&
      Entry(c.log[|b.log|], TaskCreated, id, None, "Task created: " + n.title + ".") && RestStays(b, c)
  {
    hide Cyclic, ReplaceEdges, AnyNotDone;
    NewEdges(b.edges, id, Dedupe(n.dependsOn));
  }

  lemma NewEdges(edges: seq<Edge>, id: TaskId, deps: seq<TaskId>)
    ensures forall x, y :: Edge(x, y) in edges + EdgesOf(id, deps) <==> Edge(x, y) in edges || (x == id && y in deps)
  {
    var added := EdgesOf(id, deps);
    forall x, y ensures Edge(x, y) in added <==> x == id && y in deps {
      if x == id && y in deps {
        var i :| 0 <= i < |deps| && deps[i] == y;
        assert added[i] == Edge(x, y);
      }
    }
  }

  // ---- deleting ----

  /** What becomes of an approval made for the deleted task: it moves to its first other task, or goes. */
  ghost predicate Rehomed(b: Board, c: Board, id: TaskId, a: ApprovalId)
    requires a in b.approvals
  {
    if b.approvals[a].primary != Some(id) then a in c.approvals && c.approvals[a] == b.approvals[a]
    else if forall l :: l in b.links && l.approval == a ==> l.task == id then a !in c.approvals
    else
      a in c.approvals && c.approvals[a].status == b.approvals[a].status &&
      exists i :: 0 <= i < |b.links| && FirstOther(b.links, i, a, id) && c.approvals[a].primary == Some(b.links[i].task)
  }

  ghost predicate FirstOther(links: seq<Link>, i: nat, a: ApprovalId, id: TaskId)
    requires i < |links|
  {
    links[i].approval == a && links[i].task != id &&
    forall j :: 0 <= j < i && links[j].approval == a ==> links[j].task == id
  }

  /** The list is empty if the approval has no link to another task, and else starts with the first one. */
  ghost predicate StartsElsewhere(rest: seq<TaskId>, links: seq<Link>, a: ApprovalId, id: TaskId) {
    if rest == [] then forall l :: l in links && l.approval == a ==> l.task == id
    else exists i :: 0 <= i < |links| && FirstOther(links, i, a, id) && rest[0] == links[i].task
  }

  lemma {:induction false} FirstLinked(links: seq<Link>, a: ApprovalId, id: TaskId)
    ensures StartsElsewhere(LinkedTasks(DropTaskLinks(links, id), a), links, a, id)
  {
    if links != [] {
      var n := |links| - 1;
      FirstLinked(links[..n], a, id);
      hide StartsElsewhere, LinkedTasks, DropTaskLinks;
      assert links == links[..n] + [links[n]];
      LinkedElsewhere(links[..n], links[n], a, id);
      ElsewhereNext(LinkedTasks(DropTaskLinks(links[..n], id), a), links[..n], links[n], a, id);
    }
  }

  lemma LinkedElsewhere(init: seq<Link>, last: Link, a: ApprovalId, id: TaskId)
    ensures LinkedTasks(DropTaskLinks(init + [last], id), a) ==
      LinkedTasks(DropTaskLinks(init, id), a) + if last.approval == a && last.task != id then [last.task] else []
  {
    hide LinkedTasks;
    var keep := (l: Link) => l.task != id;
    FilterAppend(init, [last], keep);
    assert DropTaskLinks(init + [last], id) == DropTaskLinks(init, id) + if keep(last) then [last] else [];
    LinkedAppend(DropTaskLinks(init, id), last, a);
  }

  lemma ElsewhereNext(rest: seq<TaskId>, init: seq<Link>, last: Link, a: ApprovalId, id: TaskId)
    requires StartsElsewhere(rest, init, a, id)
    ensures StartsElsewhere(
      rest + if last.approval == a && last.task != id then [last.task] else [], init + [last], a, id)
  {
    var links := init + [last];
    assert links[..|init|] == init && links[|init|] == last;
    if rest != [] {
      var i :| 0 <= i < |init| && FirstOther(init, i, a, id) && rest[0] == init[i].task;
      FirstOtherKept(links, |init|, i, a, id);
      assert links[i] == init[i];
    } else if last.approval == a && last.task != id {
      forall j | 0 <= j < |init| && links[j].approval == a ensures links[j].task == id {
        assert links[j] == init[j] && init[j] in init;
      }
      assert FirstOther(links, |init|, a, id);
    }
  }

  lemma FirstOtherKept(links: seq<Link>, n: nat, i: nat, a: ApprovalId, id: TaskId)
    requires i < n <= |links| && FirstOther(links[..n], i, a, id)
    ensures FirstOther(links, i, a, id)
  {
    forall j | 0 <= j < i && links[j].approval == a ensures links[j].task == id {
      assert links[j] == links[..n][j];
    }
  }

  lemma LinkedAppend(links: seq<Link>, last: Link, a: ApprovalId)
    ensures LinkedTasks(links + [last], a) == LinkedTasks(links, a) + if last.approval == a then [last.task] else []
    ensures links + [] == links
  {
    assert (links + [last])[..|links|] == links;
  }

  /**
   * Deleting is refused only for an unknown task.  It removes the task with its dependencies, log
   * entries and links, and re-homes or removes the approvals that were made for it.
   */
  lemma DeleteEffect(b: Board, id: TaskId)
    ensures Answers(Apply(b, DeleteTask(id)), if id in b.tasks then None else Some(NotFound))
    ensures id in b.tasks ==>
      var c := Apply(b, DeleteTask(id)).value;
      c.tasks == b.tasks - {id} &&
      (forall e :: e in c.edges <==> e in b.edges && e.task != id && e.dependsOn != id) &&
      (forall e :: e in c.log <==> e in b.log && e.task != id) &&
      (forall l :: l in c.links <==> l in b.links && l.task != id) &&
      (forall a :: a in c.approvals ==> a in b.approvals) && (forall a :: a in b.approvals ==> Rehomed(b, c, id, a)) &&
      c.(tasks := b.tasks, edges := b.edges, log := b.log, links := b.links, approvals := b.approvals) == b
  {
    if id in b.tasks {
      var c := ApplyDelete(b, id).value;
      forall a | a in b.approvals ensures Rehomed(b, c, id, a) {
        RehomedBy(b, id, a);
      }
    }
  }

  lemma RehomedBy(b: Board, id: TaskId, a: ApprovalId)
    requires id in b.tasks && a in b.approvals
    ensures Rehomed(b, ApplyDelete(b, id).value, id, a)
  {
    FirstLinked(b.links, a, id);
    var rest := LinkedTasks(DropTaskLinks(b.links, id), a);
    if rest != [] {
      var i :| 0 <= i < |b.links| && FirstOther(b.links, i, a, id) && rest[0] == b.links[i].task;
      assert b.links[i] in b.links;
    }
  }

  // ---- commenting ----

  /** A comment on a known task that says something is logged, and any other is refused. */
  lemma CommentEffect(b: Board, id: TaskId, agent: Option<AgentId>, message: string)
    ensures Answers(Apply(b, PostComment(id, agent, message)),
      if id !in b.tasks then Some(NotFound) else if !Visible(message) then Some(Unprocessable) else None)
    ensures id in b.tasks && Visible(message) ==>
      var c := Apply(b, PostComment(id, agent, message)).value;
      |c.log| == |b.log| + 1 && b.log <= c.log && Entry(c.log[|b.log|], TaskComment, id, agent, message) &&
      c.(log := b.log, clock := b.clock) == b
  {
  }

  // ---- rules and agents ----

  /** New rules replace the old ones and nothing else. */
  lemma RulesEffect(b: Board, rules: Rules)
    ensures Apply(b, SetRules(rules)).Ok?
    ensures var c := Apply(b, SetRules(rules)).value; c.rules == rules && c.(rules := b.rules) == b
  {
  }

  /** The first lead is an agent of the board that leads it; there is none only if nobody leads it. */
  ghost predicate LeadKnown(b: Board) {
    if b.firstLead.Some? then
      b.firstLead.value in b.agents && b.agents[b.firstLead.value] == Agent(Some(b.id), true)
    else forall a :: a in b.agents ==> b.agents[a] != Agent(Some(b.id), true)
  }

  lemma AgentsEffect(b: Board, agents: map<AgentId, Agent>, lead: Option<AgentId>)
    ensures var r := Apply(b, SetAgents(agents, lead));
      (r.Ok? <==> LeadKnown(b.(agents := agents, firstLead := lead))) &&
      (r.Ok? ==>
        r.value.agents == agents && r.value.firstLead == lead &&
        r.value.(agents := b.agents, firstLead := b.firstLead) == b)
  {
  }

  lemma StepLead(b: Board, r: Request)
    requires GraphInv(b) && LeadKnown(b)
    ensures LeadKnown(Step(b, r))
  {
    hide ApplyPatch, GraphInv, Cyclic;
    match r {
      case PatchTask(id, actor, patch) =>
        if ApplyPatch(b, id, actor, patch).Ok? { UpdateEffect(b, id, actor, patch); }
      case SetAgents(agents, lead) => AgentsEffect(b, agents, lead);
      case CreateTask(id, n) => if Apply(b, r).Ok? { CreateEffect(b, id, n); }
      case _ =>
    }
  }

  /** After every run the first lead, to whom tasks in review go, is a lead of the board if there is one. */
  lemma {:induction false} RunLead(id: BoardId, rules: Rules, requests: seq<Request>)
    ensures LeadKnown(Run(EmptyBoard(id, rules), requests))
  {
    hide Step, GraphInv;
    if requests != [] {
      var init := requests[..|requests| - 1];
      RunLead(id, rules, init);
      RunKeepsBoard(id, rules, init);
      StepLead(Run(EmptyBoard(id, rules), init), requests[|requests| - 1]);
    }
  }
}
