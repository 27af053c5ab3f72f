/** Each task has at most one pending approval, whatever is created, resolved, re-opened or deleted. */
module ApprovalInvariants {
  import opened Prelude
  import opened BoardModel
  import opened TaskRules
  import opened BoardInvariants

  lemma LinkMeansHasLinks(links: seq<Link>, l: Link)
    requires l in links
    ensures HasLinks(links, l.approval)
  {
    var i :| 0 <= i < |links| && links[i] == l;
    assert links[i].approval == l.approval;
  }

  lemma SomeLink(links: seq<Link>, a: ApprovalId) returns (l: Link)
    requires HasLinks(links, a)
    ensures l in links && l.approval == a
  {
    var i :| 0 <= i < |links| && links[i].approval == a;
    l := links[i];
  }

  lemma LinksOfContains(a: ApprovalId, tasks: seq<TaskId>)
    ensures forall l: Link :: l in LinksOf(a, tasks) <==> l.approval == a && l.task in tasks
  {
    forall l: Link | l.approval == a && l.task in tasks ensures l in LinksOf(a, tasks) {
      var i :| 0 <= i < |tasks| && tasks[i] == l.task;
      assert LinksOf(a, tasks)[i] == l;
    }
  }

  lemma NewApprovalKeeps(b: Board, a: ApprovalId, taskIds: seq<TaskId>, status: ApprovalStatus)
    requires LinksInv(b) && OnePending(b) && ApplyNewApproval(b, a, taskIds, status).Ok?
    ensures var c := ApplyNewApproval(b, a, taskIds, status).value; LinksInv(c) && OnePending(c)
  {
    var c := ApplyNewApproval(b, a, taskIds, status).value;
    var tasks := Dedupe(taskIds);
    LinksOfContains(a, tasks);
    assert forall l :: l in c.links <==> l in b.links || l in LinksOf(a, tasks);
    forall x | x != a ensures HasLinks(c.links, x) == HasLinks(b.links, x) {
      if HasLinks(c.links, x) { var l := SomeLink(c.links, x); LinkMeansHasLinks(b.links, l); }
      if HasLinks(b.links, x) { var l := SomeLink(b.links, x); LinkMeansHasLinks(c.links, l); }
    }
    assert forall l :: l in b.links ==> l.approval != a by {
      forall l | l in b.links ensures l.approval != a { LinkMeansHasLinks(b.links, l); }
    }
    if tasks != [] {
      assert Link(a, tasks[0]) in c.links;
      LinkMeansHasLinks(c.links, Link(a, tasks[0]));
    }
    forall t ensures Names(c.approvals, c.links, a, t) <==> t in tasks {
      if HasLinks(c.links, a) { var l := SomeLink(c.links, a); }
    }
    forall t, x | x != a
      ensures PendingFor(c.approvals, c.links, x, t) <==> PendingFor(b.approvals, b.links, x, t)
    {
    }
  }

  lemma ApprovalTasksAreNamed(b: Board, a: ApprovalId, t: TaskId)
    requires a in b.approvals
    ensures t in ApprovalTasks(b, a) <==> Names(b.approvals, b.links, a, t)
  {
    if Link(a, t) in b.links { LinkMeansHasLinks(b.links, Link(a, t)); }
  }

  lemma OtherPending(b: Board, a: ApprovalId, other: ApprovalId, t: TaskId)
    requires OnePending(b) && Names(b.approvals, b.links, a, t) && PendingFor(b.approvals, b.links, other, t) && other != a
    ensures a in b.approvals ==> b.approvals[a].status != Pending
  {
    assert !PendingFor(b.approvals, b.links, a, t);
  }

  lemma ApprovalStatusKeeps(b: Board, a: ApprovalId, status: Option<ApprovalStatus>)
    requires LinksInv(b) && OnePending(b) && ApplyApprovalStatus(b, a, status).Ok?
    ensures var c := ApplyApprovalStatus(b, a, status).value; LinksInv(c) && OnePending(c)
  {
    var c := ApplyApprovalStatus(b, a, status).value;
    if status.Some? {
      forall t, x ensures Names(c.approvals, c.links, x, t) <==> Names(b.approvals, b.links, x, t) {}
      forall t, x: ApprovalId, y: ApprovalId |
        PendingFor(c.approvals, c.links, x, t) && PendingFor(c.approvals, c.links, y, t)
        ensures x == y
      {
        ApprovalTasksAreNamed(b, a, t);
        if x != y && (x == a || y == a) {
          OtherPending(b, a, if x == a then y else x, t);
        } else {
          assert x != a ==> PendingFor(b.approvals, b.links, x, t);
          assert y != a ==> PendingFor(b.approvals, b.links, y, t);
        }
      }
    }
  }

  /** After a task is deleted no approval mentions it, and every other pending approval is as before. */
  lemma DeleteKeeps(b: Board, id: TaskId)
    requires LinksInv(b) && OnePending(b) && id in b.tasks
    ensures var c := ApplyDelete(b, id).value;
      LinksInv(c) && OnePending(c) &&
      (forall a :: a in c.approvals ==> c.approvals[a].primary != Some(id)) &&
      (forall l :: l in c.links ==> l.task != id) &&
      (forall a, t :: t != id ==> (Names(c.approvals, c.links, a, t) <==> Names(b.approvals, b.links, a, t))) &&
      forall a :: a in c.approvals ==> a in b.approvals && c.approvals[a].status == b.approvals[a].status
  {
    var c := ApplyDelete(b, id).value;
    assert forall l :: l in c.links <==> l in b.links && l.task != id;
    forall a | a in b.approvals && HasLinks(c.links, a)
      ensures a in c.approvals
    {
      var l := SomeLink(c.links, a);
      assert l.task in LinkedTasks(c.links, a);
    }
    forall l | l in c.links ensures l.approval in c.approvals {
      LinkMeansHasLinks(c.links, l);
    }
    forall a | a in c.approvals && HasLinks(c.links, a)
      ensures c.approvals[a].primary.Some? && Link(a, c.approvals[a].primary.value) in c.links
    {
      var l := SomeLink(c.links, a);
      LinkMeansHasLinks(b.links, l);
    }
    forall a | a in c.approvals
      ensures c.approvals[a].primary != Some(id)
    {
      var remaining := LinkedTasks(c.links, a);
      if b.approvals[a].primary == Some(id) {
        assert remaining[0] in remaining;
      }
    }
    forall a, t | t != id
      ensures Names(c.approvals, c.links, a, t) <==> Names(b.approvals, b.links, a, t)
    {
      DeleteNames(b, c, id, a, t);
    }
    forall t, x, y | PendingFor(c.approvals, c.links, x, t) && PendingFor(c.approvals, c.links, y, t)
      ensures x == y
    {
      assert t != id;
      assert PendingFor(b.approvals, b.links, x, t) && PendingFor(b.approvals, b.links, y, t);
    }
  }

  lemma DeleteNames(b: Board, c: Board, id: TaskId, a: ApprovalId, t: TaskId)
    requires LinksInv(b) && id in b.tasks && c == ApplyDelete(b, id).value && t != id
    ensures Names(c.approvals, c.links, a, t) <==> Names(b.approvals, b.links, a, t)
  {
    assert forall l :: l in c.links <==> l in b.links && l.task != id;
    if Link(a, t) in b.links {
      LinkMeansHasLinks(c.links, Link(a, t));
      assert t in LinkedTasks(c.links, a);
    } else if HasLinks(b.links, a) && !HasLinks(c.links, a) && a in b.approvals {
      var p := b.approvals[a].primary.value;
      assert Link(a, p) in b.links;
      if p != id { LinkMeansHasLinks(c.links, Link(a, p)); }
    } else if HasLinks(c.links, a) {
      var l := SomeLink(c.links, a);
      LinkMeansHasLinks(b.links, l);
    }
  }
}
