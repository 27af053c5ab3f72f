/** Syncing a skill pack: discovered candidates are upserted into the organization's skills by URL. */
module PackSync {
  import opened Prelude

  type OrgId = nat

  datatype Candidate = Candidate(
    url: string,
    name: string,
    description: Option<string>,
    category: Option<string>,
    risk: Option<string>,
    source: Option<string>,
    metadata: Option<map<string, string>>)

  datatype Skill = Skill(
    org: OrgId,
    url: string,
    name: string,
    description: Option<string>,
    category: Option<string>,
    risk: Option<string>,
    source: Option<string>,
    metadata: map<string, string>)

  function MetadataOf(c: Candidate): map<string, string> {
    match c.metadata
    case Some(metadata) => metadata
    case None => map[]
  }

  function NewSkill(org: OrgId, c: Candidate): Skill {
    Skill(org, c.url, c.name, c.description, c.category, c.risk, c.source, MetadataOf(c))
  }

  /** The skill has the candidate's fields. */
  predicate Carries(s: Skill, c: Candidate) {
    s.name == c.name && s.description == c.description && s.category == c.category && s.risk == c.risk &&
    s.source == c.source && (if c.metadata == None then s.metadata == map[] else Some(s.metadata) == c.metadata)
  }

  predicate DistinctUrls(cands: seq<Candidate>) {
    forall i, j :: 0 <= i < j < |cands| ==> cands[i].url != cands[j].url
  }

  /** An organization has at most one skill per URL. */
  predicate UniqueUrls(skills: seq<Skill>) {
    forall i, j :: 0 <= i < j < |skills| ==> skills[i].org != skills[j].org || skills[i].url != skills[j].url
  }

  predicate SkillAt(skills: seq<Skill>, i: nat, org: OrgId, url: string) {
    i < |skills| && skills[i].org == org && skills[i].url == url
  }

  predicate HasUrl(skills: seq<Skill>, org: OrgId, url: string) {
    exists i :: 0 <= i < |skills| && SkillAt(skills, i, org, url)
  }

  // ---- the candidates ----

  /** The last candidate found under a URL replaces earlier ones but keeps their place. */
  function FoundUrls(cands: seq<Candidate>): (r: seq<string>)
    ensures Distinct(r)
    ensures forall url :: url in r <==> exists i :: 0 <= i < |cands| && cands[i].url == url
  {
    if cands == [] then []
    else
      var init, last := cands[..|cands| - 1], cands[|cands| - 1];
      var rest := FoundUrls(init);
      assert forall i :: 0 <= i < |cands| ==> cands[i] == if i < |init| then init[i] else last;
      if last.url in rest then rest else rest + [last.url]
  }

  predicate LastWith(cands: seq<Candidate>, url: string, c: Candidate) {
    exists i :: 0 <= i < |cands| && cands[i] == c && c.url == url && forall j :: i < j < |cands| ==> cands[j].url != url
  }

  /** The candidate map: one candidate per URL, the last one found. */
  method Collect(cands: seq<Candidate>) returns (found: seq<Candidate>)
    ensures DistinctUrls(found) && |found| == |FoundUrls(cands)|
    ensures forall i :: 0 <= i < |found| ==> found[i].url == FoundUrls(cands)[i] && LastWith(cands, found[i].url, found[i])
  {
    hide DistinctUrls, Distinct, LastWith;
    var order: seq<string> := [];
    var byUrl: map<string, Candidate> := map[];
    for n := 0 to |cands|
      invariant order == FoundUrls(cands[..n])
      invariant forall url :: url in byUrl <==> url in order
      invariant forall url :: url in byUrl ==> LastWith(cands[..n], url, byUrl[url])
    {
      var c := cands[n];
      assert cands[..n + 1][..n] == cands[..n];
      forall url | url in byUrl && url != c.url ensures LastWith(cands[..n + 1], url, byUrl[url]) {
        LastStays(cands, n, url, byUrl[url]);
      }
      LastFound(cands, n);
      if c.url !in byUrl {
        order := order + [c.url];
      }
      byUrl := byUrl[c.url := c];
    }
    assert cands[..|cands|] == cands;
    forall i | 0 <= i < |order| ensures order[i] in byUrl {
      assert order[i] in order;
    }
    found := seq(|order|, i requires 0 <= i < |order| && order[i] in byUrl => byUrl[order[i]]);
    forall i | 0 <= i < |found| ensures found[i].url == order[i] && LastWith(cands, order[i], found[i]) {
      HasItsUrl(cands, order[i], found[i]);
    }
    ApartByUrl(found, order);
  }

  lemma LastFound(cands: seq<Candidate>, n: nat)
    requires n < |cands|
    ensures LastWith(cands[..n + 1], cands[n].url, cands[n])
  {
    assert cands[..n + 1][n] == cands[n];
  }

  lemma HasItsUrl(cands: seq<Candidate>, url: string, c: Candidate)
    requires LastWith(cands, url, c)
    ensures c.url == url
  {
  }

  lemma ApartByUrl(found: seq<Candidate>, urls: seq<string>)
    requires Distinct(urls) && |found| == |urls| && forall i :: 0 <= i < |found| ==> found[i].url == urls[i]
    ensures DistinctUrls(found)
  {
  }

  lemma LastStays(cands: seq<Candidate>, n: nat, url: string, c: Candidate)
    requires n < |cands| && cands[n].url != url && LastWith(cands[..n], url, c)
    ensures LastWith(cands[..n + 1], url, c)
  {
    var i :| 0 <= i < n && cands[..n][i] == c && c.url == url && forall j :: i < j < n ==> cands[..n][j].url != url;
    var longer := cands[..n + 1];
    forall j | i < j < |longer| ensures longer[j].url != url {
      if j < n { assert cands[..n][j] == cands[j]; }
    }
    assert longer[i] == c;
  }

  // ---- what a sync does ----

  /** The skills of the organization by URL, as the sync loads them once at the start. */
  function ExistingBySource(skills: seq<Skill>, org: OrgId): (r: map<string, nat>)
    ensures forall url :: url in r ==> SkillAt(skills, r[url], org, url)
    ensures forall url :: url in r <==> HasUrl(skills, org, url)
  {
    if skills == [] then map[]
    else
      var n := |skills| - 1;
      var rest := ExistingBySource(skills[..n], org);
      assert forall i :: 0 <= i < n ==> skills[..n][i] == skills[i];
      assert forall url :: url in rest ==> SkillAt(skills, rest[url], org, url);
      assert forall url :: HasUrl(skills, org, url) <==> HasUrl(skills[..n], org, url) || SkillAt(skills, n, org, url) by {
        HasUrlLast(skills, org);
      }
      if skills[n].org == org then rest[skills[n].url := n] else rest
  }

  lemma HasUrlLast(skills: seq<Skill>, org: OrgId)
    requires skills != []
    ensures var n := |skills| - 1;
      forall url :: HasUrl(skills, org, url) <==> HasUrl(skills[..n], org, url) || SkillAt(skills, n, org, url)
  {
    var n := |skills| - 1;
    forall url ensures HasUrl(skills, org, url) <==> HasUrl(skills[..n], org, url) || SkillAt(skills, n, org, url) {
      if HasUrl(skills[..n], org, url) {
        var i :| 0 <= i < n && SkillAt(skills[..n], i, org, url);
        assert SkillAt(skills, i, org, url);
      }
      if HasUrl(skills, org, url) {
        var i :| 0 <= i < |skills| && SkillAt(skills, i, org, url);
        if i < n { assert SkillAt(skills[..n], i, org, url); }
      }
    }
  }

  datatype SyncState = SyncState(skills: seq<Skill>, created: nat, updated: nat)

  /** One candidate: a new skill, or the fields of the existing one. */
  function SyncOne(s: SyncState, org: OrgId, existing: map<string, nat>, c: Candidate): SyncState {
    if c.url !in existing then SyncState(s.skills + [NewSkill(org, c)], s.created + 1, s.updated)
    else if existing[c.url] >= |s.skills| || Carries(s.skills[existing[c.url]], c) then s
    else
      var row := s.skills[existing[c.url]];
      var skill := Skill(row.org, row.url, c.name, c.description, c.category, c.risk, c.source, MetadataOf(c));
      SyncState(s.skills[existing[c.url] := skill], s.created, s.updated + 1)
  }

  function SyncAll(skills: seq<Skill>, org: OrgId, cands: seq<Candidate>): SyncState {
    if cands == [] then SyncState(skills, 0, 0)
    else SyncOne(SyncAll(skills, org, cands[..|cands| - 1]), org, ExistingBySource(skills, org), cands[|cands| - 1])
  }

  class SkillTable {
    var skills: seq<Skill>

    constructor (skills: seq<Skill>)
      ensures this.skills == skills
    {
      this.skills := skills;
    }

    /** Sets the fields that differ, one by one, and reports whether any did. */
    method ApplyPackCandidateUpdates(i: nat, c: Candidate) returns (changed: bool)
      requires i < |skills|
      modifies this
      ensures |skills| == |old(skills)| && (forall j :: 0 <= j < |skills| && j != i ==> skills[j] == old(skills[j]))
      ensures skills[i].org == old(skills[i].org) && skills[i].url == old(skills[i].url)
      ensures Carries(skills[i], c) && (changed <==> !Carries(old(skills[i]), c))
    {
      changed := false;
      var s := skills[i];
      if s.name != c.name {
        s, changed := s.(name := c.name), true;
      }
      if s.description != c.description {
        s, changed := s.(description := c.description), true;
      }
      if s.category != c.category {
        s, changed := s.(category := c.category), true;
      }
      if s.risk != c.risk {
        s, changed := s.(risk := c.risk), true;
      }
      if s.source != c.source {
        s, changed := s.(source := c.source), true;
      }
      if s.metadata != MetadataOf(c) {
        s, changed := s.(metadata := MetadataOf(c)), true;
      }
      skills := skills[i := s];
    }

    /** Upserts the discovered candidates and counts what was created and updated. */
    method SyncSkillPack(org: OrgId, discovered: seq<Candidate>) returns (synced: nat, created: nat, updated: nat)
      modifies this
      ensures SyncState(skills, created, updated) == SyncAll(old(skills), org, discovered) && synced == |discovered|
    {
      hide SyncAll, SyncOne, Carries, ExistingBySource;
      ghost var start := skills;
      var existing := ExistingBySource(skills, org);
      created, updated := 0, 0;
      NothingSynced(start, org, discovered);
      for n := 0 to |discovered|
        invariant SyncState(skills, created, updated) == SyncAll(start, org, discovered[..n])
        invariant |skills| >= |start|
      {
        var c := discovered[n];
        ghost var s := SyncState(skills, created, updated);
        SyncNext(start, org, discovered, n);
        if c.url !in existing {
          SyncedNew(s, org, existing, c);
          skills := skills + [NewSkill(org, c)];
          created := created + 1;
        } else {
          var changed := ApplyPackCandidateUpdates(existing[c.url], c);
          SyncedOld(s, org, existing, c, skills, changed);
          updated := if changed then updated + 1 else updated;
        }
      }
      assert discovered[..|discovered|] == discovered;
      synced := |discovered|;
    }
  }

  lemma NothingSynced(skills: seq<Skill>, org: OrgId, cands: seq<Candidate>)
    ensures SyncAll(skills, org, cands[..0]) == SyncState(skills, 0, 0)
  {
  }

  lemma SyncNext(skills: seq<Skill>, org: OrgId, cands: seq<Candidate>, n: nat)
    requires n < |cands|
    ensures SyncAll(skills, org, cands[..n + 1]) ==
      SyncOne(SyncAll(skills, org, cands[..n]), org, ExistingBySource(skills, org), cands[n])
  {
    hide SyncOne, ExistingBySource;
    assert cands[..n + 1][..n] == cands[..n];
  }

  lemma SyncedNew(s: SyncState, org: OrgId, existing: map<string, nat>, c: Candidate)
    requires c.url !in existing
    ensures SyncOne(s, org, existing, c) == SyncState(s.skills + [NewSkill(org, c)], s.created + 1, s.updated)
  {
  }

  /** A row that carries the candidate's fields and is otherwise as before is the synced row. */
  lemma SyncedOld(
      s: SyncState, org: OrgId, existing: map<string, nat>, c: Candidate, after: seq<Skill>, changed: bool)
    requires c.url in existing && existing[c.url] < |s.skills| == |after|
    requires forall j :: 0 <= j < |after| && j != existing[c.url] ==> after[j] == s.skills[j]
    requires var row, now := s.skills[existing[c.url]], after[existing[c.url]];
      now.org == row.org && now.url == row.url && Carries(now, c) && (changed <==> !Carries(row, c))
    ensures SyncOne(s, org, existing, c) == SyncState(after, s.created, if changed then s.updated + 1 else s.updated)
  {
    var i := existing[c.url];
    assert after == s.skills[i := after[i]];
    if !changed { SameFields(s.skills[i], after[i], c); }
  }

  lemma SameFields(a: Skill, b: Skill, c: Candidate)
    requires a.org == b.org && a.url == b.url && Carries(a, c) && Carries(b, c)
    ensures a == b
  {
  }

  // ---- what holds after a sync ----

  predicate HasCandidate(cands: seq<Candidate>, url: string) {
    exists k :: 0 <= k < |cands| && cands[k].url == url
  }

  predicate Touched(before: Skill, org: OrgId, cands: seq<Candidate>) {
    before.org == org && HasCandidate(cands, before.url)
  }

  /** No skill disappears or changes its organization or URL. */
  ghost predicate KeysKept(before: seq<Skill>, after: seq<Skill>) {
    |after| >= |before| && forall i :: 0 <= i < |before| ==> after[i].org == before[i].org && after[i].url == before[i].url
  }

  ghost predicate OthersKept(before: seq<Skill>, after: seq<Skill>, org: OrgId, cands: seq<Candidate>)
    requires |after| >= |before|
  {
    forall i :: 0 <= i < |before| && !Touched(before[i], org, cands) ==> after[i] == before[i]
  }

  ghost predicate NewOnesFound(before: seq<Skill>, after: seq<Skill>, org: OrgId, cands: seq<Candidate>) {
    forall i :: |before| <= i < |after| ==> after[i].org == org && HasCandidate(cands, after[i].url)
  }

  /** The organization has a skill with the candidate's URL and fields. */
  ghost predicate Served(skills: seq<Skill>, org: OrgId, c: Candidate) {
    exists i :: 0 <= i < |skills| && SkillAt(skills, i, org, c.url) && Carries(skills[i], c)
  }

  ghost predicate AllServed(skills: seq<Skill>, org: OrgId, cands: seq<Candidate>) {
    forall k :: 0 <= k < |cands| ==> Served(skills, org, cands[k])
  }

  /** How the skills stand to those before and to the candidates dealt with. */
  ghost predicate Follows(before: seq<Skill>, after: seq<Skill>, org: OrgId, cands: seq<Candidate>) {
    KeysKept(before, after) && OthersKept(before, after, org, cands) && NewOnesFound(before, after, org, cands) &&
    UniqueUrls(after) && AllServed(after, org, cands)
  }

  lemma HasCandidateMore(cands: seq<Candidate>, c: Candidate, url: string)
    ensures HasCandidate(cands + [c], url) <==> HasCandidate(cands, url) || c.url == url
  {
    var longer := cands + [c];
    assert longer[|cands|] == c && forall k :: 0 <= k < |cands| ==> longer[k] == cands[k];
  }

  lemma NotYet(cands: seq<Candidate>, c: Candidate)
    requires DistinctUrls(cands + [c])
    ensures !HasCandidate(cands, c.url)
  {
    var longer := cands + [c];
    assert longer[|cands|] == c && forall k :: 0 <= k < |cands| ==> longer[k] == cands[k];
  }

  /** Nothing served so far has the URL of a candidate still to come. */
  lemma FreshUrl(before: seq<Skill>, after: seq<Skill>, org: OrgId, cands: seq<Candidate>, c: Candidate, i: nat)
    requires KeysKept(before, after) && NewOnesFound(before, after, org, cands) && i < |after|
    requires !HasCandidate(cands, c.url) && !HasUrl(before, org, c.url)
    ensures !SkillAt(after, i, org, c.url)
  {
    if i < |before| { assert !SkillAt(before, i, org, c.url); }
  }

  lemma CreateKeepsUnique(before: seq<Skill>, after: seq<Skill>, org: OrgId, cands: seq<Candidate>, c: Candidate)
    requires KeysKept(before, after) && NewOnesFound(before, after, org, cands) && UniqueUrls(after)
    requires !HasCandidate(cands, c.url) && !HasUrl(before, org, c.url)
    ensures UniqueUrls(after + [NewSkill(org, c)])
  {
    forall i | 0 <= i < |after| ensures after[i].org != org || after[i].url != c.url {
      FreshUrl(before, after, org, cands, c, i);
    }
    var next := after + [NewSkill(org, c)];
    assert forall i :: 0 <= i < |after| ==> next[i] == after[i];
  }

  lemma OthersStay(before: seq<Skill>, after: seq<Skill>, next: seq<Skill>, org: OrgId, cands: seq<Candidate>, c: Candidate)
    requires |next| >= |after| >= |before| && OthersKept(before, after, org, cands)
    requires forall i :: 0 <= i < |before| && !(before[i].org == org && before[i].url == c.url) ==> next[i] == after[i]
    ensures OthersKept(before, next, org, cands + [c])
  {
    forall i | 0 <= i < |before| && !Touched(before[i], org, cands + [c]) ensures next[i] == before[i] {
      HasCandidateMore(cands, c, before[i].url);
    }
  }

  lemma NewOnesStay(before: seq<Skill>, after: seq<Skill>, next: seq<Skill>, org: OrgId, cands: seq<Candidate>, c: Candidate)
    requires NewOnesFound(before, after, org, cands) && |next| >= |after| >= |before|
    requires forall i :: |before| <= i < |after| ==> next[i] == after[i]
    requires forall i :: |after| <= i < |next| ==> next[i].org == org && next[i].url == c.url
    ensures NewOnesFound(before, next, org, cands + [c])
  {
    forall i | |before| <= i < |next| ensures next[i].org == org && HasCandidate(cands + [c], next[i].url) {
      HasCandidateMore(cands, c, next[i].url);
    }
  }

  /** A step that leaves skills with other URLs alone and serves `c` keeps all candidates served. */
  lemma ServedStay(after: seq<Skill>, next: seq<Skill>, org: OrgId, cands: seq<Candidate>, c: Candidate)
    requires AllServed(after, org, cands) && !HasCandidate(cands, c.url) && Served(next, org, c) && |next| >= |after|
    requires forall i :: 0 <= i < |after| && after[i].url != c.url ==> next[i] == after[i]
    ensures AllServed(next, org, cands + [c])
  {
    var longer := cands + [c];
    forall k | 0 <= k < |longer| ensures Served(next, org, longer[k]) {
      if k < |cands| {
        assert longer[k] == cands[k] && Served(after, org, cands[k]);
        var i :| 0 <= i < |after| && SkillAt(after, i, org, cands[k].url) && Carries(after[i], cands[k]);
        assert SkillAt(next, i, org, cands[k].url) && Carries(next[i], cands[k]);
      }
    }
  }

  lemma CreateFollows(before: seq<Skill>, after: seq<Skill>, org: OrgId, cands: seq<Candidate>, c: Candidate)
    requires Follows(before, after, org, cands) && DistinctUrls(cands + [c]) && !HasUrl(before, org, c.url)
    ensures Follows(before, after + [NewSkill(org, c)], org, cands + [c])
  {
    hide OthersKept, NewOnesFound, UniqueUrls, AllServed, HasUrl, HasCandidate, DistinctUrls;
    var next := after + [NewSkill(org, c)];
    NotYet(cands, c);
    CreateKeepsUnique(before, after, org, cands, c);
    OthersStay(before, after, next, org, cands, c);
    NewOnesStay(before, after, next, org, cands, c);
    assert SkillAt(next, |after|, org, c.url) && Carries(next[|after|], c);
    ServedStay(after, next, org, cands, c);
  }

  lemma SameKeysUnique(after: seq<Skill>, next: seq<Skill>)
    requires UniqueUrls(after) && |next| == |after|
    requires forall i :: 0 <= i < |after| ==> next[i].org == after[i].org && next[i].url == after[i].url
    ensures UniqueUrls(next)
  {
  }

  lemma UpdateFollows(before: seq<Skill>, after: seq<Skill>, org: OrgId, cands: seq<Candidate>, c: Candidate, e: nat, next: seq<Skill>)
    requires Follows(before, after, org, cands) && DistinctUrls(cands + [c]) && SkillAt(before, e, org, c.url)
    requires |next| == |after| && Carries(next[e], c) && next[e].org == after[e].org && next[e].url == after[e].url
    requires forall i :: 0 <= i < |after| && i != e ==> next[i] == after[i]
    ensures Follows(before, next, org, cands + [c])
  {
    hide OthersKept, NewOnesFound, UniqueUrls, AllServed, HasCandidate, DistinctUrls, Carries;
    NotYet(cands, c);
    SameKeysUnique(after, next);
    OthersStay(before, after, next, org, cands, c);
    NewOnesStay(before, after, next, org, cands, c);
    assert SkillAt(next, e, org, c.url);
    ServedStay(after, next, org, cands, c);
  }

  /** The candidates that had no skill before, and those whose skill had other fields. */
  function ToCreate(before: seq<Skill>, org: OrgId, cands: seq<Candidate>): nat {
    if cands == [] then 0
    else
      ToCreate(before, org, cands[..|cands| - 1]) +
      if cands[|cands| - 1].url in ExistingBySource(before, org) then 0 else 1
  }

  predicate Outdated(before: seq<Skill>, org: OrgId, c: Candidate) {
    var existing := ExistingBySource(before, org);
    c.url in existing && !Carries(before[existing[c.url]], c)
  }

  function ToUpdate(before: seq<Skill>, org: OrgId, cands: seq<Candidate>): nat {
    if cands == [] then 0
    else ToUpdate(before, org, cands[..|cands| - 1]) + if Outdated(before, org, cands[|cands| - 1]) then 1 else 0
  }

  lemma FollowsNothing(before: seq<Skill>, org: OrgId)
    requires UniqueUrls(before)
    ensures Follows(before, before, org, [])
  {
  }

  /** One more candidate, with its contribution to the counts. */
  lemma OneFollows(before: seq<Skill>, org: OrgId, cands: seq<Candidate>, c: Candidate, prev: SyncState)
    requires Follows(before, prev.skills, org, cands) && DistinctUrls(cands + [c])
    ensures var s := SyncOne(prev, org, ExistingBySource(before, org), c);
      Follows(before, s.skills, org, cands + [c]) &&
      s.created == prev.created + (if c.url in ExistingBySource(before, org) then 0 else 1) &&
      s.updated == prev.updated + (if Outdated(before, org, c) then 1 else 0) &&
      |s.skills| - s.created == |prev.skills| - prev.created
  {
    var existing := ExistingBySource(before, org);
    if c.url !in existing {
      CreateFollows(before, prev.skills, org, cands, c);
    } else {
      var e := existing[c.url];
      NotYet(cands, c);
      assert !Touched(before[e], org, cands);
      assert prev.skills[e] == before[e];
      UpdateFollows(before, prev.skills, org, cands, c, e, SyncOne(prev, org, existing, c).skills);
    }
  }

  /**
   * After one sync every candidate URL has exactly one skill, carrying the candidate's fields; all other
   * skills are as before; the counts are those of new and of outdated candidates, and add up with the rows.
   */
  lemma {:induction false} SyncFollows(before: seq<Skill>, org: OrgId, cands: seq<Candidate>)
    requires UniqueUrls(before) && DistinctUrls(cands)
    ensures var s := SyncAll(before, org, cands);
      Follows(before, s.skills, org, cands) && |s.skills| == |before| + s.created &&
      s.created == ToCreate(before, org, cands) && s.updated == ToUpdate(before, org, cands) &&
      s.created + s.updated <= |cands|
  {
    hide Follows, SyncOne, ExistingBySource, UniqueUrls;
    if cands == [] {
      FollowsNothing(before, org);
    } else {
      var init, c := cands[..|cands| - 1], cands[|cands| - 1];
      SyncFollows(before, org, init);
      assert init + [c] == cands;
      OneFollows(before, org, init, c, SyncAll(before, org, init));
    }
  }

  /** Skills that serve every candidate are left alone. */
  lemma {:induction false} NothingToDo(skills: seq<Skill>, org: OrgId, cands: seq<Candidate>)
    requires UniqueUrls(skills) && forall k :: 0 <= k < |cands| ==> Served(skills, org, cands[k])
    ensures SyncAll(skills, org, cands) == SyncState(skills, 0, 0)
  {
    if cands != [] {
      var init, c := cands[..|cands| - 1], cands[|cands| - 1];
      NothingToDo(skills, org, init);
      var i :| 0 <= i < |skills| && SkillAt(skills, i, org, c.url) && Carries(skills[i], c);
      assert HasUrl(skills, org, c.url);
      var e := ExistingBySource(skills, org)[c.url];
      assert SkillAt(skills, e, org, c.url) && e == i;
    }
  }

  /** Syncing the same candidates again creates nothing, updates nothing and changes nothing. */
  lemma ResyncIsIdle(before: seq<Skill>, org: OrgId, cands: seq<Candidate>)
    requires UniqueUrls(before) && DistinctUrls(cands)
    ensures var after := SyncAll(before, org, cands).skills; SyncAll(after, org, cands) == SyncState(after, 0, 0)
  {
    SyncFollows(before, org, cands);
    NothingToDo(SyncAll(before, org, cands).skills, org, cands);
  }
}
