/** The publication protocol over sequences of attempts, each from a fresh checkout and cut short
    anywhere: what is write-once, what is ordered, and what a rerun reaches. */
module PublicationProtocol {
  import opened Common
  import opened Publication

  /** One attempt of some plan, as `Run` ensures it. */
  ghost predicate Attempted(before: Remote, after: Remote, plan: Plan, commit: Commit) {
    PartWay(before, after, plan, commit) && (Conflicts(before, plan, commit) ==> after == before)
  }

  datatype Attempt = Attempt(plan: Plan, commit: Commit)

  /** Remote states, each left by an attempt on the one before. */
  ghost predicate Trace(h: seq<Remote>, attempts: seq<Attempt>) {
    |h| == |attempts| + 1 && forall i :: 0 <= i < |attempts| ==> Attempted(h[i], h[i + 1], attempts[i].plan, attempts[i].commit)
  }

  // ---------- tags ----------

  /** A tag never moves or disappears. */
  lemma {:induction false} TagsAreWriteOnce(h: seq<Remote>, attempts: seq<Attempt>, i: nat, j: nat, tag: Tag)
    requires Trace(h, attempts) && i <= j < |h| && tag in h[i].tags
    ensures tag in h[j].tags && h[j].tags[tag] == h[i].tags[tag]
    decreases j - i
  {
    if i < j {
      TagsAreWriteOnce(h, attempts, i, j - 1, tag);
      assert Attempted(h[j - 1], h[j], attempts[j - 1].plan, attempts[j - 1].commit);
    }
  }

  // ---------- assets ----------

  lemma {:induction false} MatchingAppend(assets: seq<Asset>, more: Asset, name: int)
    ensures Matching(assets + [more], name) == Matching(assets, name) + if more.name == name then [more] else []
  {
    var all := assets + [more];
    if assets == [] {
      assert all[1..] == [];
    } else {
      assert all[0] == assets[0] && all[1..] == assets[1..] + [more];
      MatchingAppend(assets[1..], more, name);
      ConcatAssociates(if assets[0].name == name then [assets[0]] else [], Matching(assets[1..], name), if more.name == name then [more] else []);
    }
  }

  lemma AssetsKept(before: Remote, after: Remote, plan: Plan, commit: Commit, tag: Tag, name: int)
    requires PartWay(before, after, plan, commit) && tag in before.releases && Matching(before.releases[tag].assets, name) != []
    ensures tag in after.releases && Matching(after.releases[tag].assets, name) == Matching(before.releases[tag].assets, name)
  {
    hide Matching;
    if tag == plan.product {
      MatchingAppend(before.releases[tag].assets, Asset(plan.asset, Some(plan.digest)), name);
      var kept := Matching(before.releases[tag].assets, name);
      assert kept + [] == kept;
    }
  }

  /** Once a release has an asset of some name, its assets of that name - and so their digests -
      never change. */
  lemma {:induction false} AssetsAreWriteOnce(h: seq<Remote>, attempts: seq<Attempt>, i: nat, j: nat, tag: Tag, name: int)
    requires Trace(h, attempts) && i <= j < |h| && tag in h[i].releases && Matching(h[i].releases[tag].assets, name) != []
    ensures tag in h[j].releases && Matching(h[j].releases[tag].assets, name) == Matching(h[i].releases[tag].assets, name)
    decreases j - i
  {
    if i < j {
      AssetsAreWriteOnce(h, attempts, i, j - 1, tag, name);
      assert Attempted(h[j - 1], h[j], attempts[j - 1].plan, attempts[j - 1].commit);
      AssetsKept(h[j - 1], h[j], attempts[j - 1].plan, attempts[j - 1].commit, tag, name);
    }
  }

  // ---------- order ----------

  /** A release that was not there at first was created by an attempt of its product tag, and all
      tags of that attempt's plan are on the remote at its commit. */
  lemma {:induction false} ReleasedAfterTags(h: seq<Remote>, attempts: seq<Attempt>, n: nat, tag: Tag)
    requires Trace(h, attempts) && n < |h| && tag !in h[0].releases && tag in h[n].releases
    ensures exists k :: 0 <= k < n && attempts[k].plan.product == tag && AllPlanTags(h[n].tags, attempts[k].plan, attempts[k].commit)
  {
    var plan, commit := attempts[n - 1].plan, attempts[n - 1].commit;
    assert Attempted(h[n - 1], h[n], plan, commit);
    if tag in h[n - 1].releases {
      ReleasedAfterTags(h, attempts, n - 1, tag);
      var k :| 0 <= k < n - 1 && attempts[k].plan.product == tag && AllPlanTags(h[n - 1].tags, attempts[k].plan, attempts[k].commit);
      TagsKept(h[n - 1], h[n], plan, commit, attempts[k].plan, attempts[k].commit);
    } else {
      assert tag == plan.product && AllPlanTags(h[n].tags, plan, commit);
    }
  }

  lemma TagsKept(before: Remote, after: Remote, plan: Plan, commit: Commit, other: Plan, target: Commit)
    requires PartWay(before, after, plan, commit) && AllPlanTags(before.tags, other, target)
    ensures AllPlanTags(after.tags, other, target)
  {
  }

  // ---------- convergence ----------

  lemma FinishedMatches(was: Option<Release>, plan: Plan)
    ensures Matching(Finished(was, plan).assets, plan.asset) != []
    ensures Finished(was, plan) == Prepared(was, plan).(assets := Finished(was, plan).assets)
  {
    var assets := Prepared(was, plan).assets;
    MatchingAppend(assets, Asset(plan.asset, Some(plan.digest)), plan.asset);
  }

  /** A release on its way is finished as the one it started from would be. */
  lemma FinishesAlike(was: Option<Release>, now: Option<Release>, plan: Plan)
    requires now == was || now == Some(Prepared(was, plan)) || now == Some(Finished(was, plan))
    ensures Finished(now, plan) == Finished(was, plan)
    ensures Prepared(now, plan) == (if now == Some(Finished(was, plan)) then Finished(was, plan) else Prepared(was, plan))
  {
    FinishedMatches(was, plan);
  }

  lemma ConflictsAlike(was: Option<Release>, now: Option<Release>, plan: Plan)
    requires now == was || now == Some(Prepared(was, plan)) || now == Some(Finished(was, plan))
    requires !ReleaseConflict(was, plan)
    ensures !ReleaseConflict(now, plan)
  {
    hide Matching;
    var assets := Prepared(was, plan).assets;
    MatchingAppend(assets, Asset(plan.asset, Some(plan.digest)), plan.asset);
    assert [] + [Asset(plan.asset, Some(plan.digest))] == [Asset(plan.asset, Some(plan.digest))];
    if was.None? { NoAssets(plan.asset); }
  }

  lemma NoAssets(name: int)
    ensures Matching([], name) == []
  {
  }

  /** From part of the way, an undisturbed attempt of the same plan reaches the same remote. */
  lemma PublishedAgain(before: Remote, after: Remote, plan: Plan, commit: Commit)
    requires PartWay(before, after, plan, commit) && !Conflicts(before, plan, commit)
    ensures !Conflicts(after, plan, commit) && Published(after, plan, commit) == Published(before, plan, commit)
  {
    hide Finished, Prepared, ReleaseConflict;
    var was, now := ReleaseAt(before, plan.product), ReleaseAt(after, plan.product);
    FinishesAlike(was, now, plan);
    ConflictsAlike(was, now, plan);
    TagsAlike(before.tags, after.tags, plan, commit);
    var a, b := Published(before, plan, commit).releases, Published(after, plan, commit).releases;
    forall tag ensures tag in a <==> tag in b {}
    forall tag | tag in a ensures a[tag] == b[tag] {}
    assert a == b;
  }

  lemma TagsAlike(before: map<Tag, Commit>, after: map<Tag, Commit>, plan: Plan, commit: Commit)
    requires SomePlanTags(before, after, plan, commit) && !TagConflict(before, plan, commit)
    ensures !TagConflict(after, plan, commit) && after + PlanTags(plan, commit) == before + PlanTags(plan, commit)
  {
    hide TagsOf;
    var a, b := before + PlanTags(plan, commit), after + PlanTags(plan, commit);
    forall tag ensures tag in a <==> tag in b {}
    forall tag | tag in a ensures a[tag] == b[tag] {}
    assert a == b;
  }

  /** Any number of attempts of one plan at one commit, each cut short anywhere, changes nothing
      about where an undisturbed attempt ends: it finds a conflict if and only if the first would
      have, and otherwise reaches the same remote as if nothing had happened before. */
  lemma {:induction false} RerunsConverge(h: seq<Remote>, attempts: seq<Attempt>, n: nat, plan: Plan, commit: Commit)
    requires Trace(h, attempts) && n < |h| && forall k :: 0 <= k < n ==> attempts[k] == Attempt(plan, commit)
    ensures Conflicts(h[n], plan, commit) <==> Conflicts(h[0], plan, commit)
    ensures Conflicts(h[0], plan, commit) ==> h[n] == h[0]
    ensures !Conflicts(h[0], plan, commit) ==> Published(h[n], plan, commit) == Published(h[0], plan, commit)
  {
    hide Conflicts, PartWay, Published;
    if n > 0 {
      RerunsConverge(h, attempts, n - 1, plan, commit);
      assert attempts[n - 1] == Attempt(plan, commit);
      assert Attempted(h[n - 1], h[n], plan, commit);
      if !Conflicts(h[n - 1], plan, commit) { PublishedAgain(h[n - 1], h[n], plan, commit); }
    }
  }

  /** Publishing again what is published changes nothing. */
  lemma PublishingIsIdempotent(remote: Remote, plan: Plan, commit: Commit)
    requires !Conflicts(remote, plan, commit)
    ensures var done := Published(remote, plan, commit);
            !Conflicts(done, plan, commit) && Published(done, plan, commit) == done
  {
    hide Finished, Prepared, ReleaseConflict, Matching;
    PublishedIsPartWay(remote, plan, commit);
    PublishedAgain(remote, Published(remote, plan, commit), plan, commit);
  }

  lemma PublishedIsPartWay(remote: Remote, plan: Plan, commit: Commit)
    requires !Conflicts(remote, plan, commit)
    ensures PartWay(remote, Published(remote, plan, commit), plan, commit)
  {
    hide Finished, Prepared, ReleaseConflict, TagsOf;
  }
}
