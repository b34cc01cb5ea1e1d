/** `ReleasePublicationService.run` against a remote repository: tags and releases, with a fault
    possible at every port call and a push that may land any part of its tags. */
module Publication {
  import opened Common

  type Tag = int
  type Commit = int
  type Digest = int

  datatype Asset = Asset(name: int, digest: Option<Digest>)

  datatype Release = Release(tag: Tag, title: int, draft: bool, prerelease: bool, assets: seq<Asset>)

  /** What the remote holds. */
  datatype Remote = Remote(tags: map<Tag, Commit>, releases: map<Tag, Release>)

  datatype Plan = Plan(product: Tag, tables: seq<Tag>, title: int, asset: int, digest: Digest)

  function TagsOf(plan: Plan): seq<Tag> {
    [plan.product] + plan.tables
  }

  /** How a port call fares: a failing one may have taken effect or not, and a failing push may have
      landed any of its tags. */
  datatype Fate = Works | Fails(applied: bool, landed: set<Tag>)

  // ---------- what an undisturbed attempt comes to ----------

  function Matching(assets: seq<Asset>, name: int): (r: seq<Asset>)
    ensures r == [] <==> forall a :: a in assets ==> a.name != name
    ensures forall a :: a in r ==> a in assets && a.name == name
  {
    if assets == [] then [] else (if assets[0].name == name then [assets[0]] else []) + Matching(assets[1..], name)
  }

  /** `_verify_existing_release`, whose asset checks `upsert_release` repeats. */
  predicate ReleaseConflict(release: Option<Release>, plan: Plan) {
    release.Some?
    && (release.value.tag != plan.product
        || AssetConflict(release.value.assets, plan))
  }

  predicate AssetConflict(assets: seq<Asset>, plan: Plan) {
    var matching := Matching(assets, plan.asset);
    |matching| > 1 || (|matching| == 1 && matching[0].digest != Some(plan.digest))
  }

  predicate TagConflict(tags: map<Tag, Commit>, plan: Plan, commit: Commit) {
    exists tag :: tag in TagsOf(plan) && tag in tags && tags[tag] != commit
  }

  function ReleaseAt(remote: Remote, tag: Tag): Option<Release> {
    if tag in remote.releases then Some(remote.releases[tag]) else None
  }

  predicate Conflicts(remote: Remote, plan: Plan, commit: Commit) {
    TagConflict(remote.tags, plan, commit) || ReleaseConflict(ReleaseAt(remote, plan.product), plan)
  }

  /** The release with its metadata in order: patched, or created. */
  function Prepared(release: Option<Release>, plan: Plan): Release {
    if release.Some? then release.value.(title := plan.title, draft := false, prerelease := false)
    else Release(plan.product, plan.title, false, false, [])
  }

  /** The release as it should end up. */
  function Finished(release: Option<Release>, plan: Plan): Release {
    var r := Prepared(release, plan);
    if Matching(r.assets, plan.asset) == [] then r.(assets := r.assets + [Asset(plan.asset, Some(plan.digest))]) else r
  }

  function PlanTags(plan: Plan, commit: Commit): map<Tag, Commit> {
    map tag | tag in TagsOf(plan) :: commit
  }

  /** The remote after an undisturbed attempt without conflict. */
  function Published(remote: Remote, plan: Plan, commit: Commit): Remote {
    Remote(remote.tags + PlanTags(plan, commit),
           remote.releases[plan.product := Finished(ReleaseAt(remote, plan.product), plan)])
  }

  // ---------- what a disturbed attempt may leave ----------

  predicate SomePlanTags(before: map<Tag, Commit>, after: map<Tag, Commit>, plan: Plan, commit: Commit) {
    && (forall tag :: tag in before ==> tag in after && after[tag] == before[tag])
    && forall tag :: tag in after && tag !in before ==> tag in TagsOf(plan) && after[tag] == commit
  }

  predicate AllPlanTags(tags: map<Tag, Commit>, plan: Plan, commit: Commit) {
    forall tag :: tag in TagsOf(plan) ==> tag in tags && tags[tag] == commit
  }

  ghost predicate OthersKept(before: map<Tag, Release>, after: map<Tag, Release>, product: Tag) {
    forall tag :: tag != product ==> (tag in after <==> tag in before) && (tag in before ==> after[tag] == before[tag])
  }

  /** Part of the way: some tags landed; once all have, the release may be prepared or finished;
      nothing else changed. */
  ghost predicate PartWay(before: Remote, after: Remote, plan: Plan, commit: Commit) {
    && SomePlanTags(before.tags, after.tags, plan, commit)
    && OthersKept(before.releases, after.releases, plan.product)
    && var was, now := ReleaseAt(before, plan.product), ReleaseAt(after, plan.product);
       || now == was
       || (AllPlanTags(after.tags, plan, commit) && (now == Some(Prepared(was, plan)) || now == Some(Finished(was, plan))))
  }

  /** The remote tags after a push: those that landed join, none is moved. */
  function Landed(remote: map<Tag, Commit>, local: map<Tag, Commit>, tags: seq<Tag>, fate: Fate): (after: map<Tag, Commit>)
    ensures forall tag :: tag in remote ==> tag in after && after[tag] == remote[tag]
  {
    if exists tag :: tag in tags && tag !in local then remote
    else
      map tag | tag in remote.Keys + (set t | t in tags && t in local && (fate.Works? || t in fate.landed)) ::
        if tag in remote then remote[tag] else local[tag]
  }

  // ---------- the ports ----------

  class Ports {
    var remote: Remote
    var local: map<Tag, Commit>
    var calls: nat
    const fates: nat -> Fate

    /** A fresh checkout: the local tags are the remote ones. */
    constructor (remote: Remote, fates: nat -> Fate)
      ensures this.remote == remote && this.local == remote.tags && this.fates == fates && calls == 0
    {
      this.remote, this.local, this.fates, calls := remote, remote.tags, fates, 0;
    }

    /** Any call that only reads. */
    method Read() returns (ok: bool)
      modifies this`calls
      ensures calls == old(calls) + 1 && ok == fates(old(calls)).Works?
    {
      ok, calls := fates(calls).Works?, calls + 1;
    }

    /** `create_annotated_tag`: local only; an existing tag must have the same target. */
    method CreateTag(tag: Tag, commit: Commit) returns (ok: bool)
      modifies this`local, this`calls
      ensures calls == old(calls) + 1
      ensures ok <==> fates(old(calls)).Works? && (tag in old(local) ==> old(local)[tag] == commit)
      ensures local == old(local) || (tag !in old(local) && local == old(local)[tag := commit])
      ensures ok ==> tag in local && local[tag] == commit
    {
      var fate := fates(calls);
      calls := calls + 1;
      if tag in local { return fate.Works? && local[tag] == commit; }
      ok := fate.Works?;
      if ok || fate.applied { local := local[tag := commit]; }
    }

    /** `push_tags`: a remote tag that exists is never moved, and a tag the checkout lacks fails the push. */
    method Push(tags: seq<Tag>) returns (ok: bool)
      modifies this`remote, this`calls
      ensures calls == old(calls) + 1 && remote.releases == old(remote.releases)
      ensures ok == (fates(old(calls)).Works? && forall tag :: tag in tags ==> tag in local)
      ensures remote.tags == Landed(old(remote.tags), local, tags, fates(old(calls)))
    {
      ok := fates(calls).Works? && forall tag :: tag in tags ==> tag in local;
      remote := remote.(tags := Landed(remote.tags, local, tags, fates(calls)));
      calls := calls + 1;
    }

    /** A call that writes the release found under one tag. */
    method Write(tag: Tag, release: Release) returns (ok: bool)
      modifies this`remote, this`calls
      ensures calls == old(calls) + 1 && ok == fates(old(calls)).Works?
      ensures remote == old(remote) || remote == old(remote).(releases := old(remote).releases[tag := release])
      ensures ok ==> remote == old(remote).(releases := old(remote).releases[tag := release])
    {
      var fate := fates(calls);
      if fate.Works? || fate.applied { remote := remote.(releases := remote.releases[tag := release]); }
      ok, calls := fate.Works?, calls + 1;
    }

    predicate Undisturbed(from: nat)
      reads this
    {
      forall c :: from <= c < calls ==> fates(c).Works?
    }
  }

  // ---------- what it means ----------

  /** Nothing stands in the way of an asset: at most one of its name is there, and that one has its digest. */
  predicate Free(assets: seq<Asset>, plan: Plan) {
    && (forall a :: a in assets && a.name == plan.asset ==> a.digest == Some(plan.digest))
    && forall i, j :: 0 <= i < j < |assets| && assets[i].name == plan.asset ==> assets[j].name != plan.asset
  }

  /** A tag of the plan is elsewhere, or its release belongs to another tag or holds something else under the
      name of the asset. */
  predicate Occupied(remote: Remote, plan: Plan, commit: Commit) {
    || (plan.product in remote.tags && remote.tags[plan.product] != commit)
    || (exists tag :: tag in plan.tables && tag in remote.tags && remote.tags[tag] != commit)
    || (plan.product in remote.releases
        && (remote.releases[plan.product].tag != plan.product || !Free(remote.releases[plan.product].assets, plan)))
  }

  /** The release has the plan's title and exactly one asset of that name, with that digest. */
  predicate Complete(release: Release, plan: Plan) {
    && release.title == plan.title && !release.draft && !release.prerelease
    && Free(release.assets, plan) && Asset(plan.asset, Some(plan.digest)) in release.assets
  }

  /** The plan is published: its tags are at the commit, and its release is complete, beside the assets it had. */
  ghost predicate Delivered(before: Remote, after: Remote, plan: Plan, commit: Commit) {
    && (forall tag :: tag == plan.product || tag in plan.tables ==> tag in after.tags && after.tags[tag] == commit)
    && plan.product in after.releases
    && var release := after.releases[plan.product];
       && release.tag == plan.product && Complete(release, plan)
       && var had := if plan.product in before.releases then before.releases[plan.product].assets else [];
          release.assets == had || release.assets == had + [Asset(plan.asset, Some(plan.digest))]
  }

  /** Tags and releases of no concern to the plan are as they were. */
  ghost predicate LeavesOthers(before: Remote, after: Remote, plan: Plan) {
    && (forall tag :: tag != plan.product && tag !in plan.tables ==>
          (tag in after.tags <==> tag in before.tags) && (tag in before.tags ==> after.tags[tag] == before.tags[tag]))
    && forall tag :: tag != plan.product ==>
         (tag in after.releases <==> tag in before.releases) && (tag in before.releases ==> after.releases[tag] == before.releases[tag])
  }

  lemma {:induction false} MatchingIff(assets: seq<Asset>, name: int)
    ensures |Matching(assets, name)| <= 1 <==> forall i, j :: 0 <= i < j < |assets| && assets[i].name == name ==> assets[j].name != name
    ensures forall a :: a in Matching(assets, name) <==> a in assets && a.name == name
  {
    if assets != [] {
      var rest := assets[1..];
      MatchingIff(rest, name);
      if forall i, j :: 0 <= i < j < |assets| && assets[i].name == name ==> assets[j].name != name {
        forall i, j | 0 <= i < j < |rest| && rest[i].name == name ensures rest[j].name != name {
          assert assets[i + 1] == rest[i] && assets[j + 1] == rest[j];
        }
      }
      if |Matching(assets, name)| <= 1 {
        forall i, j | 0 <= i < j < |assets| && assets[i].name == name ensures assets[j].name != name {
          assert assets[j] == rest[j - 1];
          if i > 0 { assert assets[i] == rest[i - 1]; }
        }
      }
    }
  }

  lemma AssetConflictIff(assets: seq<Asset>, plan: Plan)
    ensures AssetConflict(assets, plan) <==> !Free(assets, plan)
  {
    hide Matching;
    MatchingIff(assets, plan.asset);
    var matching := Matching(assets, plan.asset);
    if |matching| == 1 { assert matching[0] in matching; }
  }

  lemma ConflictsIff(remote: Remote, plan: Plan, commit: Commit)
    ensures Conflicts(remote, plan, commit) <==> Occupied(remote, plan, commit)
  {
    hide Free, AssetConflict;
    var release := ReleaseAt(remote, plan.product);
    if release.Some? { AssetConflictIff(release.value.assets, plan); }
    assert forall tag :: tag in TagsOf(plan) <==> tag == plan.product || tag in plan.tables;
  }

  lemma PublishedDelivers(before: Remote, plan: Plan, commit: Commit)
    requires !Conflicts(before, plan, commit)
    ensures Delivered(before, Published(before, plan, commit), plan, commit)
  {
    hide Matching, AssetConflict, Complete;
    assert forall tag :: tag in TagsOf(plan) <==> tag == plan.product || tag in plan.tables;
    FinishedIsComplete(ReleaseAt(before, plan.product), plan);
  }

  lemma FinishedIsComplete(was: Option<Release>, plan: Plan)
    requires was.Some? ==> !AssetConflict(was.value.assets, plan)
    ensures Complete(Finished(was, plan), plan)
  {
    hide Matching, AssetConflict;
    var assets := Prepared(was, plan).assets;
    MatchingIff(assets, plan.asset);
    if was.Some? { AssetConflictIff(assets, plan); }
  }

  lemma PartWayLeavesOthers(before: Remote, after: Remote, plan: Plan, commit: Commit)
    requires PartWay(before, after, plan, commit)
    ensures LeavesOthers(before, after, plan)
  {
    hide Finished, Prepared;
    assert forall tag :: tag in TagsOf(plan) <==> tag == plan.product || tag in plan.tables;
  }

  // ---------- the release ----------

  datatype Upsert = Upserted | Refused | Interrupted

  /** `upsert_release`: looks the release up, refuses one whose asset of that name is not this one,
      patches or creates it, and uploads the asset when it has none of that name. */
  method UpsertRelease(ports: Ports, plan: Plan) returns (result: Upsert)
    modifies ports`remote, ports`calls
    ensures ports.remote.tags == old(ports.remote.tags) && ports.calls >= old(ports.calls)
    ensures OthersKept(old(ports.remote.releases), ports.remote.releases, plan.product)
    ensures var was, now := ReleaseAt(old(ports.remote), plan.product), ReleaseAt(ports.remote, plan.product);
            if was.Some? && AssetConflict(was.value.assets, plan) then now == was && result != Upserted
            else
              && result != Refused
              && (now == was || now == Some(Prepared(was, plan)) || now == Some(Finished(was, plan)))
              && (result == Upserted ==> now == Some(Finished(was, plan)))
    ensures result == Interrupted ==> !ports.Undisturbed(old(ports.calls))
    ensures var was, now := ReleaseAt(old(ports.remote), plan.product), ReleaseAt(ports.remote, plan.product);
            && (was.Some? && !Free(was.value.assets, plan) ==> now == was && result != Upserted)
            && (result == Refused ==> was.Some? && !Free(was.value.assets, plan))
            && (result == Upserted ==> now.Some? && Complete(now.value, plan))
  {
    hide Matching, Free, Complete;
    if ReleaseAt(ports.remote, plan.product).Some? { AssetConflictIff(ReleaseAt(ports.remote, plan.product).value.assets, plan); }
    if plan.product !in ports.remote.releases || !AssetConflict(ports.remote.releases[plan.product].assets, plan) {
      FinishedIsComplete(ReleaseAt(ports.remote, plan.product), plan);
    }
    var ok := ports.Read();
    if !ok { return Interrupted; }
    var existing := ReleaseAt(ports.remote, plan.product);
    var prepared := Prepared(existing, plan);
    if existing.Some? {
      if AssetConflict(existing.value.assets, plan) { return Refused; }
      if existing.value != prepared {
        ok := ports.Write(plan.product, prepared);
        if !ok { return Interrupted; }
      }
      if Matching(existing.value.assets, plan.asset) != [] { return Upserted; }
    } else {
      ok := ports.Write(plan.product, prepared);
      if !ok { return Interrupted; }
    }
    ok := ports.Write(plan.product, prepared.(assets := prepared.assets + [Asset(plan.asset, Some(plan.digest))]));
    result := if ok then Upserted else Interrupted;
  }

  // ---------- one attempt ----------

  /** A raise before anything remote is attempted is a conflict or another failure; after that it is reported as
      partial. */
  datatype Result = Success | Conflict | Failure | Partial

  /** The tags the remote does not have yet, in order. */
  function NewTags(tags: map<Tag, Commit>, wanted: seq<Tag>): (r: seq<Tag>)
    ensures forall tag :: tag in r <==> tag in wanted && tag !in tags
  {
    if wanted == [] then [] else NewTags(tags, wanted[..|wanted| - 1]) + if wanted[|wanted| - 1] in tags then [] else [wanted[|wanted| - 1]]
  }

  /** The creation loop: local tags only, for those the checkout did not have. */
  method CreateTags(ports: Ports, existing: map<Tag, Commit>, tags: seq<Tag>, commit: Commit) returns (new_: seq<Tag>, ok: bool)
    requires ports.local == existing
    modifies ports`local, ports`calls
    ensures ports.calls >= old(ports.calls)
    ensures ok ==> new_ == NewTags(existing, tags) && forall tag :: tag in new_ ==> tag in ports.local && ports.local[tag] == commit
    ensures !ok ==> !ports.Undisturbed(old(ports.calls))
  {
    new_ := [];
    for i := 0 to |tags|
      invariant ports.calls >= old(ports.calls)
      invariant new_ == NewTags(existing, tags[..i])
      invariant forall tag :: tag in new_ ==> tag in ports.local && ports.local[tag] == commit
      invariant forall tag :: tag in ports.local && tag !in existing ==> ports.local[tag] == commit
    {
      assert tags[..i + 1][..i] == tags[..i];
      if tags[i] !in existing {
        ghost var calls := ports.calls;
        ok := ports.CreateTag(tags[i], commit);
        if !ok {
          assert !ports.fates(calls).Works?;
          return;
        }
        new_ := new_ + [tags[i]];
      }
    }
    assert tags[..|tags|] == tags;
    ok := true;
  }

  /** `existing_targets`: one lookup for each tag. */
  method LookUpTags(ports: Ports, tags: seq<Tag>) returns (ok: bool)
    modifies ports`calls
    ensures ports.calls >= old(ports.calls)
    ensures ok <==> ports.Undisturbed(old(ports.calls))
  {
    for i := 0 to |tags|
      invariant ports.calls >= old(ports.calls) && ports.Undisturbed(old(ports.calls))
    {
      ghost var calls := ports.calls;
      ok := ports.Read();
      if !ok {
        assert !ports.fates(calls).Works?;
        return;
      }
    }
    ok := true;
  }

  /** `run`, from a fresh checkout: nothing is written when something is in the plan's way; an attempt cut short
      by a fault leaves the remote part of the way, and as it was unless the attempt is reported as partial; one
      that succeeds, or meets no fault, leaves the plan published. */
  method Run(ports: Ports, plan: Plan, commit: Commit) returns (result: Result)
    requires ports.local == ports.remote.tags
    modifies ports
    ensures Conflicts(old(ports.remote), plan, commit) ==> ports.remote == old(ports.remote) && result != Success
    ensures PartWay(old(ports.remote), ports.remote, plan, commit)
    ensures result == Success ==> ports.remote == Published(old(ports.remote), plan, commit)
    ensures ports.Undisturbed(old(ports.calls)) ==> result == if Occupied(old(ports.remote), plan, commit) then Conflict else Success
    ensures Occupied(old(ports.remote), plan, commit) ==> ports.remote == old(ports.remote) && result != Success && result != Partial
    ensures result == Conflict ==> Occupied(old(ports.remote), plan, commit)
    ensures result == Success ==> Delivered(old(ports.remote), ports.remote, plan, commit)
    ensures result == Conflict || result == Failure ==> ports.remote == old(ports.remote)
    ensures LeavesOthers(old(ports.remote), ports.remote, plan)
  {
    hide ReleaseConflict, AssetConflict, Prepared, Finished, Published, PartWay, NewTags, SomePlanTags, AllPlanTags, Landed, Occupied, Delivered,
      LeavesOthers;
    ghost var before := ports.remote;
    NothingDone(before, plan, commit);
    ConflictsIff(before, plan, commit);
    PartWayLeavesOthers(before, before, plan, commit);
    var tags := TagsOf(plan);
    var existing := ports.local;
    var ok := LookUpTags(ports, tags);
    if !ok { return Failure; }
    if TagConflict(existing, plan, commit) { return Conflict; }
    ghost var calls := ports.calls;
    ok := ports.Read();
    if !ok {
      assert !ports.fates(calls).Works?;
      return Failure;
    }
    if ReleaseConflict(ReleaseAt(ports.remote, plan.product), plan) { return Conflict; }
    var new_;
    new_, ok := CreateTags(ports, existing, tags, commit);
    if !ok { return Failure; }
    if new_ != [] {
      calls := ports.calls;
      ghost var landed := if ports.fates(calls).Works? then set tag | tag in new_ else ports.fates(calls).landed;
      ok := ports.Push(new_);
      LandedTags(before.tags, ports.local, new_, ports.fates(calls), landed);
      TagsLanded(before, ports.remote, plan, commit, new_, landed);
      if !ok {
        assert !ports.fates(calls).Works?;
        PartWayLeavesOthers(before, ports.remote, plan, commit);
        return Partial;
      }
    } else {
      TagsLanded(before, ports.remote, plan, commit, new_, {});
    }
    ghost var tagged := ports.remote;
    var upserted := UpsertRelease(ports, plan);
    NoAssetConflict(ReleaseAt(tagged, plan.product), plan);
    ReleaseDone(before, tagged, ports.remote, plan, commit, upserted == Upserted);
    PartWayLeavesOthers(before, ports.remote, plan, commit);
    if upserted == Upserted { PublishedDelivers(before, plan, commit); }
    result := if upserted == Upserted then Success else Partial;
  }

  lemma LandedTags(remote: map<Tag, Commit>, local: map<Tag, Commit>, tags: seq<Tag>, fate: Fate, landed: set<Tag>)
    requires forall tag :: tag in tags ==> tag in local
    requires landed == if fate.Works? then set tag | tag in tags else fate.landed
    ensures forall tag :: tag in Landed(remote, local, tags, fate) <==> tag in remote || (tag in tags && tag in landed)
    ensures forall tag :: tag in Landed(remote, local, tags, fate) ==>
              Landed(remote, local, tags, fate)[tag] == if tag in remote then remote[tag] else local[tag]
  {
  }

  lemma NoAssetConflict(release: Option<Release>, plan: Plan)
    requires !ReleaseConflict(release, plan)
    ensures release.Some? ==> !AssetConflict(release.value.assets, plan)
  {
  }

  lemma NothingDone(before: Remote, plan: Plan, commit: Commit)
    ensures PartWay(before, before, plan, commit)
  {
  }

  /** After the push some of the plan's tags have landed, and all of them when it worked. */
  lemma TagsLanded(before: Remote, after: Remote, plan: Plan, commit: Commit, new_: seq<Tag>, landed: set<Tag>)
    requires !TagConflict(before.tags, plan, commit) && new_ == NewTags(before.tags, TagsOf(plan)) && after.releases == before.releases
    requires forall tag :: tag in after.tags <==> tag in before.tags || (tag in new_ && tag in landed)
    requires forall tag :: tag in after.tags ==> after.tags[tag] == if tag in before.tags then before.tags[tag] else commit
    ensures PartWay(before, after, plan, commit)
    ensures (forall tag :: tag in new_ ==> tag in landed) ==>
              AllPlanTags(after.tags, plan, commit) && after.tags == before.tags + PlanTags(plan, commit)
  {
    hide NewTags, TagsOf, TagConflict, AllPlanTags, PlanTags, Finished, Prepared;
    SomeLanded(before.tags, after.tags, plan, commit, new_);
    if forall tag :: tag in new_ ==> tag in landed {
      AllLanded(before.tags, after.tags, plan, commit, new_);
    }
  }

  lemma SomeLanded(before: map<Tag, Commit>, after: map<Tag, Commit>, plan: Plan, commit: Commit, new_: seq<Tag>)
    requires new_ == NewTags(before, TagsOf(plan))
    requires forall tag :: tag in before ==> tag in after
    requires forall tag :: tag in after ==> (tag in before || tag in new_) && after[tag] == if tag in before then before[tag] else commit
    ensures SomePlanTags(before, after, plan, commit)
  {
    hide TagsOf;
  }

  lemma AllLanded(before: map<Tag, Commit>, after: map<Tag, Commit>, plan: Plan, commit: Commit, new_: seq<Tag>)
    requires !TagConflict(before, plan, commit) && new_ == NewTags(before, TagsOf(plan))
    requires forall tag :: tag in after <==> tag in before || tag in new_
    requires forall tag :: tag in after ==> after[tag] == if tag in before then before[tag] else commit
    ensures AllPlanTags(after, plan, commit) && after == before + PlanTags(plan, commit)
  {
    assert forall tag :: tag in new_ <==> tag in TagsOf(plan) && tag !in before;
    hide TagsOf, NewTags;
    var all := before + PlanTags(plan, commit);
    forall tag ensures tag in after <==> tag in all {}
    forall tag | tag in all ensures after[tag] == all[tag] {}
    assert after == all;
  }

  lemma ReleaseDone(before: Remote, tagged: Remote, after: Remote, plan: Plan, commit: Commit, ok: bool)
    requires PartWay(before, tagged, plan, commit) && tagged.releases == before.releases && after.tags == tagged.tags
    requires AllPlanTags(tagged.tags, plan, commit) && tagged.tags == before.tags + PlanTags(plan, commit)
    requires OthersKept(tagged.releases, after.releases, plan.product)
    requires var was, now := ReleaseAt(tagged, plan.product), ReleaseAt(after, plan.product);
             && (now == was || now == Some(Prepared(was, plan)) || now == Some(Finished(was, plan)))
             && (ok ==> now == Some(Finished(was, plan)))
    ensures PartWay(before, after, plan, commit)
    ensures ok ==> after == Published(before, plan, commit)
  {
    if ok {
      var published := Published(before, plan, commit).releases;
      hide Finished, Prepared;
      forall tag ensures tag in after.releases <==> tag in published {}
      forall tag | tag in published ensures after.releases[tag] == published[tag] {}
      assert after.releases == published;
    }
  }
}
