/** The catalog of trusted replay baselines: `semantic_replay_identity`, `build` and
    `canonical_markdown_for`. */
module ReplayCatalog {
  import opened Common
  import opened Candidates
  import opened Decisions
  import opened Sorting
  import opened Ranking
  import Replay

  type Markdown = seq<bv8>

  /** The order-preserving digest a request hash is written as. */
  type Digest = RequestKey -> int

  datatype Report = Report(source: Hash, decisions: seq<Record>)

  /** `SemanticDecisionIdentity`; kinds are ranked as their names sort. */
  datatype Key = Key(kind: int, region: RegionId, set_: CandidateSetId, request: int)

  datatype Identity = Identity(source: Hash, decisions: seq<Key>)

  datatype Baseline = Baseline(product: int, identity: Identity, markdown: Markdown, decisions: Report)

  function KindRank(kind: DecisionType): int {
    match kind
    case BlockType => 0
    case ContinuationType => 1
    case ReadingOrderType => 2
    case RecognitionType => 3
    case SpacingType => 4
    case TableType => 5
  }

  function KeyOf(digest: Digest, d: Record): Key {
    Key(KindRank(d.decision), d.region, d.setId, digest(d.request))
  }

  function Keys(digest: Digest, decisions: seq<Record>): (keys: seq<Key>)
    ensures |keys| == |decisions|
  {
    if decisions == [] then [] else [KeyOf(digest, decisions[0])] + Keys(digest, decisions[1..])
  }

  // ---------- sorting ----------

  /** The lexicographic order of the sort key. */
  predicate Before(a: Key, b: Key) {
    if a.kind != b.kind then a.kind < b.kind
    else if a.region != b.region then a.region < b.region
    else if a.set_ != b.set_ then a.set_ < b.set_
    else a.request <= b.request
  }

  lemma BeforeOrders()
    ensures Linear(Before) && Antisymmetric(Before)
  {
  }

  // ---------- identities ----------

  /** `semantic_replay_identity`; nothing when the report is not to be trusted. */
  function IdentityOf(digest: Digest, report: Report): Option<Identity> {
    var keys := Keys(digest, report.decisions);
    if (exists d :: d in report.decisions && d.source != report.source) || !Distinct(Sort(Before, keys)) then None
    else Some(Identity(report.source, Sort(Before, keys)))
  }

  /** Two reports on one source with the same bag of decision keys have the same identity. */
  lemma SameIdentity(digest: Digest, a: Report, b: Report)
    requires a.source == b.source && multiset(Keys(digest, a.decisions)) == multiset(Keys(digest, b.decisions))
    requires IdentityOf(digest, a).Some? && forall d :: d in b.decisions ==> d.source == b.source
    ensures IdentityOf(digest, b) == IdentityOf(digest, a)
  {
    BeforeOrders();
    var x, y := Keys(digest, a.decisions), Keys(digest, b.decisions);
    SortSorts(Before, x);
    SortSorts(Before, y);
    hide Linear, Antisymmetric, Sort, Sorted, Keys;
    OneSorting(Before, Sort(Before, x), Sort(Before, y));
  }

  lemma {:induction false} KeysPermute(digest: Digest, a: seq<Record>, b: seq<Record>)
    requires multiset(a) == multiset(b)
    ensures multiset(Keys(digest, a)) == multiset(Keys(digest, b))
  {
    hide Keys, KeyOf;
    if a == [] {
      assert |multiset(b)| == |b|;
    } else {
      assert a[0] in multiset(b);
      var i :| 0 <= i < |b| && b[i] == a[0];
      RemoveBoth(a, b, i);
      KeysPermute(digest, a[1..], b[..i] + b[i + 1..]);
      assert a == [a[0]] + a[1..] && b == b[..i] + [b[i]] + b[i + 1..];
      KeysConcat(digest, [a[0]], a[1..]);
      KeysConcat(digest, b[..i] + [b[i]], b[i + 1..]);
      KeysConcat(digest, b[..i], [b[i]]);
      KeysConcat(digest, b[..i], b[i + 1..]);
    }
  }

  lemma {:induction false} KeysConcat(digest: Digest, a: seq<Record>, b: seq<Record>)
    ensures Keys(digest, a + b) == Keys(digest, a) + Keys(digest, b)
  {
    if a == [] {
      assert a + b == b;
    } else {
      KeysConcat(digest, a[1..], b);
      assert (a + b)[0] == a[0] && (a + b)[1..] == a[1..] + b;
      ConcatAssociates([KeyOf(digest, a[0])], Keys(digest, a[1..]), Keys(digest, b));
    }
  }

  // ---------- what an identity says ----------

  /** Two decisions of one kind about one region and set, asked for by requests of one digest. */
  predicate SameDecision(digest: Digest, c: Record, d: Record) {
    c.decision == d.decision && c.region == d.region && c.setId == d.setId && digest(c.request) == digest(d.request)
  }

  lemma KeyIff(digest: Digest, c: Record, d: Record)
    ensures KeyOf(digest, c) == KeyOf(digest, d) <==> SameDecision(digest, c, d)
  {
  }

  lemma {:induction false} KeyAt(digest: Digest, decisions: seq<Record>, i: nat)
    requires i < |decisions|
    ensures Keys(digest, decisions)[i] == KeyOf(digest, decisions[i])
  {
    if i > 0 { KeyAt(digest, decisions[1..], i - 1); }
  }

  lemma KeysIff(digest: Digest, decisions: seq<Record>)
    ensures Distinct(Keys(digest, decisions)) <==> forall i, j :: 0 <= i < j < |decisions| ==> !SameDecision(digest, decisions[i], decisions[j])
    ensures forall k :: k in Keys(digest, decisions) <==> exists d :: d in decisions && KeyOf(digest, d) == k
  {
    hide Keys, KeyOf;
    forall i | 0 <= i < |decisions| ensures Keys(digest, decisions)[i] == KeyOf(digest, decisions[i]) { KeyAt(digest, decisions, i); }
    forall c, d ensures KeyOf(digest, c) == KeyOf(digest, d) <==> SameDecision(digest, c, d) { KeyIff(digest, c, d); }
    forall k ensures k in Keys(digest, decisions) <==> exists d :: d in decisions && KeyOf(digest, d) == k {
      if k in Keys(digest, decisions) {
        var i :| 0 <= i < |decisions| && Keys(digest, decisions)[i] == k;
        assert decisions[i] in decisions;
      }
      if d :| d in decisions && KeyOf(digest, d) == k {
        var i :| 0 <= i < |decisions| && decisions[i] == d;
        assert Keys(digest, decisions)[i] == k;
      }
    }
  }

  lemma SortedKeys(digest: Digest, report: Report)
    ensures var keys := Keys(digest, report.decisions);
            multiset(Sort(Before, keys)) == multiset(keys) && (Distinct(Sort(Before, keys)) <==> Distinct(keys))
  {
    BeforeOrders();
    var keys := Keys(digest, report.decisions);
    SortSorts(Before, keys);
    hide Linear, Antisymmetric, Sort, Sorted, Keys;
    var sorted := Sort(Before, keys);
    if Distinct(keys) {
      forall k ensures multiset(sorted)[k] <= 1 { DistinctMultiset(keys, k); }
      BagIsDistinct(sorted);
    }
    if Distinct(sorted) {
      forall k ensures multiset(keys)[k] <= 1 { DistinctMultiset(sorted, k); }
      BagIsDistinct(keys);
    }
  }

  /** A report has an identity exactly when all its decisions are about its source and no two are the same decision. */
  lemma HasIdentityIff(digest: Digest, report: Report)
    ensures IdentityOf(digest, report).Some? <==>
              && (forall d :: d in report.decisions ==> d.source == report.source)
              && forall i, j :: 0 <= i < j < |report.decisions| ==> !SameDecision(digest, report.decisions[i], report.decisions[j])
    ensures IdentityOf(digest, report).Some? ==> IdentityOf(digest, report).value.source == report.source
  {
    hide Keys, Sort, SameDecision;
    SortedKeys(digest, report);
    KeysIff(digest, report.decisions);
  }

  /** Every decision is also one of the others. */
  ghost predicate AlsoIn(digest: Digest, decisions: seq<Record>, others: seq<Record>) {
    forall c :: c in decisions ==> exists d :: d in others && SameDecision(digest, c, d)
  }

  lemma AlsoInIff(digest: Digest, decisions: seq<Record>, others: seq<Record>)
    ensures AlsoIn(digest, decisions, others) <==> forall k :: k in Keys(digest, decisions) ==> k in Keys(digest, others)
  {
    hide Keys, KeyOf, SameDecision;
    KeysIff(digest, decisions);
    KeysIff(digest, others);
    forall c, d ensures KeyOf(digest, c) == KeyOf(digest, d) <==> SameDecision(digest, c, d) { KeyIff(digest, c, d); }
    if forall k :: k in Keys(digest, decisions) ==> k in Keys(digest, others) {
      forall c | c in decisions ensures exists d :: d in others && SameDecision(digest, c, d) {
        assert KeyOf(digest, c) in Keys(digest, others);
      }
    }
  }

  /** Two reports with an identity have the same one exactly when they are about one source and make the same decisions. */
  lemma IdentityIff(digest: Digest, a: Report, b: Report)
    requires IdentityOf(digest, a).Some? && IdentityOf(digest, b).Some?
    ensures IdentityOf(digest, a) == IdentityOf(digest, b) <==>
              a.source == b.source && AlsoIn(digest, a.decisions, b.decisions) && AlsoIn(digest, b.decisions, a.decisions)
  {
    hide Keys, Sort, AlsoIn;
    var x, y := Keys(digest, a.decisions), Keys(digest, b.decisions);
    SortedKeys(digest, a);
    SortedKeys(digest, b);
    AlsoInIff(digest, a.decisions, b.decisions);
    AlsoInIff(digest, b.decisions, a.decisions);
    if IdentityOf(digest, a) == IdentityOf(digest, b) {
      forall k ensures k in x <==> k in y {
        assert k in x <==> k in multiset(x);
        assert k in y <==> k in multiset(y);
      }
    }
    if a.source == b.source && forall k :: k in x <==> k in y {
      SameBag(x, y);
      SameIdentity(digest, a, b);
    }
  }

  /** Bytes come only from an entry that is about the report's source and makes exactly its decisions. */
  lemma BytesAreOfSameDecisions(digest: Digest, baselines: seq<Baseline>, entries: seq<Baseline>, report: Report)
    requires StandsFor(baselines, entries) && forall e :: e in entries ==> Trusted(digest, e)
    requires CanonicalMarkdownFor(digest, baselines, report).Bytes?
    ensures exists e :: e in entries && e.markdown == CanonicalMarkdownFor(digest, baselines, report).markdown
                        && e.decisions.source == report.source
                        && AlsoIn(digest, report.decisions, e.decisions.decisions) && AlsoIn(digest, e.decisions.decisions, report.decisions)
  {
    hide AlsoIn, IdentityOf;
    var e := Grouped(baselines, IdentityOf(digest, report).value).value;
    assert e in entries;
    IdentityIff(digest, report, e.decisions);
  }

  // ---------- the catalog ----------

  datatype Built = Catalog(baselines: seq<Baseline>) | TrustMismatch | BaselineConflict

  predicate Trusted(digest: Digest, entry: Baseline) {
    IdentityOf(digest, entry.decisions) == Some(entry.identity)
  }

  predicate Conflicting(a: Baseline, b: Baseline) {
    a.identity == b.identity && a.markdown != b.markdown
  }

  /** The entry grouped under an identity, if any. */
  function Grouped(baselines: seq<Baseline>, identity: Identity): (r: Option<Baseline>)
    ensures r.Some? ==> r.value in baselines && r.value.identity == identity
    ensures r.None? ==> forall b :: b in baselines ==> b.identity != identity
  {
    if baselines == [] then None
    else if baselines[0].identity == identity then Some(baselines[0])
    else Grouped(baselines[1..], identity)
  }

  predicate OnePerIdentity(baselines: seq<Baseline>) {
    forall i, j :: 0 <= i < j < |baselines| ==> baselines[i].identity != baselines[j].identity
  }

  /** The bytes grouped under the entry's identity are its own. */
  predicate Represents(baselines: seq<Baseline>, e: Baseline) {
    Grouped(baselines, e.identity).Some? && Grouped(baselines, e.identity).value.markdown == e.markdown
  }

  /** The catalog stands for the entries: it holds some of them, one for each identity, and the
      bytes of every entry. */
  ghost predicate StandsFor(baselines: seq<Baseline>, entries: seq<Baseline>) {
    && OnePerIdentity(baselines)
    && (forall b :: b in baselines ==> b in entries)
    && forall e :: e in entries ==> Represents(baselines, e)
  }

  lemma GroupedAfter(baselines: seq<Baseline>, entry: Baseline, identity: Identity)
    requires Grouped(baselines, entry.identity).None?
    ensures Grouped(baselines + [entry], identity) == if identity == entry.identity then Some(entry) else Grouped(baselines, identity)
    decreases |baselines|
  {
    var all := baselines + [entry];
    if baselines == [] {
      assert all[1..] == [];
    } else {
      assert all[1..] == baselines[1..] + [entry];
      GroupedAfter(baselines[1..], entry, identity);
    }
  }

  lemma StandsAfter(baselines: seq<Baseline>, entries: seq<Baseline>, entry: Baseline)
    requires StandsFor(baselines, entries)
    requires Grouped(baselines, entry.identity).Some? ==> Represents(baselines, entry)
    ensures StandsFor(if Grouped(baselines, entry.identity).Some? then baselines else baselines + [entry], entries + [entry])
  {
    hide Represents, Grouped;
    if Grouped(baselines, entry.identity).None? {
      forall e | e in entries || e == entry ensures Represents(baselines + [entry], e) {
        RepresentedAfter(baselines, entry, e);
      }
    }
  }

  lemma RepresentedAfter(baselines: seq<Baseline>, entry: Baseline, e: Baseline)
    requires Grouped(baselines, entry.identity).None? && (e == entry || Represents(baselines, e))
    ensures Represents(baselines + [entry], e)
  {
    GroupedAfter(baselines, entry, e.identity);
  }

  /** All are trusted, and no two disagree. */
  ghost predicate Agreeing(digest: Digest, entries: seq<Baseline>) {
    && (forall e :: e in entries ==> Trusted(digest, e))
    && forall a, b :: a in entries && b in entries ==> !Conflicting(a, b)
  }

  lemma NothingStands(digest: Digest)
    ensures Agreeing(digest, []) && StandsFor([], [])
  {
  }

  /** One more trusted entry agrees with the others when what is grouped under its identity, if anything, has its bytes. */
  lemma AgreesAfter(digest: Digest, baselines: seq<Baseline>, entries: seq<Baseline>, entry: Baseline)
    requires Agreeing(digest, entries) && StandsFor(baselines, entries) && Trusted(digest, entry)
    requires Grouped(baselines, entry.identity).Some? ==> Represents(baselines, entry)
    ensures Agreeing(digest, entries + [entry])
  {
    hide Trusted, Grouped;
    forall a | a in entries ensures !Conflicting(a, entry) && !Conflicting(entry, a) {
      assert Represents(baselines, a);
    }
  }

  lemma GroupedIsEntry(baselines: seq<Baseline>, entries: seq<Baseline>, identity: Identity)
    requires StandsFor(baselines, entries) && Grouped(baselines, identity).Some?
    ensures Grouped(baselines, identity).value in entries && Grouped(baselines, identity).value.identity == identity
  {
    hide Represents;
  }

  /** `SemanticReplayCatalog.build` succeeds exactly on trusted entries no two of which disagree
      in bytes under one identity. */
  method Build(digest: Digest, entries: seq<Baseline>) returns (r: Built)
    ensures r.Catalog? <==>
              && (forall e :: e in entries ==> Trusted(digest, e))
              && forall a, b :: a in entries && b in entries ==> !Conflicting(a, b)
    ensures r.Catalog? ==> StandsFor(r.baselines, entries)
    ensures r == BaselineConflict ==> exists a, b :: a in entries && b in entries && Trusted(digest, b) && Conflicting(a, b)
  {
    hide Trusted, Grouped, StandsFor;
    var grouped := [];
    NothingStands(digest);
    for i := 0 to |entries|
      invariant StandsFor(grouped, entries[..i])
      invariant Agreeing(digest, entries[..i])
    {
      var entry := entries[i];
      assert entries[..i + 1] == entries[..i] + [entry] && entry in entries;
      if !IsTrusted(digest, entry) { return TrustMismatch; }
      var existing := Grouped(grouped, entry.identity);
      if existing.Some? { GroupedIsEntry(grouped, entries[..i], entry.identity); }
      if existing.Some? && existing.value.markdown != entry.markdown {
        assert Conflicting(existing.value, entry) && existing.value in entries;
        return BaselineConflict;
      }
      AgreesAfter(digest, grouped, entries[..i], entry);
      StandsAfter(grouped, entries[..i], entry);
      if existing.None? { grouped := grouped + [entry]; }
    }
    assert entries[..|entries|] == entries;
    r := Catalog(grouped);
  }

  function IsTrusted(digest: Digest, entry: Baseline): (r: bool)
    ensures r <==> Trusted(digest, entry)
  {
    Trusted(digest, entry)
  }

  datatype Lookup = Bytes(markdown: Markdown) | Absent | Untrusted

  /** `canonical_markdown_for`. */
  function CanonicalMarkdownFor(digest: Digest, baselines: seq<Baseline>, report: Report): Lookup {
    var identity := IdentityOf(digest, report);
    if identity.None? then Untrusted
    else
      var found := Grouped(baselines, identity.value);
      if found.None? then Absent else Bytes(found.value.markdown)
  }

  // ---------- what looking up returns ----------

  /** The report makes the entry's decisions, in any order and from whatever source each came. */
  predicate SameDecisions(digest: Digest, report: Report, entry: Baseline) {
    && report.source == entry.decisions.source
    && multiset(Keys(digest, report.decisions)) == multiset(Keys(digest, entry.decisions.decisions))
    && forall d :: d in report.decisions ==> d.source == report.source
  }

  /** Every entry's bytes are returned for every report that makes its decisions. */
  lemma EntriesAreFound(digest: Digest, baselines: seq<Baseline>, entries: seq<Baseline>, entry: Baseline, report: Report)
    requires StandsFor(baselines, entries) && entry in entries && Trusted(digest, entry)
    requires SameDecisions(digest, report, entry)
    ensures CanonicalMarkdownFor(digest, baselines, report) == Bytes(entry.markdown)
  {
    SameIdentity(digest, entry.decisions, report);
  }

  /** Bytes are only returned for a report that has the identity of an entry. */
  lemma OnlyEntriesAreFound(digest: Digest, baselines: seq<Baseline>, entries: seq<Baseline>, report: Report)
    requires StandsFor(baselines, entries)
    ensures CanonicalMarkdownFor(digest, baselines, report).Bytes? <==>
              exists e :: e in entries && IdentityOf(digest, report) == Some(e.identity)
  {
    if CanonicalMarkdownFor(digest, baselines, report).Bytes? {
      assert Grouped(baselines, IdentityOf(digest, report).value).value in entries;
    }
  }

  /** The order of the entries does not matter. */
  lemma EntryOrderIsIrrelevant(digest: Digest, a: seq<Baseline>, b: seq<Baseline>, first: seq<Baseline>, second: seq<Baseline>, report: Report)
    requires multiset(a) == multiset(b) && StandsFor(first, a) && StandsFor(second, b)
    ensures CanonicalMarkdownFor(digest, first, report) == CanonicalMarkdownFor(digest, second, report)
  {
    forall e ensures e in a <==> e in b { assert e in multiset(a) <==> e in multiset(b); }
    OnlyEntriesAreFound(digest, first, a, report);
    OnlyEntriesAreFound(digest, second, b, report);
    if e :| e in a && IdentityOf(digest, report) == Some(e.identity) {
      assert Grouped(first, e.identity).value.markdown == e.markdown;
      assert Grouped(second, e.identity).value.markdown == e.markdown;
    }
  }

  /** A permutation of an entry's decisions finds its bytes. */
  lemma PermutationIsFound(digest: Digest, baselines: seq<Baseline>, entries: seq<Baseline>, entry: Baseline, decisions: seq<Record>)
    requires StandsFor(baselines, entries) && entry in entries && Trusted(digest, entry)
    requires multiset(decisions) == multiset(entry.decisions.decisions)
    ensures CanonicalMarkdownFor(digest, baselines, Report(entry.decisions.source, decisions)) == Bytes(entry.markdown)
  {
    KeysPermute(digest, decisions, entry.decisions.decisions);
    forall d | d in decisions ensures d.source == entry.decisions.source {
      assert d in multiset(entry.decisions.decisions);
    }
    EntriesAreFound(digest, baselines, entries, entry, Report(entry.decisions.source, decisions));
  }

  lemma {:induction false} ReplayedKeys(digest: Digest, jobs: seq<Job>, records: seq<Record>, source: Hash)
    requires |jobs| == |records|
    ensures Keys(digest, Replay.Replays(jobs, records)) == Keys(digest, records)
    ensures (forall d :: d in records ==> d.source == source) ==> forall d :: d in Replay.Replays(jobs, records) ==> d.source == source
  {
    if jobs != [] {
      ReplayedKeys(digest, jobs[1..], records[1..], source);
      ReplayedKey(digest, jobs[0], records[0]);
      hide KeyOf, Replay.Replayed;
      var replayed := Replay.Replays(jobs, records);
      assert replayed[0] == Replay.Replayed(jobs[0], records[0]) && replayed[1..] == Replay.Replays(jobs[1..], records[1..]);
      if forall d :: d in records ==> d.source == source {
        assert records[0] in records;
        assert forall d :: d in records[1..] ==> d in records;
        assert forall d :: d in replayed ==> d == replayed[0] || d in replayed[1..];
      }
    }
  }

  lemma ReplayedKey(digest: Digest, job: Job, d: Record)
    ensures KeyOf(digest, Replay.Replayed(job, d)) == KeyOf(digest, d) && Replay.Replayed(job, d).source == d.source
  {
  }

  /** The records a replay returns find the bytes stored for the run it replays. */
  lemma ReplayIsFound(digest: Digest, baselines: seq<Baseline>, entries: seq<Baseline>, entry: Baseline, jobs: seq<Job>)
    requires StandsFor(baselines, entries) && entry in entries && Trusted(digest, entry)
    requires |jobs| == |entry.decisions.decisions|
    ensures CanonicalMarkdownFor(digest, baselines,
              Report(entry.decisions.source, Replay.Replays(jobs, entry.decisions.decisions))) == Bytes(entry.markdown)
  {
    hide Keys, Replay.Replays, Sort, Grouped, StandsFor, CanonicalMarkdownFor;
    ReplayedKeys(digest, jobs, entry.decisions.decisions, entry.decisions.source);
    EntriesAreFound(digest, baselines, entries, entry, Report(entry.decisions.source, Replay.Replays(jobs, entry.decisions.decisions)));
  }
}
