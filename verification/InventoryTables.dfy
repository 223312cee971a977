/** Which raw tables the House inventory is built from: the producer's queries, checks and counts
    restated as conditions on the places of the tables, and proved equivalent. */
module InventoryTables {
  import opened AuditTypes
  import opened HouseInventory

  // ---- the conditions ---------------------------------------------------------------------

  /** A periodic transaction report of the archive year and generation. */
  predicate Filed(m: Metadata, year: int, gen: string) {
    m.year == year && m.gen == gen && m.isPtr
  }

  predicate Stored(a: Artifact, year: int, gen: string) {
    a.year == year && a.gen == gen
  }

  /** A finished run of the year over exactly this artifact. */
  predicate RanOver(r: Run, year: int, gen: string, d: DocId, sha: string) {
    && (r.status == RunSuccess || r.status == RunNoTxs)
    && r.docId == d && r.year == year && r.gen == gen && r.sha == Some(sha)
  }

  ghost predicate OnlyRun(runs: seq<Run>, k: nat, year: int, gen: string, d: DocId, sha: string) {
    && k < |runs| && RanOver(runs[k], year, gen, d, sha)
    && forall n :: 0 <= n < |runs| && n != k ==> !RanOver(runs[n], year, gen, d, sha)
  }

  /** Where the document's rows of the generation are. */
  ghost function DocPlaces(txs: seq<Tx>, gen: string, d: DocId): set<nat> {
    set k: nat | k < |txs| && txs[k].gen == gen && txs[k].docId == d
  }

  predicate HouseRow(t: Tx) {
    t.recordId == Some(t.docId) && t.chamber.Some? && Lower(Trim(t.chamber.value)) == "house"
  }

  /** All the document's rows of the generation are House rows of this artifact and source, as many as the
      run says twice. */
  ghost predicate Supported(db: Database, gen: string, d: DocId, sha: string, run: Run, source: Source) {
    var places := DocPlaces(db.txs, gen, d);
    && (forall k :: k in places ==> db.txs[k].source == source && db.txs[k].sha == Some(sha) && HouseRow(db.txs[k]))
    && run.raw == Some(|places|) && run.count == Some(|places|)
    && (if run.status == RunSuccess then |places| > 0 else |places| == 0)
  }

  ghost predicate Ready(db: Database, year: int, gen: string, m: Metadata, sha: string, sourceOf: SourceMap) {
    && m.member.Some? && m.filed.Some?
    && exists k: nat :: OnlyRun(db.runs, k, year, gen, m.docId, sha) && !Missing(db.runs[k].parser)
                     && Supported(db, gen, m.docId, sha, db.runs[k], sourceOf(db.runs[k].parser, db.runs[k].engines))
  }

  predicate HexDigit(c: char) {
    c in "0123456789abcdef"
  }

  /** The artifact has a digest of 64 lower-case hexadecimal digits. */
  predicate Digested(a: Artifact) {
    a.sha.Some? && |a.sha.value| == 64 && forall i :: 0 <= i < 64 ==> HexDigit(a.sha.value[i])
  }

  ghost predicate FilingsDiffer(rows: seq<Metadata>, year: int, gen: string) {
    forall i, j :: 0 <= i < j < |rows| && Filed(rows[i], year, gen) && Filed(rows[j], year, gen) ==>
      rows[i].docId != rows[j].docId
  }

  ghost predicate ArtifactsDiffer(rows: seq<Artifact>, year: int, gen: string) {
    forall i, j :: 0 <= i < j < |rows| && Stored(rows[i], year, gen) && Stored(rows[j], year, gen) ==>
      rows[i].docId != rows[j].docId
  }

  /** The filing has its artifact, and is ready with it. */
  ghost predicate FilingReady(db: Database, year: int, gen: string, m: Metadata, sourceOf: SourceMap) {
    exists a :: a in db.artifacts && Stored(a, year, gen) && a.docId == m.docId && a.sha.Some?
             && Ready(db, year, gen, m, a.sha.value, sourceOf)
  }

  ghost predicate HasFiling(rows: seq<Metadata>, year: int, gen: string, d: DocId) {
    exists m :: m in rows && Filed(m, year, gen) && m.docId == d
  }

  // ---- the queries --------------------------------------------------------------------------

  lemma {:induction false} FilingsExact(rows: seq<Metadata>, year: int, gen: string)
    ensures forall m :: m in PtrMetadata(rows, year, gen) <==> m in rows && Filed(m, year, gen)
    ensures DistinctDocs(PtrMetadata(rows, year, gen)) <==> FilingsDiffer(rows, year, gen)
  {
    if rows != [] {
      var last := |rows| - 1;
      var rest, m := rows[..last], rows[last];
      FilingsExact(rest, year, gen);
      assert rows == rest + [m];
      FilingsSnoc(rest, m, year, gen);
      DistinctSnoc(PtrMetadata(rest, year, gen), m);
    }
  }

  lemma FilingsSnoc(rest: seq<Metadata>, m: Metadata, year: int, gen: string)
    ensures FilingsDiffer(rest + [m], year, gen)
       <==> FilingsDiffer(rest, year, gen)
            && (Filed(m, year, gen) ==> forall n :: n in rest && Filed(n, year, gen) ==> n.docId != m.docId)
  {
    var rows := rest + [m];
    assert rows[|rest|] == m && forall i :: 0 <= i < |rest| ==> rows[i] == rest[i];
    if FilingsDiffer(rows, year, gen) {
      forall i, j | 0 <= i < j < |rest| && Filed(rest[i], year, gen) && Filed(rest[j], year, gen)
        ensures rest[i].docId != rest[j].docId
      {
        assert rows[i].docId != rows[j].docId;
      }
      forall n | Filed(m, year, gen) && n in rest && Filed(n, year, gen)
        ensures n.docId != m.docId
      {
        var i :| 0 <= i < |rest| && rest[i] == n;
        assert rows[i].docId != rows[|rest|].docId;
      }
    }
  }

  lemma DistinctSnoc(rest: seq<Metadata>, m: Metadata)
    ensures DistinctDocs(rest + [m]) <==> DistinctDocs(rest) && forall n :: n in rest ==> n.docId != m.docId
  {
    var rows := rest + [m];
    assert rows[|rest|] == m && forall i :: 0 <= i < |rest| ==> rows[i] == rest[i];
    if DistinctDocs(rows) {
      forall i, j | 0 <= i < j < |rest|
        ensures rest[i].docId != rest[j].docId
      {
        assert rows[i].docId != rows[j].docId;
      }
      forall n | n in rest
        ensures n.docId != m.docId
      {
        var i :| 0 <= i < |rest| && rest[i] == n;
        assert rows[i].docId != rows[|rest|].docId;
      }
    }
  }

  ghost predicate OnePerDoc(rows: seq<Artifact>) {
    forall i, j :: 0 <= i < j < |rows| ==> rows[i].docId != rows[j].docId
  }

  lemma {:induction false} ArtifactsExact(rows: seq<Artifact>, year: int, gen: string)
    ensures forall a :: a in ArtifactsOf(rows, year, gen) <==> a in rows && Stored(a, year, gen)
    ensures OnePerDoc(ArtifactsOf(rows, year, gen)) <==> ArtifactsDiffer(rows, year, gen)
  {
    if rows != [] {
      var last := |rows| - 1;
      var rest, a := rows[..last], rows[last];
      ArtifactsExact(rest, year, gen);
      assert rows == rest + [a];
      ArtifactsSnoc(rest, a, year, gen);
      OnePerDocSnoc(ArtifactsOf(rest, year, gen), a);
    }
  }

  lemma ArtifactsSnoc(rest: seq<Artifact>, a: Artifact, year: int, gen: string)
    ensures ArtifactsDiffer(rest + [a], year, gen)
       <==> ArtifactsDiffer(rest, year, gen)
            && (Stored(a, year, gen) ==> forall n :: n in rest && Stored(n, year, gen) ==> n.docId != a.docId)
  {
    var rows := rest + [a];
    assert rows[|rest|] == a && forall i :: 0 <= i < |rest| ==> rows[i] == rest[i];
    if ArtifactsDiffer(rows, year, gen) {
      forall i, j | 0 <= i < j < |rest| && Stored(rest[i], year, gen) && Stored(rest[j], year, gen)
        ensures rest[i].docId != rest[j].docId
      {
        assert rows[i].docId != rows[j].docId;
      }
      forall n | Stored(a, year, gen) && n in rest && Stored(n, year, gen)
        ensures n.docId != a.docId
      {
        var i :| 0 <= i < |rest| && rest[i] == n;
        assert rows[i].docId != rows[|rest|].docId;
      }
    }
  }

  lemma OnePerDocSnoc(rest: seq<Artifact>, a: Artifact)
    ensures OnePerDoc(rest + [a]) <==> OnePerDoc(rest) && forall n :: n in rest ==> n.docId != a.docId
  {
    var rows := rest + [a];
    assert rows[|rest|] == a && forall i :: 0 <= i < |rest| ==> rows[i] == rest[i];
    if OnePerDoc(rows) {
      forall i, j | 0 <= i < j < |rest|
        ensures rest[i].docId != rest[j].docId
      {
        assert rows[i].docId != rows[j].docId;
      }
      forall n | n in rest
        ensures n.docId != a.docId
      {
        var i :| 0 <= i < |rest| && rest[i] == n;
        assert rows[i].docId != rows[|rest|].docId;
      }
    }
  }

  // ---- one document ---------------------------------------------------------------------------

  ghost function RunPlaces(runs: seq<Run>, q: RunQuery): set<nat> {
    set k: nat | k < |runs| && q.Keeps(runs[k])
  }

  lemma RunPlacesSnoc(runs: seq<Run>, r: Run, q: RunQuery)
    ensures RunPlaces(runs + [r], q) == RunPlaces(runs, q) + if q.Keeps(r) then {|runs|} else {}
  {
    var all := runs + [r];
    assert all[|runs|] == r;
    forall k: nat | k < |runs|
      ensures k in RunPlaces(all, q) <==> k in RunPlaces(runs, q)
    {
      assert all[k] == runs[k];
    }
  }

  lemma {:induction false} CandidatesCount(runs: seq<Run>, q: RunQuery)
    ensures |Candidates(runs, q)| == |RunPlaces(runs, q)|
  {
    if runs == [] {
      assert RunPlaces(runs, q) == {};
    } else {
      var last := |runs| - 1;
      CandidatesCount(runs[..last], q);
      RunPlacesSnoc(runs[..last], runs[last], q);
      assert runs == runs[..last] + [runs[last]];
    }
  }

  lemma OneCandidate(runs: seq<Run>, q: RunQuery, k: nat)
    requires k < |runs| && q.Keeps(runs[k]) && forall n :: 0 <= n < |runs| && n != k ==> !q.Keeps(runs[n])
    ensures Candidates(runs, q) == [runs[k]]
  {
    CandidatesCount(runs, q);
    assert RunPlaces(runs, q) == {k};
    CandidateStays(runs, k, q);
  }

  lemma CandidatesAreOne(runs: seq<Run>, q: RunQuery) returns (k: nat)
    requires |Candidates(runs, q)| == 1
    ensures k < |runs| && q.Keeps(runs[k]) && forall n :: 0 <= n < |runs| && n != k ==> !q.Keeps(runs[n])
  {
    CandidatesCount(runs, q);
    var places := RunPlaces(runs, q);
    assert places != {};
    k :| k in places;
    SubsetOfSameSize({k}, places);
    forall n | 0 <= n < |runs| && n != k
      ensures !q.Keeps(runs[n])
    {
      assert n !in places;
    }
  }

  ghost function Places(txs: seq<Tx>, q: TxQuery): set<nat> {
    set k: nat | k < |txs| && q.Keeps(txs[k])
  }

  lemma PlacesSnoc(txs: seq<Tx>, t: Tx, q: TxQuery)
    ensures Places(txs + [t], q) == Places(txs, q) + if q.Keeps(t) then {|txs|} else {}
  {
    var all := txs + [t];
    assert all[|txs|] == t;
    forall k: nat | k < |txs|
      ensures k in Places(all, q) <==> k in Places(txs, q)
    {
      assert all[k] == txs[k];
    }
  }

  lemma {:induction false} CountIsPlaces(txs: seq<Tx>, q: TxQuery)
    ensures CountTxs(txs, q) == |Places(txs, q)|
  {
    if txs == [] {
      assert Places(txs, q) == {};
    } else {
      var last := |txs| - 1;
      CountIsPlaces(txs[..last], q);
      PlacesSnoc(txs[..last], txs[last], q);
      assert txs == txs[..last] + [txs[last]];
    }
  }

  ghost predicate AllHouse(txs: seq<Tx>, gen: string, d: DocId, sha: string, source: Source) {
    forall k :: k in DocPlaces(txs, gen, d) ==> txs[k].source == source && txs[k].sha == Some(sha) && HouseRow(txs[k])
  }

  /** The two counts of the producer that must agree, and the one that must be 0, say that all the document's
      rows are House rows of the group. */
  lemma AllHouseExactly(txs: seq<Tx>, gen: string, d: DocId, sha: string, source: Source)
    ensures CountTxs(txs, OfDoc(gen, d)) == |DocPlaces(txs, gen, d)|
    ensures AllHouse(txs, gen, d, sha, source)
       <==> (CountTxs(txs, BadInGroup(gen, d, source, sha)) == 0
             && CountTxs(txs, OfDoc(gen, d)) == CountTxs(txs, InGroup(gen, d, source, sha)))
  {
    var all, mine, bad := OfDoc(gen, d), InGroup(gen, d, source, sha), BadInGroup(gen, d, source, sha);
    CountIsPlaces(txs, all);
    CountIsPlaces(txs, bad);
    CountImplies(txs, mine, all);
    assert Places(txs, all) == DocPlaces(txs, gen, d);
    if AllHouse(txs, gen, d, sha, source) {
      forall k: nat | k < |txs|
        ensures k !in Places(txs, bad) && (all.Keeps(txs[k]) ==> mine.Keeps(txs[k]))
      {
        assert k in DocPlaces(txs, gen, d) ==> HouseRow(txs[k]);
      }
      assert Places(txs, bad) == {};
    }
    if CountTxs(txs, bad) == 0 && CountTxs(txs, all) == CountTxs(txs, mine) {
      assert Places(txs, bad) == {};
      forall k | k in DocPlaces(txs, gen, d)
        ensures txs[k].source == source && txs[k].sha == Some(sha) && HouseRow(txs[k])
      {
        assert all.Keeps(txs[k]) && k !in Places(txs, bad);
      }
    }
  }

  lemma SupportedExactly(db: Database, gen: string, d: DocId, sha: string, run: Run, sourceOf: SourceMap)
    requires run.Terminal()
    ensures var source := sourceOf(run.parser, run.engines);
            (RunAccepted(db, gen, d, sha, run, sourceOf)
             && CountTxs(db.txs, OfDoc(gen, d)) == CountTxs(db.txs, InGroup(gen, d, source, sha)))
            <==> !Missing(run.parser) && Supported(db, gen, d, sha, run, source)
  {
    AllHouseExactly(db.txs, gen, d, sha, sourceOf(run.parser, run.engines));
  }

  lemma ReadyExactly(db: Database, year: int, gen: string, m: Metadata, sha: string, sourceOf: SourceMap)
    ensures DocReady(db, year, gen, m, sha, sourceOf) <==> Ready(db, year, gen, m, sha, sourceOf)
  {
    var q := InYear(year, gen, m.docId, sha);
    assert forall r: Run :: q.Keeps(r) <==> RanOver(r, year, gen, m.docId, sha);
    if DocReady(db, year, gen, m, sha, sourceOf) {
      var k := CandidatesAreOne(db.runs, q);
      OneCandidate(db.runs, q, k);
      SupportedExactly(db, gen, m.docId, sha, db.runs[k], sourceOf);
      assert OnlyRun(db.runs, k, year, gen, m.docId, sha);
    }
    if Ready(db, year, gen, m, sha, sourceOf) {
      var k: nat :| OnlyRun(db.runs, k, year, gen, m.docId, sha) && !Missing(db.runs[k].parser)
                 && Supported(db, gen, m.docId, sha, db.runs[k], sourceOf(db.runs[k].parser, db.runs[k].engines));
      OneCandidate(db.runs, q, k);
      SupportedExactly(db, gen, m.docId, sha, db.runs[k], sourceOf);
    }
  }

  // ---- the whole inventory ----------------------------------------------------------------------

  /** The tables the inventory is built from: filings and artifacts of the generation pair off one to one
      by document, every artifact has a digest, and every filing is ready with its artifact. */
  ghost predicate Acceptable(db: Database, year: int, gen: string, sourceOf: SourceMap) {
    && FilingsDiffer(db.metadata, year, gen) && ArtifactsDiffer(db.artifacts, year, gen)
    && ArtifactsPaired(db, year, gen) && FilingsReady(db, year, gen, sourceOf)
  }

  ghost predicate ArtifactsPaired(db: Database, year: int, gen: string) {
    forall a :: a in db.artifacts && Stored(a, year, gen) ==> Digested(a) && HasFiling(db.metadata, year, gen, a.docId)
  }

  ghost predicate FilingsReady(db: Database, year: int, gen: string, sourceOf: SourceMap) {
    forall m :: m in db.metadata && Filed(m, year, gen) ==> FilingReady(db, year, gen, m, sourceOf)
  }

  lemma HexExact(c: char)
    ensures HexDigit(c) <==> '0' <= c <= '9' || 'a' <= c <= 'f'
  {
    var digits := "0123456789abcdef";
    if '0' <= c <= '9' {
      assert digits[c as int - '0' as int] == c;
    }
    if 'a' <= c <= 'f' {
      assert digits[c as int - 'a' as int + 10] == c;
    }
  }

  lemma DigestedExactly(a: Artifact)
    ensures Digested(a) <==> a.sha.Some? && IsDigest(a.sha.value)
  {
    if a.sha.Some? && |a.sha.value| == 64 {
      forall i | 0 <= i < 64
        ensures HexDigit(a.sha.value[i]) <==> '0' <= a.sha.value[i] <= '9' || 'a' <= a.sha.value[i] <= 'f'
      {
        HexExact(a.sha.value[i]);
      }
    }
  }

  lemma {:induction false} IndexOf(rows: seq<Artifact>) returns (shas: map<DocId, string>)
    requires OnePerDoc(rows) && forall a :: a in rows ==> Digested(a)
    ensures IsIndex(shas, rows)
  {
    if rows == [] {
      shas := map[];
    } else {
      var last := |rows| - 1;
      var before := IndexOf(rows[..last]);
      DigestedExactly(rows[last]);
      assert !HasArtifact(rows[..last], rows[last].docId);
      IndexGrows(before, rows, last);
      assert rows[..last + 1] == rows;
      shas := before[rows[last].docId := rows[last].sha.value];
    }
  }

  lemma IndexedArtifact(shas: map<DocId, string>, rows: seq<Artifact>, d: DocId) returns (a: Artifact)
    requires IsIndex(shas, rows) && d in shas
    ensures a in rows && a.docId == d && a.sha == Some(shas[d])
  {
    assert HasArtifact(rows, d);
    var i :| 0 <= i < |rows| && rows[i].docId == d;
    assert Indexed(shas, rows[i]);
    a := rows[i];
  }

  lemma StoredIsPaired(db: Database, year: int, gen: string, shas: map<DocId, string>, a: Artifact)
    requires IsIndex(shas, ArtifactsOf(db.artifacts, year, gen)) && SameDocs(PtrMetadata(db.metadata, year, gen), shas)
    requires a in db.artifacts && Stored(a, year, gen)
    ensures Digested(a) && HasFiling(db.metadata, year, gen, a.docId)
  {
    var meta, stored := PtrMetadata(db.metadata, year, gen), ArtifactsOf(db.artifacts, year, gen);
    FilingsExact(db.metadata, year, gen);
    ArtifactsExact(db.artifacts, year, gen);
    var i :| 0 <= i < |stored| && stored[i] == a;
    assert Indexed(shas, stored[i]);
    DigestedExactly(a);
    var k :| 0 <= k < |meta| && meta[k].docId == a.docId;
    assert meta[k] in meta;
  }

  lemma FiledIsPaired(db: Database, year: int, gen: string, shas: map<DocId, string>, sourceOf: SourceMap, m: Metadata)
    requires IsIndex(shas, ArtifactsOf(db.artifacts, year, gen))
    requires m.docId in shas && DocReady(db, year, gen, m, shas[m.docId], sourceOf)
    ensures FilingReady(db, year, gen, m, sourceOf)
  {
    ArtifactsExact(db.artifacts, year, gen);
    var a := IndexedArtifact(shas, ArtifactsOf(db.artifacts, year, gen), m.docId);
    ReadyExactly(db, year, gen, m, shas[m.docId], sourceOf);
  }

  lemma AllPaired(db: Database, year: int, gen: string, shas: map<DocId, string>)
    requires IsIndex(shas, ArtifactsOf(db.artifacts, year, gen)) && SameDocs(PtrMetadata(db.metadata, year, gen), shas)
    ensures ArtifactsPaired(db, year, gen)
  {
    forall a | a in db.artifacts && Stored(a, year, gen)
      ensures Digested(a) && HasFiling(db.metadata, year, gen, a.docId)
    {
      StoredIsPaired(db, year, gen, shas, a);
    }
  }

  lemma AllFilingsReady(db: Database, year: int, gen: string, shas: map<DocId, string>, sourceOf: SourceMap)
    requires IsIndex(shas, ArtifactsOf(db.artifacts, year, gen))
    requires AllReady(db, year, gen, PtrMetadata(db.metadata, year, gen), shas, sourceOf)
    ensures FilingsReady(db, year, gen, sourceOf)
  {
    var meta := PtrMetadata(db.metadata, year, gen);
    FilingsExact(db.metadata, year, gen);
    forall m | m in db.metadata && Filed(m, year, gen)
      ensures FilingReady(db, year, gen, m, sourceOf)
    {
      var k :| 0 <= k < |meta| && meta[k] == m;
      assert ReadyIn(db, year, gen, meta[k], shas, sourceOf);
      FiledIsPaired(db, year, gen, shas, sourceOf, m);
    }
  }

  lemma InventoriableMeans(db: Database, year: int, gen: string, sourceOf: SourceMap)
    requires Inventoriable(db, year, gen, sourceOf)
    ensures Acceptable(db, year, gen, sourceOf)
  {
    var meta := PtrMetadata(db.metadata, year, gen);
    var shas: map<DocId, string> :| && IsIndex(shas, ArtifactsOf(db.artifacts, year, gen))
                                    && SameDocs(meta, shas) && AllReady(db, year, gen, meta, shas, sourceOf);
    AllPaired(db, year, gen, shas);
    AllFilingsReady(db, year, gen, shas, sourceOf);
    FilingsExact(db.metadata, year, gen);
    ArtifactsExact(db.artifacts, year, gen);
  }

  lemma AllIndexed(db: Database, year: int, gen: string) returns (shas: map<DocId, string>)
    requires ArtifactsDiffer(db.artifacts, year, gen) && ArtifactsPaired(db, year, gen)
    ensures IsIndex(shas, ArtifactsOf(db.artifacts, year, gen))
  {
    ArtifactsExact(db.artifacts, year, gen);
    shas := IndexOf(ArtifactsOf(db.artifacts, year, gen));
  }

  lemma AllFiledReady(db: Database, year: int, gen: string, shas: map<DocId, string>, sourceOf: SourceMap)
    requires FilingsReady(db, year, gen, sourceOf) && IsIndex(shas, ArtifactsOf(db.artifacts, year, gen))
    ensures AllReady(db, year, gen, PtrMetadata(db.metadata, year, gen), shas, sourceOf)
  {
    var meta, stored := PtrMetadata(db.metadata, year, gen), ArtifactsOf(db.artifacts, year, gen);
    FilingsExact(db.metadata, year, gen);
    ArtifactsExact(db.artifacts, year, gen);
    forall k | 0 <= k < |meta|
      ensures ReadyIn(db, year, gen, meta[k], shas, sourceOf)
    {
      assert meta[k] in meta;
      FiledIsReady(db, year, gen, meta[k], stored, shas, sourceOf);
    }
  }

  lemma AcceptableIsInventoriable(db: Database, year: int, gen: string, sourceOf: SourceMap)
    requires Acceptable(db, year, gen, sourceOf)
    ensures Inventoriable(db, year, gen, sourceOf)
  {
    var meta := PtrMetadata(db.metadata, year, gen);
    var shas := AllIndexed(db, year, gen);
    AllFiledReady(db, year, gen, shas, sourceOf);
    FilingsExact(db.metadata, year, gen);
    forall k | 0 <= k < |meta|
      ensures meta[k].docId in shas
    {
      assert ReadyIn(db, year, gen, meta[k], shas, sourceOf);
    }
    forall d | d in shas
      ensures exists i :: 0 <= i < |meta| && meta[i].docId == d
    {
      IndexedIsFiled(db, year, gen, shas, d);
    }
  }

  lemma IndexedIsFiled(db: Database, year: int, gen: string, shas: map<DocId, string>, d: DocId)
    requires IsIndex(shas, ArtifactsOf(db.artifacts, year, gen)) && d in shas
    requires ArtifactsPaired(db, year, gen)
    ensures var meta := PtrMetadata(db.metadata, year, gen);
            exists i :: 0 <= i < |meta| && meta[i].docId == d
  {
    FilingsExact(db.metadata, year, gen);
    ArtifactsExact(db.artifacts, year, gen);
    var a := IndexedArtifact(shas, ArtifactsOf(db.artifacts, year, gen), d);
    var m :| m in db.metadata && Filed(m, year, gen) && m.docId == d;
    assert m in PtrMetadata(db.metadata, year, gen);
  }

  lemma FiledIsReady(db: Database, year: int, gen: string, m: Metadata, stored: seq<Artifact>, shas: map<DocId, string>,
                     sourceOf: SourceMap)
    requires FilingReady(db, year, gen, m, sourceOf) && IsIndex(shas, stored)
    requires forall a :: a in db.artifacts && Stored(a, year, gen) ==> a in stored
    ensures ReadyIn(db, year, gen, m, shas, sourceOf)
  {
    var a :| a in db.artifacts && Stored(a, year, gen) && a.docId == m.docId && a.sha.Some?
          && Ready(db, year, gen, m, a.sha.value, sourceOf);
    var i :| 0 <= i < |stored| && stored[i] == a;
    assert Indexed(shas, stored[i]);
    ReadyExactly(db, year, gen, m, a.sha.value, sourceOf);
  }

  /** The producer builds an inventory exactly from the acceptable tables. */
  lemma InventoriableExactly(db: Database, year: int, gen: string, sourceOf: SourceMap)
    ensures Inventoriable(db, year, gen, sourceOf) <==> Acceptable(db, year, gen, sourceOf)
  {
    if Inventoriable(db, year, gen, sourceOf) {
      InventoriableMeans(db, year, gen, sourceOf);
    }
    if Acceptable(db, year, gen, sourceOf) {
      AcceptableIsInventoriable(db, year, gen, sourceOf);
    }
  }

  /** What a row says, in the words of the tables: it names its filing's document, member and date, its artifact's
      digest, and the outcome, error and counts of the only run over it, which are the rows there are. */
  ghost predicate RowTells(db: Database, year: int, gen: string, sourceOf: SourceMap, row: Report) {
    exists m: Metadata, k: nat ::
      && m in db.metadata && Filed(m, year, gen) && m.docId == row.recordId
      && m.member == Some(row.member) && m.filed == Some(row.filed)
      && OnlyRun(db.runs, k, year, gen, row.recordId, row.sha)
      && row.gen == gen && row.chamber == "house" && row.source == sourceOf(db.runs[k].parser, db.runs[k].engines)
      && row.error == db.runs[k].error && row.rejected == 0
      && row.raw == row.accepted == |DocPlaces(db.txs, gen, row.recordId)|
      && (row.outcome == if row.raw > 0 then Parsed else NoRows)
  }

  /** Every row of an inventory tells exactly that. */
  lemma InventoryTells(db: Database, year: int, gen: string, m: Metadata, shas: map<DocId, string>, sourceOf: SourceMap,
                       row: Report)
    requires m in PtrMetadata(db.metadata, year, gen) && RowFor(db, year, gen, m, shas, sourceOf, row)
    ensures RowTells(db, year, gen, sourceOf, row)
  {
    var sha := shas[m.docId];
    var q := InYear(year, gen, m.docId, sha);
    FilingsExact(db.metadata, year, gen);
    var k := CandidatesAreOne(db.runs, q);
    OneCandidate(db.runs, q, k);
    assert forall r: Run :: q.Keeps(r) <==> RanOver(r, year, gen, m.docId, sha);
    SupportedExactly(db, gen, m.docId, sha, db.runs[k], sourceOf);
    assert OnlyRun(db.runs, k, year, gen, row.recordId, row.sha);
  }
}
