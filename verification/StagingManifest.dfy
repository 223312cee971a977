/** The manifest of a staging root: what its writer records, what its reader accepts, and exactly
    when the two agree. */
module StagingManifest {
  import opened AuditTypes
  import opened StagingTypes
  import opened StagingStore

  // ---- the active documents ---------------------------------------------------------------------

  /** A directory listing: every document with an active envelope, once. */
  ghost predicate Lists(docs: seq<DocId>, files: Files) {
    && (forall i, j :: 0 <= i < j < |docs| ==> docs[i] != docs[j])
    && (forall d :: d in docs <==> DocFile(d) in files)
  }

  ghost predicate ReadAs(files: Files, d: DocId, e: Envelope) {
    DocFile(d) in files && files[DocFile(d)] == Env(e) && e.docId == d && ValidPair(files, e)
  }

  /** The envelopes a listing yields when every one of them validates. */
  ghost predicate Reading(files: Files, docs: seq<DocId>, envs: seq<Envelope>) {
    |envs| == |docs| && forall i :: 0 <= i < |docs| ==> ReadAs(files, docs[i], envs[i])
  }

  ghost predicate Readable(files: Files, docs: seq<DocId>) {
    forall i :: 0 <= i < |docs| ==> DocFile(docs[i]) in files && ActiveIsValid(files, docs[i])
  }

  /** What validation leaves to rely on without the files. */
  ghost predicate Consistent(envs: seq<Envelope>) {
    && (forall i, j :: 0 <= i < j < |envs| ==> envs[i].docId != envs[j].docId)
    && (forall i :: 0 <= i < |envs| ==> Proven(envs[i]))
  }

  ghost predicate Proven(e: Envelope) {
    PathBound(e) && e.rowsSha.Rows? && RowsBound(e.rowsSha.rows, e) && |e.rowsSha.rows| == e.rowCount
  }

  lemma ReadingConsistent(files: Files, docs: seq<DocId>, envs: seq<Envelope>)
    requires Lists(docs, files) && Reading(files, docs, envs)
    ensures Consistent(envs)
  {
    forall i | 0 <= i < |envs|
      ensures Proven(envs[i]) && envs[i].docId == docs[i]
    {
      assert ReadAs(files, docs[i], envs[i]);
    }
  }

  // ---- the manifest -------------------------------------------------------------------------------

  datatype Bucket = Bucket(docs: nat, resolved: nat, unresolved: nat, noTxs: nat, rows: int)

  datatype Manifest = Manifest(docCount: nat, resolved: map<DocId, int>, unresolved: map<DocId, seq<Reason>>,
                               noTxs: map<DocId, nat>, resolvedCount: nat, unresolvedCount: nat, noTxsCount: nat,
                               totalRows: int, byYear: map<int, Bucket>, hashes: map<Path, Content>)

  const EMPTY_MANIFEST := Manifest(0, map[], map[], map[], 0, 0, 0, 0, map[], map[])

  function BucketAt(byYear: map<int, Bucket>, year: int): Bucket {
    if year in byYear then byYear[year] else Bucket(0, 0, 0, 0, 0)
  }

  function Counted(b: Bucket, e: Envelope): Bucket {
    match e.meta.status
    case Resolved => Bucket(b.docs + 1, b.resolved + 1, b.unresolved, b.noTxs, b.rows + e.rowCount)
    case Unresolved => Bucket(b.docs + 1, b.resolved, b.unresolved + 1, b.noTxs, b.rows + e.rowCount)
    case NoTransactions => Bucket(b.docs + 1, b.resolved, b.unresolved, b.noTxs + 1, b.rows + e.rowCount)
  }

  function WithHashes(hashes: map<Path, Content>, e: Envelope): map<Path, Content> {
    hashes[e.rowsFile := e.rowsSha][DocFile(e.docId) := Env(e)]
  }

  function WithStatus(m: Manifest, e: Envelope): Manifest {
    match e.meta.status
    case Resolved => m.(resolved := m.resolved[e.docId := e.rowCount], totalRows := m.totalRows + e.rowCount)
    case Unresolved => m.(unresolved := m.unresolved[e.docId := e.meta.reasons])
    case NoTransactions => m.(noTxs := m.noTxs[e.docId := |e.meta.covered|])
  }

  /** One more document: its digests, its summary and its year's totals. */
  function Added(m: Manifest, e: Envelope): Manifest {
    WithStatus(m, e).(docCount := m.docCount + 1,
                      hashes := WithHashes(m.hashes, e),
                      byYear := m.byYear[e.meta.year := Counted(BucketAt(m.byYear, e.meta.year), e)])
  }

  function Accumulated(envs: seq<Envelope>): Manifest {
    if envs == [] then EMPTY_MANIFEST else Added(Accumulated(envs[..|envs| - 1]), envs[|envs| - 1])
  }

  function Sealed(m: Manifest): Manifest {
    m.(resolvedCount := |m.resolved|, unresolvedCount := |m.unresolved|, noTxsCount := |m.noTxs|)
  }

  function ManifestOf(envs: seq<Envelope>): Manifest {
    Sealed(Accumulated(envs))
  }

  // ---- the writer ------------------------------------------------------------------------------------

  /** Reads and validates one listed document. */
  method ReadOne(files: Files, d: DocId) returns (r: Option<Envelope>)
    ensures r.Some? <==> DocFile(d) in files && ActiveIsValid(files, d)
    ensures r.Some? ==> ReadAs(files, d, r.value)
  {
    if DocFile(d) !in files || !files[DocFile(d)].Env? || files[DocFile(d)].env.docId != d {
      return None;
    }
    var valid := ValidateStagedPair(files, files[DocFile(d)].env);
    return if valid then Some(files[DocFile(d)].env) else None;
  }

  lemma ReadingGrows(files: Files, docs: seq<DocId>, i: nat, envs: seq<Envelope>, e: Envelope)
    requires i < |docs| && Reading(files, docs[..i], envs) && Readable(files, docs[..i]) && ReadAs(files, docs[i], e)
    ensures Reading(files, docs[..i + 1], envs + [e]) && Readable(files, docs[..i + 1])
  {
    var next, all := docs[..i + 1], envs + [e];
    forall k | 0 <= k < |next|
      ensures ReadAs(files, next[k], all[k]) && DocFile(next[k]) in files && ActiveIsValid(files, next[k])
    {
      if k < i {
        assert next[k] == docs[..i][k];
      }
    }
  }

  /** The writer refuses exactly the listings with an envelope that does not validate. */
  method WriteManifest(files: Files, docs: seq<DocId>) returns (r: Option<Manifest>, ghost envs: seq<Envelope>)
    ensures r.Some? <==> Readable(files, docs)
    ensures r.Some? ==> Reading(files, docs, envs) && r.value == ManifestOf(envs)
  {
    var m := EMPTY_MANIFEST;
    envs := [];
    for i := 0 to |docs|
      invariant Reading(files, docs[..i], envs) && m == Accumulated(envs)
      invariant Readable(files, docs[..i])
    {
      var e := ReadOne(files, docs[i]);
      if e.None? {
        return None, envs;
      }
      ReadingGrows(files, docs, i, envs, e.value);
      assert (envs + [e.value])[..i] == envs;
      m, envs := Added(m, e.value), envs + [e.value];
    }
    assert docs[..|docs|] == docs;
    return Some(Sealed(m)), envs;
  }

  // ---- the reader ----------------------------------------------------------------------------------------

  predicate HasRow(e: Envelope, id: string) {
    e.rowsSha.Rows? && exists k :: 0 <= k < |e.rowsSha.rows| && e.rowsSha.rows[k].rowId == id
  }

  /** No row id belongs to two documents. */
  ghost predicate RowIdsUnique(envs: seq<Envelope>) {
    forall i, j, id :: 0 <= i < j < |envs| && HasRow(envs[i], id) ==> !HasRow(envs[j], id)
  }

  function ExpectedFiles(envs: seq<Envelope>): set<Path> {
    if envs == [] then {}
    else ExpectedFiles(envs[..|envs| - 1]) + {DocFile(envs[|envs| - 1].docId), envs[|envs| - 1].rowsFile}
  }

  function IdsWith(envs: seq<Envelope>, status: DocStatus): set<DocId> {
    if envs == [] then {}
    else
      var before := IdsWith(envs[..|envs| - 1], status);
      if envs[|envs| - 1].meta.status == status then before + {envs[|envs| - 1].docId} else before
  }

  /** Both files of a document are the ones the manifest digested. */
  predicate DigestsMatch(m: Manifest, e: Envelope) {
    && DocFile(e.docId) in m.hashes && m.hashes[DocFile(e.docId)] == Env(e)
    && (e.rowsFile in m.hashes ==> m.hashes[e.rowsFile] == e.rowsSha)
  }

  predicate SummariesMatch(m: Manifest, envs: seq<Envelope>) {
    && m.resolved.Keys == IdsWith(envs, Resolved)
    && m.unresolved.Keys == IdsWith(envs, Unresolved)
    && m.noTxs.Keys == IdsWith(envs, NoTransactions)
    && (forall i :: 0 <= i < |envs| && envs[i].docId in m.resolved && envs[i].rowsSha.Rows? ==>
          m.resolved[envs[i].docId] == |envs[i].rowsSha.rows|)
    && m.docCount == |envs|
    && m.resolvedCount == |m.resolved| && m.unresolvedCount == |m.unresolved| && m.noTxsCount == |m.noTxs|
  }

  ghost predicate Accepts(m: Manifest, envs: seq<Envelope>) {
    && (forall i :: 0 <= i < |envs| ==> DigestsMatch(m, envs[i]))
    && RowIdsUnique(envs)
    && m.hashes.Keys == ExpectedFiles(envs)
    && SummariesMatch(m, envs)
  }

  /** Adds one document's row ids to those already seen. */
  method CollectIds(e: Envelope, seen: set<string>) returns (unseen: bool, ids: set<string>)
    requires Proven(e)
    ensures unseen <==> forall id :: id in seen ==> !HasRow(e, id)
    ensures unseen ==> forall id :: id in ids <==> id in seen || HasRow(e, id)
  {
    var rows := e.rowsSha.rows;
    ids := seen;
    for i := 0 to |rows|
      invariant forall id :: id in ids <==> id in seen || exists k :: 0 <= k < i && rows[k].rowId == id
      invariant forall k :: 0 <= k < i ==> rows[k].rowId !in seen
    {
      if rows[i].rowId in ids {
        assert HasRow(e, rows[i].rowId);
        return false, ids;
      }
      ids := ids + {rows[i].rowId};
    }
    unseen := true;
  }

  ghost predicate Seen(envs: seq<Envelope>, seen: set<string>) {
    RowIdsUnique(envs) && forall id :: id in seen <==> exists i :: 0 <= i < |envs| && HasRow(envs[i], id)
  }

  /** The reader returns exactly the active documents, or nothing. */
  method ValidatedInventory(files: Files, m: Manifest, docs: seq<DocId>) returns (r: Option<seq<Envelope>>)
    ensures r.Some? <==> Readable(files, docs) && exists envs :: Reading(files, docs, envs) && Accepts(m, envs)
    ensures r.Some? ==> Reading(files, docs, r.value)
  {
    var envs: seq<Envelope> := [];
    var seen: set<string> := {};
    for i := 0 to |docs|
      invariant Reading(files, docs[..i], envs) && Seen(envs, seen) && Readable(files, docs[..i])
      invariant forall k :: 0 <= k < i ==> DigestsMatch(m, envs[k])
    {
      var e := ReadOne(files, docs[i]);
      if e.None? {
        return None;
      }
      if !DigestsMatch(m, e.value) {
        ReadingFixed(files, docs, i, envs, e.value);
        return None;
      }
      var unseen, ids := CollectIds(e.value, seen);
      if !unseen {
        ReadingFixed(files, docs, i, envs, e.value);
        SharedStays(envs, e.value, seen);
        return None;
      }
      SeenGrows(envs, e.value, seen, ids);
      envs, seen := envs + [e.value], ids;
    }
    assert docs[..|docs|] == docs;
    SameReading(files, docs, envs);
    if m.hashes.Keys != ExpectedFiles(envs) || !SummariesMatch(m, envs) {
      return None;
    }
    return Some(envs);
  }

  /** What the writer can read are the listings whose every document has an active envelope of its own with a valid
      pair. */
  lemma {:induction false} ReadableExactly(files: Files, docs: seq<DocId>)
    ensures Readable(files, docs) <==> exists envs :: Reading(files, docs, envs)
  {
    if Readable(files, docs) {
      var envs := seq(|docs|, i requires 0 <= i < |docs| => files[DocFile(docs[i])].env);
      forall i | 0 <= i < |docs|
        ensures ReadAs(files, docs[i], envs[i])
      {
        assert ActiveIsValid(files, docs[i]);
      }
      assert Reading(files, docs, envs);
    }
    if envs :| Reading(files, docs, envs) {
      forall i | 0 <= i < |docs|
        ensures DocFile(docs[i]) in files && ActiveIsValid(files, docs[i])
      {
        assert ReadAs(files, docs[i], envs[i]);
      }
    }
  }

  /** A listing has one reading. */
  lemma SameReading(files: Files, docs: seq<DocId>, envs: seq<Envelope>)
    requires Reading(files, docs, envs)
    ensures forall other :: Reading(files, docs, other) ==> other == envs
  {
    forall other | Reading(files, docs, other)
      ensures other == envs
    {
      forall i | 0 <= i < |docs|
        ensures other[i] == envs[i]
      {
        assert ReadAs(files, docs[i], envs[i]) && ReadAs(files, docs[i], other[i]);
      }
    }
  }

  lemma ReadingFixed(files: Files, docs: seq<DocId>, i: nat, envs: seq<Envelope>, e: Envelope)
    requires i < |docs| && Reading(files, docs[..i], envs) && ReadAs(files, docs[i], e)
    ensures forall all :: Reading(files, docs, all) ==> |all| > i && all[..i] == envs && all[i] == e
  {
    forall all | Reading(files, docs, all)
      ensures |all| > i && all[..i] == envs && all[i] == e
    {
      assert Reading(files, docs[..i], all[..i]);
      SameReading(files, docs[..i], envs);
      assert ReadAs(files, docs[i], all[i]);
    }
  }

  lemma SharedStays(envs: seq<Envelope>, e: Envelope, seen: set<string>)
    requires Seen(envs, seen) && exists id :: id in seen && HasRow(e, id)
    ensures forall all: seq<Envelope> :: |all| > |envs| && all[..|envs|] == envs && all[|envs|] == e ==> !RowIdsUnique(all)
  {
    var id :| id in seen && HasRow(e, id);
    var k :| 0 <= k < |envs| && HasRow(envs[k], id);
    forall all: seq<Envelope> | |all| > |envs| && all[..|envs|] == envs && all[|envs|] == e
      ensures !RowIdsUnique(all)
    {
      assert all[k] == envs[k];
    }
  }

  lemma SeenGrows(envs: seq<Envelope>, e: Envelope, seen: set<string>, ids: set<string>)
    requires Seen(envs, seen)
    requires forall id :: id in seen ==> !HasRow(e, id)
    requires forall id :: id in ids <==> id in seen || HasRow(e, id)
    ensures Seen(envs + [e], ids)
  {
    var all := envs + [e];
    assert all[|envs|] == e && forall i :: 0 <= i < |envs| ==> all[i] == envs[i];
    forall id
      ensures id in ids <==> exists i :: 0 <= i < |all| && HasRow(all[i], id)
    {
      if id in seen {
        var i :| 0 <= i < |envs| && HasRow(envs[i], id);
        assert HasRow(all[i], id);
      }
      if HasRow(e, id) {
        assert HasRow(all[|envs|], id);
      }
    }
    forall i, j, id | 0 <= i < j < |all| && HasRow(all[i], id)
      ensures !HasRow(all[j], id)
    {
      assert HasRow(envs[i], id);
    }
  }

  // ---- agreement ------------------------------------------------------------------------------------------

  lemma {:induction false} HashesExact(envs: seq<Envelope>)
    ensures Accumulated(envs).hashes.Keys == ExpectedFiles(envs)
  {
    if envs != [] {
      HashesExact(envs[..|envs| - 1]);
    }
  }

  lemma DigestsStay(m: Manifest, e: Envelope, f: Envelope)
    requires DigestsMatch(m, e) && e.docId != f.docId && PathBound(e) && PathBound(f)
    ensures DigestsMatch(Added(m, f), e)
  {
    assert Added(m, f).hashes == WithHashes(m.hashes, f);
  }

  lemma DigestsAdded(m: Manifest, e: Envelope)
    requires PathBound(e)
    ensures DigestsMatch(Added(m, e), e)
  {
    assert Added(m, e).hashes == WithHashes(m.hashes, e);
  }

  /** Each document's digests survive the documents recorded after it. */
  lemma {:induction false} DigestsRecorded(envs: seq<Envelope>, i: nat)
    requires Consistent(envs) && i < |envs|
    ensures DigestsMatch(Accumulated(envs), envs[i])
  {
    var last := |envs| - 1;
    assert Proven(envs[i]) && Proven(envs[last]);
    if i < last {
      DigestsRecorded(envs[..last], i);
      DigestsStay(Accumulated(envs[..last]), envs[i], envs[last]);
    } else {
      DigestsAdded(Accumulated(envs[..last]), envs[last]);
    }
  }

  lemma {:induction false} ExpectedHolds(envs: seq<Envelope>, i: nat)
    requires i < |envs|
    ensures DocFile(envs[i].docId) in ExpectedFiles(envs) && envs[i].rowsFile in ExpectedFiles(envs)
  {
    if i < |envs| - 1 {
      ExpectedHolds(envs[..|envs| - 1], i);
    }
  }

  lemma {:induction false} SummariesRecorded(envs: seq<Envelope>)
    ensures var m := Accumulated(envs);
            && m.resolved.Keys == IdsWith(envs, Resolved) && m.unresolved.Keys == IdsWith(envs, Unresolved)
            && m.noTxs.Keys == IdsWith(envs, NoTransactions) && m.docCount == |envs|
  {
    if envs != [] {
      SummariesRecorded(envs[..|envs| - 1]);
    }
  }

  lemma ResolvedAdded(m: Manifest, e: Envelope, d: DocId)
    ensures var n := Added(m, e);
            d in n.resolved ==>
              if d == e.docId && e.meta.status.Resolved? then n.resolved[d] == e.rowCount
              else d in m.resolved && n.resolved[d] == m.resolved[d]
  {
  }

  /** What is recorded about a document's row count before and after one more document. */
  predicate CountHeld(m: Manifest, e: Envelope) {
    e.docId in m.resolved ==> m.resolved[e.docId] == e.rowCount
  }

  lemma CountStays(m: Manifest, e: Envelope, f: Envelope)
    requires (CountHeld(m, e) && e.docId != f.docId) || (e == f && e.docId !in m.resolved)
    ensures CountHeld(Added(m, f), e)
  {
    ResolvedAdded(m, f, e.docId);
  }

  lemma {:induction false} CountsRecorded(envs: seq<Envelope>, i: nat)
    requires Consistent(envs) && i < |envs|
    ensures CountHeld(Accumulated(envs), envs[i])
  {
    var last := |envs| - 1;
    if i < last {
      CountsRecorded(envs[..last], i);
    } else {
      SummariesRecorded(envs[..last]);
      NotBefore(envs, Resolved);
    }
    CountStays(Accumulated(envs[..last]), envs[i], envs[last]);
  }

  lemma NotBefore(envs: seq<Envelope>, status: DocStatus)
    requires Consistent(envs) && envs != []
    ensures envs[|envs| - 1].docId !in IdsWith(envs[..|envs| - 1], status)
  {
    IdsWithFrom(envs[..|envs| - 1], status, envs[|envs| - 1].docId);
  }

  lemma {:induction false} IdsWithFrom(envs: seq<Envelope>, status: DocStatus, d: DocId)
    ensures d in IdsWith(envs, status) ==> exists i :: 0 <= i < |envs| && envs[i].docId == d
  {
    if envs != [] {
      var last := |envs| - 1;
      IdsWithFrom(envs[..last], status, d);
      if i :| 0 <= i < last && envs[..last][i].docId == d {
        assert envs[i].docId == d;
      }
    }
  }

  /** The reader accepts a manifest just written exactly when no row id is shared by two documents;
      the writer does not check that. */
  lemma AgreementExactly(envs: seq<Envelope>)
    requires Consistent(envs)
    ensures Accepts(ManifestOf(envs), envs) <==> RowIdsUnique(envs)
  {
    HashesExact(envs);
    SummariesRecorded(envs);
    forall i | 0 <= i < |envs|
      ensures DigestsMatch(ManifestOf(envs), envs[i])
      ensures envs[i].docId in ManifestOf(envs).resolved ==>
                ManifestOf(envs).resolved[envs[i].docId] == |envs[i].rowsSha.rows|
    {
      DigestsRecorded(envs, i);
      CountsRecorded(envs, i);
      assert Proven(envs[i]);
    }
  }

  // ---- the reader takes the writer's manifest and no other -------------------------------------------

  /** Two manifests with the same digests and the same summaries, as far as a reader looks at them. */
  predicate SameManifest(m: Manifest, n: Manifest) {
    && m.hashes == n.hashes && m.resolved == n.resolved && m.unresolved.Keys == n.unresolved.Keys
    && m.noTxs.Keys == n.noTxs.Keys && m.docCount == n.docCount
    && m.resolvedCount == n.resolvedCount && m.unresolvedCount == n.unresolvedCount && m.noTxsCount == n.noTxsCount
  }

  lemma {:induction false} ExpectedFrom(envs: seq<Envelope>, p: Path)
    requires p in ExpectedFiles(envs)
    ensures exists i :: 0 <= i < |envs| && (p == DocFile(envs[i].docId) || p == envs[i].rowsFile)
  {
    var last := |envs| - 1;
    if p != DocFile(envs[last].docId) && p != envs[last].rowsFile {
      ExpectedFrom(envs[..last], p);
      var i :| 0 <= i < last && (p == DocFile(envs[..last][i].docId) || p == envs[..last][i].rowsFile);
      assert envs[i] == envs[..last][i];
    }
  }

  lemma SameDigests(m: Manifest, envs: seq<Envelope>)
    requires Consistent(envs) && Accepts(m, envs)
    ensures m.hashes == ManifestOf(envs).hashes
  {
    HashesExact(envs);
    forall p | p in m.hashes
      ensures m.hashes[p] == ManifestOf(envs).hashes[p]
    {
      ExpectedFrom(envs, p);
      var i :| 0 <= i < |envs| && (p == DocFile(envs[i].docId) || p == envs[i].rowsFile);
      DigestsRecorded(envs, i);
      assert DigestsMatch(m, envs[i]) && DigestsMatch(Accumulated(envs), envs[i]);
    }
  }

  lemma SameCounts(m: Manifest, envs: seq<Envelope>)
    requires Consistent(envs) && Accepts(m, envs)
    ensures m.resolved == ManifestOf(envs).resolved
  {
    SummariesRecorded(envs);
    forall d | d in m.resolved
      ensures m.resolved[d] == ManifestOf(envs).resolved[d]
    {
      IdsWithFrom(envs, Resolved, d);
      var i :| 0 <= i < |envs| && envs[i].docId == d;
      CountsRecorded(envs, i);
      assert Proven(envs[i]);
    }
  }

  /** Whatever manifest is on disk, the reader accepts it over these envelopes exactly when no row id is
      shared and it is, digests, row counts and totals included, the one the writer would write. */
  lemma AcceptsExactly(m: Manifest, envs: seq<Envelope>)
    requires Consistent(envs)
    ensures Accepts(m, envs) <==> RowIdsUnique(envs) && SameManifest(m, ManifestOf(envs))
  {
    SummariesRecorded(envs);
    if Accepts(m, envs) {
      SameDigests(m, envs);
      SameCounts(m, envs);
      SameSizes(m, ManifestOf(envs));
    }
    if RowIdsUnique(envs) && SameManifest(m, ManifestOf(envs)) {
      AgreementExactly(envs);
      SameSizes(m, ManifestOf(envs));
    }
  }

  lemma SameSizes(m: Manifest, n: Manifest)
    requires m.resolved.Keys == n.resolved.Keys && m.unresolved.Keys == n.unresolved.Keys && m.noTxs.Keys == n.noTxs.Keys
    ensures |m.resolved| == |n.resolved| && |m.unresolved| == |n.unresolved| && |m.noTxs| == |n.noTxs|
  {
    assert |m.resolved.Keys| == |m.resolved| && |n.resolved.Keys| == |n.resolved|;
    assert |m.unresolved.Keys| == |m.unresolved| && |n.unresolved.Keys| == |n.unresolved|;
    assert |m.noTxs.Keys| == |m.noTxs| && |n.noTxs.Keys| == |n.noTxs|;
  }

  // ---- what the manifest tells ---------------------------------------------------------------------------

  /** The document is listed under its status, with what belongs to it, and under no other. */
  predicate Tells(m: Manifest, e: Envelope) {
    var d := e.docId;
    && (d in m.resolved <==> e.meta.status.Resolved?) && (d in m.unresolved <==> e.meta.status.Unresolved?)
    && (d in m.noTxs <==> e.meta.status.NoTransactions?)
    && (d in m.resolved ==> m.resolved[d] == e.rowCount)
    && (d in m.unresolved ==> m.unresolved[d] == e.meta.reasons)
    && (d in m.noTxs ==> m.noTxs[d] == |e.meta.covered|)
    && DocFile(d) in m.hashes && m.hashes[DocFile(d)] == Env(e)
    && e.rowsFile in m.hashes && m.hashes[e.rowsFile] == e.rowsSha
  }

  lemma TellsStays(m: Manifest, e: Envelope, f: Envelope)
    requires Tells(m, e) && e.docId != f.docId && PathBound(e) && PathBound(f)
    ensures Tells(Added(m, f), e)
  {
    assert Added(m, f).hashes == WithHashes(m.hashes, f);
  }

  lemma TellsAdded(m: Manifest, e: Envelope)
    requires PathBound(e) && e.docId !in m.resolved && e.docId !in m.unresolved && e.docId !in m.noTxs
    ensures Tells(Added(m, e), e)
  {
    assert Added(m, e).hashes == WithHashes(m.hashes, e);
  }

  lemma LastTells(envs: seq<Envelope>)
    requires Consistent(envs) && envs != []
    ensures Tells(Accumulated(envs), envs[|envs| - 1])
  {
    var last := |envs| - 1;
    SummariesRecorded(envs[..last]);
    NotBefore(envs, Resolved);
    NotBefore(envs, Unresolved);
    NotBefore(envs, NoTransactions);
    assert Proven(envs[last]);
    TellsAdded(Accumulated(envs[..last]), envs[last]);
  }

  lemma {:induction false} AccumulatedTells(envs: seq<Envelope>, i: nat)
    requires Consistent(envs) && i < |envs|
    ensures Tells(Accumulated(envs), envs[i])
  {
    var last := |envs| - 1;
    if i < last {
      AccumulatedTells(envs[..last], i);
      assert Proven(envs[i]) && Proven(envs[last]);
      TellsStays(Accumulated(envs[..last]), envs[i], envs[last]);
    } else {
      LastTells(envs);
    }
  }

  lemma SealedTells(m: Manifest, e: Envelope)
    requires Tells(m, e)
    ensures Tells(Sealed(m), e)
  {
  }

  /** The manifest tells of every document its digests, its status and its rows, reasons or pages. */
  lemma ManifestTells(envs: seq<Envelope>, i: nat)
    requires Consistent(envs) && i < |envs|
    ensures Tells(ManifestOf(envs), envs[i])
  {
    AccumulatedTells(envs, i);
    SealedTells(Accumulated(envs), envs[i]);
  }

  function RowTotal(envs: seq<Envelope>, years: set<int>, statuses: set<DocStatus>): int {
    if envs == [] then 0
    else
      var last := envs[|envs| - 1];
      RowTotal(envs[..|envs| - 1], years, statuses)
        + if last.meta.year in years && last.meta.status in statuses then last.rowCount else 0
  }

  function Years(envs: seq<Envelope>): set<int> {
    if envs == [] then {} else Years(envs[..|envs| - 1]) + {envs[|envs| - 1].meta.year}
  }

  lemma {:induction false} MoreYears(envs: seq<Envelope>, years: set<int>, year: int, statuses: set<DocStatus>)
    requires Years(envs) <= years
    ensures RowTotal(envs, years + {year}, statuses) == RowTotal(envs, years, statuses)
  {
    if envs != [] {
      MoreYears(envs[..|envs| - 1], years, year, statuses);
    }
  }

  /** The manifest's row total is that of the resolved documents, a year's that of all its documents. */
  lemma {:induction false} RowsAddUp(envs: seq<Envelope>, year: int)
    ensures Accumulated(envs).totalRows == RowTotal(envs, Years(envs), {Resolved})
    ensures BucketAt(Accumulated(envs).byYear, year).rows == RowTotal(envs, {year}, {Resolved, Unresolved, NoTransactions})
    ensures year in Accumulated(envs).byYear <==> year in Years(envs)
  {
    if envs != [] {
      var last := |envs| - 1;
      RowsAddUp(envs[..last], year);
      BucketAdded(Accumulated(envs[..last]), envs[last], year);
      MoreYears(envs[..last], Years(envs[..last]), envs[last].meta.year, {Resolved});
    }
  }

  predicate ColonFree(d: DocId) {
    forall i :: 0 <= i < |d| ==> d[i] != ':'
  }

  /** The document id is what precedes the first colon. */
  lemma FirstColon(id: string, d: DocId)
    requires ColonFree(d) && HasPrefix(id, d + ":")
    ensures |d| < |id| && id[|d|] == ':' && id[..|d|] == d
    ensures forall i :: 0 <= i < |d| ==> id[i] != ':'
  {
    var p := d + ":";
    assert id[|d|] == id[..|p|][|d|] == p[|d|];
    assert id[..|d|] == id[..|p|][..|d|] == p[..|d|] == d;
    assert forall i :: 0 <= i < |d| ==> id[i] == id[..|d|][i];
  }

  lemma PrefixDecides(id: string, a: DocId, b: DocId)
    requires ColonFree(a) && ColonFree(b) && HasPrefix(id, a + ":") && HasPrefix(id, b + ":")
    ensures a == b
  {
    FirstColon(id, a);
    FirstColon(id, b);
  }

  lemma RowIdPrefix(e: Envelope, id: string)
    requires Proven(e) && HasRow(e, id)
    ensures HasPrefix(id, e.docId + ":")
  {
    var k :| 0 <= k < |e.rowsSha.rows| && e.rowsSha.rows[k].rowId == id;
    assert RowOwned(e.rowsSha.rows[k], e);
  }

  /** With colon-free document ids every manifest written over a sound root is accepted. */
  lemma ColonFreeAgrees(files: Files, docs: seq<DocId>, envs: seq<Envelope>)
    requires Lists(docs, files) && Reading(files, docs, envs)
    requires forall d :: d in docs ==> ColonFree(d)
    ensures Accepts(ManifestOf(envs), envs)
  {
    ReadingConsistent(files, docs, envs);
    forall i, j, id | 0 <= i < j < |envs| && HasRow(envs[i], id)
      ensures !HasRow(envs[j], id)
    {
      assert ReadAs(files, docs[i], envs[i]) && ReadAs(files, docs[j], envs[j]);
      if HasRow(envs[j], id) {
        RowIdPrefix(envs[i], id);
        RowIdPrefix(envs[j], id);
        PrefixDecides(id, docs[i], docs[j]);
      }
    }
    AgreementExactly(envs);
  }

  lemma {:induction false} ExpectedDoc(envs: seq<Envelope>, d: DocId)
    requires DocFile(d) in ExpectedFiles(envs)
    requires forall i :: 0 <= i < |envs| ==> PathBound(envs[i])
    ensures exists i :: 0 <= i < |envs| && envs[i].docId == d
  {
    var last := |envs| - 1;
    assert PathBound(envs[last]);
    if envs[last].docId != d {
      ExpectedDoc(envs[..last], d);
      var i :| 0 <= i < last && envs[..last][i].docId == d;
      assert envs[i].docId == d;
    }
  }

  /** The manifest pins the root: whenever it is accepted over another reading, that reading has
      exactly the envelopes, and so the rows, the manifest was written over. */
  lemma ManifestPinsRoot(envs: seq<Envelope>, later: seq<Envelope>, e: Envelope)
    requires Consistent(envs) && Consistent(later) && Accepts(ManifestOf(envs), later)
    ensures e in later <==> e in envs
  {
    HashesExact(envs);
    HashesExact(later);
    if e in later {
      var i :| 0 <= i < |later| && later[i] == e;
      assert DigestsMatch(ManifestOf(envs), later[i]);
      AllPathsBound(envs);
      ExpectedDoc(envs, e.docId);
      var k :| 0 <= k < |envs| && envs[k].docId == e.docId;
      DigestsRecorded(envs, k);
    }
    if e in envs {
      var k :| 0 <= k < |envs| && envs[k] == e;
      DigestsRecorded(envs, k);
      ExpectedHolds(envs, k);
      AllPathsBound(later);
      ExpectedDoc(later, e.docId);
      var i :| 0 <= i < |later| && later[i].docId == e.docId;
      assert DigestsMatch(ManifestOf(envs), later[i]);
    }
  }

  lemma AllPathsBound(envs: seq<Envelope>)
    requires Consistent(envs)
    ensures forall i :: 0 <= i < |envs| ==> PathBound(envs[i])
  {
    forall i | 0 <= i < |envs|
      ensures PathBound(envs[i])
    {
      assert Proven(envs[i]);
    }
  }

  lemma AcceptedKeepsBytes(files: Files, docs: seq<DocId>, envs: seq<Envelope>, later: Files, laterDocs: seq<DocId>,
                           laterEnvs: seq<Envelope>, d: DocId)
    requires Lists(docs, files) && Reading(files, docs, envs)
    requires Lists(laterDocs, later) && Reading(later, laterDocs, laterEnvs)
    requires DocFile(d) in files && Accepts(ManifestOf(envs), laterEnvs)
    ensures DocFile(d) in later && later[DocFile(d)] == files[DocFile(d)]
  {
    ReadingConsistent(files, docs, envs);
    ReadingConsistent(later, laterDocs, laterEnvs);
    var k :| 0 <= k < |docs| && docs[k] == d;
    assert ReadAs(files, docs[k], envs[k]);
    ManifestPinsRoot(envs, laterEnvs, envs[k]);
    var i :| 0 <= i < |laterEnvs| && laterEnvs[i] == envs[k];
    assert ReadAs(later, laterDocs[i], laterEnvs[i]);
  }

  /** Once any envelope is replaced by different bytes, however it happened, the old manifest is
      rejected. */
  lemma ReplacedIsRejected(files: Files, docs: seq<DocId>, envs: seq<Envelope>, later: Files, laterDocs: seq<DocId>,
                           laterEnvs: seq<Envelope>, d: DocId)
    requires Lists(docs, files) && Reading(files, docs, envs)
    requires Lists(laterDocs, later) && Reading(later, laterDocs, laterEnvs)
    requires DocFile(d) in files && (DocFile(d) in later ==> later[DocFile(d)] != files[DocFile(d)])
    ensures !Accepts(ManifestOf(envs), laterEnvs)
  {
    if Accepts(ManifestOf(envs), laterEnvs) {
      AcceptedKeepsBytes(files, docs, envs, later, laterDocs, laterEnvs, d);
    }
  }

  // ---- totals -----------------------------------------------------------------------------------------------

  function CountWhere(envs: seq<Envelope>, year: int, statuses: set<DocStatus>): nat {
    if envs == [] then 0
    else
      var last := envs[|envs| - 1];
      CountWhere(envs[..|envs| - 1], year, statuses)
        + if last.meta.year == year && last.meta.status in statuses then 1 else 0
  }

  lemma BucketAdded(m: Manifest, e: Envelope, year: int)
    ensures BucketAt(Added(m, e).byYear, year)
         == if e.meta.year == year then Counted(BucketAt(m.byYear, year), e) else BucketAt(m.byYear, year)
  {
  }

  /** Every year's bucket counts its documents, and its statuses add up to them. */
  lemma {:induction false} BucketsCount(envs: seq<Envelope>, year: int)
    ensures var b := BucketAt(Accumulated(envs).byYear, year);
            && b.resolved == CountWhere(envs, year, {Resolved})
            && b.unresolved == CountWhere(envs, year, {Unresolved})
            && b.noTxs == CountWhere(envs, year, {NoTransactions})
            && b.docs == CountWhere(envs, year, {Resolved, Unresolved, NoTransactions})
            && b.docs == b.resolved + b.unresolved + b.noTxs
  {
    if envs != [] {
      var last := |envs| - 1;
      BucketsCount(envs[..last], year);
      BucketAdded(Accumulated(envs[..last]), envs[last], year);
    }
  }

  // ---- the input on which writer and reader disagree ----------------------------------------------------------

  function SharedRow(d: DocId): StagedRow {
    StagedRow(d, d, "a:b:1", "", "")
  }

  function SharedEnvelope(d: DocId): Envelope {
    Envelope(d, "", 1, ImmutableRows(d, Rows([SharedRow(d)])), Rows([SharedRow(d)]),
             Meta(2015, Resolved, Some(1), [1], [], [], None, ""))
  }

  lemma SharedProven(d: DocId)
    requires d == "a" || d == "a:b"
    ensures Proven(SharedEnvelope(d)) && HasRow(SharedEnvelope(d), "a:b:1")
  {
    assert "a:b:1"[..2] == "a" + ":" && "a:b:1"[..4] == "a:b" + ":";
    assert RowOwned(SharedRow(d), SharedEnvelope(d));
    assert SharedEnvelope(d).rowsSha.rows[0].rowId == "a:b:1";
  }

  /** Documents "a" and "a:b" may both own row id "a:b:1": each validates on its own, the manifest
      is written, and the reader rejects it. */
  lemma ColonIdsDisagree()
    ensures var envs := [SharedEnvelope("a"), SharedEnvelope("a:b")];
            Consistent(envs) && !Accepts(ManifestOf(envs), envs)
  {
    SharedProven("a");
    SharedProven("a:b");
    var envs := [SharedEnvelope("a"), SharedEnvelope("a:b")];
    assert HasRow(envs[0], "a:b:1") && HasRow(envs[1], "a:b:1");
    assert envs[0].docId != envs[1].docId;
    assert Consistent(envs);
    AgreementExactly(envs);
  }
}
