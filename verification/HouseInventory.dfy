/** The House inventory: the producer that builds source-report rows for one archive year and
    generation, and the separate checks that must accept what it wrote. */
module HouseInventory {
  import opened AuditTypes

  // ---- the tables -------------------------------------------------------------------------

  datatype Source = HousePdf | GeminiOcr | Elsewhere(name: string)

  datatype RunStatus = RunSuccess | RunNoTxs | RunOther(name: string)

  datatype Run = Run(docId: DocId, year: int, gen: string, parser: Option<string>, engines: Option<string>,
                     status: RunStatus, raw: Option<int>, count: Option<int>, error: Option<string>, sha: Option<string>)
  {
    predicate Terminal() {
      status.RunSuccess? || status.RunNoTxs?
    }
  }

  datatype Tx = Tx(docId: DocId, source: Source, gen: string, sha: Option<string>,
                   recordId: Option<DocId>, chamber: Option<string>)

  /** Metadata of one filing; member and filed are None when blank or not a value. */
  datatype Metadata = Metadata(docId: DocId, year: int, gen: string, isPtr: bool,
                               member: Option<string>, filed: Option<string>)

  datatype Artifact = Artifact(docId: DocId, year: int, gen: string, sha: Option<string>)

  datatype Outcome = Parsed | NoRows

  datatype Report = Report(source: Source, gen: string, chamber: string, recordId: DocId, outcome: Outcome,
                           sha: string, member: string, filed: string, error: Option<string>,
                           raw: int, accepted: int, rejected: int)

  datatype Database = Database(metadata: seq<Metadata>, artifacts: seq<Artifact>, runs: seq<Run>, txs: seq<Tx>)

  /** The family a run's parser and engines belong to: one map shared by producer and auditor. */
  type SourceMap = (Option<string>, Option<string>) -> Source

  // ---- text ---------------------------------------------------------------------------------

  function LowerChar(c: char): char {
    if 'A' <= c <= 'Z' then (c as int + 32) as char else c
  }

  function Lower(s: string): (r: string)
    ensures |r| == |s| && forall i :: 0 <= i < |s| ==> r[i] == LowerChar(s[i])
  {
    if s == "" then "" else [LowerChar(s[0])] + Lower(s[1..])
  }

  const UPPER := "ABCDEFGHIJKLMNOPQRSTUVWXYZ"
  const LOWER := "abcdefghijklmnopqrstuvwxyz"

  /** Lower-casing takes each capital letter to its small one and leaves every other character. */
  lemma LowerLetters(c: char)
    ensures forall i :: 0 <= i < 26 ==> LowerChar(UPPER[i]) == LOWER[i]
    ensures c !in UPPER ==> LowerChar(c) == c
  {
    if 'A' <= c <= 'Z' {
      assert UPPER[c as int - 'A' as int] == c;
    }
  }

  function TrimLeft(s: string): string {
    if s != "" && s[0] == ' ' then TrimLeft(s[1..]) else s
  }

  function TrimRight(s: string): string {
    if s != "" && s[|s| - 1] == ' ' then TrimRight(s[..|s| - 1]) else s
  }

  function Trim(s: string): string {
    TrimRight(TrimLeft(s))
  }

  predicate IsDigest(s: string) {
    |s| == 64 && forall i :: 0 <= i < 64 ==> '0' <= s[i] <= '9' || 'a' <= s[i] <= 'f'
  }

  predicate Missing(s: Option<string>) {
    s.None? || Trim(s.value) == ""
  }

  // ---- the producer's queries -----------------------------------------------------------------

  function PtrMetadata(rows: seq<Metadata>, year: int, gen: string): seq<Metadata> {
    if rows == [] then []
    else
      var last := rows[|rows| - 1];
      var before := PtrMetadata(rows[..|rows| - 1], year, gen);
      if last.year == year && last.gen == gen && last.isPtr then before + [last] else before
  }

  function ArtifactsOf(rows: seq<Artifact>, year: int, gen: string): seq<Artifact> {
    if rows == [] then []
    else
      var last := rows[|rows| - 1];
      var before := ArtifactsOf(rows[..|rows| - 1], year, gen);
      if last.year == year && last.gen == gen then before + [last] else before
  }

  predicate BoundRun(r: Run, gen: string, d: DocId, sha: string) {
    r.Terminal() && r.gen == gen && r.docId == d && r.sha == Some(sha)
  }

  /** The terminal runs bound to one artifact that a check takes into account: the producer's
      query also filters on the archive year; the checks do not, and skip nameless runs. */
  datatype RunQuery =
    | InYear(year: int, gen: string, d: DocId, sha: string)
    | Named(gen: string, d: DocId, sha: string)
    | Labelled(gen: string, d: DocId, sha: string)
  {
    predicate Keeps(r: Run) {
      match this
      case InYear(year, gen, d, sha) => BoundRun(r, gen, d, sha) && r.year == year
      case Named(gen, d, sha) => BoundRun(r, gen, d, sha) && !Missing(r.parser)
      case Labelled(gen, d, sha) => BoundRun(r, gen, d, sha) && !(Empty(r.parser) && Empty(r.engines))
    }
  }

  predicate Empty(s: Option<string>) {
    s.None? || s.value == ""
  }

  function Candidates(runs: seq<Run>, q: RunQuery): seq<Run> {
    if runs == [] then []
    else
      var last := runs[|runs| - 1];
      var before := Candidates(runs[..|runs| - 1], q);
      if q.Keeps(last) then before + [last] else before
  }

  predicate BadIdentity(t: Tx) {
    t.recordId != Some(t.docId) || t.chamber.None? || Lower(Trim(t.chamber.value)) != "house"
  }

  /** Selections of persisted rows: a document's, one group's (a document, a source and an
      artifact), and a group's rows without a proper House identity. */
  datatype TxQuery =
    | OfDoc(gen: string, d: DocId)
    | InGroup(gen: string, d: DocId, source: Source, sha: string)
    | BadInGroup(gen: string, d: DocId, source: Source, sha: string)
    | Joined(report: Report)
    | OfDocs(gen: string, docs: set<DocId>)
  {
    predicate Keeps(t: Tx) {
      match this
      case OfDoc(gen, d) => t.gen == gen && t.docId == d
      case InGroup(gen, d, source, sha) => t.gen == gen && t.docId == d && t.source == source && t.sha == Some(sha)
      case BadInGroup(gen, d, source, sha) =>
        t.gen == gen && t.docId == d && t.source == source && t.sha == Some(sha) && BadIdentity(t)
      case Joined(r) => JoinsReport(t, r)
      case OfDocs(gen, docs) => t.gen == gen && t.docId in docs
    }
  }

  /** The auditor's join of a report with the persisted rows. */
  predicate JoinsReport(t: Tx, r: Report) {
    && t.gen == r.gen && t.source == r.source && t.sha == Some(r.sha) && t.recordId == Some(r.recordId)
    && t.chamber.Some? && Lower(t.chamber.value) == Lower(r.chamber)
  }

  function CountTxs(txs: seq<Tx>, q: TxQuery): (n: nat)
    ensures n <= |txs|
  {
    if txs == [] then 0
    else CountTxs(txs[..|txs| - 1], q) + if q.Keeps(txs[|txs| - 1]) then 1 else 0
  }

  // ---- what the producer accepts ---------------------------------------------------------------

  datatype Refusal =
    | DuplicateMetadata | DuplicateArtifact | BadDigest | MissingArtifact | ExtraArtifact | MissingMember
    | NoParser | BadCounts | BadRows | CountMismatch | NoRun | AmbiguousRun | StaleRows

  datatype Result<+T> = Ok(value: T) | Refused(doc: DocId, why: Refusal)

  /** A run whose counts agree with the persisted rows of its source and artifact. */
  predicate CountsAgree(run: Run, actual: nat) {
    && run.raw.Some? && run.count.Some?
    && run.raw.value == run.count.value == actual
    && (run.status.RunSuccess? <==> actual > 0)
  }

  predicate RunAccepted(db: Database, gen: string, d: DocId, sha: string, run: Run, sourceOf: SourceMap) {
    var source := sourceOf(run.parser, run.engines);
    && !Missing(run.parser)
    && CountTxs(db.txs, BadInGroup(gen, d, source, sha)) == 0
    && CountsAgree(run, CountTxs(db.txs, InGroup(gen, d, source, sha)))
  }

  /** One document the producer can put in the inventory: exactly one run of the archive year
      bound to its artifact, counts that agree, and no persisted row outside that group. */
  predicate DocReady(db: Database, year: int, gen: string, m: Metadata, sha: string, sourceOf: SourceMap) {
    var runs := Candidates(db.runs, InYear(year, gen, m.docId, sha));
    && m.member.Some? && m.filed.Some?
    && |runs| == 1
    && RunAccepted(db, gen, m.docId, sha, runs[0], sourceOf)
    && CountTxs(db.txs, OfDoc(gen, m.docId))
         == CountTxs(db.txs, InGroup(gen, m.docId, sourceOf(runs[0].parser, runs[0].engines), sha))
  }

  function RowOf(db: Database, year: int, gen: string, m: Metadata, sha: string, sourceOf: SourceMap): Report
    requires DocReady(db, year, gen, m, sha, sourceOf)
  {
    var run := Candidates(db.runs, InYear(year, gen, m.docId, sha))[0];
    Report(sourceOf(run.parser, run.engines), gen, "house", m.docId,
           if run.status.RunSuccess? then Parsed else NoRows, sha, m.member.value, m.filed.value, run.error,
           run.raw.value, run.count.value, 0)
  }

  ghost predicate DistinctDocs(rows: seq<Metadata>) {
    forall i, j :: 0 <= i < j < |rows| ==> rows[i].docId != rows[j].docId
  }

  predicate Indexed(shas: map<DocId, string>, row: Artifact) {
    row.docId in shas && row.sha == Some(shas[row.docId]) && IsDigest(shas[row.docId])
  }

  ghost predicate HasArtifact(rows: seq<Artifact>, d: DocId) {
    exists i :: 0 <= i < |rows| && rows[i].docId == d
  }

  /** Each document has one artifact, and it has a digest. */
  ghost predicate IsIndex(shas: map<DocId, string>, rows: seq<Artifact>) {
    && (forall i :: 0 <= i < |rows| ==> Indexed(shas, rows[i]))
    && (forall i, j :: 0 <= i < j < |rows| ==> rows[i].docId != rows[j].docId)
    && (forall d :: d in shas ==> HasArtifact(rows, d))
  }

  ghost predicate SameDocs(meta: seq<Metadata>, shas: map<DocId, string>) {
    && (forall i :: 0 <= i < |meta| ==> meta[i].docId in shas)
    && (forall d :: d in shas ==> exists i :: 0 <= i < |meta| && meta[i].docId == d)
  }

  predicate ReadyIn(db: Database, year: int, gen: string, m: Metadata, shas: map<DocId, string>, sourceOf: SourceMap) {
    m.docId in shas && DocReady(db, year, gen, m, shas[m.docId], sourceOf)
  }

  predicate RowFor(db: Database, year: int, gen: string, m: Metadata, shas: map<DocId, string>, sourceOf: SourceMap,
                   row: Report)
  {
    && ReadyIn(db, year, gen, m, shas, sourceOf)
    && row == RowOf(db, year, gen, m, shas[m.docId], sourceOf)
  }

  ghost predicate AllReady(db: Database, year: int, gen: string, meta: seq<Metadata>, shas: map<DocId, string>,
                           sourceOf: SourceMap)
  {
    forall i :: 0 <= i < |meta| ==> ReadyIn(db, year, gen, meta[i], shas, sourceOf)
  }

  /** The databases the producer accepts. */
  ghost predicate Inventoriable(db: Database, year: int, gen: string, sourceOf: SourceMap) {
    var meta := PtrMetadata(db.metadata, year, gen);
    && DistinctDocs(meta)
    && exists shas: map<DocId, string> ::
         && IsIndex(shas, ArtifactsOf(db.artifacts, year, gen))
         && SameDocs(meta, shas)
         && AllReady(db, year, gen, meta, shas, sourceOf)
  }

  /** One row per document, in order, each built from the document's artifact and only run. */
  ghost predicate IsInventory(db: Database, year: int, gen: string, meta: seq<Metadata>, shas: map<DocId, string>,
                              sourceOf: SourceMap, rows: seq<Report>)
  {
    && |rows| == |meta|
    && forall i :: 0 <= i < |meta| ==> RowFor(db, year, gen, meta[i], shas, sourceOf, rows[i])
  }

  // ---- the producer ----------------------------------------------------------------------------

  method IndexMetadata(meta: seq<Metadata>) returns (ids: set<DocId>, bad: Option<DocId>)
    ensures bad.None? <==> DistinctDocs(meta)
    ensures bad.None? ==> forall d :: d in ids <==> exists i :: 0 <= i < |meta| && meta[i].docId == d
  {
    ids := {};
    for i := 0 to |meta|
      invariant DistinctDocs(meta[..i])
      invariant forall d :: d in ids <==> exists k :: 0 <= k < i && meta[k].docId == d
    {
      if meta[i].docId in ids {
        return ids, Some(meta[i].docId);
      }
      ids := ids + {meta[i].docId};
    }
    assert meta[..|meta|] == meta;
    bad := None;
  }

  method IndexArtifacts(rows: seq<Artifact>) returns (shas: map<DocId, string>, bad: Option<(DocId, Refusal)>)
    ensures bad.None? ==> IsIndex(shas, rows)
    ensures bad.Some? ==> forall m: map<DocId, string> :: !IsIndex(m, rows)
  {
    shas := map[];
    for i := 0 to |rows|
      invariant IsIndex(shas, rows[..i])
    {
      if rows[i].docId in shas {
        bad := Some((rows[i].docId, DuplicateArtifact));
        var k :| 0 <= k < i && rows[..i][k].docId == rows[i].docId;
        assert rows[k].docId == rows[i].docId;
        return;
      }
      if rows[i].sha.None? || !IsDigest(rows[i].sha.value) {
        bad := Some((rows[i].docId, BadDigest));
        return;
      }
      IndexGrows(shas, rows, i);
      shas := shas[rows[i].docId := rows[i].sha.value];
    }
    assert rows[..|rows|] == rows;
    bad := None;
  }

  lemma IndexGrows(shas: map<DocId, string>, rows: seq<Artifact>, i: nat)
    requires i < |rows| && IsIndex(shas, rows[..i])
    requires rows[i].docId !in shas && rows[i].sha.Some? && IsDigest(rows[i].sha.value)
    ensures IsIndex(shas[rows[i].docId := rows[i].sha.value], rows[..i + 1])
  {
    var more, now, next := shas[rows[i].docId := rows[i].sha.value], rows[..i], rows[..i + 1];
    forall k | 0 <= k < |next|
      ensures Indexed(more, next[k]) && (k < i ==> next[k].docId != rows[i].docId)
    {
      if k < i {
        assert next[k] == now[k] && Indexed(shas, now[k]);
      }
    }
    forall d | d in more
      ensures HasArtifact(next, d)
    {
      if d == rows[i].docId {
        assert next[i].docId == d;
      } else {
        assert HasArtifact(now, d);
        var k :| 0 <= k < |now| && now[k].docId == d;
        assert next[k].docId == d;
      }
    }
    forall j, k | 0 <= j < k < |next|
      ensures next[j].docId != next[k].docId
    {
      if k < i {
        assert now[j].docId != now[k].docId;
      }
    }
  }

  /** One document: scan its runs, then weigh the candidates. */
  method BuildRow(db: Database, year: int, gen: string, m: Metadata, shas: map<DocId, string>, sourceOf: SourceMap)
    returns (r: Result<Report>)
    requires m.docId in shas
    ensures r.Ok? <==> ReadyIn(db, year, gen, m, shas, sourceOf)
    ensures r.Ok? ==> RowFor(db, year, gen, m, shas, sourceOf, r.value)
  {
    var sha := shas[m.docId];
    if m.member.None? || m.filed.None? {
      return Refused(m.docId, MissingMember);
    }
    var keep := InYear(year, gen, m.docId, sha);
    var found: seq<Run> := [];
    for i := 0 to |db.runs|
      invariant found == Candidates(db.runs[..i], keep)
      invariant forall k :: 0 <= k < |found| ==> RunAccepted(db, gen, m.docId, sha, found[k], sourceOf)
    {
      assert db.runs[..i + 1][..i] == db.runs[..i];
      var run := db.runs[i];
      if keep.Keeps(run) {
        CandidateStays(db.runs, i, keep);
        var why := CheckRun(db, gen, m.docId, sha, run, sourceOf);
        if why.Some? {
          OneRejected(db, year, gen, m, sha, sourceOf, run);
          return Refused(m.docId, why.value);
        }
        found := found + [run];
      }
    }
    assert db.runs[..|db.runs|] == db.runs;
    if |found| != 1 {
      return Refused(m.docId, if |found| == 0 then NoRun else AmbiguousRun);
    }
    var run := found[0];
    var source := sourceOf(run.parser, run.engines);
    var stale := HasStaleRows(db.txs, gen, m.docId, source, sha);
    if stale {
      return Refused(m.docId, StaleRows);
    }
    return Ok(Report(source, gen, "house", m.docId, if run.status.RunSuccess? then Parsed else NoRows, sha,
                     m.member.value, m.filed.value, run.error, run.raw.value, run.count.value, 0));
  }

  lemma {:induction false} CandidateStays(runs: seq<Run>, i: nat, keep: RunQuery)
    requires i < |runs| && keep.Keeps(runs[i])
    ensures runs[i] in Candidates(runs, keep)
  {
    var last := |runs| - 1;
    if i < last {
      CandidateStays(runs[..last], i, keep);
    }
  }

  lemma OneRejected(db: Database, year: int, gen: string, m: Metadata, sha: string, sourceOf: SourceMap, run: Run)
    requires run in Candidates(db.runs, InYear(year, gen, m.docId, sha))
    requires !RunAccepted(db, gen, m.docId, sha, run, sourceOf)
    ensures !DocReady(db, year, gen, m, sha, sourceOf)
  {
  }

  /** The checks on one candidate run, in the program's order. */
  method CheckRun(db: Database, gen: string, d: DocId, sha: string, run: Run, sourceOf: SourceMap)
    returns (why: Option<Refusal>)
    requires run.Terminal()
    ensures why.None? <==> RunAccepted(db, gen, d, sha, run, sourceOf)
  {
    if Missing(run.parser) {
      return Some(NoParser);
    }
    var source := sourceOf(run.parser, run.engines);
    if run.raw.None? || run.count.None? {
      return Some(BadCounts);
    }
    var raw, accepted := run.raw.value, run.count.value;
    var actual := CountTxs(db.txs, InGroup(gen, d, source, sha));
    if CountTxs(db.txs, BadInGroup(gen, d, source, sha)) != 0 {
      return Some(BadRows);
    }
    if run.status.RunSuccess? {
      if raw <= 0 || accepted != raw || actual != accepted {
        return Some(CountMismatch);
      }
    } else if raw != 0 || accepted != 0 || actual != 0 {
      return Some(CountMismatch);
    }
    return None;
  }

  lemma {:induction false} CountImplies(txs: seq<Tx>, a: TxQuery, b: TxQuery)
    requires forall t :: a.Keeps(t) ==> b.Keeps(t)
    ensures CountTxs(txs, a) <= CountTxs(txs, b)
    ensures CountTxs(txs, a) == CountTxs(txs, b) <==> forall i :: 0 <= i < |txs| && b.Keeps(txs[i]) ==> a.Keeps(txs[i])
  {
    if txs != [] {
      var last := |txs| - 1;
      CountImplies(txs[..last], a, b);
      assert forall i :: 0 <= i < last ==> txs[..last][i] == txs[i];
    }
  }

  /** Whether a persisted row of the document lies outside the accepted source and artifact. */
  method HasStaleRows(txs: seq<Tx>, gen: string, d: DocId, source: Source, sha: string) returns (stale: bool)
    ensures stale <==> CountTxs(txs, OfDoc(gen, d)) != CountTxs(txs, InGroup(gen, d, source, sha))
  {
    CountImplies(txs, InGroup(gen, d, source, sha), OfDoc(gen, d));
    for i := 0 to |txs|
      invariant forall k :: 0 <= k < i && OfDoc(gen, d).Keeps(txs[k]) ==> InGroup(gen, d, source, sha).Keeps(txs[k])
    {
      if OfDoc(gen, d).Keeps(txs[i]) && !InGroup(gen, d, source, sha).Keeps(txs[i]) {
        return true;
      }
    }
    return false;
  }

  /** The producer returns rows exactly for the databases it should accept, and then one row per
      document. */
  method HouseInventoryRows(db: Database, year: int, gen: string, sourceOf: SourceMap)
    returns (r: Result<seq<Report>>, ghost shas: map<DocId, string>)
    ensures r.Ok? <==> Inventoriable(db, year, gen, sourceOf)
    ensures r.Ok? ==>
      var meta := PtrMetadata(db.metadata, year, gen);
      && IsIndex(shas, ArtifactsOf(db.artifacts, year, gen)) && SameDocs(meta, shas)
      && AllReady(db, year, gen, meta, shas, sourceOf)
      && IsInventory(db, year, gen, meta, shas, sourceOf, r.value)
  {
    var meta := PtrMetadata(db.metadata, year, gen);
    var artifacts := ArtifactsOf(db.artifacts, year, gen);
    shas := map[];
    var ids, dup := IndexMetadata(meta);
    if dup.Some? {
      return Refused(dup.value, DuplicateMetadata), shas;
    }
    var index, bad := IndexArtifacts(artifacts);
    shas := index;
    if bad.Some? {
      return Refused(bad.value.0, bad.value.1), shas;
    }
    IndexUnique(db, year, gen, sourceOf, index);
    if d :| d in ids && d !in index {
      return Refused(d, MissingArtifact), shas;
    }
    if d :| d in index && d !in ids {
      return Refused(d, ExtraArtifact), shas;
    }
    r := BuildRows(db, year, gen, meta, index, sourceOf);
  }

  /** The rows of all documents, stopping at the first one refused. */
  method BuildRows(db: Database, year: int, gen: string, meta: seq<Metadata>, shas: map<DocId, string>, sourceOf: SourceMap)
    returns (r: Result<seq<Report>>)
    requires SameDocs(meta, shas)
    ensures r.Ok? <==> AllReady(db, year, gen, meta, shas, sourceOf)
    ensures r.Ok? ==> IsInventory(db, year, gen, meta, shas, sourceOf, r.value)
  {
    var rows: seq<Report> := [];
    for i := 0 to |meta|
      invariant IsInventory(db, year, gen, meta[..i], shas, sourceOf, rows)
    {
      var row := BuildRow(db, year, gen, meta[i], shas, sourceOf);
      if row.Refused? {
        OneNotReady(db, year, gen, meta, shas, sourceOf, i);
        return Refused(row.doc, row.why);
      }
      InventoryGrows(db, year, gen, meta, i, shas, sourceOf, rows, row.value);
      rows := rows + [row.value];
    }
    assert meta[..|meta|] == meta;
    InventoryReady(db, year, gen, meta, shas, sourceOf, rows);
    return Ok(rows);
  }

  lemma OneNotReady(db: Database, year: int, gen: string, meta: seq<Metadata>, shas: map<DocId, string>,
                    sourceOf: SourceMap, i: nat)
    requires i < |meta| && !ReadyIn(db, year, gen, meta[i], shas, sourceOf)
    ensures !AllReady(db, year, gen, meta, shas, sourceOf)
  {
  }

  lemma InventoryGrows(db: Database, year: int, gen: string, meta: seq<Metadata>, i: nat, shas: map<DocId, string>,
                       sourceOf: SourceMap, rows: seq<Report>, row: Report)
    requires i < |meta| && IsInventory(db, year, gen, meta[..i], shas, sourceOf, rows)
    requires RowFor(db, year, gen, meta[i], shas, sourceOf, row)
    ensures IsInventory(db, year, gen, meta[..i + 1], shas, sourceOf, rows + [row])
  {
    assert forall k :: 0 <= k < i ==> meta[..i + 1][k] == meta[..i][k];
  }

  lemma InventoryReady(db: Database, year: int, gen: string, meta: seq<Metadata>, shas: map<DocId, string>,
                       sourceOf: SourceMap, rows: seq<Report>)
    requires IsInventory(db, year, gen, meta, shas, sourceOf, rows)
    ensures AllReady(db, year, gen, meta, shas, sourceOf)
  {
  }

  lemma SameIndex(rows: seq<Artifact>, a: map<DocId, string>, b: map<DocId, string>)
    requires IsIndex(a, rows) && IsIndex(b, rows)
    ensures a == b
  {
    forall d | d in a
      ensures d in b && a[d] == b[d]
    {
      assert HasArtifact(rows, d);
      var i :| 0 <= i < |rows| && rows[i].docId == d;
      assert Indexed(a, rows[i]) && Indexed(b, rows[i]);
    }
    forall d | d in b
      ensures d in a
    {
      assert HasArtifact(rows, d);
      var i :| 0 <= i < |rows| && rows[i].docId == d;
      assert Indexed(a, rows[i]);
    }
  }

  lemma IndexUnique(db: Database, year: int, gen: string, sourceOf: SourceMap, index: map<DocId, string>)
    requires IsIndex(index, ArtifactsOf(db.artifacts, year, gen))
    ensures var meta := PtrMetadata(db.metadata, year, gen);
            Inventoriable(db, year, gen, sourceOf)
            ==> SameDocs(meta, index) && AllReady(db, year, gen, meta, index, sourceOf)
  {
    var meta := PtrMetadata(db.metadata, year, gen);
    if Inventoriable(db, year, gen, sourceOf) {
      var other: map<DocId, string> :|
        && IsIndex(other, ArtifactsOf(db.artifacts, year, gen))
        && SameDocs(meta, other)
        && AllReady(db, year, gen, meta, other, sourceOf);
      SameIndex(ArtifactsOf(db.artifacts, year, gen), index, other);
    }
  }
}
