/** The checks that audit a House generation after its inventory was written, and exactly when
    they accept it. */
module HouseAudit {
  import opened AuditTypes
  import opened HouseInventory
  import opened InventoryTables

  // ---- writing the inventory -----------------------------------------------------------------

  predicate HouseReport(r: Report, gen: string) {
    r.gen == gen && (r.source == HousePdf || r.source == GeminiOcr) && Lower(r.chamber) == "house"
  }

  /** Selections of source reports. */
  datatype ReportQuery =
    | OutsideGroup(gen: string, source: Source)
    | FromSource(source: Source)
    | HouseReports(gen: string)
    | ForArtifact(gen: string, d: DocId, sha: string)
  {
    predicate Keeps(r: Report) {
      match this
      case OutsideGroup(gen, source) => !(r.gen == gen && r.source == source && Lower(r.chamber) == "house")
      case FromSource(source) => r.source == source
      case HouseReports(gen) => HouseReport(r, gen)
      case ForArtifact(gen, d, sha) => HouseReport(r, gen) && r.recordId == d && r.sha == sha
    }
  }

  function Matching(reports: seq<Report>, q: ReportQuery): seq<Report> {
    if reports == [] then []
    else
      var last := reports[|reports| - 1];
      var before := Matching(reports[..|reports| - 1], q);
      if q.Keeps(last) then before + [last] else before
  }

  /** Replaces one generation's reports of one source and chamber as a whole. */
  function ReplaceGroup(reports: seq<Report>, gen: string, source: Source, rows: seq<Report>): seq<Report> {
    Matching(reports, OutsideGroup(gen, source)) + rows
  }

  /** The two replacements that publish an inventory, one per parser family. */
  function Publish(reports: seq<Report>, gen: string, rows: seq<Report>): seq<Report> {
    ReplaceGroup(ReplaceGroup(reports, gen, HousePdf, Matching(rows, FromSource(HousePdf))),
                 gen, GeminiOcr, Matching(rows, FromSource(GeminiOcr)))
  }

  // ---- the binding check ------------------------------------------------------------------------

  datatype Violation = RunCount(doc: DocId, n: nat) | ReportCount(doc: DocId, n: nat) | BindingMismatch(doc: DocId)

  /** A run and a report name the same source family and outcome. */
  predicate Agrees(run: Run, report: Report, sourceOf: SourceMap) {
    report.source == sourceOf(run.parser, run.engines)
    && report.outcome == if run.status.RunSuccess? then Parsed else NoRows
  }

  predicate ArtifactBound(d: DocId, sha: string, runs: seq<Run>, reports: seq<Report>, gen: string,
                          labelled: bool, sourceOf: SourceMap)
  {
    var bound := Candidates(runs, if labelled then Labelled(gen, d, sha) else Named(gen, d, sha));
    var filed := Matching(reports, ForArtifact(gen, d, sha));
    |bound| == 1 && |filed| == 1 && Agrees(bound[0], filed[0], sourceOf)
  }

  /** Both binding checks, which differ only in the runs they pass over: the rebuild skips runs
      with a blank parser version, the auditor those without any provenance. */
  method BindingViolations(artifacts: seq<Artifact>, runs: seq<Run>, reports: seq<Report>, gen: string,
                           labelled: bool, sourceOf: SourceMap) returns (violations: seq<Violation>)
    requires forall i :: 0 <= i < |artifacts| ==> artifacts[i].sha.Some?
    ensures violations == [] <==>
      forall i :: 0 <= i < |artifacts| ==>
        ArtifactBound(artifacts[i].docId, artifacts[i].sha.value, runs, reports, gen, labelled, sourceOf)
  {
    violations := [];
    for i := 0 to |artifacts|
      invariant violations == [] <==>
        forall k :: 0 <= k < i ==>
          ArtifactBound(artifacts[k].docId, artifacts[k].sha.value, runs, reports, gen, labelled, sourceOf)
    {
      var d, sha := artifacts[i].docId, artifacts[i].sha.value;
      var bound := Candidates(runs, if labelled then Labelled(gen, d, sha) else Named(gen, d, sha));
      var filed := Matching(reports, ForArtifact(gen, d, sha));
      if |bound| != 1 {
        violations := violations + [RunCount(d, |bound|)];
      }
      if |filed| != 1 {
        violations := violations + [ReportCount(d, |filed|)];
      }
      if |bound| == 1 && |filed| == 1 && !Agrees(bound[0], filed[0], sourceOf) {
        violations := violations + [BindingMismatch(d)];
      }
    }
  }

  // ---- what publishing leaves in the table ---------------------------------------------------------

  lemma {:induction false} MatchingAppend(a: seq<Report>, b: seq<Report>, q: ReportQuery)
    ensures Matching(a + b, q) == Matching(a, q) + Matching(b, q)
    decreases |b|
  {
    if b == [] {
      assert a + b == a;
    } else {
      assert (a + b)[..|a| + |b| - 1] == a + b[..|b| - 1];
      MatchingAppend(a, b[..|b| - 1], q);
    }
  }

  lemma {:induction false} NothingMatches(reports: seq<Report>, q: ReportQuery)
    requires forall i :: 0 <= i < |reports| ==> !q.Keeps(reports[i])
    ensures Matching(reports, q) == []
  {
    if reports != [] {
      NothingMatches(reports[..|reports| - 1], q);
    }
  }

  lemma {:induction false} AllMatch(reports: seq<Report>, q: ReportQuery)
    requires forall i :: 0 <= i < |reports| ==> q.Keeps(reports[i])
    ensures Matching(reports, q) == reports
  {
    if reports != [] {
      AllMatch(reports[..|reports| - 1], q);
    }
  }

  lemma {:induction false} MatchingFrom(reports: seq<Report>, q: ReportQuery, i: nat)
    requires i < |Matching(reports, q)|
    ensures q.Keeps(Matching(reports, q)[i]) && Matching(reports, q)[i] in reports
  {
    var last := |reports| - 1;
    if i < |Matching(reports[..last], q)| {
      MatchingFrom(reports[..last], q, i);
    }
  }

  /** The reports both replacements leave alone. */
  function Untouched(reports: seq<Report>, gen: string): seq<Report> {
    Matching(Matching(reports, OutsideGroup(gen, HousePdf)), OutsideGroup(gen, GeminiOcr))
  }

  lemma PublishShape(reports: seq<Report>, gen: string, rows: seq<Report>)
    ensures Publish(reports, gen, rows)
         == Untouched(reports, gen) + Matching(rows, FromSource(HousePdf)) + Matching(rows, FromSource(GeminiOcr))
  {
    var pdf := Matching(rows, FromSource(HousePdf));
    forall i | 0 <= i < |pdf|
      ensures OutsideGroup(gen, GeminiOcr).Keeps(pdf[i])
    {
      MatchingFrom(rows, FromSource(HousePdf), i);
    }
    MatchingAppend(Matching(reports, OutsideGroup(gen, HousePdf)), pdf, OutsideGroup(gen, GeminiOcr));
    AllMatch(pdf, OutsideGroup(gen, GeminiOcr));
  }

  lemma UntouchedHasNone(reports: seq<Report>, gen: string, i: nat)
    requires i < |Untouched(reports, gen)|
    ensures !HouseReport(Untouched(reports, gen)[i], gen)
  {
    var kept := Matching(reports, OutsideGroup(gen, HousePdf));
    MatchingFrom(kept, OutsideGroup(gen, GeminiOcr), i);
    var k :| 0 <= k < |kept| && kept[k] == Untouched(reports, gen)[i];
    MatchingFrom(reports, OutsideGroup(gen, HousePdf), k);
  }

  /** After publishing, the generation's House reports are exactly the inventory's rows, those of
      one family after those of the other. */
  lemma PublishedReports(reports: seq<Report>, gen: string, rows: seq<Report>, q: ReportQuery)
    requires q.HouseReports? || q.ForArtifact?
    requires q.gen == gen
    ensures Matching(Publish(reports, gen, rows), q)
         == Matching(Matching(rows, FromSource(HousePdf)), q) + Matching(Matching(rows, FromSource(GeminiOcr)), q)
  {
    var left, pdf, ocr := Untouched(reports, gen), Matching(rows, FromSource(HousePdf)), Matching(rows, FromSource(GeminiOcr));
    PublishShape(reports, gen, rows);
    forall i | 0 <= i < |left|
      ensures !q.Keeps(left[i])
    {
      UntouchedHasNone(reports, gen, i);
    }
    NothingMatches(left, q);
    MatchingAppend(left, pdf, q);
    MatchingAppend(left + pdf, ocr, q);
  }

  // ---- what publishing leaves alone ----------------------------------------------------------------

  /** A report of another generation, of neither House family, or of another chamber. */
  predicate Foreign(r: Report, gen: string) {
    r.gen != gen || !(r.source in {HousePdf, GeminiOcr}) || Lower(r.chamber) != "house"
  }

  lemma {:induction false} KeptCount(reports: seq<Report>, gen: string, source: Source, r: Report)
    requires Foreign(r, gen) && (source == HousePdf || source == GeminiOcr)
    ensures multiset(Matching(reports, OutsideGroup(gen, source)))[r] == multiset(reports)[r]
  {
    if reports != [] {
      var last := |reports| - 1;
      KeptCount(reports[..last], gen, source, r);
      assert reports == reports[..last] + [reports[last]];
      assert r == reports[last] ==> OutsideGroup(gen, source).Keeps(reports[last]);
    }
  }

  lemma {:induction false} MatchingSubset(reports: seq<Report>, q: ReportQuery, r: Report)
    requires r !in reports
    ensures r !in Matching(reports, q)
  {
    if reports != [] {
      MatchingSubset(reports[..|reports| - 1], q, r);
    }
  }

  lemma {:induction false} GroupGone(reports: seq<Report>, gen: string, source: Source, r: Report)
    requires r.source == source && !Foreign(r, gen)
    ensures r !in Matching(reports, OutsideGroup(gen, source))
  {
    if reports != [] {
      GroupGone(reports[..|reports| - 1], gen, source, r);
    }
  }

  lemma {:induction false} FamilyCount(rows: seq<Report>, source: Source, r: Report)
    ensures multiset(Matching(rows, FromSource(source)))[r] == if r.source == source then multiset(rows)[r] else 0
  {
    if rows != [] {
      var last := |rows| - 1;
      FamilyCount(rows[..last], source, r);
      assert rows == rows[..last] + [rows[last]];
    }
  }

  lemma UntouchedCount(reports: seq<Report>, gen: string, r: Report)
    ensures multiset(Untouched(reports, gen))[r] == if Foreign(r, gen) then multiset(reports)[r] else 0
  {
    var kept := Matching(reports, OutsideGroup(gen, HousePdf));
    if Foreign(r, gen) {
      KeptCount(reports, gen, HousePdf, r);
      KeptCount(kept, gen, GeminiOcr, r);
    } else if r.source == HousePdf {
      GroupGone(reports, gen, HousePdf, r);
      MatchingSubset(kept, OutsideGroup(gen, GeminiOcr), r);
    } else {
      GroupGone(kept, gen, GeminiOcr, r);
    }
  }

  /** The reports of other generations, sources and chambers stay, each as often as it was there; of the
      generation's own House reports exactly the given rows are left. */
  ghost predicate Replaced(before: seq<Report>, now: seq<Report>, gen: string, rows: seq<Report>) {
    forall r :: multiset(now)[r] == if Foreign(r, gen) then multiset(before)[r] else multiset(rows)[r]
  }

  lemma PublishReplaces(reports: seq<Report>, gen: string, rows: seq<Report>)
    requires forall i :: 0 <= i < |rows| ==> HouseReport(rows[i], gen)
    ensures Replaced(reports, Publish(reports, gen, rows), gen, rows)
  {
    var left, pdf, ocr := Untouched(reports, gen), Matching(rows, FromSource(HousePdf)), Matching(rows, FromSource(GeminiOcr));
    PublishShape(reports, gen, rows);
    forall r
      ensures multiset(Publish(reports, gen, rows))[r] == if Foreign(r, gen) then multiset(reports)[r] else multiset(rows)[r]
    {
      UntouchedCount(reports, gen, r);
      FamilyCount(rows, HousePdf, r);
      FamilyCount(rows, GeminiOcr, r);
      assert multiset(left + pdf + ocr) == multiset(left) + multiset(pdf) + multiset(ocr);
      if Foreign(r, gen) {
        assert r !in rows by { assert forall i :: 0 <= i < |rows| ==> rows[i] != r; }
      }
    }
  }

  ghost predicate DistinctRecords(rows: seq<Report>) {
    forall i, j :: 0 <= i < j < |rows| ==> rows[i].recordId != rows[j].recordId
  }

  /** Among rows with distinct records, an artifact's selection within one family is its own row
      or nothing. */
  lemma {:induction false} OneRow(rows: seq<Report>, source: Source, gen: string, k: nat)
    requires k < |rows| && DistinctRecords(rows) && HouseReport(rows[k], gen)
    ensures Matching(Matching(rows, FromSource(source)), ForArtifact(gen, rows[k].recordId, rows[k].sha))
         == if rows[k].source == source then [rows[k]] else []
  {
    var last := |rows| - 1;
    var q := ForArtifact(gen, rows[k].recordId, rows[k].sha);
    var before := Matching(rows[..last], FromSource(source));
    if k < last {
      OneRow(rows[..last], source, gen, k);
      assert rows[..last][k] == rows[k];
      if rows[last].source == source {
        assert !q.Keeps(rows[last]);
        MatchingAppend(before, [rows[last]], q);
        NothingMatches([rows[last]], q);
      }
    } else {
      forall i | 0 <= i < |before|
        ensures !q.Keeps(before[i])
      {
        MatchingFrom(rows[..last], FromSource(source), i);
        var j :| 0 <= j < last && rows[..last][j] == before[i];
        assert rows[j].recordId != rows[k].recordId;
      }
      NothingMatches(before, q);
      if rows[last].source == source {
        MatchingAppend(before, [rows[last]], q);
        AllMatch([rows[last]], q);
      }
    }
  }

  // ---- the inventory passes ------------------------------------------------------------------------

  /** What the producer promises about the rows it returned. */
  ghost predicate Produced(db: Database, year: int, gen: string, shas: map<DocId, string>, sourceOf: SourceMap,
                           rows: seq<Report>)
  {
    var meta := PtrMetadata(db.metadata, year, gen);
    && DistinctDocs(meta)
    && IsIndex(shas, ArtifactsOf(db.artifacts, year, gen)) && SameDocs(meta, shas)
    && IsInventory(db, year, gen, meta, shas, sourceOf, rows)
    && forall p, e :: sourceOf(p, e) in {HousePdf, GeminiOcr}
  }

  /** What a row says about its document. */
  ghost predicate Describes(db: Database, year: int, gen: string, sourceOf: SourceMap, row: Report) {
    var d, sha := row.recordId, row.sha;
    var bound := Candidates(db.runs, InYear(year, gen, d, sha));
    && HouseReport(row, gen)
    && |bound| == 1 && !Missing(bound[0].parser) && Agrees(bound[0], row, sourceOf)
    && row.accepted == CountTxs(db.txs, InGroup(gen, d, row.source, sha)) == CountTxs(db.txs, OfDoc(gen, d))
    && CountTxs(db.txs, BadInGroup(gen, d, row.source, sha)) == 0
  }

  lemma RowDescribes(db: Database, year: int, gen: string, m: Metadata, shas: map<DocId, string>,
                     sourceOf: SourceMap, row: Report)
    requires RowFor(db, year, gen, m, shas, sourceOf, row)
    requires forall p, e :: sourceOf(p, e) in {HousePdf, GeminiOcr}
    ensures row.recordId == m.docId && row.sha == shas[m.docId] && Describes(db, year, gen, sourceOf, row)
  {
    assert Lower("house") == "house";
  }

  lemma ProducedDescribes(db: Database, year: int, gen: string, shas: map<DocId, string>, sourceOf: SourceMap,
                          rows: seq<Report>)
    requires Produced(db, year, gen, shas, sourceOf, rows)
    ensures DistinctRecords(rows)
    ensures forall i :: 0 <= i < |rows| ==>
              rows[i].recordId in shas && rows[i].sha == shas[rows[i].recordId] && Describes(db, year, gen, sourceOf, rows[i])
  {
    var meta := PtrMetadata(db.metadata, year, gen);
    forall i | 0 <= i < |rows|
      ensures rows[i].recordId == meta[i].docId && rows[i].recordId in shas
      ensures rows[i].sha == shas[rows[i].recordId] && Describes(db, year, gen, sourceOf, rows[i])
    {
      RowDescribes(db, year, gen, meta[i], shas, sourceOf, rows[i]);
    }
  }

  /** The one report the auditor finds for a row's artifact is that row. */
  lemma RowFound(reports: seq<Report>, gen: string, rows: seq<Report>, k: nat)
    requires k < |rows| && DistinctRecords(rows)
    requires forall i :: 0 <= i < |rows| ==> HouseReport(rows[i], gen)
    ensures Matching(Publish(reports, gen, rows), ForArtifact(gen, rows[k].recordId, rows[k].sha)) == [rows[k]]
  {
    PublishedReports(reports, gen, rows, ForArtifact(gen, rows[k].recordId, rows[k].sha));
    OneRow(rows, HousePdf, gen, k);
    OneRow(rows, GeminiOcr, gen, k);
  }

  lemma {:induction false} CandidatesExact(runs: seq<Run>, q: RunQuery, r: Run)
    ensures r in Candidates(runs, q) <==> r in runs && q.Keeps(r)
  {
    if runs != [] {
      var last := |runs| - 1;
      CandidatesExact(runs[..last], q, r);
      assert runs == runs[..last] + [runs[last]];
    }
  }

  /** A row's binding holds exactly when its artifact has one run the check takes into account,
      whatever the archive year of that run. */
  lemma RowBound(db: Database, year: int, gen: string, sourceOf: SourceMap, reports: seq<Report>, rows: seq<Report>,
                 labelled: bool, k: nat)
    requires k < |rows| && DistinctRecords(rows)
    requires forall i :: 0 <= i < |rows| ==> Describes(db, year, gen, sourceOf, rows[i])
    ensures var d, sha := rows[k].recordId, rows[k].sha;
            ArtifactBound(d, sha, db.runs, Publish(reports, gen, rows), gen, labelled, sourceOf)
            <==> |Candidates(db.runs, if labelled then Labelled(gen, d, sha) else Named(gen, d, sha))| == 1
  {
    var d, sha := rows[k].recordId, rows[k].sha;
    var q := if labelled then Labelled(gen, d, sha) else Named(gen, d, sha);
    RowFound(reports, gen, rows, k);
    assert Describes(db, year, gen, sourceOf, rows[k]);
    var run := Candidates(db.runs, InYear(year, gen, d, sha))[0];
    CandidatesExact(db.runs, InYear(year, gen, d, sha), run);
    EmptyIsMissing(run.parser);
    CandidatesExact(db.runs, q, run);
  }

  lemma EmptyIsMissing(s: Option<string>)
    ensures Empty(s) ==> Missing(s)
  {
  }

  /** The runs of the generation are those of its archive year. */
  ghost predicate RunsInYear(runs: seq<Run>, year: int, gen: string) {
    forall r :: r in runs && r.gen == gen ==> r.year == year
  }

  lemma {:induction false} SameCandidates(runs: seq<Run>, p: RunQuery, q: RunQuery)
    requires forall r :: r in runs ==> (p.Keeps(r) <==> q.Keeps(r))
    ensures Candidates(runs, p) == Candidates(runs, q)
  {
    if runs != [] {
      var last := |runs| - 1;
      SameCandidates(runs[..last], p, q);
    }
  }

  lemma OneRunInYear(db: Database, year: int, gen: string, sourceOf: SourceMap, row: Report, labelled: bool)
    requires Describes(db, year, gen, sourceOf, row) && RunsInYear(db.runs, year, gen)
    ensures |Candidates(db.runs, if labelled then Labelled(gen, row.recordId, row.sha) else Named(gen, row.recordId, row.sha))| == 1
  {
    var p := InYear(year, gen, row.recordId, row.sha);
    var q := if labelled then Labelled(gen, row.recordId, row.sha) else Named(gen, row.recordId, row.sha);
    forall r | r in db.runs
      ensures p.Keeps(r) <==> q.Keeps(r)
    {
      CandidatesExact(db.runs, p, r);
      EmptyIsMissing(r.parser);
      if p.Keeps(r) {
        assert r == Candidates(db.runs, p)[0];
      }
    }
    SameCandidates(db.runs, p, q);
  }

  lemma ArtifactHasRow(db: Database, year: int, gen: string, shas: map<DocId, string>, sourceOf: SourceMap,
                       rows: seq<Report>, a: Artifact) returns (k: nat)
    requires Produced(db, year, gen, shas, sourceOf, rows) && a in ArtifactsOf(db.artifacts, year, gen)
    ensures k < |rows| && rows[k].recordId == a.docId && a.sha == Some(rows[k].sha)
  {
    var meta := PtrMetadata(db.metadata, year, gen);
    assert Indexed(shas, a);
    k :| 0 <= k < |meta| && meta[k].docId == a.docId;
    assert RowFor(db, year, gen, meta[k], shas, sourceOf, rows[k]);
  }

  /** A published inventory passes the binding check of either side exactly when each artifact
      has a single run that the check counts; the producer guarantees that for the archive year,
      so a generation whose runs all carry that year always passes. */
  lemma BindingHoldsExactly(db: Database, year: int, gen: string, shas: map<DocId, string>, sourceOf: SourceMap,
                            rows: seq<Report>, reports: seq<Report>, labelled: bool, a: Artifact)
    requires Produced(db, year, gen, shas, sourceOf, rows) && a in ArtifactsOf(db.artifacts, year, gen)
    ensures a.sha.Some?
    ensures ArtifactBound(a.docId, a.sha.value, db.runs, Publish(reports, gen, rows), gen, labelled, sourceOf)
       <==> |Candidates(db.runs, if labelled then Labelled(gen, a.docId, a.sha.value) else Named(gen, a.docId, a.sha.value))| == 1
    ensures RunsInYear(db.runs, year, gen)
       ==> ArtifactBound(a.docId, a.sha.value, db.runs, Publish(reports, gen, rows), gen, labelled, sourceOf)
  {
    ProducedDescribes(db, year, gen, shas, sourceOf, rows);
    var k := ArtifactHasRow(db, year, gen, shas, sourceOf, rows, a);
    RowBound(db, year, gen, sourceOf, reports, rows, labelled, k);
    if RunsInYear(db.runs, year, gen) {
      OneRunInYear(db, year, gen, sourceOf, rows[k], labelled);
    }
  }

  /** Nothing else is left: every House report of the generation is a row of the inventory. */
  lemma NoOtherReports(reports: seq<Report>, gen: string, rows: seq<Report>, r: Report)
    requires r in Matching(Publish(reports, gen, rows), HouseReports(gen))
    ensures r in rows
  {
    PublishedReports(reports, gen, rows, HouseReports(gen));
    var pdf, ocr := Matching(rows, FromSource(HousePdf)), Matching(rows, FromSource(GeminiOcr));
    if r in Matching(pdf, HouseReports(gen)) {
      MatchedIsMember(rows, FromSource(HousePdf), HouseReports(gen), r);
    } else {
      MatchedIsMember(rows, FromSource(GeminiOcr), HouseReports(gen), r);
    }
  }

  lemma MatchedIsMember(rows: seq<Report>, p: ReportQuery, q: ReportQuery, r: Report)
    requires r in Matching(Matching(rows, p), q)
    ensures r in rows
  {
    var i :| 0 <= i < |Matching(Matching(rows, p), q)| && Matching(Matching(rows, p), q)[i] == r;
    MatchingFrom(Matching(rows, p), q, i);
    var j :| 0 <= j < |Matching(rows, p)| && Matching(rows, p)[j] == r;
    MatchingFrom(rows, p, j);
  }

  // ---- the activation check -------------------------------------------------------------------------

  predicate Covers(r: Report, a: Artifact) {
    r.recordId == a.docId && a.sha == Some(r.sha)
  }

  /** What activation asks of the reports beside the bindings: as many as artifacts, none missing,
      none without its artifact, none repeated. */
  ghost predicate ActivationClean(artifacts: seq<Artifact>, filed: seq<Report>) {
    && |filed| == |artifacts|
    && (forall i :: 0 <= i < |artifacts| ==> HasReport(artifacts[i], filed))
    && (forall i :: 0 <= i < |filed| ==> HasArtifactFor(filed[i], artifacts))
    && DistinctRecords(filed)
  }

  predicate HasReport(a: Artifact, filed: seq<Report>) {
    exists j :: 0 <= j < |filed| && Covers(filed[j], a)
  }

  predicate HasArtifactFor(r: Report, artifacts: seq<Artifact>) {
    exists j :: 0 <= j < |artifacts| && Covers(r, artifacts[j])
  }

  datatype ActivationViolation = WrongNumber(reports: nat, artifacts: nat) | Lacking(doc: DocId) | Extra(doc: DocId) | Repeated(doc: DocId)

  method LackingReports(artifacts: seq<Artifact>, filed: seq<Report>) returns (violations: seq<ActivationViolation>)
    ensures violations == [] <==> forall i :: 0 <= i < |artifacts| ==> HasReport(artifacts[i], filed)
  {
    violations := [];
    for i := 0 to |artifacts|
      invariant violations == [] <==> forall k :: 0 <= k < i ==> HasReport(artifacts[k], filed)
    {
      if !HasReport(artifacts[i], filed) {
        violations := violations + [Lacking(artifacts[i].docId)];
      }
    }
  }

  method ExtraReports(artifacts: seq<Artifact>, filed: seq<Report>) returns (violations: seq<ActivationViolation>)
    ensures violations == [] <==> forall i :: 0 <= i < |filed| ==> HasArtifactFor(filed[i], artifacts)
  {
    violations := [];
    for i := 0 to |filed|
      invariant violations == [] <==> forall k :: 0 <= k < i ==> HasArtifactFor(filed[k], artifacts)
    {
      if !HasArtifactFor(filed[i], artifacts) {
        violations := violations + [Extra(filed[i].recordId)];
      }
    }
  }

  method RepeatedReports(filed: seq<Report>) returns (violations: seq<ActivationViolation>)
    ensures violations == [] <==> DistinctRecords(filed)
  {
    violations := [];
    var seen: set<DocId> := {};
    for i := 0 to |filed|
      invariant forall d :: d in seen <==> exists k :: 0 <= k < i && filed[k].recordId == d
      invariant violations == [] <==> DistinctRecords(filed[..i])
    {
      if filed[i].recordId in seen {
        violations := violations + [Repeated(filed[i].recordId)];
      }
      OneMoreRecord(filed, i);
      seen := seen + {filed[i].recordId};
    }
    assert filed[..|filed|] == filed;
  }

  method ActivationViolations(artifacts: seq<Artifact>, reports: seq<Report>, gen: string)
    returns (violations: seq<ActivationViolation>)
    ensures violations == [] <==> ActivationClean(artifacts, Matching(reports, HouseReports(gen)))
  {
    var filed := Matching(reports, HouseReports(gen));
    var lacking := LackingReports(artifacts, filed);
    var extra := ExtraReports(artifacts, filed);
    var repeated := RepeatedReports(filed);
    violations := (if |filed| != |artifacts| then [WrongNumber(|filed|, |artifacts|)] else []) + lacking + extra + repeated;
  }

  lemma OneMoreRecord(filed: seq<Report>, i: nat)
    requires i < |filed|
    ensures DistinctRecords(filed[..i + 1])
       <==> DistinctRecords(filed[..i]) && forall k :: 0 <= k < i ==> filed[k].recordId != filed[i].recordId
  {
    var now, next := filed[..i], filed[..i + 1];
    assert forall k :: 0 <= k < i ==> now[k] == next[k] == filed[k];
    assert next[i] == filed[i];
    if DistinctRecords(next) {
      forall j, k | 0 <= j < k < |now|
        ensures now[j].recordId != now[k].recordId
      {
        assert next[j].recordId != next[k].recordId;
      }
      forall k | 0 <= k < i
        ensures filed[k].recordId != filed[i].recordId
      {
        assert next[k].recordId != next[i].recordId;
      }
    }
  }

  lemma {:induction false} MatchingDistinct(rows: seq<Report>, q: ReportQuery)
    requires DistinctRecords(rows)
    ensures DistinctRecords(Matching(rows, q))
    ensures forall r :: r in Matching(rows, q) ==> r in rows && q.Keeps(r)
  {
    if rows != [] {
      var last := |rows| - 1;
      var before := Matching(rows[..last], q);
      MatchingDistinct(rows[..last], q);
      assert rows == rows[..last] + [rows[last]];
      forall i | 0 <= i < |before|
        ensures before[i].recordId != rows[last].recordId
      {
        assert before[i] in rows[..last];
        var k :| 0 <= k < last && rows[..last][k] == before[i];
        assert rows[k].recordId != rows[last].recordId;
      }
    }
  }

  lemma {:induction false} MatchingAll(rows: seq<Report>, q: ReportQuery, r: Report)
    requires r in rows && q.Keeps(r)
    ensures r in Matching(rows, q)
  {
    var last := |rows| - 1;
    assert rows == rows[..last] + [rows[last]];
    if rows[last] != r {
      MatchingAll(rows[..last], q, r);
    }
  }

  lemma {:induction false} FamiliesCover(rows: seq<Report>)
    requires forall i :: 0 <= i < |rows| ==> rows[i].source == HousePdf || rows[i].source == GeminiOcr
    ensures |Matching(rows, FromSource(HousePdf))| + |Matching(rows, FromSource(GeminiOcr))| == |rows|
  {
    if rows != [] {
      FamiliesCover(rows[..|rows| - 1]);
    }
  }

  /** The published reports of the generation: the inventory's rows, family by family. */
  lemma PublishedFamilies(reports: seq<Report>, gen: string, rows: seq<Report>)
    requires forall i :: 0 <= i < |rows| ==> HouseReport(rows[i], gen)
    ensures Matching(Publish(reports, gen, rows), HouseReports(gen))
         == Matching(rows, FromSource(HousePdf)) + Matching(rows, FromSource(GeminiOcr))
  {
    var pdf, ocr := Matching(rows, FromSource(HousePdf)), Matching(rows, FromSource(GeminiOcr));
    PublishedReports(reports, gen, rows, HouseReports(gen));
    forall i | 0 <= i < |pdf|
      ensures HouseReports(gen).Keeps(pdf[i])
    {
      MatchingFrom(rows, FromSource(HousePdf), i);
    }
    forall i | 0 <= i < |ocr|
      ensures HouseReports(gen).Keeps(ocr[i])
    {
      MatchingFrom(rows, FromSource(GeminiOcr), i);
    }
    AllMatch(pdf, HouseReports(gen));
    AllMatch(ocr, HouseReports(gen));
  }

  lemma FamiliesDistinct(rows: seq<Report>)
    requires DistinctRecords(rows)
    ensures DistinctRecords(Matching(rows, FromSource(HousePdf)) + Matching(rows, FromSource(GeminiOcr)))
  {
    var pdf, ocr := Matching(rows, FromSource(HousePdf)), Matching(rows, FromSource(GeminiOcr));
    MatchingDistinct(rows, FromSource(HousePdf));
    MatchingDistinct(rows, FromSource(GeminiOcr));
    forall i, j | 0 <= i < |pdf| && 0 <= j < |ocr|
      ensures pdf[i].recordId != ocr[j].recordId
    {
      assert pdf[i] in rows && ocr[j] in rows && pdf[i] != ocr[j];
      SameRecord(rows, pdf[i], ocr[j]);
    }
  }

  lemma SameRecord(rows: seq<Report>, r: Report, s: Report)
    requires DistinctRecords(rows) && r in rows && s in rows && r != s
    ensures r.recordId != s.recordId
  {
    var i :| 0 <= i < |rows| && rows[i] == r;
    var j :| 0 <= j < |rows| && rows[j] == s;
    if i < j {
      assert rows[i].recordId != rows[j].recordId;
    } else {
      assert rows[j].recordId != rows[i].recordId;
    }
  }

  function DocSet(docs: seq<DocId>): set<DocId> {
    if docs == [] then {} else DocSet(docs[..|docs| - 1]) + {docs[|docs| - 1]}
  }

  lemma {:induction false} DocSetExact(docs: seq<DocId>, d: DocId)
    ensures d in DocSet(docs) <==> d in docs
  {
    if docs != [] {
      DocSetExact(docs[..|docs| - 1], d);
      assert docs == docs[..|docs| - 1] + [docs[|docs| - 1]];
    }
  }

  lemma {:induction false} DocSetSize(docs: seq<DocId>)
    requires forall i, j :: 0 <= i < j < |docs| ==> docs[i] != docs[j]
    ensures |DocSet(docs)| == |docs|
  {
    if docs != [] {
      var last := |docs| - 1;
      DocSetSize(docs[..last]);
      DocSetExact(docs[..last], docs[last]);
    }
  }

  function FiledDocs(meta: seq<Metadata>): seq<DocId> {
    seq(|meta|, i requires 0 <= i < |meta| => meta[i].docId)
  }

  function StoredDocs(artifacts: seq<Artifact>): seq<DocId> {
    seq(|artifacts|, i requires 0 <= i < |artifacts| => artifacts[i].docId)
  }

  lemma FiledDocsExact(meta: seq<Metadata>, d: DocId)
    ensures d in FiledDocs(meta) <==> exists i :: 0 <= i < |meta| && meta[i].docId == d
  {
    if i :| 0 <= i < |meta| && meta[i].docId == d {
      assert FiledDocs(meta)[i] == d;
    }
  }

  lemma StoredDocsExact(artifacts: seq<Artifact>, d: DocId)
    ensures d in StoredDocs(artifacts) <==> HasArtifact(artifacts, d)
  {
    if i :| 0 <= i < |artifacts| && artifacts[i].docId == d {
      assert StoredDocs(artifacts)[i] == d;
    }
  }

  /** As many artifacts as filings: both have the documents of the index, once each. */
  lemma SameNumber(meta: seq<Metadata>, artifacts: seq<Artifact>, shas: map<DocId, string>)
    requires DistinctDocs(meta) && IsIndex(shas, artifacts) && SameDocs(meta, shas)
    ensures |meta| == |artifacts|
  {
    DocSetSize(FiledDocs(meta));
    DocSetSize(StoredDocs(artifacts));
    forall d
      ensures d in DocSet(FiledDocs(meta)) <==> d in DocSet(StoredDocs(artifacts))
    {
      DocSetExact(FiledDocs(meta), d);
      DocSetExact(StoredDocs(artifacts), d);
      FiledDocsExact(meta, d);
      StoredDocsExact(artifacts, d);
      IndexDocs(meta, artifacts, shas, d);
    }
    assert DocSet(FiledDocs(meta)) == DocSet(StoredDocs(artifacts));
  }

  lemma IndexDocs(meta: seq<Metadata>, artifacts: seq<Artifact>, shas: map<DocId, string>, d: DocId)
    requires IsIndex(shas, artifacts) && SameDocs(meta, shas)
    ensures (exists i :: 0 <= i < |meta| && meta[i].docId == d) <==> HasArtifact(artifacts, d)
  {
    if HasArtifact(artifacts, d) {
      var i :| 0 <= i < |artifacts| && artifacts[i].docId == d;
      assert Indexed(shas, artifacts[i]);
    }
  }

  /** A published inventory always passes the activation check: one report per artifact, each with its
      artifact, none repeated. */
  lemma ActivationAlwaysClean(db: Database, year: int, gen: string, shas: map<DocId, string>, sourceOf: SourceMap,
                              rows: seq<Report>, reports: seq<Report>)
    requires Produced(db, year, gen, shas, sourceOf, rows)
    ensures ActivationClean(ArtifactsOf(db.artifacts, year, gen), Matching(Publish(reports, gen, rows), HouseReports(gen)))
  {
    var artifacts := ArtifactsOf(db.artifacts, year, gen);
    var filed := Matching(Publish(reports, gen, rows), HouseReports(gen));
    ProducedDescribes(db, year, gen, shas, sourceOf, rows);
    PublishedFamilies(reports, gen, rows);
    FamiliesDistinct(rows);
    FamiliesCover(rows);
    SameNumber(PtrMetadata(db.metadata, year, gen), artifacts, shas);
    forall i | 0 <= i < |artifacts|
      ensures HasReport(artifacts[i], filed)
    {
      var k := ArtifactHasRow(db, year, gen, shas, sourceOf, rows, artifacts[i]);
      RowIsFiled(rows, rows[k]);
      var j :| 0 <= j < |filed| && filed[j] == rows[k];
      assert Covers(filed[j], artifacts[i]);
    }
    forall i | 0 <= i < |filed|
      ensures HasArtifactFor(filed[i], artifacts)
    {
      NoOtherReports(reports, gen, rows, filed[i]);
      RowHasArtifact(artifacts, shas, filed[i]);
    }
  }

  lemma RowIsFiled(rows: seq<Report>, r: Report)
    requires r in rows && (r.source == HousePdf || r.source == GeminiOcr)
    ensures r in Matching(rows, FromSource(HousePdf)) + Matching(rows, FromSource(GeminiOcr))
  {
    MatchingAll(rows, FromSource(r.source), r);
  }

  lemma RowHasArtifact(artifacts: seq<Artifact>, shas: map<DocId, string>, r: Report)
    requires IsIndex(shas, artifacts) && r.recordId in shas && r.sha == shas[r.recordId]
    ensures HasArtifactFor(r, artifacts)
  {
    assert HasArtifact(artifacts, r.recordId);
    var i :| 0 <= i < |artifacts| && artifacts[i].docId == r.recordId;
    assert Indexed(shas, artifacts[i]);
    assert Covers(r, artifacts[i]);
  }

  ghost predicate ReportedBy(a: Artifact, filed: seq<Report>) {
    exists r :: r in filed && r.recordId == a.docId && Some(r.sha) == a.sha
  }

  ghost predicate StoredFor(r: Report, artifacts: seq<Artifact>) {
    exists a :: a in artifacts && r.recordId == a.docId && Some(r.sha) == a.sha
  }

  lemma ReportedExactly(a: Artifact, filed: seq<Report>)
    ensures HasReport(a, filed) <==> ReportedBy(a, filed)
  {
    if r :| r in filed && r.recordId == a.docId && Some(r.sha) == a.sha {
      var j :| 0 <= j < |filed| && filed[j] == r;
      assert Covers(filed[j], a);
    }
  }

  lemma StoredExactly(r: Report, artifacts: seq<Artifact>)
    ensures HasArtifactFor(r, artifacts) <==> StoredFor(r, artifacts)
  {
    if a :| a in artifacts && r.recordId == a.docId && Some(r.sha) == a.sha {
      var j :| 0 <= j < |artifacts| && artifacts[j] == a;
      assert Covers(r, artifacts[j]);
    }
  }

  ghost predicate AllReported(artifacts: seq<Artifact>, filed: seq<Report>) {
    forall a :: a in artifacts ==> ReportedBy(a, filed)
  }

  ghost predicate AllStored(artifacts: seq<Artifact>, filed: seq<Report>) {
    forall r :: r in filed ==> StoredFor(r, artifacts)
  }

  ghost predicate RecordsDiffer(filed: seq<Report>) {
    forall i, j :: 0 <= i < |filed| && 0 <= j < |filed| && filed[i].recordId == filed[j].recordId ==> i == j
  }

  lemma AllReportedExactly(artifacts: seq<Artifact>, filed: seq<Report>)
    ensures (forall i :: 0 <= i < |artifacts| ==> HasReport(artifacts[i], filed)) <==> AllReported(artifacts, filed)
  {
    forall i | 0 <= i < |artifacts|
      ensures HasReport(artifacts[i], filed) <==> ReportedBy(artifacts[i], filed)
    {
      ReportedExactly(artifacts[i], filed);
    }
  }

  lemma AllStoredExactly(artifacts: seq<Artifact>, filed: seq<Report>)
    ensures (forall i :: 0 <= i < |filed| ==> HasArtifactFor(filed[i], artifacts)) <==> AllStored(artifacts, filed)
  {
    forall i | 0 <= i < |filed|
      ensures HasArtifactFor(filed[i], artifacts) <==> StoredFor(filed[i], artifacts)
    {
      StoredExactly(filed[i], artifacts);
    }
  }

  /** The activation check asks for as many reports as artifacts, no two of one document, a report of each artifact's
      document and bytes and an artifact of each report's. */
  lemma ActivationExactly(artifacts: seq<Artifact>, filed: seq<Report>)
    ensures ActivationClean(artifacts, filed)
       <==> (|filed| == |artifacts| && RecordsDiffer(filed) && AllReported(artifacts, filed) && AllStored(artifacts, filed))
  {
    AllReportedExactly(artifacts, filed);
    AllStoredExactly(artifacts, filed);
  }

  ghost predicate OneEach(artifacts: seq<Artifact>) {
    forall i, j :: 0 <= i < j < |artifacts| ==> artifacts[i].docId != artifacts[j].docId
  }

  /** The activation check notices when one of the reports is replaced by one of another document or over other
      bytes. */
  lemma OtherReportShows(artifacts: seq<Artifact>, filed: seq<Report>, i: nat, r: Report)
    requires OneEach(artifacts) && ActivationClean(artifacts, filed) && i < |filed|
    requires r.recordId != filed[i].recordId || r.sha != filed[i].sha
    ensures !ActivationClean(artifacts, filed[i := r])
  {
    assert HasArtifactFor(filed[i], artifacts);
    var j :| 0 <= j < |artifacts| && Covers(filed[i], artifacts[j]);
    if r.recordId == filed[i].recordId {
      OtherBytes(artifacts, j, filed[i], r);
      assert !HasArtifactFor(filed[i := r][i], artifacts);
    } else {
      OtherDocument(artifacts[j], filed, i, r);
    }
  }

  lemma OtherBytes(artifacts: seq<Artifact>, j: nat, was: Report, r: Report)
    requires OneEach(artifacts) && j < |artifacts| && Covers(was, artifacts[j])
    requires r.recordId == was.recordId && r.sha != was.sha
    ensures !HasArtifactFor(r, artifacts)
  {
    forall k: nat | k < |artifacts|
      ensures !Covers(r, artifacts[k])
    {
      SameIndexArtifact(artifacts, j, k);
    }
  }

  lemma OtherDocument(a: Artifact, filed: seq<Report>, i: nat, r: Report)
    requires DistinctRecords(filed) && i < |filed| && Covers(filed[i], a) && r.recordId != filed[i].recordId
    ensures !HasReport(a, filed[i := r])
  {
    var now := filed[i := r];
    forall n: nat | n < |now|
      ensures !Covers(now[n], a)
    {
      SameIndexReport(filed, i, n);
    }
  }

  lemma SameIndexReport(filed: seq<Report>, i: nat, n: nat)
    requires DistinctRecords(filed) && i < |filed| && n < |filed|
    ensures filed[i].recordId == filed[n].recordId ==> i == n
  {
    if i < n {
      assert filed[i].recordId != filed[n].recordId;
    } else if n < i {
      assert filed[n].recordId != filed[i].recordId;
    }
  }

  lemma SameIndexArtifact(artifacts: seq<Artifact>, j: nat, k: nat)
    requires OneEach(artifacts) && j < |artifacts| && k < |artifacts|
    ensures artifacts[j].docId == artifacts[k].docId ==> j == k
  {
    if j < k {
      assert artifacts[j].docId != artifacts[k].docId;
    } else if k < j {
      assert artifacts[k].docId != artifacts[j].docId;
    }
  }

  // ---- what the binding check asks -----------------------------------------------------------------

  /** A finished run over the artifact that is not passed over: the rebuild skips runs whose parser is missing or
      blank, the auditor those with neither parser nor engines. */
  predicate CountedRun(r: Run, gen: string, d: DocId, sha: string, labelled: bool) {
    && (r.status == RunSuccess || r.status == RunNoTxs) && r.gen == gen && r.docId == d && r.sha == Some(sha)
    && if labelled then (r.parser.Some? && r.parser.value != "") || (r.engines.Some? && r.engines.value != "")
       else !Missing(r.parser)
  }

  predicate CountedReport(r: Report, gen: string, d: DocId, sha: string) {
    !Foreign(r, gen) && r.recordId == d && r.sha == sha
  }

  /** One run and one report count for the artifact, of the same source and outcome. */
  ghost predicate Paired(d: DocId, sha: string, runs: seq<Run>, reports: seq<Report>, gen: string, labelled: bool,
                         sourceOf: SourceMap, k: nat, j: nat)
  {
    && k < |runs| && CountedRun(runs[k], gen, d, sha, labelled)
    && (forall n :: 0 <= n < |runs| && n != k ==> !CountedRun(runs[n], gen, d, sha, labelled))
    && j < |reports| && CountedReport(reports[j], gen, d, sha)
    && (forall n :: 0 <= n < |reports| && n != j ==> !CountedReport(reports[n], gen, d, sha))
    && reports[j].source == sourceOf(runs[k].parser, runs[k].engines)
    && (reports[j].outcome == if runs[k].status == RunSuccess then Parsed else NoRows)
  }

  ghost function MatchPlaces(reports: seq<Report>, q: ReportQuery): set<nat> {
    set k: nat | k < |reports| && q.Keeps(reports[k])
  }

  lemma MatchPlacesSnoc(reports: seq<Report>, r: Report, q: ReportQuery)
    ensures MatchPlaces(reports + [r], q) == MatchPlaces(reports, q) + if q.Keeps(r) then {|reports|} else {}
  {
    var all := reports + [r];
    assert all[|reports|] == r;
    forall k: nat | k < |reports|
      ensures k in MatchPlaces(all, q) <==> k in MatchPlaces(reports, q)
    {
      assert all[k] == reports[k];
    }
  }

  lemma {:induction false} MatchingCount(reports: seq<Report>, q: ReportQuery)
    ensures |Matching(reports, q)| == |MatchPlaces(reports, q)|
  {
    if reports == [] {
      assert MatchPlaces(reports, q) == {};
    } else {
      var last := |reports| - 1;
      MatchingCount(reports[..last], q);
      MatchPlacesSnoc(reports[..last], reports[last], q);
      assert reports == reports[..last] + [reports[last]];
    }
  }

  lemma OneMatch(reports: seq<Report>, q: ReportQuery, k: nat)
    requires k < |reports| && q.Keeps(reports[k]) && forall n :: 0 <= n < |reports| && n != k ==> !q.Keeps(reports[n])
    ensures Matching(reports, q) == [reports[k]]
  {
    MatchingCount(reports, q);
    assert MatchPlaces(reports, q) == {k};
    MatchingAll(reports, q, reports[k]);
  }

  lemma MatchesAreOne(reports: seq<Report>, q: ReportQuery) returns (k: nat)
    requires |Matching(reports, q)| == 1
    ensures k < |reports| && q.Keeps(reports[k]) && forall n :: 0 <= n < |reports| && n != k ==> !q.Keeps(reports[n])
  {
    MatchingCount(reports, q);
    var places := MatchPlaces(reports, q);
    assert places != {};
    k :| k in places;
    SubsetOfSameSize({k}, places);
    forall n | 0 <= n < |reports| && n != k
      ensures !q.Keeps(reports[n])
    {
      assert n !in places;
    }
  }

  lemma QueriesCount(gen: string, d: DocId, sha: string, labelled: bool)
    ensures forall r: Run :: (if labelled then Labelled(gen, d, sha) else Named(gen, d, sha)).Keeps(r)
                        <==> CountedRun(r, gen, d, sha, labelled)
    ensures forall r: Report :: ForArtifact(gen, d, sha).Keeps(r) <==> CountedReport(r, gen, d, sha)
  {
  }

  /** On any tables, an artifact has no violation exactly when one run and one report count for it and they agree. */
  lemma BoundExactly(d: DocId, sha: string, runs: seq<Run>, reports: seq<Report>, gen: string, labelled: bool,
                     sourceOf: SourceMap)
    ensures ArtifactBound(d, sha, runs, reports, gen, labelled, sourceOf)
       <==> exists k: nat, j: nat :: Paired(d, sha, runs, reports, gen, labelled, sourceOf, k, j)
  {
    var q := if labelled then Labelled(gen, d, sha) else Named(gen, d, sha);
    QueriesCount(gen, d, sha, labelled);
    if ArtifactBound(d, sha, runs, reports, gen, labelled, sourceOf) {
      var k := CandidatesAreOne(runs, q);
      var j := MatchesAreOne(reports, ForArtifact(gen, d, sha));
      OneCandidate(runs, q, k);
      OneMatch(reports, ForArtifact(gen, d, sha), j);
      assert Paired(d, sha, runs, reports, gen, labelled, sourceOf, k, j);
    }
    if k: nat, j: nat :| Paired(d, sha, runs, reports, gen, labelled, sourceOf, k, j) {
      OneCandidate(runs, q, k);
      OneMatch(reports, ForArtifact(gen, d, sha), j);
    }
  }

  // ---- conservation ---------------------------------------------------------------------------------

  function Records(rows: seq<Report>): set<DocId> {
    if rows == [] then {} else Records(rows[..|rows| - 1]) + {rows[|rows| - 1].recordId}
  }

  function AcceptedTotal(rows: seq<Report>): int {
    if rows == [] then 0 else AcceptedTotal(rows[..|rows| - 1]) + rows[|rows| - 1].accepted
  }

  lemma {:induction false} CountSplit(txs: seq<Tx>, gen: string, docs: set<DocId>, d: DocId)
    requires d !in docs
    ensures CountTxs(txs, OfDocs(gen, docs + {d})) == CountTxs(txs, OfDocs(gen, docs)) + CountTxs(txs, OfDoc(gen, d))
  {
    if txs != [] {
      CountSplit(txs[..|txs| - 1], gen, docs, d);
    }
  }

  lemma {:induction false} NoDocsNoRows(txs: seq<Tx>, gen: string)
    ensures CountTxs(txs, OfDocs(gen, {})) == 0
  {
    if txs != [] {
      NoDocsNoRows(txs[..|txs| - 1], gen);
    }
  }

  lemma {:induction false} RecordsFrom(rows: seq<Report>, d: DocId)
    requires d in Records(rows)
    ensures exists i :: 0 <= i < |rows| && rows[i].recordId == d
  {
    var last := |rows| - 1;
    if rows[last].recordId != d {
      RecordsFrom(rows[..last], d);
      var i :| 0 <= i < last && rows[..last][i].recordId == d;
      assert rows[i].recordId == d;
    }
  }

  /** The accepted counts add up to exactly the generation's persisted rows of the inventoried
      documents. */
  lemma {:induction false} AcceptedIsPersisted(db: Database, year: int, gen: string, sourceOf: SourceMap, rows: seq<Report>)
    requires DistinctRecords(rows)
    requires forall i :: 0 <= i < |rows| ==> Describes(db, year, gen, sourceOf, rows[i])
    ensures AcceptedTotal(rows) == CountTxs(db.txs, OfDocs(gen, Records(rows)))
  {
    if rows == [] {
      NoDocsNoRows(db.txs, gen);
    } else {
      var last := |rows| - 1;
      AcceptedIsPersisted(db, year, gen, sourceOf, rows[..last]);
      if rows[last].recordId in Records(rows[..last]) {
        RecordsFrom(rows[..last], rows[last].recordId);
      }
      CountSplit(db.txs, gen, Records(rows[..last]), rows[last].recordId);
    }
  }

  // ---- the auditor's reconciliation -----------------------------------------------------------------

  /** A chamber the producer accepts and the auditor's join does not: it carries blanks. */
  predicate Padded(t: Tx) {
    t.chamber.Some? && Lower(Trim(t.chamber.value)) == "house" && Trim(t.chamber.value) != t.chamber.value
  }

  function CountPadded(txs: seq<Tx>, gen: string, row: Report): nat {
    if txs == [] then 0
    else
      var last := txs[|txs| - 1];
      CountPadded(txs[..|txs| - 1], gen, row)
        + if InGroup(gen, row.recordId, row.source, row.sha).Keeps(last) && Padded(last) then 1 else 0
  }

  /** Rows of another document filed under this one's record id. */
  function CountForeign(txs: seq<Tx>, row: Report): nat {
    if txs == [] then 0
    else
      var last := txs[|txs| - 1];
      CountForeign(txs[..|txs| - 1], row) + if JoinsReport(last, row) && last.docId != row.recordId then 1 else 0
  }

  lemma {:induction false} TrimLeftShort(s: string)
    ensures |TrimLeft(s)| <= |s| && (|TrimLeft(s)| == |s| ==> TrimLeft(s) == s)
    ensures s != "" && s[0] == ' ' ==> |TrimLeft(s)| < |s|
  {
    if s != "" && s[0] == ' ' {
      TrimLeftShort(s[1..]);
    }
  }

  lemma {:induction false} TrimRightShort(s: string)
    ensures |TrimRight(s)| <= |s| && (|TrimRight(s)| == |s| ==> TrimRight(s) == s)
    ensures s != "" && s[|s| - 1] == ' ' ==> |TrimRight(s)| < |s|
  {
    if s != "" && s[|s| - 1] == ' ' {
      TrimRightShort(s[..|s| - 1]);
    }
  }

  /** Trimming an already accepted chamber changes nothing exactly when the untrimmed text is
      accepted too. */
  lemma TrimMatters(c: string)
    requires Lower(Trim(c)) == "house"
    ensures Lower(c) == "house" <==> Trim(c) == c
  {
    TrimLeftShort(c);
    TrimRightShort(TrimLeft(c));
    assert |Trim(c)| == 5;
  }

  lemma {:induction false} JoinedCount(txs: seq<Tx>, gen: string, row: Report)
    requires row.gen == gen && Lower(row.chamber) == "house"
    requires CountTxs(txs, BadInGroup(gen, row.recordId, row.source, row.sha)) == 0
    ensures CountTxs(txs, Joined(row)) + CountPadded(txs, gen, row)
         == CountTxs(txs, InGroup(gen, row.recordId, row.source, row.sha)) + CountForeign(txs, row)
  {
    if txs != [] {
      var t := txs[|txs| - 1];
      JoinedCount(txs[..|txs| - 1], gen, row);
      if InGroup(gen, row.recordId, row.source, row.sha).Keeps(t) {
        assert !BadIdentity(t);
        TrimMatters(t.chamber.value);
      }
    }
  }

  /** The auditor reconciles a published row exactly when as many rows of its group carry a padded
      chamber as rows of other documents are filed under its record id; normally both are none. */
  lemma ReconcilesExactly(db: Database, year: int, gen: string, sourceOf: SourceMap, row: Report)
    requires Describes(db, year, gen, sourceOf, row)
    ensures CountTxs(db.txs, Joined(row)) == row.accepted
       <==> CountPadded(db.txs, gen, row) == CountForeign(db.txs, row)
  {
    JoinedCount(db.txs, gen, row);
  }

  lemma {:induction false} NoForeign(txs: seq<Tx>, row: Report)
    requires forall t :: t in txs && t.gen == row.gen ==> t.recordId == Some(t.docId)
    ensures CountForeign(txs, row) == 0
  {
    if txs != [] {
      NoForeign(txs[..|txs| - 1], row);
    }
  }

  lemma {:induction false} PaddedExact(txs: seq<Tx>, gen: string, row: Report)
    ensures CountPadded(txs, gen, row) == 0
       <==> forall t :: t in txs && InGroup(gen, row.recordId, row.source, row.sha).Keeps(t) ==> !Padded(t)
  {
    if txs != [] {
      var last := |txs| - 1;
      PaddedExact(txs[..last], gen, row);
      assert txs == txs[..last] + [txs[last]];
    }
  }

  /** When every persisted row of the generation is filed under its own document, the auditor
      accepts a row exactly when no chamber in its group is padded with blanks: the producer
      trims before comparing, the auditor does not. */
  lemma PaddedChamberBreaksAudit(db: Database, year: int, gen: string, sourceOf: SourceMap, row: Report)
    requires Describes(db, year, gen, sourceOf, row)
    requires forall t :: t in db.txs && t.gen == gen ==> t.recordId == Some(t.docId)
    ensures CountTxs(db.txs, Joined(row)) == row.accepted
       <==> forall t :: t in db.txs && InGroup(gen, row.recordId, row.source, row.sha).Keeps(t) ==> !Padded(t)
  {
    ReconcilesExactly(db, year, gen, sourceOf, row);
    NoForeign(db.txs, row);
    PaddedExact(db.txs, gen, row);
  }

  // ---- refreshing a generation ------------------------------------------------------------------------

  ghost predicate AllBound(db: Database, year: int, gen: string, reports: seq<Report>, labelled: bool, sourceOf: SourceMap) {
    forall a :: a in ArtifactsOf(db.artifacts, year, gen) ==>
      a.sha.Some? && ArtifactBound(a.docId, a.sha.value, db.runs, reports, gen, labelled, sourceOf)
  }

  /** The reports table and the generation's activation. */
  class HouseStore {
    var reports: seq<Report>
    var complete: bool

    constructor (initial: seq<Report>)
      ensures reports == initial && !complete
    {
      reports, complete := initial, false;
    }

    /** One transaction: either the inventory is published and the generation activated, or the
        tables are left as they were; an unresolved generation loses its reports. A published
        generation passes the activation check, and both binding checks when its runs carry the
        archive year. */
    method Refresh(db: Database, year: int, gen: string, unresolved: set<DocId>, sourceOf: SourceMap)
      returns (r: Result<nat>, ghost shas: map<DocId, string>, ghost rows: seq<Report>)
      requires forall p, e :: sourceOf(p, e) in {HousePdf, GeminiOcr}
      modifies this
      ensures unresolved != {} ==>
        reports == Publish(old(reports), gen, []) && Replaced(old(reports), reports, gen, []) && !complete
      ensures unresolved == {} ==> (r.Ok? <==> Inventoriable(db, year, gen, sourceOf))
      ensures unresolved == {} && r.Refused? ==> reports == old(reports) && complete == old(complete)
      ensures unresolved == {} && r.Ok? ==>
        && complete && Produced(db, year, gen, shas, sourceOf, rows)
        && r.value == |rows| && reports == Publish(old(reports), gen, rows)
        && Replaced(old(reports), reports, gen, rows)
        && (forall i :: 0 <= i < |rows| ==> RowTells(db, year, gen, sourceOf, rows[i]))
        && ActivationClean(ArtifactsOf(db.artifacts, year, gen), Matching(reports, HouseReports(gen)))
        && (RunsInYear(db.runs, year, gen) ==> forall labelled :: AllBound(db, year, gen, reports, labelled, sourceOf))
    {
      shas, rows := map[], [];
      if unresolved != {} {
        PublishReplaces(reports, gen, []);
        reports := ReplaceGroup(reports, gen, HousePdf, []);
        reports := ReplaceGroup(reports, gen, GeminiOcr, []);
        complete := false;
        return Ok(0), shas, rows;
      }
      var inventory, index := HouseInventoryRows(db, year, gen, sourceOf);
      if inventory.Refused? {
        return Refused(inventory.doc, inventory.why), shas, rows;
      }
      shas, rows := index, inventory.value;
      PublishPasses(db, year, gen, shas, sourceOf, rows, reports);
      ActivationAlwaysClean(db, year, gen, shas, sourceOf, rows, reports);
      ProducedTells(db, year, gen, shas, sourceOf, rows);
      ProducedReplaces(db, year, gen, shas, sourceOf, rows, reports);
      reports := ReplaceGroup(reports, gen, HousePdf, Matching(inventory.value, FromSource(HousePdf)));
      reports := ReplaceGroup(reports, gen, GeminiOcr, Matching(inventory.value, FromSource(GeminiOcr)));
      complete := true;
      return Ok(|inventory.value|), shas, rows;
    }
  }

  lemma ProducedTells(db: Database, year: int, gen: string, shas: map<DocId, string>, sourceOf: SourceMap,
                      rows: seq<Report>)
    requires Produced(db, year, gen, shas, sourceOf, rows)
    ensures forall i :: 0 <= i < |rows| ==> RowTells(db, year, gen, sourceOf, rows[i])
  {
    var meta := PtrMetadata(db.metadata, year, gen);
    forall i | 0 <= i < |rows|
      ensures RowTells(db, year, gen, sourceOf, rows[i])
    {
      InventoryTells(db, year, gen, meta[i], shas, sourceOf, rows[i]);
    }
  }

  lemma ProducedReplaces(db: Database, year: int, gen: string, shas: map<DocId, string>, sourceOf: SourceMap,
                         rows: seq<Report>, reports: seq<Report>)
    requires Produced(db, year, gen, shas, sourceOf, rows)
    ensures Replaced(reports, Publish(reports, gen, rows), gen, rows)
  {
    ProducedDescribes(db, year, gen, shas, sourceOf, rows);
    PublishReplaces(reports, gen, rows);
  }

  lemma PublishPasses(db: Database, year: int, gen: string, shas: map<DocId, string>, sourceOf: SourceMap,
                      rows: seq<Report>, reports: seq<Report>)
    requires Produced(db, year, gen, shas, sourceOf, rows)
    ensures RunsInYear(db.runs, year, gen)
       ==> forall labelled :: AllBound(db, year, gen, Publish(reports, gen, rows), labelled, sourceOf)
  {
    if RunsInYear(db.runs, year, gen) {
      forall labelled, a | a in ArtifactsOf(db.artifacts, year, gen)
        ensures a.sha.Some?
        ensures ArtifactBound(a.docId, a.sha.value, db.runs, Publish(reports, gen, rows), gen, labelled, sourceOf)
      {
        BindingHoldsExactly(db, year, gen, shas, sourceOf, rows, reports, labelled, a);
      }
    }
  }

  // ---- the two ways an accepted inventory fails its audit -------------------------------------------

  function Success(sha: string, year: int): Run {
    Run("d", year, "g", Some("parser-v1"), None, RunSuccess, Some(1), Some(1), None, Some(sha))
  }

  /** One filing with one artifact, the given runs and one persisted row. */
  function OneFiling(sha: string, runs: seq<Run>, chamber: string): Database {
    Database([Metadata("d", 2015, "g", true, Some("A Member"), Some("2015-03-01"))],
             [Artifact("d", 2015, "g", Some(sha))], runs,
             [Tx("d", HousePdf, "g", Some(sha), Some("d"), Some(chamber))])
  }

  lemma OneTx(t: Tx, q: TxQuery)
    ensures CountTxs([t], q) == if q.Keeps(t) then 1 else 0
  {
    assert [t][..0] == [];
  }

  lemma OneFilingReady(sha: string, runs: seq<Run>, chamber: string, sourceOf: SourceMap)
    requires sourceOf(Some("parser-v1"), None) == HousePdf
    requires Lower(Trim(chamber)) == "house"
    requires Candidates(runs, InYear(2015, "g", "d", sha)) == [Success(sha, 2015)]
    ensures var db := OneFiling(sha, runs, chamber);
            DocReady(db, 2015, "g", db.metadata[0], sha, sourceOf)
  {
    var t := OneFiling(sha, runs, chamber).txs[0];
    OneTx(t, BadInGroup("g", "d", HousePdf, sha));
    OneTx(t, InGroup("g", "d", HousePdf, sha));
    OneTx(t, OfDoc("g", "d"));
    assert Trim("parser-v1") == "parser-v1";
  }

  lemma OneFilingIndex(m: Metadata, a: Artifact, sha: string, year: int, gen: string)
    requires m.year == year && m.gen == gen && m.isPtr && a == Artifact(m.docId, year, gen, Some(sha)) && IsDigest(sha)
    ensures PtrMetadata([m], year, gen) == [m] && ArtifactsOf([a], year, gen) == [a]
    ensures IsIndex(map[m.docId := sha], [a]) && SameDocs([m], map[m.docId := sha]) && DistinctDocs([m])
  {
    assert [m][..0] == [] && [a][..0] == [];
    assert HasArtifact([a], m.docId) by { assert [a][0].docId == m.docId; }
    assert [m][0].docId == m.docId;
  }

  lemma OneFilingRow(sha: string, runs: seq<Run>, chamber: string, sourceOf: SourceMap) returns (row: Report)
    requires IsDigest(sha) && sourceOf(Some("parser-v1"), None) == HousePdf
    requires Lower(Trim(chamber)) == "house"
    requires Candidates(runs, InYear(2015, "g", "d", sha)) == [Success(sha, 2015)]
    ensures Inventoriable(OneFiling(sha, runs, chamber), 2015, "g", sourceOf)
    ensures Describes(OneFiling(sha, runs, chamber), 2015, "g", sourceOf, row) && row.recordId == "d" && row.sha == sha
  {
    var db := OneFiling(sha, runs, chamber);
    var m, shas := db.metadata[0], map["d" := sha];
    OneFilingReady(sha, runs, chamber, sourceOf);
    OneFilingIndex(m, db.artifacts[0], sha, 2015, "g");
    assert ReadyIn(db, 2015, "g", m, shas, sourceOf);
    assert AllReady(db, 2015, "g", [m], shas, sourceOf);
    row := RowOf(db, 2015, "g", m, sha, sourceOf);
    OneFilingDescribes(db, m, sha, sourceOf, row);
  }

  lemma OneFilingDescribes(db: Database, m: Metadata, sha: string, sourceOf: SourceMap, row: Report)
    requires DocReady(db, 2015, "g", m, sha, sourceOf) && row == RowOf(db, 2015, "g", m, sha, sourceOf)
    requires row.source == HousePdf
    ensures Describes(db, 2015, "g", sourceOf, row)
  {
    assert Lower("house") == "house";
  }

  /** The producer accepts a chamber written with a trailing blank; the auditor then finds none of
      the rows it reports. */
  lemma PaddedExample(sha: string, sourceOf: SourceMap) returns (row: Report)
    requires IsDigest(sha) && sourceOf(Some("parser-v1"), None) == HousePdf
    ensures var db := OneFiling(sha, [Success(sha, 2015)], "House ");
            && Inventoriable(db, 2015, "g", sourceOf)
            && Describes(db, 2015, "g", sourceOf, row)
            && CountTxs(db.txs, Joined(row)) != row.accepted
  {
    var runs, db := [Success(sha, 2015)], OneFiling(sha, [Success(sha, 2015)], "House ");
    assert runs[..0] == [];
    TrimExample();
    row := OneFilingRow(sha, runs, "House ", sourceOf);
    assert Padded(db.txs[0]) && InGroup("g", "d", row.source, sha).Keeps(db.txs[0]);
    PaddedChamberBreaksAudit(db, 2015, "g", sourceOf, row);
  }

  lemma TrimExample()
    ensures Trim("House ") == "House" && Lower("House") == "house"
  {
    assert "House "[..5] == "House";
    assert TrimRight("House ") == TrimRight("House") == "House";
    assert Lower("House") == "house";
  }

  /** A terminal run of the same artifact under another year is invisible to the producer and a
      second run to the auditor. */
  lemma OtherYearExample(sha: string, sourceOf: SourceMap) returns (row: Report)
    requires IsDigest(sha) && sourceOf(Some("parser-v1"), None) == HousePdf
    ensures var db := OneFiling(sha, [Success(sha, 2015), Success(sha, 2014)], "house");
            && Inventoriable(db, 2015, "g", sourceOf)
            && Describes(db, 2015, "g", sourceOf, row)
            && |Candidates(db.runs, Labelled("g", row.recordId, row.sha))| == 2
  {
    var runs := [Success(sha, 2015), Success(sha, 2014)];
    assert runs[..1] == [Success(sha, 2015)] && runs[..1][..0] == [];
    assert Candidates(runs[..1], InYear(2015, "g", "d", sha)) == [Success(sha, 2015)];
    assert Candidates(runs[..1], Labelled("g", "d", sha)) == [Success(sha, 2015)];
    assert Trim("house") == "house" && Lower("house") == "house";
    row := OneFilingRow(sha, runs, "house", sourceOf);
  }
}
