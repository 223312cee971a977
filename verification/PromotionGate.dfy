/** The report state a report leaves behind and the gate promotion puts it through. */
module PromotionGate {
  import opened AuditTypes
  import opened Hypergeometric
  import opened StratifiedBound
  import opened AuditReport
  import opened StickyVerdicts

  /** A frozen sample file; its digest is the file itself. */
  datatype LotFile = LotFile(lot: seq<LotItem>, frame: seq<YearFrame>, annual: Option<map<int, int>>)

  const DEFAULT_CONFIDENCE: real := 0.95
  const DEFAULT_MAX_RATE: real := 0.01

  datatype Cause = OfIssue(issue: Issue) | OfDocument(finding: Finding) | Unreadable | Superseded

  /** The persisted report state. A number that is not finite is stored as None. */
  datatype Payload = Payload(complete: bool, reason: Option<seq<Cause>>, reasons: seq<Cause>,
                             budgetMet: Option<bool>, lotSize: int, audited: int,
                             critical: seq<DocId>, criticalCount: int,
                             unresolved: seq<Finding>, unresolvedCount: int,
                             rate: Option<real>, upper: Option<real>, confidence: real, maxRate: real,
                             sampleFile: Option<string>, sampleSha: Option<LotFile>, historySha: Option<seq<Entry>>)

  function CriticalList(findings: seq<Finding>): (ids: seq<DocId>)
    ensures |ids| <= |findings|
  {
    if findings == [] then []
    else
      var last := findings[|findings| - 1];
      var before := CriticalList(findings[..|findings| - 1]);
      if IsCritical(last) then before + [last.docId] else before
  }

  function Causes(r: Report): seq<Cause> {
    seq(|r.issues|, i requires 0 <= i < |r.issues| => OfIssue(r.issues[i]))
      + seq(|r.unresolved|, i requires 0 <= i < |r.unresolved| => OfDocument(r.unresolved[i]))
  }

  /** The state written for a report that could be built. */
  function StateOf(r: Report, history: seq<Entry>, name: string, file: LotFile, maxRate: real): Payload {
    var critical := CriticalList(r.failures);
    var rate := if r.Audited() > 0 then Some(Ratio(|critical|, r.Audited())) else None;
    if r.Complete() then
      Payload(true, None, [], r.budgetMet, r.lotSize, r.Audited(), critical, |critical|, [], 0,
              rate, r.upper, DEFAULT_CONFIDENCE, maxRate, Some(name), Some(file), Some(history))
    else
      Payload(false, Some(Causes(r)), Causes(r), None, r.lotSize, r.Audited(), critical, |critical|,
              r.unresolved, |r.unresolved|, rate, r.upper, DEFAULT_CONFIDENCE, maxRate,
              Some(name), Some(file), Some(history))
  }

  /** The state that fails closed: after unreadable evidence, or to withdraw an earlier report. */
  function IncompleteState(cause: Cause, maxRate: real, sample: Option<string>, sampleSha: Option<LotFile>,
                           historySha: Option<seq<Entry>>): Payload
  {
    Payload(false, Some([cause]), [cause], None, 0, 0, [], 0, [], 0, None, None, DEFAULT_CONFIDENCE, maxRate,
            sample, sampleSha, historySha)
  }

  /** What a verdict or a new sample leaves in place of any earlier report. */
  function Invalidated(): Payload {
    IncompleteState(Superseded, DEFAULT_MAX_RATE, None, None, None)
  }

  function DesignFrom(file: LotFile, maxRate: real): Design {
    Design(file.lot, file.frame, file.annual, DEFAULT_CONFIDENCE, maxRate)
  }

  // ---- what the written state tells --------------------------------------------------------------

  ghost predicate EachOnce(ids: seq<DocId>) {
    forall i, j :: 0 <= i < j < |ids| ==> ids[i] != ids[j]
  }

  /** The state names the evidence it was built on. */
  predicate Names(p: Payload, name: string, file: LotFile, history: seq<Entry>, maxRate: real) {
    && p.sampleFile == Some(name) && p.sampleSha == Some(file) && p.historySha == Some(history)
    && p.maxRate == maxRate && p.confidence == 0.95
  }

  /** It counts each critical failure of the population once, with their number and rate, and lists each document
      that is still open. */
  ghost predicate Counts(p: Payload, members: seq<LotItem>, history: seq<Entry>, ev: Evidence) {
    var critical := CriticalNow(members, history, ev);
    && EachOnce(p.critical) && (forall d :: d in p.critical <==> d in critical) && p.criticalCount == |critical|
    && p.rate == (if p.audited == 0 then None else Some(|critical| as real / p.audited as real))
    && (forall f :: f in p.unresolved <==> f.place.Unresolved? && f in Findings(members, history, ev))
    && p.unresolvedCount == |p.unresolved| && p.audited + p.unresolvedCount == p.lotSize == |members|
  }

  /** It is complete exactly when it can be, and then gives bound and decision; otherwise it gives reasons, one for
      each open document, and no decision, and no bound below 1. */
  ghost predicate Decides(p: Payload, file: LotFile, history: seq<Entry>, ev: Evidence) {
    && (p.complete <==> WellFormed(file.lot) && LotResolved(file.lot, history, ev))
    && if p.complete then
         && p.reason.None? && p.reasons == []
         && p.upper == Some(CriticalBound(file.lot, CriticalNow(file.lot, history, ev), Ids(file.lot), file.frame, 0.95,
                                          file.annual).Value())
         && p.budgetMet == Some(p.upper.value <= p.maxRate)
       else
         && p.reason == Some(p.reasons) && p.reasons != [] && (forall f :: f in p.unresolved ==> OfDocument(f) in p.reasons)
         && p.budgetMet.None? && p.upper == if p.audited == 0 then None else Some(1.0)
  }

  ghost predicate Tells(p: Payload, name: string, file: LotFile, history: seq<Entry>, ev: Evidence, maxRate: real) {
    Names(p, name, file, history, maxRate) && Counts(p, Members(file.lot), history, ev) && Decides(p, file, history, ev)
  }

  lemma {:induction false} CriticalListExact(findings: seq<Finding>)
    ensures forall d :: d in CriticalList(findings) <==> d in CriticalIds(findings)
    ensures DistinctIds(findings) ==> EachOnce(CriticalList(findings)) && |CriticalList(findings)| == |CriticalIds(findings)|
  {
    if findings != [] {
      var last := |findings| - 1;
      CriticalListExact(findings[..last]);
      CriticalIdsExact(findings[..last], findings[last].docId);
    }
  }

  lemma {:induction false} ListedDistinct(findings: seq<Finding>, kind: Kind)
    requires DistinctIds(findings)
    ensures DistinctIds(Listed(findings, kind))
  {
    if findings != [] {
      var last := |findings| - 1;
      var before := Listed(findings[..last], kind);
      ListedDistinct(findings[..last], kind);
      forall i | 0 <= i < |before|
        ensures before[i].docId != findings[last].docId
      {
        ListedExact(findings[..last], kind, before[i]);
        var k :| 0 <= k < last && findings[..last][k] == before[i];
        assert findings[k].docId != findings[last].docId;
      }
    }
  }

  lemma RatioIsQuotient(f: nat, n: nat)
    requires n > 0
    ensures Ratio(f, n) == f as real / n as real
  {
  }

  lemma CausesNameAll(r: Report)
    requires r.issues != [] || r.unresolved != []
    ensures Causes(r) != [] && forall f :: f in r.unresolved ==> OfDocument(f) in Causes(r)
  {
    var issues := seq(|r.issues|, i requires 0 <= i < |r.issues| => OfIssue(r.issues[i]));
    var open := seq(|r.unresolved|, i requires 0 <= i < |r.unresolved| => OfDocument(r.unresolved[i]));
    assert Causes(r) == issues + open;
    forall f | f in r.unresolved
      ensures OfDocument(f) in Causes(r)
    {
      var i :| 0 <= i < |r.unresolved| && r.unresolved[i] == f;
      assert open[i] == OfDocument(f) && OfDocument(f) in open;
    }
  }

  lemma StateCounts(history: seq<Entry>, name: string, file: LotFile, ev: Evidence, maxRate: real)
    ensures Counts(StateOf(ReportOf(history, DesignFrom(file, maxRate), ev), history, name, file, maxRate),
                   Members(file.lot), history, ev)
  {
    var r, members := ReportOf(history, DesignFrom(file, maxRate), ev), Members(file.lot);
    var findings := Findings(members, history, ev);
    FindingsExact(members, history, ev);
    MembersExact(file.lot);
    assert DistinctIds(findings);
    ListedDistinct(findings, Failing);
    CriticalListExact(r.failures);
    CriticalListed(findings);
    ListsCover(findings);
    forall f
      ensures f in r.unresolved <==> f.place.Unresolved? && f in findings
    {
      ListedExact(findings, Pending, f);
    }
    if r.Audited() > 0 {
      RatioIsQuotient(|CriticalList(r.failures)|, r.Audited());
    }
  }

  lemma StateDecides(history: seq<Entry>, name: string, file: LotFile, ev: Evidence, maxRate: real)
    ensures Decides(StateOf(ReportOf(history, DesignFrom(file, maxRate), ev), history, name, file, maxRate), file, history, ev)
  {
    var r := ReportOf(history, DesignFrom(file, maxRate), ev);
    CompleteReport(history, DesignFrom(file, maxRate), ev);
    IncompleteReport(history, DesignFrom(file, maxRate), ev);
    if !r.Complete() {
      CausesNameAll(r);
    }
  }

  /** What is stored is what the report found. */
  lemma StateTells(history: seq<Entry>, name: string, file: LotFile, ev: Evidence, maxRate: real)
    ensures Tells(StateOf(ReportOf(history, DesignFrom(file, maxRate), ev), history, name, file, maxRate),
                  name, file, history, ev, maxRate)
  {
    StateCounts(history, name, file, ev, maxRate);
    StateDecides(history, name, file, ev, maxRate);
  }

  /** The report command: whatever it finds, it replaces the report state. `readable` says
      whether the live records and the history could be loaded. */
  method WriteReport(sample: Option<(string, LotFile)>, readable: bool, history: seq<Entry>, ev: Evidence, maxRate: real)
    returns (state: Payload, exitCode: int)
    requires sample.Some? ==> YearsAscend(sample.value.1.frame)
    ensures sample.Some? && readable ==>
              var r := ReportOf(history, DesignFrom(sample.value.1, maxRate), ev);
              && state == StateOf(r, history, sample.value.0, sample.value.1, maxRate)
              && exitCode == (if !r.Complete() then 2 else if r.budgetMet == Some(true) then 0 else 1)
    ensures sample.Some? && readable ==> Tells(state, sample.value.0, sample.value.1, history, ev, maxRate)
    ensures sample.None? || !readable ==>
              && !state.complete && state.budgetMet.None? && state.upper.None? && exitCode == 2
              && state.reason == Some(state.reasons) && state.reasons != []
  {
    if sample.None? {
      return IncompleteState(Unreadable, maxRate, None, None, None), 2;
    }
    var (name, file) := sample.value;
    if !readable {
      return IncompleteState(Unreadable, maxRate, Some(name), Some(file), None), 2;
    }
    var r := BuildReport(history, DesignFrom(file, maxRate), ev);
    StateTells(history, name, file, ev, maxRate);
    state := StateOf(r, history, name, file, maxRate);
    exitCode := if !r.Complete() then 2 else if r.budgetMet == Some(true) then 0 else 1;
  }

  // ---- the gate ------------------------------------------------------------------------------

  datatype GateIssue =
    | NoReport | NotComplete | BudgetNotMet | BadMetrics | BadCounts | CarriesReason | RateMismatch
    | BadProbabilities | BoundTooHigh | NoHistoryBinding | HistoryChanged | NoSampleName | NoSampleBinding
    | SampleChanged

  predicate PlainName(name: string) {
    name != "" && name != "." && forall i :: 0 <= i < |name| ==> name[i] != '/'
  }

  predicate CountsInconsistent(p: Payload) {
    p.lotSize <= 0 || p.audited != p.lotSize || p.criticalCount < 0 || p.criticalCount > p.audited
    || p.unresolvedCount != 0 || p.unresolved != []
  }

  /** The report promised f of n: the stored rate is their quotient. */
  predicate RateAgrees(rate: real, f: int, n: int) {
    n != 0 && rate == f as real / n as real
  }

  /** Why a report state does not open the gate for the current history and lot, in the order the
      program checks; None opens it. */
  function GateIssueOf(p: Option<Payload>, history: Option<seq<Entry>>, sample: Option<LotFile>): Option<GateIssue> {
    if p.None? then Some(NoReport)
    else
      var s := p.value;
      if !s.complete then Some(NotComplete)
      else if s.budgetMet != Some(true) then Some(BudgetNotMet)
      else if s.rate.None? || s.upper.None? || |s.critical| != s.criticalCount then Some(BadMetrics)
      else if CountsInconsistent(s) then Some(BadCounts)
      else if s.reason.Some? || s.reasons != [] then Some(CarriesReason)
      else if !RateAgrees(s.rate.value, s.criticalCount, s.audited) then Some(RateMismatch)
      else if !(0.0 < s.confidence < 1.0 && 0.0 <= s.maxRate <= 1.0) then Some(BadProbabilities)
      else if !(0.0 <= s.upper.value <= 1.0) || s.upper.value > s.maxRate then Some(BoundTooHigh)
      else if s.historySha.None? then Some(NoHistoryBinding)
      else if s.historySha != history then Some(HistoryChanged)
      else if s.sampleFile.None? || !PlainName(s.sampleFile.value) then Some(NoSampleName)
      else if s.sampleSha.None? then Some(NoSampleBinding)
      else if s.sampleSha != sample then Some(SampleChanged)
      else None
  }

  predicate GateOpen(p: Option<Payload>, history: Option<seq<Entry>>, sample: Option<LotFile>) {
    GateIssueOf(p, history, sample).None?
  }

  /** The state, wherever it came from, is one that proves the preconditions of a promotion. */
  predicate Proves(p: Payload, history: seq<Entry>, file: LotFile) {
    && p.complete && p.reason == None && |p.reasons| == 0 && p.budgetMet == Some(true)
    && p.lotSize > 0 && p.audited == p.lotSize && p.unresolvedCount == 0 && |p.unresolved| == 0
    && p.criticalCount == |p.critical| && |p.critical| <= p.lotSize
    && p.rate.Some? && p.rate.value * p.lotSize as real == |p.critical| as real
    && 0.0 < p.confidence < 1.0
    && p.upper.Some? && 0.0 <= p.upper.value <= p.maxRate <= 1.0
    && p.historySha == Some(history) && p.sampleSha == Some(file)
    && p.sampleFile.Some? && p.sampleFile.value != "" && p.sampleFile.value != "." && '/' !in p.sampleFile.value
  }

  lemma QuotientIs(x: real, f: int, n: int)
    requires n > 0
    ensures x == f as real / n as real <==> x * n as real == f as real
  {
  }

  /** On any state, however it came about, the gate opens exactly when the state proves the preconditions for the
      history and the lot file of this moment; one field that does not closes it. */
  lemma GateOpensExactly(p: Option<Payload>, history: Option<seq<Entry>>, sample: Option<LotFile>)
    ensures GateOpen(p, history, sample)
       <==> p.Some? && history.Some? && sample.Some? && Proves(p.value, history.value, sample.value)
  {
    if p.Some? {
      if p.value.lotSize > 0 && p.value.rate.Some? {
        QuotientIs(p.value.rate.value, |p.value.critical|, p.value.lotSize);
      }
      if p.value.sampleFile.Some? {
        var name := p.value.sampleFile.value;
        assert '/' !in name <==> forall i :: 0 <= i < |name| ==> name[i] != '/';
      }
    }
  }

  /** Every bound the report can store lies in [0, 1]. */
  lemma BoundIsProbability(lot: seq<LotItem>, critical: set<DocId>, resolved: set<DocId>, frame: seq<YearFrame>,
                           confidence: real, annual: Option<map<int, int>>)
    ensures 0.0 <= CriticalBound(lot, critical, resolved, frame, confidence, annual).Value() <= 1.0
  {
    if DesignSound(lot, resolved, frame, annual) {
      var cells := Cells(frame);
      var upper := UpperTotal(cells, lot, critical, Level(confidence, Uncertain(cells, lot)));
      NonNegativeRatio(upper, Population(cells));
    }
  }

  lemma NonNegativeRatio(part: nat, whole: nat)
    requires whole > 0
    ensures 0.0 <= Ratio(part, whole)
  {
    RatioMonotone(0, part, whole);
  }

  lemma WrittenStateFits(history: seq<Entry>, name: string, file: LotFile, ev: Evidence, maxRate: real)
    requires ReportOf(history, DesignFrom(file, maxRate), ev).Complete()
    ensures var r := ReportOf(history, DesignFrom(file, maxRate), ev);
            var s := StateOf(r, history, name, file, maxRate);
            && s.rate.Some? && s.upper.Some? && !CountsInconsistent(s)
            && RateAgrees(s.rate.value, s.criticalCount, s.audited)
            && 0.0 <= s.upper.value <= 1.0
            && (r.budgetMet == Some(true) <==> s.upper.value <= maxRate)
  {
    var design := DesignFrom(file, maxRate);
    CompleteReport(history, design, ev);
    IssuesExact(design.lot);
    BoundIsProbability(design.lot, CriticalNow(design.lot, history, ev), Ids(design.lot), design.frame,
                       design.confidence, design.annual);
  }

  /** A complete state with its bindings, a sound count and a bound its budget decision agrees with. */
  predicate WellWritten(p: Payload) {
    && p.complete && p.reason.None? && p.reasons == [] && p.rate.Some? && p.upper.Some?
    && |p.critical| == p.criticalCount && !CountsInconsistent(p) && RateAgrees(p.rate.value, p.criticalCount, p.audited)
    && 0.0 < p.confidence < 1.0 && 0.0 <= p.upper.value <= 1.0
    && p.budgetMet == Some(p.upper.value <= p.maxRate)
    && p.historySha.Some? && p.sampleSha.Some? && p.sampleFile.Some? && PlainName(p.sampleFile.value)
  }

  lemma GateByFields(p: Payload, now: Option<seq<Entry>>, lotNow: Option<LotFile>)
    requires WellWritten(p)
    ensures GateOpen(Some(p), now, lotNow)
       <==> p.budgetMet == Some(true) && 0.0 <= p.maxRate <= 1.0 && p.historySha == now && p.sampleSha == lotNow
  {
  }

  lemma WrittenIsWellWritten(history: seq<Entry>, name: string, file: LotFile, ev: Evidence, maxRate: real)
    requires PlainName(name) && ReportOf(history, DesignFrom(file, maxRate), ev).Complete()
    ensures WellWritten(StateOf(ReportOf(history, DesignFrom(file, maxRate), ev), history, name, file, maxRate))
  {
    CompleteReport(history, DesignFrom(file, maxRate), ev);
    WrittenStateFits(history, name, file, ev, maxRate);
  }

  /** On a state the report wrote, the gate opens exactly when the report was complete with its
      budget met, the history and the lot file are the ones it read, and the owner's budget is a
      probability: a report that met a budget above 1 or below 0 is refused. */
  lemma GateMatchesReport(history: seq<Entry>, name: string, file: LotFile, ev: Evidence, maxRate: real,
                          now: seq<Entry>, lotNow: Option<LotFile>)
    requires PlainName(name)
    ensures var r := ReportOf(history, DesignFrom(file, maxRate), ev);
            GateOpen(Some(StateOf(r, history, name, file, maxRate)), Some(now), lotNow)
            <==> (r.Complete() && r.budgetMet == Some(true)
                  && now == history && lotNow == Some(file) && 0.0 <= maxRate <= 1.0)
  {
    var r := ReportOf(history, DesignFrom(file, maxRate), ev);
    if r.Complete() {
      WrittenIsWellWritten(history, name, file, ev, maxRate);
      GateByFields(StateOf(r, history, name, file, maxRate), Some(now), lotNow);
    }
  }

  /** A budget above 1 is met by every complete report, yet never opens the gate. */
  lemma LargeBudgetIsMetButRefused(history: seq<Entry>, name: string, file: LotFile, ev: Evidence, maxRate: real)
    requires maxRate > 1.0 && PlainName(name)
    requires ReportOf(history, DesignFrom(file, maxRate), ev).Complete()
    ensures ReportOf(history, DesignFrom(file, maxRate), ev).budgetMet == Some(true)
    ensures !GateOpen(Some(StateOf(ReportOf(history, DesignFrom(file, maxRate), ev), history, name, file, maxRate)),
                      Some(history), Some(file))
  {
    WrittenStateFits(history, name, file, ev, maxRate);
    GateMatchesReport(history, name, file, ev, maxRate, history, Some(file));
  }

  // ---- the verdict binding --------------------------------------------------------------------

  function WithoutPromotion(view: StableView): StableView {
    view.(promotion := None)
  }

  /** Some passing entry of the document froze this record, with or without the note a failed
      promotion left on it. */
  predicate VerdictBound(history: seq<Entry>, d: DocId, record: Record) {
    exists i :: 0 <= i < |history| && history[i].docId == d && history[i].verdict == Some(Pass)
             && history[i].sha in {Some(record.stable), Some(WithoutPromotion(record.stable))}
  }

  function Noted(record: Record, note: string): Record {
    record.(stable := record.stable.(promotion := Some(note)))
  }

  /** Some passing entry of the document carries exactly this hash. */
  predicate PassedAs(history: seq<Entry>, d: DocId, view: StableView) {
    exists i :: 0 <= i < |history| && history[i].docId == d && history[i].verdict == Some(Pass)
             && history[i].sha == Some(view)
  }

  /** After a note the binding rests on a pass over the record without its note, or over the record
      with that very note. */
  lemma BindingAfterNote(history: seq<Entry>, d: DocId, record: Record, note: string)
    ensures VerdictBound(history, d, Noted(record, note))
       <==> PassedAs(history, d, WithoutPromotion(record.stable)) || PassedAs(history, d, Noted(record, note).stable)
  {
    var noted := Noted(record, note);
    assert WithoutPromotion(noted.stable) == WithoutPromotion(record.stable);
  }

  function Longest(history: seq<Entry>): (n: nat)
    ensures forall i :: 0 <= i < |history| && history[i].sha.Some? && history[i].sha.value.promotion.Some? ==>
              |history[i].sha.value.promotion.value| <= n
  {
    if history == [] then 0
    else
      var e := history[|history| - 1];
      var n := Longest(history[..|history| - 1]);
      if e.sha.Some? && e.sha.value.promotion.Some? && |e.sha.value.promotion.value| > n
      then |e.sha.value.promotion.value| else n
  }

  /** The binding survives every note, however often one is rewritten, exactly when a pass froze the
      record without a note: a pass over a record that already carried one is lost with the next. */
  lemma NoteKeepsBindingExactly(history: seq<Entry>, d: DocId, record: Record)
    ensures (forall note: string :: VerdictBound(history, d, Noted(record, note)))
       <==> PassedAs(history, d, WithoutPromotion(record.stable))
  {
    if forall note: string :: VerdictBound(history, d, Noted(record, note)) {
      var note := seq(Longest(history) + 1, _ => 'x');
      BindingAfterNote(history, d, record, note);
      assert !PassedAs(history, d, Noted(record, note).stable);
    }
    if PassedAs(history, d, WithoutPromotion(record.stable)) {
      forall note: string
        ensures VerdictBound(history, d, Noted(record, note))
      {
        BindingAfterNote(history, d, record, note);
      }
    }
  }

  /** The input on which it does not: the only pass froze the record with an earlier note. */
  lemma RewrittenNoteUnbinds(d: DocId, record: Record, earlier: string, note: string)
    requires record.stable.promotion == Some(earlier) && note != earlier
    ensures var history := [Entry(d, Some(Pass), None, Some(record.stable))];
            VerdictBound(history, d, record) && !VerdictBound(history, d, Noted(record, note))
  {
    var history := [Entry(d, Some(Pass), None, Some(record.stable))];
    assert history[0].docId == d;
    BindingAfterNote(history, d, record, note);
  }

  // ---- what a note does to the next report ---------------------------------------------------------

  function AfterNote(ev: Evidence, d: DocId, note: string): Evidence
    requires d in ev.live
  {
    ev.(live := ev.live[d := Noted(ev.live[d], note)])
  }

  /** A lot entry survives a note on its document if a fail is on record, or if it was frozen with
      exactly that note. */
  predicate SurvivesNote(item: LotItem, history: seq<Entry>, noted: Record) {
    HasFail(EntriesOf(history, item.docId)) || item.sha == Some(noted.stable)
  }

  lemma PlaceAfterNote(item: LotItem, history: seq<Entry>, ev: Evidence, d: DocId, note: string)
    requires d in ev.live && !Place(item, history, ev).Unresolved?
    ensures !Place(item, history, AfterNote(ev, d, note)).Unresolved?
       <==> (item.docId == d ==> SurvivesNote(item, history, Noted(ev.live[d], note)))
  {
    var entries := EntriesOf(history, item.docId);
    if !HasFail(entries) {
      ExamineAfterNote(entries, item, ev, d, note);
    }
  }

  lemma ExamineAfterNote(entries: seq<Entry>, item: LotItem, ev: Evidence, d: DocId, note: string)
    requires d in ev.live && !Examine(entries, item, ev).Unresolved?
    ensures !Examine(entries, item, AfterNote(ev, d, note)).Unresolved?
       <==> (item.docId == d ==> item.sha == Some(Noted(ev.live[d], note).stable))
  {
  }

  /** The frozen hash covers the note, so after a note on a document a complete report stays complete
      exactly when every lot entry of that document survives it. */
  lemma NoteBreaksReportExactly(history: seq<Entry>, design: Design, ev: Evidence, d: DocId, note: string)
    requires d in ev.live && ReportOf(history, design, ev).Complete()
    ensures ReportOf(history, design, AfterNote(ev, d, note)).Complete()
       <==> forall i :: 0 <= i < |design.lot| && design.lot[i].docId == d ==>
              SurvivesNote(design.lot[i], history, Noted(ev.live[d], note))
  {
    CompleteExactly(history, design, ev);
    CompleteExactly(history, design, AfterNote(ev, d, note));
    LotAfterNote(design.lot, history, ev, d, note);
  }

  lemma CompleteExactly(history: seq<Entry>, design: Design, ev: Evidence)
    ensures ReportOf(history, design, ev).Complete() <==> WellFormed(design.lot) && LotResolved(design.lot, history, ev)
  {
    CompleteReport(history, design, ev);
  }

  lemma LotAfterNote(lot: seq<LotItem>, history: seq<Entry>, ev: Evidence, d: DocId, note: string)
    requires d in ev.live && LotResolved(lot, history, ev)
    ensures LotResolved(lot, history, AfterNote(ev, d, note))
       <==> forall i :: 0 <= i < |lot| && lot[i].docId == d ==> SurvivesNote(lot[i], history, Noted(ev.live[d], note))
  {
    forall i | 0 <= i < |lot|
      ensures !Place(lot[i], history, AfterNote(ev, d, note)).Unresolved?
         <==> (lot[i].docId == d ==> SurvivesNote(lot[i], history, Noted(ev.live[d], note)))
    {
      PlaceAfterNote(lot[i], history, ev, d, note);
    }
  }

  /** The input on which it breaks: a document that passed on its frozen record, when the note is new. */
  lemma NewNoteBreaksReport(history: seq<Entry>, design: Design, ev: Evidence, i: nat, note: string)
    requires i < |design.lot| && design.lot[i].docId in ev.live && ReportOf(history, design, ev).Complete()
    requires Place(design.lot[i], history, ev).Clean? || Place(design.lot[i], history, ev).Unpromoted?
    requires ev.live[design.lot[i].docId].stable.promotion != Some(note)
    ensures !ReportOf(history, design, AfterNote(ev, design.lot[i].docId, note)).Complete()
  {
    NoteBreaksReportExactly(history, design, ev, design.lot[i].docId, note);
    PassesExactly(design.lot[i], history, ev);
    assert !SurvivesNote(design.lot[i], history, Noted(ev.live[design.lot[i].docId], note));
  }
}
