/** A run of the protocol that reaches an insertion, so that the guarantees about insertions speak
    about something: one document is sampled, passed, reported and promoted. */
module PromotionRun {
  import opened AuditTypes
  import opened StratifiedBound
  import opened AuditReport
  import opened StickyVerdicts
  import opened PromotionGate
  import opened PromotionProtocol
  import opened PromotionSafety
  import Samples = Sampling

  ghost predicate Reachable(live: map<DocId, Record>, s: Sys) {
    exists moves: seq<Move> :: Reached(live, moves, s)
  }

  lemma Next(live: map<DocId, Record>, s: Sys, e: Event, t: Sys)
    requires Reachable(live, s) && Step(s, 0, e) == Some(t)
    ensures Reachable(live, t)
  {
    var moves: seq<Move> :| Reached(live, moves, s);
    var more := moves + [Move(0, e)];
    assert more[..|moves|] == moves;
    assert Reached(live, more, t);
  }

  lemma RecordNext(live: map<DocId, Record>, s: Sys, e: RecordEvent, t: Sys)
    requires Reachable(live, s) && RecordStep(s, 0, e) == Some(t)
    ensures Reachable(live, t)
  {
    Next(live, s, Recorder(e), t);
  }

  lemma ReportNext(live: map<DocId, Record>, s: Sys, e: ReportEvent, t: Sys)
    requires Reachable(live, s) && ReportStep(s, 0, e) == Some(t)
    ensures Reachable(live, t)
  {
    Next(live, s, Reporter(e), t);
  }

  lemma SampleNext(live: map<DocId, Record>, s: Sys, e: SampleEvent, t: Sys)
    requires Reachable(live, s) && SampleStep(s, 0, e) == Some(t)
    ensures Reachable(live, t)
  {
    Next(live, s, Sampler(e), t);
  }

  lemma PromoteNext(live: map<DocId, Record>, s: Sys, e: PromoteEvent, t: Sys)
    requires Reachable(live, s) && PromoteStep(s, 0, e) == Some(t)
    ensures Reachable(live, t)
  {
    Next(live, s, Promoter(e), t);
  }

  /** The only actor is between operations. */
  predicate AtRest(s: Sys) {
    s.pcs == map[0 := Idle]
  }

  lemma RestIsFree(s: Sys, d: DocId)
    requires AtRest(s)
    ensures RootFree(s) && DocFree(s, d)
  {
  }

  lemma SampleDrawPhase(live: map<DocId, Record>, s: Sys, d: DocId, name: string, file: LotFile) returns (t: Sys)
    requires Reachable(live, s) && AtRest(s) && s.live.Keys == {d} && name !in s.lots && SampledFrom(file, s.live)
    ensures Reachable(live, t) && t == At(s, 0, Drawn({} + {d}, name, file, false, s.live))
  {
    RestIsFree(s, d);
    var a := At(s, 0, Sampling({}));
    SampleNext(live, s, SampleStart, a);
    assert DocFree(a, d);
    var b := At(a, 0, Sampling({} + {d}));
    SampleNext(live, a, SampleLock(d), b);
    t := At(b, 0, Drawn({} + {d}, name, file, false, s.live));
    SampleNext(live, b, SampleDraw(name, file), t);
  }

  lemma SampleLinkPhase(live: map<DocId, Record>, s: Sys, held: set<DocId>, name: string, file: LotFile) returns (t: Sys)
    requires Reachable(live, s) && s.pcs == map[0 := Drawn(held, name, file, false, s.live)] && name !in s.lots
    ensures Reachable(live, t) && AtRest(t) && t.live == s.live && t.history == s.history
    ensures name in t.lots && t.lots[name] == file
  {
    var a := At(s.(report := Some(Invalidated())), 0, Drawn(held, name, file, true, s.live));
    SampleNext(live, s, SampleInvalidate, a);
    t := At(a.(lots := a.lots[name := file], freezes := a.freezes + [Freeze(file, s.live)]), 0, Idle);
    SampleNext(live, a, SampleLink, t);
  }

  lemma SamplePhase(live: map<DocId, Record>, s: Sys, d: DocId, name: string, file: LotFile) returns (t: Sys)
    requires Reachable(live, s) && AtRest(s) && s.live.Keys == {d} && name !in s.lots && SampledFrom(file, s.live)
    ensures Reachable(live, t) && AtRest(t) && t.live == s.live && t.history == s.history
    ensures name in t.lots && t.lots[name] == file
  {
    var a := SampleDrawPhase(live, s, d, name, file);
    t := SampleLinkPhase(live, a, {} + {d}, name, file);
  }

  lemma RecordCheckPhase(live: map<DocId, Record>, s: Sys, d: DocId) returns (t: Sys)
    requires Reachable(live, s) && AtRest(s) && d in s.live
    ensures Reachable(live, t) && t == At(s, 0, RecChecked(d, Pass, Critical, s.live[d], false))
  {
    RestIsFree(s, d);
    var a := At(s, 0, RecStarted(d, Pass, Critical));
    RecordNext(live, s, RecordStart(d, Pass, Critical), a);
    var b := At(a, 0, RecRead(d, Pass, Critical, s.live[d].stable));
    RecordNext(live, a, RecordRead, b);
    assert DocFree(b, d);
    t := At(b, 0, RecChecked(d, Pass, Critical, s.live[d], false));
    RecordNext(live, b, RecordLock, t);
  }

  lemma RecordStampPhase(live: map<DocId, Record>, s: Sys, d: DocId, current: Record) returns (t: Sys)
    requires Reachable(live, s) && s.pcs == map[0 := RecChecked(d, Pass, Critical, current, false)]
    ensures Reachable(live, t) && t.pcs == map[0 := RecStamped(d, Pass, Critical, current.stable)] && t.lots == s.lots
    ensures t.live == s.live[d := Stamped(current, Pass, Critical)] && t.history == s.history
  {
    var a := At(s.(report := Some(Invalidated())), 0, RecChecked(d, Pass, Critical, current, true));
    RecordNext(live, s, RecordInvalidate, a);
    t := At(Put(a, d, Stamped(current, Pass, Critical)), 0, RecStamped(d, Pass, Critical, current.stable));
    RecordNext(live, a, RecordStamp, t);
  }

  lemma RecordWritePhase(live: map<DocId, Record>, s: Sys, d: DocId, current: Record) returns (t: Sys)
    requires Reachable(live, s) && s.pcs == map[0 := RecChecked(d, Pass, Critical, current, false)]
    ensures Reachable(live, t) && AtRest(t) && t.lots == s.lots
    ensures t.live == s.live[d := Stamped(current, Pass, Critical)]
    ensures t.history == s.history + [Entry(d, Some(Pass), Some(Critical), Some(current.stable))]
  {
    var b := RecordStampPhase(live, s, d, current);
    t := At(b.(history := b.history + [Entry(d, Some(Pass), Some(Critical), Some(current.stable))],
               witnesses := b.witnesses + [Find(b.live, d)]), 0, Idle);
    RecordNext(live, b, RecordAppend, t);
  }

  lemma RecordPhase(live: map<DocId, Record>, s: Sys, d: DocId) returns (t: Sys)
    requires Reachable(live, s) && AtRest(s) && d in s.live
    ensures Reachable(live, t) && AtRest(t) && t.lots == s.lots
    ensures t.live == s.live[d := Stamped(s.live[d], Pass, Critical)]
    ensures t.history == s.history + [Entry(d, Some(Pass), Some(Critical), Some(s.live[d].stable))]
  {
    var c := RecordCheckPhase(live, s, d);
    t := RecordWritePhase(live, c, d, s.live[d]);
  }

  lemma ReportReadPhase(live: map<DocId, Record>, s: Sys, d: DocId, name: string) returns (t: Sys)
    requires Reachable(live, s) && AtRest(s) && d in s.live && name in s.lots
    ensures Reachable(live, t) && t == At(s, 0, Reporting(name, s.lots[name], map[d := s.live[d]]))
  {
    RestIsFree(s, d);
    var a := At(s, 0, Opening(name));
    ReportNext(live, s, ReportStart(name), a);
    var b := At(a, 0, Reporting(name, s.lots[name], map[]));
    ReportNext(live, a, ReportOpen, b);
    t := At(b, 0, Reporting(name, s.lots[name], map[d := s.live[d]]));
    assert map[][d := s.live[d]] == map[d := s.live[d]];
    ReportNext(live, b, ReportRead(d), t);
  }

  lemma ReportPhase(live: map<DocId, Record>, s: Sys, d: DocId, name: string, maxRate: real) returns (t: Sys, ev: Evidence)
    requires Reachable(live, s) && AtRest(s) && d in s.live && name in s.lots
    ensures Reachable(live, t) && AtRest(t) && t.lots == s.lots && t.live == s.live && t.history == s.history
    ensures ev.live == map[d := s.live[d]] && ev.truth.None?
    ensures var file := s.lots[name];
            t.report == Some(StateOf(ReportOf(s.history, DesignFrom(file, maxRate), ev), s.history, name, file, maxRate))
  {
    var file := s.lots[name];
    var a := ReportReadPhase(live, s, d, name);
    ev := Evidence(map[d := s.live[d]], None, JournalIds(a.journal));
    var r := ReportOf(s.history, DesignFrom(file, maxRate), ev);
    t := At(a.(report := Some(StateOf(r, s.history, name, file, maxRate))), 0, Idle);
    ReportNext(live, a, ReportWrite(None, maxRate), t);
  }

  lemma PromoteCheckPhase(live: map<DocId, Record>, s: Sys, d: DocId) returns (t: Sys)
    requires Reachable(live, s) && AtRest(s) && d in s.live && GateNow(s)
    requires s.live[d].audit == Some(Pass) && VerdictBound(s.history, d, s.live[d])
    ensures Reachable(live, t) && t == At(s, 0, Ready(d, [d][1..], s.live[d]))
  {
    RestIsFree(s, d);
    var a := At(s, 0, Batch([d]));
    PromoteNext(live, s, PromoteStart([d]), a);
    assert DocFree(a, d);
    var b := At(a, 0, Locked(d, [d][1..]));
    PromoteNext(live, a, PromoteLock, b);
    t := At(b, 0, Ready(d, [d][1..], s.live[d]));
    PromoteNext(live, b, PromoteCheck, t);
  }

  lemma PromotePhase(live: map<DocId, Record>, s: Sys, d: DocId) returns (t: Sys)
    requires Reachable(live, s) && AtRest(s) && d in s.live && GateNow(s)
    requires s.live[d].audit == Some(Pass) && VerdictBound(s.history, d, s.live[d])
    ensures Reachable(live, t) && |t.inserts| == |s.inserts| + 1
  {
    var c := PromoteCheckPhase(live, s, d);
    var log := c.inserts + [Logged(c, d, s.live[d], Complete)];
    t := At(c.(inserts := log), 0, Committed(d, [d][1..], s.live[d]));
    PromoteNext(live, c, PromoteInsert(Complete), t);
  }

  lemma PassedAndUnpromoted(d: DocId, view: StableView, ev: Evidence)
    requires ev.live == map[d := Record(view, Some(Pass), Some(Critical))] && ev.truth.None?
    ensures var place := Place(LotItem(d, 2015, false, Some(view)), [Entry(d, Some(Pass), Some(Critical), Some(view))], ev);
            place.Clean? || place.Unpromoted?
  {
    OneEntry(Entry(d, Some(Pass), Some(Critical), Some(view)));
  }

  lemma Started(live: map<DocId, Record>) returns (s: Sys)
    ensures Reachable(live, s) && AtRest(s) && s == Initial(live).(pcs := map[0 := Idle])
  {
    var none: seq<Move> := [];
    assert Reached(live, none, Initial(live));
    s := At(Initial(live), 0, Idle);
    Next(live, Initial(live), Crash, s);
  }

  lemma OneRun(live: map<DocId, Record>, d: DocId, view: StableView) returns (t: Sys)
    requires !Blank(d) && live == map[d := Record(view, None, None)] && SampledFrom(OneFile(d, view), live)
    ensures Reachable(live, t) && t.inserts != []
  {
    assert live.Keys == {d};
    var sampled := StartedAndSampled(live, d, OneFile(d, view));
    t := AuditAndPromote(live, sampled, d, view);
  }

  /** From one eligible live record, some run samples it, records a pass, reports and inserts its
      rows. */
  lemma AnInsertionIsReachable(d: DocId, view: StableView)
    requires !Blank(d) && view.year == 2015 && view.parseStatus == "success" && !view.assetReview
    ensures exists t: Sys :: Reachable(map[d := Record(view, None, None)], t) && t.inserts != []
  {
    OneIsSampled(d, view);
    var t := OneRun(map[d := Record(view, None, None)], d, view);
  }

  lemma StartedAndSampled(live: map<DocId, Record>, d: DocId, file: LotFile) returns (t: Sys)
    requires live.Keys == {d} && SampledFrom(file, live)
    ensures Reachable(live, t) && AtRest(t) && t.live == live && t.history == []
    ensures "lot" in t.lots && t.lots["lot"] == file
  {
    var s := Started(live);
    t := SamplePhase(live, s, d, "lot", file);
  }

  function OneFile(d: DocId, view: StableView): LotFile {
    var design := OneDocument(d, Some(view));
    LotFile(design.lot, design.frame, design.annual)
  }

  lemma AuditAndPromote(live: map<DocId, Record>, s: Sys, d: DocId, view: StableView) returns (t: Sys)
    requires !Blank(d) && Reachable(live, s) && AtRest(s) && s.history == []
    requires s.live == map[d := Record(view, None, None)] && "lot" in s.lots && s.lots["lot"] == OneFile(d, view)
    ensures Reachable(live, t) && t.inserts != []
  {
    var recorded := RecordPhase(live, s, d);
    var reported, ev := ReportPhase(live, recorded, d, "lot", 0.01);
    GateOpens(reported, d, view, OneFile(d, view), ev);
    t := PromotePhase(live, reported, d);
  }

  lemma OneIsSampled(d: DocId, view: StableView)
    requires view.year == 2015 && view.parseStatus == "success" && !view.assetReview
    ensures SampledFrom(OneFile(d, view), map[d := Record(view, None, None)])
  {
    var r := StagedOf(d, Record(view, None, None));
    var item := LotItem(d, 2015, false, Some(view));
    OneFrame(r);
    OneYearSample(r, item);
    OnePart(item);
    assert OneFile(d, view).frame[0].year == 2015;
    OneListed(d, Record(view, None, None));
    assert SampleOf(OneFile(d, view), map[d := Record(view, None, None)], [r], 1, [[item]]);
  }

  lemma OneListed(d: DocId, record: Record)
    ensures Lists([StagedOf(d, record)], map[d := record])
  {
    assert [StagedOf(d, record)][0].docId == d;
  }

  lemma OnePart(item: LotItem)
    ensures Samples.Joined([[item]]) == [item]
  {
    assert [[item]][..0] == [];
    assert Samples.Joined([[item]]) == [] + [item];
  }

  lemma OneFrame(r: Samples.Staged)
    requires r.Eligible() && !r.assetReview
    ensures Samples.EligibleYears([r]) == [r.year]
    ensures Samples.FrameOf([r], [r.year]) == [YearFrame(r.year, 0, 1)]
  {
    assert [r][..0] == [];
    OneSelected(r);
    assert Samples.EligibleYears([r]) == Samples.Insert([], r.year);
  }

  lemma SelectOne(r: Samples.Staged, q: Samples.Query)
    ensures Samples.Select([r], q) == if q.Keeps(r) then {r.docId} else {}
  {
    assert [r][..0] == [];
    assert Samples.Select([], q) == {};
  }

  lemma OneSelected(r: Samples.Staged)
    requires r.Eligible() && !r.assetReview
    ensures Samples.EligibleIn([r], r.year) == {r.docId} && Samples.FlaggedIn([r], r.year) == {}
    ensures Samples.FlaggedAnywhere([r]) == {}
  {
    SelectOne(r, Samples.InYear(r.year));
    SelectOne(r, Samples.FlaggedInYear(r.year));
    SelectOne(r, Samples.AnyFlagged);
  }

  lemma OneYearSample(r: Samples.Staged, item: LotItem)
    requires r.Eligible() && !r.assetReview && item == LotItem(r.docId, r.year, false, Some(r.stable))
    ensures Samples.IsYearSample([r], 1, r.year, [item])
  {
    OneSelected(r);
    var ids := {r.docId};
    assert Ids([item]) == ids by { assert [item][..0] == []; }
    assert ids * {} == {} && ids - {} == ids;
  }

  lemma GateOpens(s: Sys, d: DocId, view: StableView, file: LotFile, ev: Evidence)
    requires !Blank(d)
    requires file == OneFile(d, view)
    requires "lot" in s.lots && s.lots["lot"] == file
    requires s.history == [Entry(d, Some(Pass), Some(Critical), Some(view))]
    requires ev.live == map[d := Record(view, Some(Pass), Some(Critical))] && ev.truth.None?
    requires d in s.live && s.live[d] == Record(view, Some(Pass), Some(Critical))
    requires s.report == Some(StateOf(ReportOf(s.history, DesignFrom(file, 0.01), ev), s.history, "lot", file, 0.01))
    ensures GateNow(s) && VerdictBound(s.history, d, s.live[d])
  {
    OneAccepted(d, view, ev);
    GateMatchesReport(s.history, "lot", file, ev, 0.01, s.history, Some(file));
    assert s.history[0].docId == d;
  }

  lemma OneAccepted(d: DocId, view: StableView, ev: Evidence)
    requires !Blank(d) && ev.live == map[d := Record(view, Some(Pass), Some(Critical))] && ev.truth.None?
    ensures var r := ReportOf([Entry(d, Some(Pass), Some(Critical), Some(view))], DesignFrom(OneFile(d, view), 0.01), ev);
            r.Complete() && r.budgetMet == Some(true)
  {
    var history := [Entry(d, Some(Pass), Some(Critical), Some(view))];
    PassedAndUnpromoted(d, view, ev);
    OneDocumentReport(d, Some(view), history, ev);
    assert DesignFrom(OneFile(d, view), 0.01) == OneDocument(d, Some(view));
    CompleteReport(history, OneDocument(d, Some(view)), ev);
  }
}
