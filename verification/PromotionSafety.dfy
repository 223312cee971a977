/** What the audit protocol guarantees over every run: what was reviewed is what is inserted,
    under a report that met its budget for exactly the history and lot of that moment. */
module PromotionSafety {
  import opened AuditTypes
  import opened StratifiedBound
  import opened AuditReport
  import opened StickyVerdicts
  import opened PromotionGate
  import opened PromotionProtocol
  import Certificate
  import SampleFit
  import Samples = Sampling

  datatype Move = Move(actor: Actor, event: Event)

  /** The state a run reaches, if each of its moves is enabled where it comes. */
  ghost function Run(s: Sys, moves: seq<Move>): Option<Sys> {
    if moves == [] then Some(s)
    else
      var last := |moves| - 1;
      var before := Run(s, moves[..last]);
      if before.None? then None else Step(before.value, moves[last].actor, moves[last].event)
  }

  /** No verdicts, no report, no lots, nobody at work; any live records. */
  function Initial(live: map<DocId, Record>): Sys {
    Sys([], live, None, map[], [], map[], [], [], [], set d | d in live :: Sighting(d, live[d]))
  }

  ghost predicate Reached(live: map<DocId, Record>, moves: seq<Move>, t: Sys) {
    Run(Initial(live), moves) == Some(t)
  }

  /** Later insertions saw a history that extends the earlier one. */
  ghost predicate Extends(s: Sys, t: Sys) {
    && s.history <= t.history && s.inserts <= t.inserts
    && forall k :: |s.inserts| <= k < |t.inserts| ==> s.history <= t.inserts[k].history
  }

  lemma StepExtends(s: Sys, t: Sys, a: Actor, u: Sys)
    requires Extends(s, t) && WithinLocks(t, u, PcOf(t, a)) && InsertMoves(t, u)
    ensures Extends(s, u)
  {
  }

  lemma {:induction false} RunsKeep(s: Sys, moves: seq<Move>)
    requires Inv(s)
    ensures Run(s, moves).Some? ==> Inv(Run(s, moves).value) && Extends(s, Run(s, moves).value)
  {
    if moves != [] && Run(s, moves).Some? {
      var last := |moves| - 1;
      RunsKeep(s, moves[..last]);
      var t := Run(s, moves[..last]).value;
      StepInBounds(t, moves[last].actor, moves[last].event, Run(s, moves).value);
      StepExtends(s, t, moves[last].actor, Run(s, moves).value);
    }
  }

  lemma StepInBounds(s: Sys, a: Actor, e: Event, t: Sys)
    requires Inv(s) && Step(s, a, e) == Some(t)
    ensures Inv(t) && WithinLocks(s, t, PcOf(s, a)) && InsertMoves(s, t)
  {
    assert Relies(s, PcOf(s, a)) by { assert a in s.pcs ==> Relies(s, s.pcs[a]); }
    StepEffects(s, a, e, t);
    EffectsKeep(s, a, t);
  }

  lemma ReachedInv(live: map<DocId, Record>, moves: seq<Move>, t: Sys)
    requires Reached(live, moves, t)
    ensures Inv(t)
  {
    RunsKeep(Initial(live), moves);
  }

  lemma ReachedRelies(live: map<DocId, Record>, moves: seq<Move>, t: Sys, a: Actor)
    requires Reached(live, moves, t)
    ensures Relies(t, PcOf(t, a))
  {
    ReachedInv(live, moves, t);
    assert a in t.pcs ==> Relies(t, t.pcs[a]);
  }

  /** Any actor may die wherever it stands; its locks are free again and no file changes. */
  lemma AnyoneMayCrash(live: map<DocId, Record>, moves: seq<Move>, s: Sys, a: Actor)
    requires Reached(live, moves, s)
    ensures exists t: Sys ::
              && Reached(live, moves + [Move(a, Crash)], t) && t == s.(pcs := t.pcs) && PcOf(t, a).Idle?
              && forall b :: b != a ==> PcOf(t, b) == PcOf(s, b)
  {
    var more := moves + [Move(a, Crash)];
    assert more[..|moves|] == moves;
    var t := At(s, a, Idle);
    assert Reached(live, more, t);
  }

  // ---- one insertion ---------------------------------------------------------------------------

  /** The inserted rows are those of the record live at the insertion, and of the record live
      when some passing verdict on that document was appended. */
  ghost predicate RowsReviewed(s: Sys, ins: Insert) {
    && ins.live.Some? && ins.rows == ins.live.value.stable.rows && ins.live.value.audit == Some(Pass)
    && exists i :: 0 <= i < |ins.history| && i < |s.history| && i < |s.witnesses|
         && s.history[i].docId == ins.d && s.history[i].verdict == Some(Pass) && s.witnesses[i].Some?
         && WithoutPromotion(s.witnesses[i].value.stable) == WithoutPromotion(ins.live.value.stable)
         && s.witnesses[i].value.stable.rows == ins.rows
  }

  /** The stored report that let the insertion through: written over exactly its history, from live
      records and a lot still on disk, complete, and within the budget the owner gave that report. */
  ghost predicate Certified(s: Sys, ins: Insert) {
    && ins.report.Some? && ins.report.value.sampleFile.Some? && ins.report.value.sampleSha.Some?
    && var p, name, file := ins.report.value, ins.report.value.sampleFile.value, ins.report.value.sampleSha.value;
    && name in s.lots && s.lots[name] == file
    && GateOpen(ins.report, Some(ins.history), Some(file))
    && p.historySha == Some(ins.history) && 0.0 <= p.maxRate <= 1.0
    && ExplicitBound(ins.history, DesignFrom(file, p.maxRate)) <= p.maxRate
    && exists ev: Evidence :: WereLive(ev.live, s.seen) && WrittenFor(ins.history, p, name, file, ev)
  }

  /** The state is the one written for an accepting report. */
  ghost predicate WrittenFor(history: seq<Entry>, p: Payload, name: string, file: LotFile, ev: Evidence) {
    && p == StateOf(ReportOf(history, DesignFrom(file, p.maxRate), ev), history, name, file, p.maxRate)
    && Accepts(history, DesignFrom(file, p.maxRate), ev)
  }

  lemma RowsTraced(s: Sys, ins: Insert)
    requires Witnessed(s) && Sound(ins) && Past(ins, s)
    ensures RowsReviewed(s, ins)
  {
    var i :| 0 <= i < |ins.history| && ins.history[i].docId == ins.d && ins.history[i].verdict == Some(Pass)
          && ins.history[i].sha in {Some(ins.live.value.stable), Some(WithoutPromotion(ins.live.value.stable))};
    assert s.history[i] == ins.history[i];
    assert s.witnesses[i].value.stable == s.history[i].sha.value;
  }

  lemma OpenMeansPlain(p: Payload, history: seq<Entry>, lot: Option<LotFile>)
    requires GateOpen(Some(p), Some(history), lot)
    ensures p.sampleFile.Some? && PlainName(p.sampleFile.value) && p.sampleSha.Some? && p.historySha == Some(history)
  {
  }

  lemma WrittenCertifies(name: string, file: LotFile, ev: Evidence, maxRate: real, history: seq<Entry>, p: Payload)
    requires p == StateOf(ReportOf(history, DesignFrom(file, maxRate), ev), history, name, file, maxRate)
    requires GateOpen(Some(p), Some(history), Some(file))
    ensures 0.0 <= maxRate <= 1.0 && p.sampleSha == Some(file) && Accepts(history, DesignFrom(file, maxRate), ev)
  {
    OpenMeansPlain(p, history, Some(file));
    GateMatchesReport(history, name, file, ev, maxRate, history, Some(file));
  }

  /** A genuine state that opens the gate was written for an accepting report over that history. */
  lemma GateCertifies(history: seq<Entry>, p: Payload, lots: map<string, LotFile>, seen: set<Sighting>)
    requires Genuine(p, lots, seen)
    requires GateOpen(Some(p), Some(history), Find(lots, p.sampleFile.value))
    ensures p.sampleFile.value in lots && p.sampleSha == Some(lots[p.sampleFile.value])
    ensures p.historySha == Some(history) && 0.0 <= p.maxRate <= 1.0
    ensures exists ev: Evidence ::
              WereLive(ev.live, seen) && WrittenFor(history, p, p.sampleFile.value, lots[p.sampleFile.value], ev)
  {
    var ev: Evidence, file: LotFile :|
      && WereLive(ev.live, seen)
      && p.historySha.Some? && p.sampleFile.Some? && p.sampleFile.value in lots && lots[p.sampleFile.value] == file
      && p == StateOf(ReportOf(p.historySha.value, DesignFrom(file, p.maxRate), ev), p.historySha.value,
                      p.sampleFile.value, file, p.maxRate);
    OpenMeansPlain(p, history, Some(file));
    WrittenCertifies(p.sampleFile.value, file, ev, p.maxRate, history, p);
    assert WrittenFor(history, p, p.sampleFile.value, file, ev);
  }

  lemma AcceptedKeepsBudget(history: seq<Entry>, design: Design, ev: Evidence)
    requires Accepts(history, design, ev)
    ensures ExplicitBound(history, design) <= design.maxRate
  {
    assert history + [] == history;
    AcceptedAbove(history, [], design, ev);
  }

  lemma InsertCertified(s: Sys, ins: Insert)
    requires Sound(ins) && Past(ins, s)
    ensures Certified(s, ins)
  {
    var p := ins.report.value;
    GateCertifies(ins.history, p, ins.lots, ins.seen);
    var name := p.sampleFile.value;
    var file := ins.lots[name];
    var ev: Evidence :| WereLive(ev.live, ins.seen) && WrittenFor(ins.history, p, name, file, ev);
    AcceptedKeepsBudget(ins.history, DesignFrom(file, p.maxRate), ev);
    assert WereLive(ev.live, s.seen);
  }

  /** Promotion safety over every interleaving of records, reports, samples, producers,
      promotions and crashes. */
  lemma PromotionIsSafe(live: map<DocId, Record>, moves: seq<Move>, t: Sys, k: nat)
    requires Reached(live, moves, t) && k < |t.inserts|
    ensures RowsReviewed(t, t.inserts[k]) && Certified(t, t.inserts[k])
  {
    ReachedInv(live, moves, t);
    assert Sound(t.inserts[k]) && Past(t.inserts[k], t);
    RowsTraced(t, t.inserts[k]);
    InsertCertified(t, t.inserts[k]);
  }

  /** The stored bound of an insertion is never a refusal's: it measures the population the lot was
      drawn from, between the critical share and the share not seen to pass. */
  lemma InsertIsMeasured(live: map<DocId, Record>, moves: seq<Move>, t: Sys, k: nat)
    requires Reached(live, moves, t) && k < |t.inserts|
    ensures Certified(t, t.inserts[k])
    ensures var p := t.inserts[k].report.value;
            exists ev: Evidence ::
              && WrittenFor(t.inserts[k].history, p, p.sampleFile.value, p.sampleSha.value, ev)
              && Certificate.Measures(t.inserts[k].history, DesignFrom(p.sampleSha.value, p.maxRate), ev)
  {
    PromotionIsSafe(live, moves, t, k);
    var p, history := t.inserts[k].report.value, t.inserts[k].history;
    var name, file := p.sampleFile.value, p.sampleSha.value;
    var ev: Evidence :| WereLive(ev.live, t.seen) && WrittenFor(history, p, name, file, ev);
    LotsAreSnapshots(live, moves, t, name);
    var j :| 0 <= j < |t.freezes| && t.freezes[j].file == file && SampledFrom(file, t.freezes[j].live);
    SampledMeasures(file, t.freezes[j].live, p, history, name, ev);
  }

  lemma SampledMeasures(file: LotFile, snapshot: map<DocId, Record>, p: Payload, history: seq<Entry>, name: string, ev: Evidence)
    requires SampledFrom(file, snapshot) && WrittenFor(history, p, name, file, ev)
    ensures Certificate.Measures(history, DesignFrom(file, p.maxRate), ev)
  {
    var records: seq<Samples.Staged>, quota: nat, parts: seq<seq<LotItem>> :| SampleOf(file, snapshot, records, quota, parts);
    var design := Certificate.SampleDesign(records, parts, file.annual, DEFAULT_CONFIDENCE, p.maxRate);
    assert design == DesignFrom(file, p.maxRate);
    CompleteReport(history, design, ev);
    SampleFit.UniqueIsConsistent(records);
    Certificate.SampledLotIsMeasured(records, quota, parts, file.annual, DEFAULT_CONFIDENCE, p.maxRate, history, ev);
  }

  /** Record race: whatever was published around it, every entry with a hash was appended while the
      record it names was live with exactly that content, stamped with exactly that verdict and
      severity. */
  lemma VerdictsBindLiveRecords(live: map<DocId, Record>, moves: seq<Move>, t: Sys, i: nat)
    requires Reached(live, moves, t) && i < |t.history| && t.history[i].sha.Some?
    ensures i < |t.witnesses| && t.witnesses[i].Some?
    ensures var stamped, e := t.witnesses[i].value, t.history[i];
            stamped.stable == e.sha.value && stamped.audit == e.verdict && stamped.severity == e.severity
  {
    ReachedInv(live, moves, t);
  }

  /** Nobody promotes the record a fail was recorded on: while it is still the live one, the check
      before an insertion turns its document away. */
  lemma FailedRecordIsRefused(live: map<DocId, Record>, moves: seq<Move>, s: Sys, i: nat, a: Actor, todo: seq<DocId>, t: Sys)
    requires Reached(live, moves, s) && i < |s.history| && i < |s.witnesses|
    requires s.history[i].verdict == Some(Fail) && s.history[i].sha.Some?
    requires s.witnesses[i] == Find(s.live, s.history[i].docId)
    requires PcOf(s, a) == Locked(s.history[i].docId, todo) && Step(s, a, Promoter(PromoteCheck)) == Some(t)
    ensures PcOf(t, a) == Batch(todo)
  {
    VerdictsBindLiveRecords(live, moves, s, i);
  }

  /** No insertion, at any time, takes a record as a fail left it. */
  lemma NothingFailedIsInserted(live: map<DocId, Record>, moves: seq<Move>, t: Sys, i: nat, k: nat)
    requires Reached(live, moves, t) && i < |t.history| && i < |t.witnesses| && k < |t.inserts|
    requires t.history[i].verdict == Some(Fail) && t.history[i].sha.Some?
    ensures t.inserts[k].live != t.witnesses[i]
  {
    VerdictsBindLiveRecords(live, moves, t, i);
    PromotionIsSafe(live, moves, t, k);
  }

  /** Every lot on disk is a sample, with its frame and annual counts, of one consistent snapshot of
      the live records. */
  lemma LotsAreSnapshots(live: map<DocId, Record>, moves: seq<Move>, t: Sys, name: string)
    requires Reached(live, moves, t) && name in t.lots
    ensures exists k :: 0 <= k < |t.freezes| && t.freezes[k].file == t.lots[name]
                     && SampledFrom(t.freezes[k].file, t.freezes[k].live)
  {
    ReachedInv(live, moves, t);
  }

  // ---- a missed budget over the rest of a run -----------------------------------------------------

  lemma MissedMeansAbove(history: seq<Entry>, design: Design, ev: Evidence)
    requires SeveritiesStated(history) && ev.truth.None?
    requires ReportOf(history, design, ev).budgetMet == Some(false)
    ensures ExplicitBound(history, design) > design.maxRate
  {
    CompleteReport(history, design, ev);
    AllCriticalExplicit(design.lot, history, ev);
  }

  lemma AcceptedLater(history: seq<Entry>, later: seq<Entry>, design: Design, ev: Evidence)
    requires history <= later && Accepts(later, design, ev)
    ensures ExplicitBound(history, design) <= design.maxRate
  {
    var more := later[|history|..];
    assert history + more == later;
    AcceptedAbove(history, more, design, ev);
  }

  /** Once a report without ground truth misses its budget on a lot, no continuation of the run
      ever inserts under that lot with the same or a smaller budget. */
  lemma MissedBudgetIsFinal(live: map<DocId, Record>, moves: seq<Move>, s: Sys, more: seq<Move>, t: Sys,
                            file: LotFile, maxRate: real, ev: Evidence, k: nat)
    requires Reached(live, moves, s) && Run(s, more) == Some(t)
    requires ev.truth.None? && ReportOf(s.history, DesignFrom(file, maxRate), ev).budgetMet == Some(false)
    requires |s.inserts| <= k < |t.inserts|
    ensures var report := t.inserts[k].report;
            report.Some? && !(report.value.sampleSha == Some(file) && report.value.maxRate <= maxRate)
  {
    ReachedInv(live, moves, s);
    RunsKeep(s, more);
    assert Sound(t.inserts[k]);
    if t.inserts[k].report.value.sampleSha == Some(file) && t.inserts[k].report.value.maxRate <= maxRate {
      InsertKeepsBudget(s.history, t.inserts[k]);
      MissedMeansAbove(s.history, DesignFrom(file, maxRate), ev);
    }
  }

  lemma WrittenKeepsBudget(earlier: seq<Entry>, history: seq<Entry>, p: Payload, name: string, file: LotFile, ev: Evidence)
    requires earlier <= history && WrittenFor(history, p, name, file, ev)
    ensures ExplicitBound(earlier, DesignFrom(file, p.maxRate)) <= p.maxRate
  {
    AcceptedLater(earlier, history, DesignFrom(file, p.maxRate), ev);
  }

  lemma GateKeepsBudget(earlier: seq<Entry>, history: seq<Entry>, p: Payload, lots: map<string, LotFile>, seen: set<Sighting>)
    requires earlier <= history && Genuine(p, lots, seen)
    requires GateOpen(Some(p), Some(history), Find(lots, p.sampleFile.value))
    ensures p.sampleSha.Some? && ExplicitBound(earlier, DesignFrom(p.sampleSha.value, p.maxRate)) <= p.maxRate
  {
    GateCertifies(history, p, lots, seen);
    var file := lots[p.sampleFile.value];
    var ev: Evidence :| WereLive(ev.live, seen) && WrittenFor(history, p, p.sampleFile.value, file, ev);
    WrittenKeepsBudget(earlier, history, p, p.sampleFile.value, file, ev);
  }

  /** An insertion's stored budget covers what was explicitly critical at any earlier moment. */
  lemma InsertKeepsBudget(history: seq<Entry>, ins: Insert)
    requires Sound(ins) && history <= ins.history
    ensures var p := ins.report.value;
            p.sampleSha.Some? && ExplicitBound(history, DesignFrom(p.sampleSha.value, p.maxRate)) <= p.maxRate
  {
    GateKeepsBudget(history, ins.history, ins.report.value, ins.lots, ins.seen);
  }
}
