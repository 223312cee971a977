/** What the protocol does is what was asked: over every run the history is exactly the verdicts that
    recorders were given, bound to the records they read, a complete report state answers a report
    request, and only requested documents are inserted, noted or journaled. */
module PromotionRequests {
  import opened AuditTypes
  import opened AuditReport
  import opened PromotionGate
  import opened PromotionProtocol
  import opened PromotionSafety

  // ---- recorded verdicts -------------------------------------------------------------------------

  /** A verdict a recorder was asked for, and what it found live when it first looked. */
  datatype Session = Session(d: DocId, v: Verdict, sev: Severity, read: Option<Option<StableView>>)

  function ContentOf(s: Sys, d: DocId): Option<StableView> {
    if d in s.live then Some(s.live[d].stable) else None
  }

  /** The session an actor is in or was in last, from the moves alone. */
  ghost function SessionOf(live: map<DocId, Record>, moves: seq<Move>, a: Actor): Option<Session> {
    if moves == [] then None
    else
      var last := |moves| - 1;
      var before := SessionOf(live, moves[..last], a);
      if moves[last].actor != a then before
      else
        match moves[last].event
        case Recorder(RecordStart(d, v, sev)) => Some(Session(d, v, sev, None))
        case Recorder(RecordRead) =>
          var s := Run(Initial(live), moves[..last]);
          if before.None? || s.None? then before
          else Some(before.value.(read := Some(ContentOf(s.value, before.value.d))))
        case _ => before
  }

  /** The entries of the sessions that were finished, in the order they were. */
  ghost function Recorded(live: map<DocId, Record>, moves: seq<Move>): seq<Entry> {
    if moves == [] then []
    else
      var last := |moves| - 1;
      var before := Recorded(live, moves[..last]);
      var session := SessionOf(live, moves[..last], moves[last].actor);
      if moves[last].event == Recorder(RecordAppend) && session.Some? && session.value.read.Some?
      then before + [Entry(session.value.d, Some(session.value.v), Some(session.value.sev), session.value.read.value)]
      else before
  }

  /** A recorder stands where its session says. */
  predicate Follows(pc: Pc, session: Option<Session>) {
    match pc
    case RecStarted(d, v, sev) => session == Some(Session(d, v, sev, None))
    case RecRead(d, v, sev, expected) => session == Some(Session(d, v, sev, Some(Some(expected))))
    case RecMissing(d, v, sev, _) => session == Some(Session(d, v, sev, Some(None)))
    case RecChecked(d, v, sev, current, _) => session == Some(Session(d, v, sev, Some(Some(current.stable))))
    case RecStamped(d, v, sev, expected) => session == Some(Session(d, v, sev, Some(Some(expected))))
    case _ => true
  }

  ghost predicate AllFollow(live: map<DocId, Record>, moves: seq<Move>, s: Sys) {
    forall a :: Follows(PcOf(s, a), SessionOf(live, moves, a))
  }

  /** What a recorder's own move makes of its session. */
  function NextSession(s: Sys, e: RecordEvent, session: Option<Session>): Option<Session> {
    match e
    case RecordStart(d, v, sev) => Some(Session(d, v, sev, None))
    case RecordRead =>
      if session.None? then None else Some(session.value.(read := Some(ContentOf(s, session.value.d))))
    case _ => session
  }

  function Appended(e: RecordEvent, session: Option<Session>): seq<Entry> {
    if e.RecordAppend? && session.Some? && session.value.read.Some?
    then [Entry(session.value.d, Some(session.value.v), Some(session.value.sev), session.value.read.value)]
    else []
  }

  lemma RecordFollows(s: Sys, a: Actor, e: RecordEvent, t: Sys, session: Option<Session>)
    requires RecordStep(s, a, e) == Some(t) && Follows(PcOf(s, a), session)
    ensures Follows(PcOf(t, a), NextSession(s, e, session)) && t.history == s.history + Appended(e, session)
  {
  }

  /** No other move records anything or leaves its actor recording. */
  lemma OthersRecordNothing(s: Sys, a: Actor, e: Event, t: Sys)
    requires Step(s, a, e) == Some(t) && !e.Recorder?
    ensures t.history == s.history && forall session :: Follows(PcOf(t, a), session)
  {
    match e
    case Reporter(r) => ReportsRecordNothing(s, a, r, t);
    case Sampler(r) =>
      SampleHolds(s, a, r, t);
      SampleLinks(s, a, r, t);
    case Producer(r) =>
    case Promoter(r) =>
      PromotesRecordNothing(s, a, r, t);
      PromoteInserts(s, a, r, t);
    case Crash =>
  }

  lemma ReportsRecordNothing(s: Sys, a: Actor, e: ReportEvent, t: Sys)
    requires ReportStep(s, a, e) == Some(t)
    ensures t.history == s.history && var next := PcOf(t, a); next.Idle? || next.Opening? || next.Reporting?
  {
  }

  lemma PromotesRecordNothing(s: Sys, a: Actor, e: PromoteEvent, t: Sys)
    requires PromoteStep(s, a, e) == Some(t)
    ensures PcOf(t, a).Idle? || PcOf(t, a).Promoting()
  {
  }

  lemma OthersStand(s: Sys, a: Actor, e: Event, t: Sys)
    requires Inv(s) && Step(s, a, e) == Some(t)
    ensures forall b :: b != a ==> PcOf(t, b) == PcOf(s, b)
  {
    assert Relies(s, PcOf(s, a)) by { assert a in s.pcs ==> Relies(s, s.pcs[a]); }
    StepEffects(s, a, e, t);
  }

  /** Over every run the history is exactly what recorders were asked to record, each verdict bound to
      the record its recorder first read, whatever was published in between. */
  lemma {:induction false} HistoryIsWhatWasAsked(live: map<DocId, Record>, moves: seq<Move>, t: Sys)
    requires Reached(live, moves, t)
    ensures t.history == Recorded(live, moves) && AllFollow(live, moves, t)
  {
    if moves != [] {
      var last := |moves| - 1;
      var a, e, s := moves[last].actor, moves[last].event, Run(Initial(live), moves[..last]).value;
      HistoryIsWhatWasAsked(live, moves[..last], s);
      assert Follows(PcOf(s, a), SessionOf(live, moves[..last], a));
      if e.Recorder? {
        RecordFollows(s, a, e.rec, t, SessionOf(live, moves[..last], a));
      } else {
        OthersRecordNothing(s, a, e, t);
      }
      ReachedInv(live, moves[..last], s);
      OthersStand(s, a, e, t);
    }
  }

  // ---- reports --------------------------------------------------------------------------------------

  /** The lot an actor was last asked to report on. */
  function AskedLot(moves: seq<Move>, a: Actor): Option<string> {
    if moves == [] then None
    else
      var last := moves[|moves| - 1];
      if last.actor == a && last.event.Reporter? && last.event.rep.ReportStart? then Some(last.event.rep.name)
      else AskedLot(moves[..|moves| - 1], a)
  }

  /** A move asked for a report with this ground truth, and budget, on the state's lot. */
  ghost predicate AskedFor(moves: seq<Move>, j: nat, truth: Option<map<DocId, seq<Row>>>, p: Payload) {
    && j < |moves| && moves[j].event == Reporter(ReportWrite(truth, p.maxRate))
    && p.sampleFile.Some? && p.sampleFile == AskedLot(moves[..j], moves[j].actor)
  }

  /** The state is the report's over that ground truth and records that were live. */
  ghost predicate Answers(p: Payload, truth: Option<map<DocId, seq<Row>>>, lots: map<string, LotFile>, seen: set<Sighting>) {
    && p.sampleFile.Some? && p.sampleFile.value in lots && p.historySha.Some?
    && exists ev: Evidence :: ev.truth == truth && WereLive(ev.live, seen) && ReportedWith(p, lots[p.sampleFile.value], ev)
  }

  ghost predicate ReportedWith(p: Payload, file: LotFile, ev: Evidence)
    requires p.sampleFile.Some? && p.historySha.Some?
  {
    p == StateOf(ReportOf(p.historySha.value, DesignFrom(file, p.maxRate), ev), p.historySha.value,
                 p.sampleFile.value, file, p.maxRate)
  }

  ghost predicate Answered(moves: seq<Move>, s: Sys) {
    s.report.Some? && s.report.value.complete ==>
      exists j: nat, truth: Option<map<DocId, seq<Row>>> ::
        AskedFor(moves, j, truth, s.report.value) && Answers(s.report.value, truth, s.lots, s.seen)
  }

  predicate OnAskedLot(pc: Pc, asked: Option<string>) {
    match pc
    case Opening(name) => asked == Some(name)
    case Reporting(name, _, _) => asked == Some(name)
    case _ => true
  }

  lemma ReportOnLot(s: Sys, a: Actor, e: ReportEvent, t: Sys, asked: Option<string>)
    requires ReportStep(s, a, e) == Some(t) && OnAskedLot(PcOf(s, a), asked)
    ensures OnAskedLot(PcOf(t, a), if e.ReportStart? then Some(e.name) else asked)
  {
  }

  lemma RecordsReportNothing(s: Sys, a: Actor, e: RecordEvent, t: Sys)
    requires RecordStep(s, a, e) == Some(t)
    ensures (t.report == s.report || Shut(t)) && forall asked :: OnAskedLot(PcOf(t, a), asked)
  {
  }

  lemma OthersReportNothing(s: Sys, a: Actor, e: Event, t: Sys)
    requires Step(s, a, e) == Some(t) && !e.Reporter?
    ensures (t.report == s.report || Shut(t)) && forall asked :: OnAskedLot(PcOf(t, a), asked)
  {
    match e
    case Recorder(r) => RecordsReportNothing(s, a, r, t);
    case Sampler(r) =>
      SampleHolds(s, a, r, t);
      SampleLinks(s, a, r, t);
    case Producer(r) =>
    case Promoter(r) =>
      PromotesRecordNothing(s, a, r, t);
      PromoteInserts(s, a, r, t);
    case Crash =>
  }

  /** What a reporting step stores answers the step's own request. */
  lemma ReportAnswers(s: Sys, a: Actor, e: ReportEvent, t: Sys)
    requires Relies(s, PcOf(s, a)) && ReportStep(s, a, e) == Some(t) && t.report != s.report && !Shut(t)
    ensures e.ReportWrite? && t.report.Some? && t.report.value.maxRate == e.maxRate
    ensures PcOf(s, a).Reporting? && t.report.value.sampleFile == Some(PcOf(s, a).name)
    ensures Answers(t.report.value, e.truth, t.lots, t.seen)
  {
    match (e, PcOf(s, a))
    case (ReportWrite(truth, maxRate), Reporting(name, file, read)) =>
      var ev := Evidence(read, truth, JournalIds(s.journal));
      assert ReportedWith(t.report.value, file, ev);
    case _ =>
  }

  lemma AskedStays(moves: seq<Move>, j: nat, truth: Option<map<DocId, seq<Row>>>, p: Payload, n: nat)
    requires n <= |moves| && AskedFor(moves[..n], j, truth, p)
    ensures AskedFor(moves, j, truth, p)
  {
    assert moves[..n][..j] == moves[..j];
  }

  lemma AnswersStay(p: Payload, truth: Option<map<DocId, seq<Row>>>, lots: map<string, LotFile>, seen: set<Sighting>,
                    more: map<string, LotFile>, later: set<Sighting>)
    requires Answers(p, truth, lots, seen) && seen <= later && forall n :: n in lots ==> n in more && more[n] == lots[n]
    ensures Answers(p, truth, more, later)
  {
  }

  /** One more move keeps the stored report an answer to a request. */
  lemma AnsweredNext(moves: seq<Move>, s: Sys, t: Sys)
    requires moves != [] && var m := moves[|moves| - 1]; Inv(s) && Step(s, m.actor, m.event) == Some(t)
    requires Answered(moves[..|moves| - 1], s)
    requires forall a :: OnAskedLot(PcOf(s, a), AskedLot(moves[..|moves| - 1], a))
    ensures Answered(moves, t)
  {
    var last := |moves| - 1;
    var a, e := moves[last].actor, moves[last].event;
    StepInBounds(s, a, e, t);
    if t.report.Some? && t.report.value.complete {
      if t.report == s.report {
        var j: nat, truth: Option<map<DocId, seq<Row>>> :|
          AskedFor(moves[..last], j, truth, s.report.value) && Answers(s.report.value, truth, s.lots, s.seen);
        AskedStays(moves, j, truth, s.report.value, last);
        AnswersStay(s.report.value, truth, s.lots, s.seen, t.lots, t.seen);
      } else {
        if !e.Reporter? {
          OthersReportNothing(s, a, e, t);
        }
        assert Relies(s, PcOf(s, a)) by { assert a in s.pcs ==> Relies(s, s.pcs[a]); }
        ReportAnswers(s, a, e.rep, t);
        assert AskedFor(moves, last, e.rep.truth, t.report.value);
      }
    }
  }

  /** Over every run a complete report state is the report that some request asked for: on its lot,
      against its ground truth, within its budget. */
  lemma {:induction false} ReportIsWhatWasAsked(live: map<DocId, Record>, moves: seq<Move>, t: Sys)
    requires Reached(live, moves, t)
    ensures Answered(moves, t) && forall a :: OnAskedLot(PcOf(t, a), AskedLot(moves, a))
  {
    if moves != [] {
      var last := |moves| - 1;
      var a, e, s := moves[last].actor, moves[last].event, Run(Initial(live), moves[..last]).value;
      ReportIsWhatWasAsked(live, moves[..last], s);
      ReachedInv(live, moves[..last], s);
      AnsweredNext(moves, s, t);
      OthersStand(s, a, e, t);
      assert OnAskedLot(PcOf(s, a), AskedLot(moves[..last], a));
      if e.Reporter? {
        ReportOnLot(s, a, e.rep, t, AskedLot(moves[..last], a));
      } else {
        OthersReportNothing(s, a, e, t);
      }
    }
  }

  // ---- promotions ------------------------------------------------------------------------------------

  /** The batch an actor was last asked to promote. */
  function AskedBatch(moves: seq<Move>, a: Actor): seq<DocId> {
    if moves == [] then []
    else
      var last := moves[|moves| - 1];
      if last.actor == a && last.event.Promoter? && last.event.prm.PromoteStart? then last.event.prm.docs
      else AskedBatch(moves[..|moves| - 1], a)
  }

  /** The document a promoter works on. */
  function Current(pc: Pc): Option<DocId> {
    match pc
    case Locked(d, _) => Some(d)
    case Ready(d, _, _) => Some(d)
    case Committed(d, _, _) => Some(d)
    case Archived(d, _) => Some(d)
    case Rejected(d, _, _) => Some(d)
    case _ => None
  }

  ghost predicate WithinBatch(pc: Pc, docs: seq<DocId>) {
    && (Current(pc).Some? ==> Current(pc).value in docs)
    && (pc.Promoting() ==> forall i :: 0 <= i < |pc.todo| ==> pc.todo[i] in docs)
  }

  /** An insertion of the document went through in full. */
  predicate Inserted(s: Sys, d: DocId) {
    exists k :: 0 <= k < |s.inserts| && s.inserts[k].d == d && s.inserts[k].outcome.Complete?
  }

  predicate Journaled(s: Sys) {
    forall i :: 0 <= i < |s.journal| ==> Inserted(s, s.journal[i])
  }

  /** Past its insertion a promoter's document is inserted. */
  predicate InsertedAt(s: Sys, pc: Pc) {
    (pc.Committed? ==> Inserted(s, pc.d)) && (pc.Archived? ==> Inserted(s, pc.d))
  }

  /** The insertions asked for: each of a document of the batch its promoter was given. */
  ghost predicate InsertAsked(moves: seq<Move>, d: DocId) {
    exists j :: 0 <= j < |moves| && moves[j].event.Promoter? && moves[j].event.prm.PromoteInsert?
             && d in AskedBatch(moves[..j], moves[j].actor)
  }

  lemma PromoteWithinBatch(s: Sys, a: Actor, e: PromoteEvent, t: Sys, docs: seq<DocId>)
    requires PromoteStep(s, a, e) == Some(t) && WithinBatch(PcOf(s, a), docs)
    ensures WithinBatch(PcOf(t, a), if e.PromoteStart? then e.docs else docs)
  {
  }

  /** What one promotion step adds to the insertions and the journal. */
  lemma PromoteAdds(s: Sys, a: Actor, e: PromoteEvent, t: Sys)
    requires PromoteStep(s, a, e) == Some(t) && InsertedAt(s, PcOf(s, a))
    ensures s.inserts <= t.inserts && InsertedAt(t, PcOf(t, a))
    ensures t.inserts != s.inserts ==>
              e.PromoteInsert? && |t.inserts| == |s.inserts| + 1 && Current(PcOf(s, a)) == Some(t.inserts[|s.inserts|].d)
    ensures t.journal == s.journal || (PcOf(s, a).Archived? && t.journal == s.journal + [PcOf(s, a).d])
  {
    match (e, PcOf(s, a))
    case (PromoteInsert(Complete), Ready(d, _, record)) =>
      assert t.inserts[|s.inserts|] == Logged(s, d, record, Complete);
    case (PromoteArchive, Committed(d, _, record)) =>
      InsertedStays(s, t, d);
    case _ =>
  }

  lemma InsertedStays(s: Sys, t: Sys, d: DocId)
    requires s.inserts <= t.inserts && Inserted(s, d)
    ensures Inserted(t, d)
  {
    var k :| 0 <= k < |s.inserts| && s.inserts[k].d == d && s.inserts[k].outcome.Complete?;
    assert t.inserts[k] == s.inserts[k];
  }

  lemma RecordsPromoteNothing(s: Sys, a: Actor, e: RecordEvent, t: Sys)
    requires RecordStep(s, a, e) == Some(t)
    ensures t.inserts == s.inserts && t.journal == s.journal && !PcOf(t, a).Promoting()
  {
  }

  lemma ReportsPromoteNothing(s: Sys, a: Actor, e: ReportEvent, t: Sys)
    requires ReportStep(s, a, e) == Some(t)
    ensures t.inserts == s.inserts && t.journal == s.journal && !PcOf(t, a).Promoting()
  {
  }

  lemma DrawJournalsNothing(s: Sys, a: Actor, held: set<DocId>, name: string, file: LotFile, t: Sys)
    requires DrawStep(s, a, held, name, file) == Some(t)
    ensures t.journal == s.journal
  {
  }

  lemma SamplesPromoteNothing(s: Sys, a: Actor, e: SampleEvent, t: Sys)
    requires SampleStep(s, a, e) == Some(t)
    ensures t.inserts == s.inserts && t.journal == s.journal && !PcOf(t, a).Promoting()
  {
    SampleHolds(s, a, e, t);
    SampleLinks(s, a, e, t);
    match (e, PcOf(s, a))
    case (SampleDraw(name, file), Sampling(held)) =>
      if held == s.live.Keys {
        DrawJournalsNothing(s, a, held, name, file, t);
      }
    case _ =>
  }

  lemma OthersPromoteNothing(s: Sys, a: Actor, e: Event, t: Sys)
    requires Step(s, a, e) == Some(t) && !e.Promoter?
    ensures t.inserts == s.inserts && t.journal == s.journal && !PcOf(t, a).Promoting()
  {
    match e
    case Recorder(r) => RecordsPromoteNothing(s, a, r, t);
    case Reporter(r) => ReportsPromoteNothing(s, a, r, t);
    case Sampler(r) => SamplesPromoteNothing(s, a, r, t);
    case Producer(r) =>
    case Crash =>
  }

  ghost predicate AllInserted(s: Sys) {
    Journaled(s) && forall a :: InsertedAt(s, PcOf(s, a))
  }

  /** What any step adds to the insertions and the journal. */
  ghost predicate Adds(s: Sys, a: Actor, e: Event, t: Sys) {
    && s.inserts <= t.inserts && InsertedAt(t, PcOf(t, a))
    && (t.inserts != s.inserts ==>
          && e.Promoter? && e.prm.PromoteInsert? && |t.inserts| == |s.inserts| + 1
          && Current(PcOf(s, a)) == Some(t.inserts[|s.inserts|].d))
    && (t.journal == s.journal || (PcOf(s, a).Archived? && t.journal == s.journal + [PcOf(s, a).d]))
    && forall b :: b != a ==> PcOf(t, b) == PcOf(s, b)
  }

  lemma StepAdds(s: Sys, a: Actor, e: Event, t: Sys)
    requires Inv(s) && InsertedAt(s, PcOf(s, a)) && Step(s, a, e) == Some(t)
    ensures Adds(s, a, e, t)
  {
    OthersStand(s, a, e, t);
    if e.Promoter? {
      PromoteAdds(s, a, e.prm, t);
    } else {
      OthersPromoteNothing(s, a, e, t);
    }
  }

  lemma JournalNext(s: Sys, a: Actor, e: Event, t: Sys)
    requires AllInserted(s) && Adds(s, a, e, t)
    ensures AllInserted(t)
  {
    assert InsertedAt(s, PcOf(s, a));
    forall d | Inserted(s, d)
      ensures Inserted(t, d)
    {
      InsertedStays(s, t, d);
    }
    forall b
      ensures InsertedAt(t, PcOf(t, b))
    {
      assert InsertedAt(s, PcOf(s, b));
    }
  }

  /** Over every run each journaled document was inserted in full. */
  lemma {:induction false} JournaledWasInserted(live: map<DocId, Record>, moves: seq<Move>, t: Sys)
    requires Reached(live, moves, t)
    ensures AllInserted(t)
  {
    if moves != [] {
      var last := |moves| - 1;
      var s := Run(Initial(live), moves[..last]).value;
      JournaledWasInserted(live, moves[..last], s);
      ReachedInv(live, moves[..last], s);
      assert InsertedAt(s, PcOf(s, moves[last].actor));
      StepAdds(s, moves[last].actor, moves[last].event, t);
      JournalNext(s, moves[last].actor, moves[last].event, t);
    }
  }

  /** A document is journaled only once its record is archived. */
  lemma JournaledIsArchived(live: map<DocId, Record>, moves: seq<Move>, s: Sys, a: Actor, t: Sys)
    requires Reached(live, moves, s) && PromoteStep(s, a, PromoteJournal) == Some(t)
    ensures exists d :: t.journal == s.journal + [d] && d !in t.live && Inserted(t, d)
  {
    JournalStep(s, a, t);
    ArchivedIsGone(live, moves, s, a);
    JournaledWasInserted(live, moves, s);
    assert InsertedAt(s, PcOf(s, a));
    InsertedStays(s, t, PcOf(s, a).d);
  }

  lemma ArchivedIsGone(live: map<DocId, Record>, moves: seq<Move>, s: Sys, a: Actor)
    requires Reached(live, moves, s) && PcOf(s, a).Archived?
    ensures PcOf(s, a).d !in s.live
  {
    ReachedRelies(live, moves, s, a);
  }

  lemma JournalStep(s: Sys, a: Actor, t: Sys)
    requires PromoteStep(s, a, PromoteJournal) == Some(t)
    ensures PcOf(s, a).Archived? && t.journal == s.journal + [PcOf(s, a).d] && t.live == s.live && t.inserts == s.inserts
  {
  }

  lemma NoteStep(s: Sys, a: Actor, note: string, t: Sys)
    requires PromoteStep(s, a, PromoteNote(note)) == Some(t)
    ensures PcOf(s, a).Rejected? && t.live == s.live[PcOf(s, a).d := Noted(PcOf(s, a).record, note)]
  {
  }

  /** A partial insertion changes one live record, and of that only the note. */
  ghost predicate OnlyNoted(before: map<DocId, Record>, d: DocId, note: string, now: map<DocId, Record>) {
    && d in before && now.Keys == before.Keys
    && now[d] == Record(before[d].stable.(promotion := Some(note)), before[d].audit, before[d].severity)
    && forall other :: other in before && other != d ==> now[other] == before[other]
  }

  lemma NoteChangesOnlyTheNote(live: map<DocId, Record>, moves: seq<Move>, s: Sys, a: Actor, note: string, t: Sys)
    requires Reached(live, moves, s) && PromoteStep(s, a, PromoteNote(note)) == Some(t)
    ensures Current(PcOf(s, a)).Some? && OnlyNoted(s.live, Current(PcOf(s, a)).value, note, t.live)
  {
    NoteStep(s, a, note, t);
    RejectedIsLive(live, moves, s, a);
    assert OnlyNoted(s.live, PcOf(s, a).d, note, t.live);
  }

  lemma RejectedIsLive(live: map<DocId, Record>, moves: seq<Move>, s: Sys, a: Actor)
    requires Reached(live, moves, s) && PcOf(s, a).Rejected?
    ensures IsLive(s, PcOf(s, a).d, PcOf(s, a).record)
  {
    ReachedRelies(live, moves, s, a);
  }

  ghost predicate AllAsked(moves: seq<Move>, s: Sys) {
    && (forall k :: 0 <= k < |s.inserts| ==> InsertAsked(moves, s.inserts[k].d))
    && forall a :: WithinBatch(PcOf(s, a), AskedBatch(moves, a))
  }

  lemma InsertAskedStays(moves: seq<Move>, n: nat, d: DocId)
    requires n <= |moves| && InsertAsked(moves[..n], d)
    ensures InsertAsked(moves, d)
  {
    var j :| 0 <= j < n && moves[..n][j].event.Promoter? && moves[..n][j].event.prm.PromoteInsert?
          && d in AskedBatch(moves[..n][..j], moves[..n][j].actor);
    assert moves[..n][..j] == moves[..j];
  }

  lemma StepWithinBatch(s: Sys, a: Actor, e: Event, t: Sys, docs: seq<DocId>)
    requires Step(s, a, e) == Some(t) && WithinBatch(PcOf(s, a), docs)
    ensures WithinBatch(PcOf(t, a), if e.Promoter? && e.prm.PromoteStart? then e.prm.docs else docs)
  {
    if e.Promoter? {
      PromoteWithinBatch(s, a, e.prm, t, docs);
    } else {
      OthersPromoteNothing(s, a, e, t);
    }
  }

  lemma {:induction false} BatchNext(moves: seq<Move>, s: Sys, t: Sys)
    requires moves != [] && var m := moves[|moves| - 1]; Adds(s, m.actor, m.event, t)
    requires AllAsked(moves[..|moves| - 1], s)
    requires WithinBatch(PcOf(t, moves[|moves| - 1].actor), AskedBatch(moves, moves[|moves| - 1].actor))
    ensures AllAsked(moves, t)
  {
    var last := |moves| - 1;
    var a := moves[last].actor;
    assert WithinBatch(PcOf(s, a), AskedBatch(moves[..last], a));
    forall k | 0 <= k < |t.inserts|
      ensures InsertAsked(moves, t.inserts[k].d)
    {
      if k < |s.inserts| {
        assert t.inserts[k] == s.inserts[k];
        InsertAskedStays(moves, last, s.inserts[k].d);
      }
    }
    forall b
      ensures WithinBatch(PcOf(t, b), AskedBatch(moves, b))
    {
      assert WithinBatch(PcOf(s, b), AskedBatch(moves[..last], b));
    }
  }

  /** Over every run only documents of a batch somebody asked to promote are inserted. */
  lemma {:induction false} OnlyAskedIsInserted(live: map<DocId, Record>, moves: seq<Move>, t: Sys)
    requires Reached(live, moves, t)
    ensures AllAsked(moves, t)
  {
    if moves != [] {
      var last := |moves| - 1;
      var s := Run(Initial(live), moves[..last]).value;
      OnlyAskedIsInserted(live, moves[..last], s);
      JournaledWasInserted(live, moves[..last], s);
      ReachedInv(live, moves[..last], s);
      var a, e := moves[last].actor, moves[last].event;
      assert InsertedAt(s, PcOf(s, a)) && WithinBatch(PcOf(s, a), AskedBatch(moves[..last], a));
      StepAdds(s, a, e, t);
      StepWithinBatch(s, a, e, t, AskedBatch(moves[..last], a));
      BatchNext(moves, s, t);
    }
  }

  // ---- operations that find less than they need -----------------------------------------------------

  /** A verdict on a document without a live record is recorded without a hash, under a closed report. */
  lemma MissingIsRecordedBare(s: Sys, a: Actor, d: DocId, v: Verdict, sev: Severity)
    requires PcOf(s, a) == RecStarted(d, v, sev) && d !in s.live
    ensures var end := Run(s, [Move(a, Recorder(RecordRead)), Move(a, Recorder(RecordInvalidate)), Move(a, Recorder(RecordAppend))]);
            && end.Some? && PcOf(end.value, a).Idle? && Shut(end.value)
            && end.value.history == s.history + [Entry(d, Some(v), Some(sev), None)]
            && end.value.live == s.live && end.value.lots == s.lots
  {
    var read, shut, append := Move(a, Recorder(RecordRead)), Move(a, Recorder(RecordInvalidate)), Move(a, Recorder(RecordAppend));
    var one := RecordNext(s, a, RecordRead);
    var two := RecordNext(one, a, RecordInvalidate);
    var three := RecordNext(two, a, RecordAppend);
    RunMore(s, [], read);
    assert [] + [read] == [read];
    RunMore(s, [read], shut);
    assert [read] + [shut] == [read, shut];
    RunMore(s, [read, shut], append);
    assert [read, shut] + [append] == [read, shut, append];
  }

  lemma RunMore(s: Sys, moves: seq<Move>, m: Move)
    ensures Run(s, moves + [m]) == if Run(s, moves).None? then None else Step(Run(s, moves).value, m.actor, m.event)
  {
    assert (moves + [m])[..|moves|] == moves;
  }

  lemma RecordNext(s: Sys, a: Actor, e: RecordEvent) returns (t: Sys)
    requires match e
             case RecordRead => PcOf(s, a).RecStarted? && PcOf(s, a).d !in s.live
             case RecordInvalidate => PcOf(s, a).RecMissing? && !PcOf(s, a).shut
             case RecordAppend => PcOf(s, a).RecMissing? && PcOf(s, a).shut
             case _ => false
    ensures RecordStep(s, a, e) == Some(t) && t.live == s.live && t.lots == s.lots
    ensures var pc, next := PcOf(s, a), PcOf(t, a);
            if e.RecordAppend? then next.Idle? && t.report == s.report
                                    && t.history == s.history + [Entry(pc.d, Some(pc.v), Some(pc.sev), None)]
            else next == RecMissing(pc.d, pc.v, pc.sev, e.RecordInvalidate?) && t.history == s.history
                 && (e.RecordInvalidate? ==> Shut(t))
  {
    t := RecordStep(s, a, e).value;
  }

  /** A recorder that finds the record changed once it has the lock gives up and changes nothing. */
  lemma ChangedIsNotRecorded(s: Sys, a: Actor)
    requires PcOf(s, a).RecRead? && DocFree(s, PcOf(s, a).d) && ContentOf(s, PcOf(s, a).d) != Some(PcOf(s, a).expected)
    ensures var t := RecordStep(s, a, RecordLock);
            t.Some? && PcOf(t.value, a).Idle? && t.value == s.(pcs := t.value.pcs)
  {
  }

  /** A report whose evidence cannot be read, or whose lot is gone, replaces the state by one that is not complete and
      names what it was asked for. */
  lemma UnreadableShuts(s: Sys, a: Actor, maxRate: real)
    requires PcOf(s, a).Reporting? || (PcOf(s, a).Opening? && PcOf(s, a).name !in s.lots)
    ensures var pc := PcOf(s, a);
            var t := ReportStep(s, a, if pc.Reporting? then ReportFail(maxRate) else ReportOpen);
            && t.Some? && PcOf(t.value, a).Idle? && Shut(t.value) && t.value.report.value.reasons != []
            && t.value == s.(pcs := t.value.pcs, report := t.value.report)
            && (pc.Reporting? ==> t.value.report.value.sampleFile == Some(pc.name)
                                  && t.value.report.value.sampleSha == Some(pc.file) && t.value.report.value.maxRate == maxRate)
  {
  }

  /** Drawing again under the name of a lot on disk leaves it alone: the same lot changes nothing, not even the
      report, and another one closes the report. */
  lemma RedrawKeepsTheLot(s: Sys, a: Actor, held: set<DocId>, name: string, file: LotFile)
    requires PcOf(s, a) == Sampling(held) && held == s.live.Keys && SampledFrom(file, s.live) && name in s.lots
    ensures var t := DrawStep(s, a, held, name, file);
            && SampleStep(s, a, SampleDraw(name, file)) == t && t.Some? && PcOf(t.value, a).Idle?
            && t.value == s.(pcs := t.value.pcs, report := t.value.report)
            && (if s.lots[name] == file then t.value.report == s.report else Shut(t.value))
  {
  }

  /** A sampler that did not lock exactly the live documents, or that another sampler forestalled, gives up and
      changes nothing. */
  lemma SamplerGivesUp(s: Sys, a: Actor, name: string, file: LotFile)
    ensures PcOf(s, a).Sampling? && PcOf(s, a).held != s.live.Keys ==>
              SampleStep(s, a, SampleDraw(name, file)) == Some(s.(pcs := s.pcs[a := Idle]))
    ensures PcOf(s, a).Drawn? && PcOf(s, a).shut && PcOf(s, a).name in s.lots ==>
              SampleStep(s, a, SampleLink) == Some(s.(pcs := s.pcs[a := Idle]))
  {
  }

  /** A producer that gets the document's lock publishes any record: for a moment none is live, then the new one, and
      nothing else changes. */
  lemma ProducerPublishes(s: Sys, a: Actor, d: DocId, record: Record)
    requires PcOf(s, a).Idle? && DocFree(s, d)
    ensures var gone := Run(s, [Move(a, Producer(Produce(d))), Move(a, Producer(ProduceArchive))]);
            gone.Some? && d !in gone.value.live
    ensures var end := Run(s, [Move(a, Producer(Produce(d))), Move(a, Producer(ProduceArchive)), Move(a, Producer(ProduceWrite(record)))]);
            && end.Some? && PcOf(end.value, a).Idle? && end.value.live == s.live[d := record]
            && end.value == s.(live := end.value.live, pcs := end.value.pcs, seen := end.value.seen)
  {
    var start, archive := Move(a, Producer(Produce(d))), Move(a, Producer(ProduceArchive));
    var write := Move(a, Producer(ProduceWrite(record)));
    RunMore(s, [], start);
    assert [] + [start] == [start];
    RunMore(s, [start], archive);
    assert [start] + [archive] == [start, archive];
    RunMore(s, [start, archive], write);
    assert [start, archive] + [write] == [start, archive, write];
    assert (s.live - {d})[d := record] == s.live[d := record];
  }

  /** A batch asked for while the gate is closed is refused as a whole, and one that is through ends; neither changes
      anything. */
  lemma BatchEnds(s: Sys, a: Actor, docs: seq<DocId>)
    ensures PcOf(s, a).Idle? && RootFree(s) && !GateNow(s) ==>
              PromoteStep(s, a, PromoteStart(docs)) == Some(s.(pcs := s.pcs[a := Idle]))
    ensures PcOf(s, a) == Batch([]) ==> PromoteStep(s, a, PromoteLock) == Some(s.(pcs := s.pcs[a := Idle]))
  {
  }

  /** After an insertion that raises, a promoter goes on with the batch and leaves everything as it was. */
  lemma RaisedIsSkipped(s: Sys, a: Actor)
    requires PcOf(s, a).Ready?
    ensures PromoteStep(s, a, PromoteInsert(Raised)) == Some(s.(pcs := s.pcs[a := Batch(PcOf(s, a).todo)]))
  {
  }

  /** After a partial one it notes it on the record and does not journal the document. */
  lemma PartialIsNoted(s: Sys, a: Actor, note: string)
    requires PcOf(s, a).Ready?
    ensures var pc, t := PcOf(s, a), PromoteStep(s, a, PromoteInsert(Partial));
            && t.Some? && |t.value.inserts| == |s.inserts| + 1
            && var u := PromoteStep(t.value, a, PromoteNote(note));
               u.Some? && PcOf(u.value, a) == Batch(pc.todo) && u.value.journal == s.journal
  {
  }

  /** After a full one it archives the record and journals the document. */
  lemma CompleteIsJournaled(s: Sys, a: Actor)
    requires PcOf(s, a).Ready?
    ensures var pc, t := PcOf(s, a), PromoteStep(s, a, PromoteInsert(Complete));
            && t.Some? && |t.value.inserts| == |s.inserts| + 1
            && var u := PromoteStep(t.value, a, PromoteArchive);
               && u.Some? && u.value.live == s.live - {pc.d}
               && var v := PromoteStep(u.value, a, PromoteJournal);
                  v.Some? && v.value.journal == s.journal + [pc.d] && PcOf(v.value, a) == Batch(pc.todo)
  {
  }
}
