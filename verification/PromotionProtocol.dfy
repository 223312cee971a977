/** The audit protocol as a state machine. Recorders, reporters, samplers, producers and
    promoters interleave over shared files; every file write is one atomic step, and an actor may
    crash between any two, which releases its locks. A lock is held exactly while its holder is
    in the section it protects, so the locks are read off the actors' positions. */
module PromotionProtocol {
  import opened AuditTypes
  import opened StratifiedBound
  import opened AuditReport
  import opened StickyVerdicts
  import opened PromotionGate
  import Samples = Sampling

  type Actor = nat

  datatype Outcome = Complete | Partial | Raised

  /** Where an actor is, with the values it has read so far. */
  datatype Pc =
    | Idle
    // record a verdict
    | RecStarted(d: DocId, v: Verdict, sev: Severity)
    | RecRead(d: DocId, v: Verdict, sev: Severity, expected: StableView)
    | RecMissing(d: DocId, v: Verdict, sev: Severity, shut: bool)
    | RecChecked(d: DocId, v: Verdict, sev: Severity, current: Record, shut: bool)
    | RecStamped(d: DocId, v: Verdict, sev: Severity, expected: StableView)
    // build a report
    | Opening(name: string)
    | Reporting(name: string, file: LotFile, read: map<DocId, Record>)
    // freeze a sample
    | Sampling(held: set<DocId>)
    | Drawn(held: set<DocId>, name: string, file: LotFile, shut: bool, snapshot: map<DocId, Record>)
    // publish a new staging record
    | Producing(d: DocId, archived: bool)
    // promote a batch
    | Batch(todo: seq<DocId>)
    | Locked(d: DocId, todo: seq<DocId>)
    | Ready(d: DocId, todo: seq<DocId>, record: Record)
    | Committed(d: DocId, todo: seq<DocId>, record: Record)
    | Archived(d: DocId, todo: seq<DocId>)
    | Rejected(d: DocId, todo: seq<DocId>, record: Record)
  {
    predicate HoldsRoot() {
      !Idle? && !Producing?
    }

    function HeldDocs(): set<DocId> {
      match this
      case RecChecked(d, _, _, _, _) => {d}
      case RecStamped(d, _, _, _) => {d}
      case Sampling(held) => held
      case Drawn(held, _, _, _, _) => held
      case Producing(d, _) => {d}
      case Locked(d, _) => {d}
      case Ready(d, _, _) => {d}
      case Committed(d, _, _) => {d}
      case Archived(d, _) => {d}
      case Rejected(d, _, _) => {d}
      case _ => {}
    }

    predicate Promoting() {
      Batch? || Locked? || Ready? || Committed? || Archived? || Rejected?
    }
  }

  /** A record that was live under a document id. */
  datatype Sighting = Sighting(d: DocId, record: Record)

  /** What an insertion saw when it ran. */
  datatype Insert = Insert(d: DocId, rows: seq<Row>, live: Option<Record>, history: seq<Entry>,
                           report: Option<Payload>, lots: map<string, LotFile>, seen: set<Sighting>,
                           outcome: Outcome)

  /** A frozen lot and the live records it was drawn from. */
  datatype Freeze = Freeze(file: LotFile, live: map<DocId, Record>)

  /** The shared files and the actors, with four logs no actor reads: the record live at each
      history append, the insertions, the linked lots, and every record that was ever live. */
  datatype Sys = Sys(history: seq<Entry>, live: map<DocId, Record>, report: Option<Payload>,
                     lots: map<string, LotFile>, journal: seq<DocId>, pcs: map<Actor, Pc>,
                     witnesses: seq<Option<Record>>, inserts: seq<Insert>, freezes: seq<Freeze>,
                     seen: set<Sighting>)

  datatype RecordEvent =
    | RecordStart(d: DocId, v: Verdict, sev: Severity) | RecordRead | RecordLock | RecordInvalidate
    | RecordStamp | RecordAppend

  datatype ReportEvent =
    | ReportStart(name: string) | ReportOpen | ReportRead(d: DocId)
    | ReportWrite(truth: Option<map<DocId, seq<Row>>>, maxRate: real) | ReportFail(rate: real)

  datatype SampleEvent =
    | SampleStart | SampleLock(d: DocId) | SampleDraw(name: string, file: LotFile) | SampleInvalidate | SampleLink

  datatype ProduceEvent = Produce(d: DocId) | ProduceArchive | ProduceWrite(record: Record)

  datatype PromoteEvent =
    | PromoteStart(docs: seq<DocId>) | PromoteLock | PromoteCheck | PromoteInsert(outcome: Outcome)
    | PromoteArchive | PromoteJournal | PromoteNote(note: string)

  datatype Event =
    | Recorder(rec: RecordEvent) | Reporter(rep: ReportEvent) | Sampler(sam: SampleEvent)
    | Producer(pro: ProduceEvent) | Promoter(prm: PromoteEvent) | Crash

  function PcOf(s: Sys, a: Actor): Pc {
    if a in s.pcs then s.pcs[a] else Idle
  }

  ghost predicate RootFree(s: Sys) {
    forall a :: a in s.pcs ==> !s.pcs[a].HoldsRoot()
  }

  /** No actor but `self` holds the document's lock. */
  ghost predicate DocFree(s: Sys, d: DocId) {
    forall a :: a in s.pcs ==> d !in s.pcs[a].HeldDocs()
  }

  function At(s: Sys, a: Actor, pc: Pc): Sys {
    s.(pcs := s.pcs[a := pc])
  }

  /** A new live record. */
  function Put(s: Sys, d: DocId, record: Record): Sys {
    s.(live := s.live[d := record], seen := s.seen + {Sighting(d, record)})
  }

  function Find<V>(m: map<DocId, V>, d: DocId): Option<V> {
    if d in m then Some(m[d]) else None
  }

  /** The lot file the report names, as it is now. */
  function LotNow(s: Sys): Option<LotFile> {
    if s.report.Some? && s.report.value.sampleFile.Some? then Find(s.lots, s.report.value.sampleFile.value) else None
  }

  predicate GateNow(s: Sys) {
    GateOpen(s.report, Some(s.history), LotNow(s))
  }

  /** The record of one document, as the sampler reads it. */
  function StagedOf(d: DocId, record: Record): Samples.Staged {
    Samples.Staged(record.stable.year, d, record.stable.parseStatus, record.stable.assetReview, record.stable)
  }

  /** A listing of all live records. */
  ghost predicate Lists(records: seq<Samples.Staged>, live: map<DocId, Record>) {
    && Samples.UniqueIds(records)
    && (forall i :: 0 <= i < |records| ==>
          records[i].docId in live && records[i] == StagedOf(records[i].docId, live[records[i].docId]))
    && (forall d :: d in live ==> exists i :: 0 <= i < |records| && records[i].docId == d)
  }

  /** The file is what the sampler writes for these records: at some quota a lot it may draw, with
      the frame and the annual counts of all eligible documents. */
  ghost predicate SampledFrom(file: LotFile, live: map<DocId, Record>) {
    exists records: seq<Samples.Staged>, quota: nat, parts: seq<seq<LotItem>> :: SampleOf(file, live, records, quota, parts)
  }

  ghost predicate SampleOf(file: LotFile, live: map<DocId, Record>, records: seq<Samples.Staged>, quota: nat,
                           parts: seq<seq<LotItem>>)
  {
    var years := Samples.EligibleYears(records);
    && Lists(records, live) && Samples.IsSample(records, quota, years, parts)
    && file.lot == Samples.Joined(parts) && file.frame == Samples.FrameOf(records, years)
    && file.annual.Some? && AnnualAgrees(file.annual, file.frame)
  }

  /** Every record of the snapshot is live and unchanged. */
  ghost predicate StillLive(snapshot: map<DocId, Record>, live: map<DocId, Record>) {
    forall d :: d in snapshot ==> Find(live, d) == Some(snapshot[d])
  }

  function Stamped(r: Record, v: Verdict, sev: Severity): Record {
    Record(r.stable, Some(v), Some(sev))
  }

  ghost function JournalIds(journal: seq<DocId>): set<DocId> {
    set i | 0 <= i < |journal| :: journal[i]
  }

  // ---- the steps -----------------------------------------------------------------------------

  ghost function RecordStep(s: Sys, a: Actor, e: RecordEvent): Option<Sys> {
    match (e, PcOf(s, a))
    case (RecordStart(d, v, sev), Idle) =>
      if RootFree(s) then Some(At(s, a, RecStarted(d, v, sev))) else None
    case (RecordRead, RecStarted(d, v, sev)) =>
      Some(At(s, a, if d in s.live then RecRead(d, v, sev, s.live[d].stable) else RecMissing(d, v, sev, false)))
    case (RecordLock, RecRead(d, v, sev, expected)) =>
      if !DocFree(s, d) then None
      else if d in s.live && s.live[d].stable == expected
      then Some(At(s, a, RecChecked(d, v, sev, s.live[d], false)))
      else Some(At(s, a, Idle))
    case (RecordInvalidate, RecChecked(d, v, sev, current, false)) =>
      Some(At(s.(report := Some(Invalidated())), a, RecChecked(d, v, sev, current, true)))
    case (RecordStamp, RecChecked(d, v, sev, current, true)) =>
      Some(At(Put(s, d, Stamped(current, v, sev)), a, RecStamped(d, v, sev, current.stable)))
    case (RecordAppend, RecStamped(d, v, sev, expected)) =>
      Some(At(s.(history := s.history + [Entry(d, Some(v), Some(sev), Some(expected))],
                 witnesses := s.witnesses + [Find(s.live, d)]), a, Idle))
    case (RecordInvalidate, RecMissing(d, v, sev, false)) =>
      Some(At(s.(report := Some(Invalidated())), a, RecMissing(d, v, sev, true)))
    case (RecordAppend, RecMissing(d, v, sev, true)) =>
      Some(At(s.(history := s.history + [Entry(d, Some(v), Some(sev), None)],
                 witnesses := s.witnesses + [Find(s.live, d)]), a, Idle))
    case _ => None
  }

  /** The report holds only the root lock: it reads live records one at a time, in any order,
      while producers may publish. */
  ghost function ReportStep(s: Sys, a: Actor, e: ReportEvent): Option<Sys> {
    match (e, PcOf(s, a))
    case (ReportStart(name), Idle) =>
      if RootFree(s) then Some(At(s, a, Opening(name))) else None
    case (ReportOpen, Opening(name)) =>
      if name in s.lots then Some(At(s, a, Reporting(name, s.lots[name], map[])))
      else Some(At(s.(report := Some(IncompleteState(Unreadable, DEFAULT_MAX_RATE, None, None, None))), a, Idle))
    case (ReportRead(d), Reporting(name, file, read)) =>
      if d in s.live then Some(At(s, a, Reporting(name, file, read[d := s.live[d]]))) else None
    case (ReportWrite(truth, maxRate), Reporting(name, file, read)) =>
      var r := ReportOf(s.history, DesignFrom(file, maxRate), Evidence(read, truth, JournalIds(s.journal)));
      Some(At(s.(report := Some(StateOf(r, s.history, name, file, maxRate))), a, Idle))
    case (ReportFail(maxRate), Reporting(name, file, _)) =>
      Some(At(s.(report := Some(IncompleteState(Unreadable, maxRate, Some(name), Some(file), None))), a, Idle))
    case _ => None
  }

  /** What a sampler does with a draw from all live records. */
  ghost function DrawStep(s: Sys, a: Actor, held: set<DocId>, name: string, file: LotFile): Option<Sys> {
    if !SampledFrom(file, s.live) then None
    else if name !in s.lots then Some(At(s, a, Drawn(held, name, file, false, s.live)))
    else if s.lots[name] == file then Some(At(s, a, Idle))
    else Some(At(s.(report := Some(Invalidated())), a, Idle))
  }

  ghost function SampleStep(s: Sys, a: Actor, e: SampleEvent): Option<Sys> {
    match (e, PcOf(s, a))
    case (SampleStart, Idle) =>
      if RootFree(s) then Some(At(s, a, Sampling({}))) else None
    case (SampleLock(d), Sampling(held)) =>
      if DocFree(s, d) then Some(At(s, a, Sampling(held + {d}))) else None
    case (SampleDraw(name, file), Sampling(held)) =>
      if held != s.live.Keys then Some(At(s, a, Idle)) else DrawStep(s, a, held, name, file)
    case (SampleInvalidate, Drawn(held, name, file, false, snapshot)) =>
      Some(At(s.(report := Some(Invalidated())), a, Drawn(held, name, file, true, snapshot)))
    case (SampleLink, Drawn(held, name, file, true, snapshot)) =>
      if name in s.lots then Some(At(s, a, Idle))
      else Some(At(s.(lots := s.lots[name := file], freezes := s.freezes + [Freeze(file, snapshot)]), a, Idle))
    case _ => None
  }

  /** A producer needs only the document's lock; what it writes is arbitrary. */
  ghost function ProduceStep(s: Sys, a: Actor, e: ProduceEvent): Option<Sys> {
    match (e, PcOf(s, a))
    case (Produce(d), Idle) =>
      if DocFree(s, d) then Some(At(s, a, Producing(d, false))) else None
    case (ProduceArchive, Producing(d, false)) =>
      Some(At(s.(live := s.live - {d}), a, Producing(d, true)))
    case (ProduceWrite(record), Producing(d, true)) =>
      Some(At(Put(s, d, record), a, Idle))
    case _ => None
  }

  function Logged(s: Sys, d: DocId, record: Record, outcome: Outcome): Insert {
    Insert(d, record.stable.rows, Find(s.live, d), s.history, s.report, s.lots, s.seen, outcome)
  }

  /** The gate is read once for a batch; each document is then checked under its own lock. */
  ghost function PromoteStep(s: Sys, a: Actor, e: PromoteEvent): Option<Sys> {
    match (e, PcOf(s, a))
    case (PromoteStart(docs), Idle) =>
      if !RootFree(s) then None else Some(At(s, a, if GateNow(s) then Batch(docs) else Idle))
    case (PromoteLock, Batch(todo)) =>
      if todo == [] then Some(At(s, a, Idle))
      else if DocFree(s, todo[0]) then Some(At(s, a, Locked(todo[0], todo[1..])))
      else None
    case (PromoteCheck, Locked(d, todo)) =>
      var passed := d in s.live && Approved(s.history, d, s.live[d]);
      Some(At(s, a, if passed then Ready(d, todo, s.live[d]) else Batch(todo)))
    case (PromoteInsert(outcome), Ready(d, todo, record)) =>
      var log := s.inserts + [Logged(s, d, record, outcome)];
      (match outcome
       case Complete => Some(At(s.(inserts := log), a, Committed(d, todo, record)))
       case Partial => Some(At(s.(inserts := log), a, Rejected(d, todo, record)))
       case Raised => Some(At(s, a, Batch(todo))))
    case (PromoteArchive, Committed(d, todo, record)) =>
      Some(At(s.(live := s.live - {d}), a, Archived(d, todo)))
    case (PromoteJournal, Archived(d, todo)) =>
      Some(At(s.(journal := s.journal + [d]), a, Batch(todo)))
    case (PromoteNote(note), Rejected(d, todo, record)) =>
      Some(At(Put(s, d, Noted(record, note)), a, Batch(todo)))
    case _ => None
  }

  ghost function Step(s: Sys, a: Actor, e: Event): Option<Sys> {
    match e
    case Recorder(r) => RecordStep(s, a, r)
    case Reporter(r) => ReportStep(s, a, r)
    case Sampler(r) => SampleStep(s, a, r)
    case Producer(r) => ProduceStep(s, a, r)
    case Promoter(r) => PromoteStep(s, a, r)
    case Crash => Some(At(s, a, Idle))
  }

  // ---- the invariant -------------------------------------------------------------------------

  ghost predicate Exclusive(s: Sys) {
    forall a, b :: a in s.pcs && b in s.pcs && a != b ==>
      && !(s.pcs[a].HoldsRoot() && s.pcs[b].HoldsRoot())
      && s.pcs[a].HeldDocs() !! s.pcs[b].HeldDocs()
  }

  predicate Shut(s: Sys) {
    s.report.Some? && !s.report.value.complete
  }

  predicate IsLive(s: Sys, d: DocId, record: Record) {
    d in s.live && s.live[d] == record
  }

  ghost predicate WereLive(records: map<DocId, Record>, seen: set<Sighting>) {
    forall d :: d in records ==> Sighting(d, records[d]) in seen
  }

  /** Stamped as passed, and bound to a passing entry. */
  predicate Approved(history: seq<Entry>, d: DocId, record: Record) {
    record.audit == Some(Pass) && VerdictBound(history, d, record)
  }

  /** The record has the entry's content and the entry's verdict stamped on it. */
  predicate Carries(live: Option<Record>, e: Entry) {
    live.Some? && Some(live.value.stable) == e.sha && live.value.audit == e.verdict && live.value.severity == e.severity
  }

  /** What an actor may rely on where it stands. */
  ghost predicate Relies(s: Sys, pc: Pc) {
    && (pc.Promoting() ==> GateNow(s))
    && match pc
       case RecMissing(_, _, _, shut) => shut ==> Shut(s)
       case RecChecked(d, _, _, current, shut) => IsLive(s, d, current) && (shut ==> Shut(s))
       case RecStamped(d, v, sev, expected) => Carries(Find(s.live, d), Entry(d, Some(v), Some(sev), Some(expected))) && Shut(s)
       case Reporting(name, file, read) => name in s.lots && s.lots[name] == file && WereLive(read, s.seen)
       case Drawn(held, name, file, shut, snapshot) =>
         && SampledFrom(file, snapshot) && snapshot.Keys <= held && StillLive(snapshot, s.live)
         && (shut ==> Shut(s)) && name !in s.lots
       case Ready(d, _, record) => IsLive(s, d, record) && Approved(s.history, d, record)
       case Committed(d, _, record) => IsLive(s, d, record)
       case Archived(d, _) => d !in s.live
       case Rejected(d, _, record) => IsLive(s, d, record)
       case _ => true
  }

  ghost predicate AllRely(s: Sys) {
    forall a :: a in s.pcs ==> Relies(s, s.pcs[a])
  }

  /** A complete report state is one that a report over its history and its lot wrote, from records
      that were live. */
  ghost predicate Genuine(p: Payload, lots: map<string, LotFile>, seen: set<Sighting>) {
    exists ev: Evidence, file: LotFile ::
      && WereLive(ev.live, seen)
      && p.historySha.Some? && p.sampleFile.Some? && p.sampleFile.value in lots && lots[p.sampleFile.value] == file
      && p == StateOf(ReportOf(p.historySha.value, DesignFrom(file, p.maxRate), ev), p.historySha.value,
                      p.sampleFile.value, file, p.maxRate)
  }

  ghost predicate ReportGenuine(s: Sys) {
    s.report.Some? && s.report.value.complete ==> Genuine(s.report.value, s.lots, s.seen)
  }

  /** Each entry with a hash was appended while the live record had that content and its stamp. */
  ghost predicate Witnessed(s: Sys) {
    && |s.witnesses| == |s.history|
    && (forall i :: 0 <= i < |s.history| && s.history[i].sha.Some? ==> Carries(s.witnesses[i], s.history[i]))
    && SeveritiesStated(s.history)
  }

  /** What every insertion saw. */
  ghost predicate Sound(ins: Insert) {
    && ins.live.Some? && ins.rows == ins.live.value.stable.rows
    && Approved(ins.history, ins.d, ins.live.value)
    && ins.report.Some? && Genuine(ins.report.value, ins.lots, ins.seen)
    && ins.report.value.sampleFile.Some?
    && GateOpen(ins.report, Some(ins.history), Find(ins.lots, ins.report.value.sampleFile.value))
  }

  ghost predicate Past(ins: Insert, s: Sys) {
    && ins.history <= s.history
    && ins.seen <= s.seen
    && forall n :: n in ins.lots ==> n in s.lots && s.lots[n] == ins.lots[n]
  }

  ghost predicate InsertsSound(s: Sys) {
    forall k :: 0 <= k < |s.inserts| ==> Sound(s.inserts[k]) && Past(s.inserts[k], s)
  }

  ghost predicate AllSampled(freezes: seq<Freeze>) {
    forall k :: 0 <= k < |freezes| ==> SampledFrom(freezes[k].file, freezes[k].live)
  }

  ghost predicate AllLogged(lots: map<string, LotFile>, freezes: seq<Freeze>) {
    forall n :: n in lots ==> exists k :: 0 <= k < |freezes| && freezes[k].file == lots[n]
  }

  ghost predicate FreezesSound(s: Sys) {
    AllSampled(s.freezes) && AllLogged(s.lots, s.freezes)
  }

  ghost predicate Inv(s: Sys) {
    WereLive(s.live, s.seen) && Exclusive(s) && AllRely(s) && ReportGenuine(s) && Witnessed(s) && InsertsSound(s) && FreezesSound(s)
  }

  // ---- what a step may touch -------------------------------------------------------------------

  /** A step changes the history, report and lots only under the root lock, each live record only
      under its lock, and never removes a history entry or changes a lot. */
  ghost predicate WithinLocks(s: Sys, t: Sys, pc: Pc) {
    && (!pc.HoldsRoot() ==> t.history == s.history && t.report == s.report && t.lots == s.lots)
    && s.history <= t.history && s.seen <= t.seen
    && (WereLive(s.live, s.seen) ==> WereLive(t.live, t.seen))
    && (forall n :: n in s.lots ==> n in t.lots && t.lots[n] == s.lots[n])
    && (forall d :: d !in pc.HeldDocs() ==> Find(t.live, d) == Find(s.live, d))
  }

  lemma RelianceKept(s: Sys, t: Sys, pc: Pc, other: Pc)
    requires WithinLocks(s, t, pc) && Relies(s, other)
    requires !(pc.HoldsRoot() && other.HoldsRoot()) && pc.HeldDocs() !! other.HeldDocs()
    ensures Relies(t, other)
  {
    if other.HoldsRoot() {
      assert forall d :: d in other.HeldDocs() ==> Find(t.live, d) == Find(s.live, d);
    }
  }

  lemma OthersKept(s: Sys, t: Sys, a: Actor)
    requires Exclusive(s) && AllRely(s) && WithinLocks(s, t, PcOf(s, a))
    requires t.pcs == s.pcs[a := PcOf(t, a)] && Relies(t, PcOf(t, a))
    ensures AllRely(t)
  {
    forall b | b in t.pcs
      ensures Relies(t, t.pcs[b])
    {
      if b != a {
        assert s.pcs[b].HeldDocs() !! PcOf(s, a).HeldDocs();
        RelianceKept(s, t, PcOf(s, a), s.pcs[b]);
      }
    }
  }

  /** A step gives its actor no lock that another holds. */
  ghost predicate Granted(s: Sys, was: Pc, next: Pc) {
    && (next.HoldsRoot() ==> was.HoldsRoot() || RootFree(s))
    && (forall d :: d in next.HeldDocs() ==> d in was.HeldDocs() || DocFree(s, d))
  }

  lemma ExclusionKept(s: Sys, t: Sys, a: Actor)
    requires Exclusive(s) && t.pcs == s.pcs[a := PcOf(t, a)]
    requires Granted(s, PcOf(s, a), PcOf(t, a))
    ensures Exclusive(t)
  {
    var pc := PcOf(t, a);
    forall b | b in s.pcs && b != a
      ensures !(s.pcs[b].HoldsRoot() && pc.HoldsRoot()) && s.pcs[b].HeldDocs() !! pc.HeldDocs()
    {
      assert s.pcs[b].HeldDocs() !! PcOf(s, a).HeldDocs();
    }
  }

  // ---- what one step does ----------------------------------------------------------------------

  ghost predicate Tidy(s: Sys, a: Actor, t: Sys) {
    && t.pcs == s.pcs[a := PcOf(t, a)]
    && WithinLocks(s, t, PcOf(s, a))
    && Granted(s, PcOf(s, a), PcOf(t, a))
  }

  /** The report state only ever changes to one that fails closed or to the report over the history
      of that moment. */
  ghost predicate ReportMoves(s: Sys, t: Sys) {
    || t.report == s.report
    || Shut(t)
    || (t.history == s.history && t.report.Some? && t.report.value.historySha == Some(t.history)
        && Genuine(t.report.value, t.lots, t.seen))
  }

  /** One entry is appended, under a closed report; if it has a hash, its record is live with that
      content and stamped with that verdict and severity. */
  ghost predicate HistoryMoves(s: Sys, t: Sys) {
    || (t.history == s.history && t.witnesses == s.witnesses)
    || exists e: Entry, live: Option<Record> ::
         && Shut(s) && t.report == s.report && live == Find(s.live, e.docId)
         && t.history == s.history + [e] && t.witnesses == s.witnesses + [live]
         && (e.sha.Some? ==> Carries(live, e)) && e.severity.Some?
  }

  /** The insertion's log is the state it ran in. */
  ghost predicate SawNow(ins: Insert, s: Sys) {
    && ins.history == s.history && ins.report == s.report && ins.lots == s.lots && ins.seen == s.seen
    && ins.live == Find(s.live, ins.d)
  }

  ghost predicate InsertMoves(s: Sys, t: Sys) {
    || t.inserts == s.inserts
    || exists ins: Insert ::
         && t.inserts == s.inserts + [ins] && Sound(ins) && SawNow(ins, s)
  }

  ghost predicate FreezeMoves(s: Sys, t: Sys) {
    || (t.freezes == s.freezes && t.lots == s.lots)
    || exists f: Freeze, name: string :: Links(s, t, f, name)
  }

  /** A new lot is linked under a closed report, drawn from a snapshot that is still live. */
  ghost predicate Links(s: Sys, t: Sys, f: Freeze, name: string) {
    && t.freezes == s.freezes + [f] && name !in s.lots && t.lots == s.lots[name := f.file]
    && Shut(s) && t.report == s.report && SampledFrom(f.file, f.live) && StillLive(f.live, s.live)
  }

  ghost predicate Moves(s: Sys, t: Sys) {
    ReportMoves(s, t) && HistoryMoves(s, t) && InsertMoves(s, t) && FreezeMoves(s, t)
  }

  ghost predicate Effects(s: Sys, a: Actor, t: Sys) {
    Tidy(s, a, t) && Relies(t, PcOf(t, a)) && Moves(s, t)
  }

  lemma RecordTidy(s: Sys, a: Actor, e: RecordEvent, t: Sys)
    requires RecordStep(s, a, e) == Some(t)
    ensures Tidy(s, a, t)
  {
  }

  lemma RecordRelies(s: Sys, a: Actor, e: RecordEvent, t: Sys)
    requires Relies(s, PcOf(s, a)) && RecordStep(s, a, e) == Some(t)
    ensures Relies(t, PcOf(t, a))
  {
  }

  lemma RecordMoves(s: Sys, a: Actor, e: RecordEvent, t: Sys)
    requires Relies(s, PcOf(s, a)) && RecordStep(s, a, e) == Some(t)
    ensures Moves(s, t)
  {
    match (e, PcOf(s, a))
    case (RecordAppend, RecStamped(d, v, sev, expected)) =>
      assert t.history == s.history + [Entry(d, Some(v), Some(sev), Some(expected))];
      assert t.witnesses == s.witnesses + [Find(s.live, d)];
    case (RecordAppend, RecMissing(d, v, sev, true)) =>
      assert t.history == s.history + [Entry(d, Some(v), Some(sev), None)];
      assert t.witnesses == s.witnesses + [Find(s.live, d)];
    case _ =>
  }

  lemma WrittenIsGenuine(s: Sys, name: string, file: LotFile, ev: Evidence, maxRate: real)
    requires name in s.lots && s.lots[name] == file && WereLive(ev.live, s.seen)
    ensures Genuine(StateOf(ReportOf(s.history, DesignFrom(file, maxRate), ev), s.history, name, file, maxRate),
                    s.lots, s.seen)
  {
    var p := StateOf(ReportOf(s.history, DesignFrom(file, maxRate), ev), s.history, name, file, maxRate);
    assert p.historySha == Some(s.history) && p.sampleFile == Some(name) && p.maxRate == maxRate;
  }

  lemma ReportTidy(s: Sys, a: Actor, e: ReportEvent, t: Sys)
    requires ReportStep(s, a, e) == Some(t)
    ensures Tidy(s, a, t)
  {
  }

  lemma ReportRelies(s: Sys, a: Actor, e: ReportEvent, t: Sys)
    requires WereLive(s.live, s.seen) && Relies(s, PcOf(s, a)) && ReportStep(s, a, e) == Some(t)
    ensures Relies(t, PcOf(t, a)) && Moves(s, t)
  {
    match (e, PcOf(s, a))
    case (ReportWrite(truth, maxRate), Reporting(name, file, read)) =>
      WrittenIsGenuine(s, name, file, Evidence(read, truth, JournalIds(s.journal)), maxRate);
    case _ =>
  }

  lemma DrawTidy(s: Sys, a: Actor, held: set<DocId>, name: string, file: LotFile, t: Sys)
    requires PcOf(s, a) == Sampling(held) && DrawStep(s, a, held, name, file) == Some(t)
    ensures Tidy(s, a, t)
  {
  }

  lemma SampleTidy(s: Sys, a: Actor, e: SampleEvent, t: Sys)
    requires SampleStep(s, a, e) == Some(t)
    ensures Tidy(s, a, t)
  {
    match (e, PcOf(s, a))
    case (SampleDraw(name, file), Sampling(held)) =>
      if held == s.live.Keys {
        DrawTidy(s, a, held, name, file, t);
      }
    case (SampleLink, Drawn(held, name, file, true, snapshot)) =>
    case _ =>
  }

  /** A sampler that holds a lot has just drawn it from all live records, or goes on holding it. */
  ghost predicate HoldsDraw(s: Sys, was: Pc, next: Pc, t: Sys) {
    next.Drawn? ==>
      && t.live == s.live && t.lots == s.lots && (next.shut ==> Shut(t))
      && ((next.snapshot == s.live && next.held == s.live.Keys && SampledFrom(next.file, s.live) && next.name !in s.lots)
          || (was.Drawn? && next == was.(shut := true)))
  }

  lemma DrawHolds(s: Sys, a: Actor, held: set<DocId>, name: string, file: LotFile, t: Sys)
    requires held == s.live.Keys && PcOf(s, a) == Sampling(held) && DrawStep(s, a, held, name, file) == Some(t)
    ensures var next := PcOf(t, a);
            (next.Idle? || next.Drawn?) && HoldsDraw(s, PcOf(s, a), next, t)
  {
  }

  lemma SampleHolds(s: Sys, a: Actor, e: SampleEvent, t: Sys)
    requires SampleStep(s, a, e) == Some(t)
    ensures var next := PcOf(t, a);
            (next.Idle? || next.Sampling? || next.Drawn?) && HoldsDraw(s, PcOf(s, a), next, t)
  {
    match (e, PcOf(s, a))
    case (SampleDraw(name, file), Sampling(held)) =>
      if held == s.live.Keys {
        DrawHolds(s, a, held, name, file, t);
      }
    case _ =>
  }

  lemma SampleRelies(s: Sys, was: Pc, next: Pc, t: Sys)
    requires Relies(s, was) && (next.Idle? || next.Sampling? || next.Drawn?) && HoldsDraw(s, was, next, t)
    ensures Relies(t, next)
  {
  }

  /** Of the logs and shared files a sampling step touches only report and lots, and a lot only once
      the report is closed. */
  ghost predicate OnlyLinks(s: Sys, pc: Pc, t: Sys) {
    && t.history == s.history && t.witnesses == s.witnesses && t.inserts == s.inserts
    && (t.report == s.report || Shut(t))
    && ((t.freezes == s.freezes && t.lots == s.lots)
        || (pc.Drawn? && pc.shut && pc.name !in s.lots && t.report == s.report
            && t.lots == s.lots[pc.name := pc.file] && t.freezes == s.freezes + [Freeze(pc.file, pc.snapshot)]))
  }

  lemma SampleLinks(s: Sys, a: Actor, e: SampleEvent, t: Sys)
    requires SampleStep(s, a, e) == Some(t)
    ensures OnlyLinks(s, PcOf(s, a), t)
  {
  }

  lemma SampleMoves(s: Sys, pc: Pc, t: Sys)
    requires Relies(s, pc) && OnlyLinks(s, pc, t)
    ensures Moves(s, t)
  {
    if t.freezes != s.freezes {
      assert Links(s, t, Freeze(pc.file, pc.snapshot), pc.name);
    }
  }

  lemma ProduceEffects(s: Sys, a: Actor, e: ProduceEvent, t: Sys)
    requires Relies(s, PcOf(s, a)) && ProduceStep(s, a, e) == Some(t)
    ensures Effects(s, a, t)
  {
  }

  lemma PromoteWithin(s: Sys, a: Actor, e: PromoteEvent, t: Sys)
    requires PromoteStep(s, a, e) == Some(t)
    ensures WithinLocks(s, t, PcOf(s, a))
  {
  }

  lemma PromoteGranted(s: Sys, a: Actor, e: PromoteEvent, t: Sys)
    requires PromoteStep(s, a, e) == Some(t)
    ensures t.pcs == s.pcs[a := PcOf(t, a)] && Granted(s, PcOf(s, a), PcOf(t, a))
  {
  }

  lemma PromoteRelies(s: Sys, a: Actor, e: PromoteEvent, t: Sys)
    requires Relies(s, PcOf(s, a)) && PromoteStep(s, a, e) == Some(t)
    ensures Relies(t, PcOf(t, a))
  {
  }

  lemma InsertIsSound(s: Sys, t: Sys, d: DocId, record: Record, outcome: Outcome)
    requires GateNow(s) && ReportGenuine(s) && IsLive(s, d, record) && Approved(s.history, d, record)
    requires t.inserts == s.inserts + [Logged(s, d, record, outcome)]
    ensures InsertMoves(s, t)
  {
    assert Sound(Logged(s, d, record, outcome));
  }

  /** Of the logs and shared files a promotion step touches only the insertions. */
  ghost predicate OnlyInserts(s: Sys, pc: Pc, t: Sys) {
    && t.history == s.history && t.witnesses == s.witnesses && t.report == s.report && t.lots == s.lots && t.freezes == s.freezes
    && (t.inserts == s.inserts
        || (pc.Ready? && exists outcome: Outcome :: t.inserts == s.inserts + [Logged(s, pc.d, pc.record, outcome)]))
  }

  lemma PromoteInserts(s: Sys, a: Actor, e: PromoteEvent, t: Sys)
    requires PromoteStep(s, a, e) == Some(t)
    ensures OnlyInserts(s, PcOf(s, a), t)
  {
  }

  lemma PromoteMoves(s: Sys, pc: Pc, t: Sys)
    requires Relies(s, pc) && ReportGenuine(s) && OnlyInserts(s, pc, t)
    ensures Moves(s, t)
  {
    if t.inserts != s.inserts {
      var outcome: Outcome :| t.inserts == s.inserts + [Logged(s, pc.d, pc.record, outcome)];
      InsertIsSound(s, t, pc.d, pc.record, outcome);
    }
  }

  lemma CrashEffects(s: Sys, a: Actor)
    ensures Effects(s, a, At(s, a, Idle))
  {
  }

  lemma StepEffects(s: Sys, a: Actor, e: Event, t: Sys)
    requires WereLive(s.live, s.seen) && Relies(s, PcOf(s, a)) && ReportGenuine(s) && Step(s, a, e) == Some(t)
    ensures Effects(s, a, t)
  {
    match e
    case Recorder(r) =>
      RecordTidy(s, a, r, t);
      RecordRelies(s, a, r, t);
      RecordMoves(s, a, r, t);
    case Reporter(r) =>
      ReportTidy(s, a, r, t);
      ReportRelies(s, a, r, t);
    case Sampler(r) =>
      SampleTidy(s, a, r, t);
      SampleHolds(s, a, r, t);
      SampleRelies(s, PcOf(s, a), PcOf(t, a), t);
      SampleLinks(s, a, r, t);
      SampleMoves(s, PcOf(s, a), t);
    case Producer(r) => ProduceEffects(s, a, r, t);
    case Promoter(r) =>
      PromoteWithin(s, a, r, t);
      PromoteGranted(s, a, r, t);
      PromoteRelies(s, a, r, t);
      PromoteInserts(s, a, r, t);
      PromoteMoves(s, PcOf(s, a), t);
    case Crash => CrashEffects(s, a);
  }

  // ---- the invariant holds over every run ---------------------------------------------------------

  lemma GenuineStays(p: Payload, lots: map<string, LotFile>, seen: set<Sighting>, more: map<string, LotFile>,
                     later: set<Sighting>)
    requires Genuine(p, lots, seen) && seen <= later && forall n :: n in lots ==> n in more && more[n] == lots[n]
    ensures Genuine(p, more, later)
  {
    var ev: Evidence, file: LotFile :|
      && WereLive(ev.live, seen)
      && p.historySha.Some? && p.sampleFile.Some? && p.sampleFile.value in lots && lots[p.sampleFile.value] == file
      && p == StateOf(ReportOf(p.historySha.value, DesignFrom(file, p.maxRate), ev), p.historySha.value,
                      p.sampleFile.value, file, p.maxRate);
    assert more[p.sampleFile.value] == file;
  }

  lemma ReportStaysGenuine(s: Sys, a: Actor, t: Sys)
    requires ReportGenuine(s) && ReportMoves(s, t) && WithinLocks(s, t, PcOf(s, a))
    ensures ReportGenuine(t)
  {
    if t.report == s.report && s.report.Some? && s.report.value.complete {
      GenuineStays(s.report.value, s.lots, s.seen, t.lots, t.seen);
    }
  }

  lemma WitnessesKept(s: Sys, t: Sys)
    requires Witnessed(s) && HistoryMoves(s, t)
    ensures Witnessed(t)
  {
  }

  lemma PastStays(ins: Insert, s: Sys, a: Actor, t: Sys)
    requires Past(ins, s) && WithinLocks(s, t, PcOf(s, a))
    ensures Past(ins, t)
  {
  }

  lemma InsertsKept(s: Sys, a: Actor, t: Sys)
    requires InsertsSound(s) && InsertMoves(s, t) && WithinLocks(s, t, PcOf(s, a))
    ensures InsertsSound(t)
  {
    forall k | 0 <= k < |t.inserts|
      ensures Sound(t.inserts[k]) && Past(t.inserts[k], t)
    {
      if k < |s.inserts| {
        assert t.inserts[k] == s.inserts[k];
      }
      PastStays(t.inserts[k], s, a, t);
    }
  }

  lemma FreezesKept(s: Sys, t: Sys)
    requires FreezesSound(s) && FreezeMoves(s, t)
    ensures FreezesSound(t)
  {
    if !(t.freezes == s.freezes && t.lots == s.lots) {
      var f: Freeze, name: string :| Links(s, t, f, name);
      MoreSampled(s.freezes, f);
      MoreLogged(s.lots, s.freezes, f, name);
    }
  }

  lemma MoreSampled(freezes: seq<Freeze>, f: Freeze)
    requires AllSampled(freezes) && SampledFrom(f.file, f.live)
    ensures AllSampled(freezes + [f])
  {
    var more := freezes + [f];
    forall k | 0 <= k < |more|
      ensures SampledFrom(more[k].file, more[k].live)
    {
      assert more[k] == if k < |freezes| then freezes[k] else f;
    }
  }

  lemma MoreLogged(lots: map<string, LotFile>, freezes: seq<Freeze>, f: Freeze, name: string)
    requires AllLogged(lots, freezes)
    ensures AllLogged(lots[name := f.file], freezes + [f])
  {
    var all, more := lots[name := f.file], freezes + [f];
    forall n | n in all
      ensures exists k :: 0 <= k < |more| && more[k].file == all[n]
    {
      if n == name {
        assert more[|freezes|].file == all[n];
      } else {
        var k :| 0 <= k < |freezes| && freezes[k].file == lots[n];
        assert more[k] == freezes[k];
      }
    }
  }

  /** Every step of every actor keeps the invariant. */
  lemma StepKeeps(s: Sys, a: Actor, e: Event, t: Sys)
    requires Inv(s) && Step(s, a, e) == Some(t)
    ensures Inv(t)
  {
    assert Relies(s, PcOf(s, a)) by { assert a in s.pcs ==> Relies(s, s.pcs[a]); }
    StepEffects(s, a, e, t);
    EffectsKeep(s, a, t);
  }

  lemma EffectsKeep(s: Sys, a: Actor, t: Sys)
    requires Inv(s) && Effects(s, a, t)
    ensures Inv(t)
  {
    OthersKept(s, t, a);
    ExclusionKept(s, t, a);
    ReportStaysGenuine(s, a, t);
    WitnessesKept(s, t);
    InsertsKept(s, a, t);
    FreezesKept(s, t);
  }
}
