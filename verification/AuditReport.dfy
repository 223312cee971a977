/** The verdict report: how an append-only audit history classifies every document of a frozen
    lot, when the report is complete and its budget met, and which findings later entries can
    still erase. */
module AuditReport {
  import opened AuditTypes
  import opened StratifiedBound

  // ---- what a report reads --------------------------------------------------------------

  /** The frozen lot with its frame and the acceptance parameters. */
  datatype Design = Design(lot: seq<LotItem>, frame: seq<YearFrame>, annual: Option<map<int, int>>,
                           confidence: real, maxRate: real)

  /** Everything besides the history that is read at report time. `truth` is None when no
      ground-truth directory was given. */
  datatype Evidence = Evidence(live: map<DocId, Record>, truth: Option<map<DocId, seq<Row>>>,
                               promoted: set<DocId>)

  datatype Reason =
    | VerdictFail | Omission | Invention
    | NoVerdict | InvalidVerdict | RecordMissing | RecordChanged | NoGroundTruth

  /** Where a report puts one document. */
  datatype Placement =
    | Failed(severity: Severity, why: Reason, legacy: bool, repaired: bool)
    | Unresolved(reason: Reason)
    | Clean
    | Unpromoted

  datatype Finding = Finding(docId: DocId, place: Placement)

  datatype Issue = BlankId(index: nat) | Duplicate(docId: DocId) | NoDocuments

  // ---- one document ---------------------------------------------------------------------

  predicate IsFail(e: Entry) {
    e.verdict == Some(Fail)
  }

  predicate HasFail(entries: seq<Entry>) {
    exists i :: 0 <= i < |entries| && IsFail(entries[i])
  }

  predicate HasFailOf(entries: seq<Entry>, s: Severity) {
    exists i :: 0 <= i < |entries| && IsFail(entries[i]) && entries[i].severity == Some(s)
  }

  /** A pass follows the last fail. */
  predicate Repaired(entries: seq<Entry>) {
    exists i :: 0 <= i < |entries| && entries[i].verdict == Some(Pass)
             && forall j :: i <= j < |entries| ==> !IsFail(entries[j])
  }

  /** An explicit critical fail dominates; otherwise an explicit cosmetic one governs; fails
      without a severity count as critical only when no fail has one. */
  function FailSeverity(entries: seq<Entry>): Severity {
    if !HasFailOf(entries, Critical) && HasFailOf(entries, Cosmetic) then Cosmetic else Critical
  }

  function OmissionCheck(truth: Option<seq<Row>>, staged: seq<Row>): Option<Placement> {
    if truth.None? then Some(Unresolved(NoGroundTruth))
    else if multiset(truth.value) == multiset(staged) then None
    else Some(Failed(Critical, if multiset(truth.value) <= multiset(staged) then Invention else Omission, false, false))
  }

  function FailedBy(entries: seq<Entry>): Placement {
    Failed(FailSeverity(entries), VerdictFail,
           !HasFailOf(entries, Critical) && !HasFailOf(entries, Cosmetic), Repaired(entries))
  }

  /** The checks for a document without a recorded fail, in the program's order. */
  function Examine(entries: seq<Entry>, item: LotItem, ev: Evidence): Placement {
    if entries == [] then Unresolved(NoVerdict)
    else if exists i :: 0 <= i < |entries| && entries[i].verdict.None? then Unresolved(InvalidVerdict)
    else if item.docId !in ev.live then Unresolved(RecordMissing)
    else if item.sha != Some(ev.live[item.docId].stable) then Unresolved(RecordChanged)
    else
      var done := if item.docId in ev.promoted then Clean else Unpromoted;
      if ev.truth.None? then done
      else
        var truth := if item.docId in ev.truth.value then Some(ev.truth.value[item.docId]) else None;
        OmissionCheck(truth, ev.live[item.docId].stable.rows).GetOr(done)
  }

  /** A recorded fail is sticky and skips every later check. */
  function Classify(entries: seq<Entry>, item: LotItem, ev: Evidence): Placement {
    if HasFail(entries) then FailedBy(entries) else Examine(entries, item, ev)
  }

  /** The history entries of one document, in order. */
  function EntriesOf(history: seq<Entry>, d: DocId): seq<Entry> {
    if history == [] then []
    else
      var last := |history| - 1;
      var before := EntriesOf(history[..last], d);
      if history[last].docId == d then before + [history[last]] else before
  }

  function Place(item: LotItem, history: seq<Entry>, ev: Evidence): Placement {
    Classify(EntriesOf(history, item.docId), item, ev)
  }

  // ---- the lot's population ---------------------------------------------------------------

  predicate Blank(d: DocId) {
    forall i :: 0 <= i < |d| ==> d[i] in {' ', '\t', '\n', '\r'}
  }

  /** An id is blank if it has no other character than spaces, tabs and line ends. */
  lemma BlankExactly(d: DocId)
    ensures Blank(d) <==> forall c :: c in d ==> c == ' ' || c == '\t' || c == '\n' || c == '\r'
  {
    forall i | 0 <= i < |d|
      ensures d[i] in d
    {
    }
  }

  /** The first entry of every nonblank document id. */
  function Members(lot: seq<LotItem>): (members: seq<LotItem>)
    ensures |members| <= |lot|
  {
    if lot == [] then []
    else
      var last := |lot| - 1;
      var before := Members(lot[..last]);
      if Blank(lot[last].docId) || lot[last].docId in Ids(before) then before else before + [lot[last]]
  }

  function EntryIssues(lot: seq<LotItem>): seq<Issue> {
    if lot == [] then []
    else
      var last := |lot| - 1;
      var before := EntryIssues(lot[..last]);
      if Blank(lot[last].docId) then before + [BlankId(last)]
      else if lot[last].docId in Ids(Members(lot[..last])) then before + [Duplicate(lot[last].docId)]
      else before
  }

  function Issues(lot: seq<LotItem>): seq<Issue> {
    EntryIssues(lot) + if Members(lot) == [] then [NoDocuments] else []
  }

  ghost predicate NoBlanks(lot: seq<LotItem>) {
    forall i :: 0 <= i < |lot| ==> !Blank(lot[i].docId)
  }

  /** The lots a complete report can be built on. */
  ghost predicate WellFormed(lot: seq<LotItem>) {
    lot != [] && NoDuplicates(lot) && NoBlanks(lot)
  }

  lemma OneMoreBlank(lot: seq<LotItem>, item: LotItem)
    ensures NoBlanks(lot + [item]) <==> NoBlanks(lot) && !Blank(item.docId)
  {
    var all := lot + [item];
    assert all[|lot|] == item && forall i :: 0 <= i < |lot| ==> lot[i] == all[i];
    assert forall i :: 0 <= i < |all| ==> all[i] == if i < |lot| then lot[i] else item;
  }

  lemma {:induction false} EntryIssuesExact(lot: seq<LotItem>)
    ensures EntryIssues(lot) == [] <==> NoDuplicates(lot) && NoBlanks(lot)
    ensures EntryIssues(lot) == [] ==> Members(lot) == lot
  {
    if lot != [] {
      var last := |lot| - 1;
      EntryIssuesExact(lot[..last]);
      EntryIssuesSnoc(lot);
      OneMoreEntry(lot);
    }
  }

  lemma EntryIssuesSnoc(lot: seq<LotItem>)
    requires lot != []
    ensures var rest, item := lot[..|lot| - 1], lot[|lot| - 1];
            && (EntryIssues(lot) == [] <==> EntryIssues(rest) == [] && !Blank(item.docId) && item.docId !in Ids(Members(rest)))
            && (EntryIssues(lot) == [] && Members(rest) == rest ==> Members(lot) == lot)
  {
    assert lot == lot[..|lot| - 1] + [lot[|lot| - 1]];
  }

  lemma OneMoreEntry(lot: seq<LotItem>)
    requires lot != []
    ensures var rest, item := lot[..|lot| - 1], lot[|lot| - 1];
            NoDuplicates(lot) && NoBlanks(lot)
            <==> NoDuplicates(rest) && NoBlanks(rest) && item.docId !in Ids(rest) && !Blank(item.docId)
  {
    var rest, item := lot[..|lot| - 1], lot[|lot| - 1];
    assert lot == rest + [item];
    OneMoreItem(rest, item, []);
    OneMoreBlank(rest, item);
  }

  /** A lot has no issue exactly when it is nonempty, duplicate-free and free of blank ids;
      then its population is the lot itself. */
  lemma IssuesExact(lot: seq<LotItem>)
    ensures Issues(lot) == [] <==> WellFormed(lot)
    ensures WellFormed(lot) ==> Members(lot) == lot
  {
    EntryIssuesExact(lot);
  }

  /** The first entry with this document id, which is not blank. */
  ghost predicate FirstOf(lot: seq<LotItem>, item: LotItem) {
    !Blank(item.docId)
    && exists i :: 0 <= i < |lot| && lot[i] == item && forall j :: 0 <= j < i ==> lot[j].docId != item.docId
  }

  lemma FirstOfSnoc(lot: seq<LotItem>, last: LotItem, item: LotItem)
    ensures FirstOf(lot + [last], item)
       <==> FirstOf(lot, item) || (item == last && !Blank(last.docId) && forall j :: 0 <= j < |lot| ==> lot[j].docId != last.docId)
  {
    var all := lot + [last];
    assert all[|lot|] == last && forall i :: 0 <= i < |lot| ==> all[i] == lot[i];
    if FirstOf(lot, item) {
      var i :| 0 <= i < |lot| && lot[i] == item && forall j :: 0 <= j < i ==> lot[j].docId != item.docId;
      assert all[i] == item;
    }
    if FirstOf(all, item) {
      var i :| 0 <= i < |all| && all[i] == item && forall j :: 0 <= j < i ==> all[j].docId != item.docId;
      if i < |lot| {
        assert lot[i] == item;
      }
    }
  }

  /** The population is the first entry of each id that is not blank, once each. */
  lemma {:induction false} MembersExact(lot: seq<LotItem>)
    ensures NoDuplicates(Members(lot)) && NoBlanks(Members(lot))
    ensures forall item :: item in Members(lot) <==> FirstOf(lot, item)
    ensures forall d :: d in Ids(Members(lot)) <==> !Blank(d) && d in Ids(lot)
  {
    if lot != [] {
      var last := |lot| - 1;
      var before, item := Members(lot[..last]), lot[last];
      MembersExact(lot[..last]);
      assert lot == lot[..last] + [item];
      OneMoreItem(before, item, []);
      OneMoreBlank(before, item);
      forall d
        ensures (exists j :: 0 <= j < last && lot[..last][j].docId == d) <==> d in Ids(lot[..last])
      {
        if d in Ids(lot[..last]) {
          IdsFrom(lot[..last], d);
        }
      }
      forall other
        ensures other in Members(lot) <==> FirstOf(lot, other)
      {
        FirstOfSnoc(lot[..last], item, other);
      }
    }
  }

  // ---- the report --------------------------------------------------------------------------

  datatype Kind = Failing | Pending | Cleared | Waiting {
    predicate Takes(p: Placement) {
      match this
      case Failing => p.Failed?
      case Pending => p.Unresolved?
      case Cleared => p.Clean?
      case Waiting => p.Unpromoted?
    }
  }

  /** Every document of the population with its placement. */
  function Findings(members: seq<LotItem>, history: seq<Entry>, ev: Evidence): seq<Finding> {
    if members == [] then []
    else
      var last := |members| - 1;
      Findings(members[..last], history, ev) + [Finding(members[last].docId, Place(members[last], history, ev))]
  }

  function Listed(findings: seq<Finding>, kind: Kind): seq<Finding> {
    if findings == [] then []
    else
      var last := findings[|findings| - 1];
      var before := Listed(findings[..|findings| - 1], kind);
      if kind.Takes(last.place) then before + [last] else before
  }

  datatype Report = Report(issues: seq<Issue>, failures: seq<Finding>, unresolved: seq<Finding>,
                           clean: seq<Finding>, unpromoted: seq<Finding>, lotSize: nat, upper: Option<real>,
                           budgetMet: Option<bool>)
  {
    predicate Complete() {
      issues == [] && unresolved == []
    }

    function Audited(): nat {
      |failures| + |clean| + |unpromoted|
    }
  }

  function FindingIds(findings: seq<Finding>): set<DocId> {
    if findings == [] then {} else FindingIds(findings[..|findings| - 1]) + {findings[|findings| - 1].docId}
  }

  predicate IsCritical(f: Finding) {
    f.place.Failed? && f.place.severity == Critical
  }

  function CriticalIds(findings: seq<Finding>): set<DocId> {
    if findings == [] then {}
    else
      var last := findings[|findings| - 1];
      var before := CriticalIds(findings[..|findings| - 1]);
      if IsCritical(last) then before + {last.docId} else before
  }

  /** What the report says about a history: the four lists, the bound over the lot with the
      critical failures, and the budget decision. */
  ghost function ReportOf(history: seq<Entry>, design: Design, ev: Evidence): Report {
    var members := Members(design.lot);
    var findings := Findings(members, history, ev);
    var failures, unresolved := Listed(findings, Failing), Listed(findings, Pending);
    var clean, unpromoted := Listed(findings, Cleared), Listed(findings, Waiting);
    var audited := |failures| + |clean| + |unpromoted|;
    var resolved := FindingIds(failures) + FindingIds(clean) + FindingIds(unpromoted);
    var upper := if audited == 0 then None else
      Some(CriticalBound(design.lot, CriticalIds(failures), resolved, design.frame,
                         design.confidence, design.annual).Value());
    var issues := Issues(design.lot);
    Report(issues, failures, unresolved, clean, unpromoted, |members|, upper,
           if issues != [] || unresolved != [] then None
           else Some(audited > 0 && upper.value <= design.maxRate))
  }

  // ---- the program --------------------------------------------------------------------------

  method GroupHistory(results: seq<Entry>) returns (history: map<DocId, seq<Entry>>)
    ensures forall d :: (if d in history then history[d] else []) == EntriesOf(results, d)
  {
    history := map[];
    for i := 0 to |results|
      invariant forall d :: (if d in history then history[d] else []) == EntriesOf(results[..i], d)
    {
      var e := results[i];
      assert results[..i + 1][..i] == results[..i];
      var before := if e.docId in history then history[e.docId] else [];
      history := history[e.docId := before + [e]];
    }
    assert results[..|results|] == results;
  }

  lemma OneMoreMember(members: seq<LotItem>, item: LotItem)
    ensures Ids(members + [item]) == Ids(members) + {item.docId}
  {
    assert (members + [item])[..|members|] == members;
  }

  lemma EntryStep(lot: seq<LotItem>, i: nat)
    requires i < |lot|
    ensures var members, issues, d := Members(lot[..i]), EntryIssues(lot[..i]), lot[i].docId;
            && Members(lot[..i + 1]) == (if Blank(d) || d in Ids(members) then members else members + [lot[i]])
            && EntryIssues(lot[..i + 1])
               == (if Blank(d) then issues + [BlankId(i)] else if d in Ids(members) then issues + [Duplicate(d)] else issues)
  {
    assert lot[..i + 1][..i] == lot[..i];
  }

  method FreezePopulation(lot: seq<LotItem>) returns (members: seq<LotItem>, issues: seq<Issue>)
    ensures members == Members(lot) && issues == Issues(lot)
  {
    members, issues := [], [];
    var ids: set<DocId> := {};
    for i := 0 to |lot|
      invariant members == Members(lot[..i]) && issues == EntryIssues(lot[..i]) && ids == Ids(members)
    {
      EntryStep(lot, i);
      if Blank(lot[i].docId) {
        issues := issues + [BlankId(i)];
      } else if lot[i].docId in ids {
        issues := issues + [Duplicate(lot[i].docId)];
      } else {
        OneMoreMember(members, lot[i]);
        members := members + [lot[i]];
        ids := ids + {lot[i].docId};
      }
    }
    assert lot[..|lot|] == lot;
    if members == [] {
      issues := issues + [NoDocuments];
    }
  }

  method CollectIds(findings: seq<Finding>) returns (ids: set<DocId>, critical: set<DocId>)
    ensures ids == FindingIds(findings) && critical == CriticalIds(findings)
  {
    ids, critical := {}, {};
    for i := 0 to |findings|
      invariant ids == FindingIds(findings[..i]) && critical == CriticalIds(findings[..i])
    {
      assert findings[..i + 1][..i] == findings[..i];
      ids := ids + {findings[i].docId};
      if IsCritical(findings[i]) {
        critical := critical + {findings[i].docId};
      }
    }
    assert findings[..|findings|] == findings;
  }

  ghost predicate SortedInto(findings: seq<Finding>, failures: seq<Finding>, unresolved: seq<Finding>,
                             clean: seq<Finding>, unpromoted: seq<Finding>)
  {
    && failures == Listed(findings, Failing) && unresolved == Listed(findings, Pending)
    && clean == Listed(findings, Cleared) && unpromoted == Listed(findings, Waiting)
  }

  lemma SortOne(findings: seq<Finding>, f: Finding, failures: seq<Finding>, unresolved: seq<Finding>,
                clean: seq<Finding>, unpromoted: seq<Finding>)
    requires SortedInto(findings, failures, unresolved, clean, unpromoted)
    ensures SortedInto(findings + [f],
                       if f.place.Failed? then failures + [f] else failures,
                       if f.place.Unresolved? then unresolved + [f] else unresolved,
                       if f.place.Clean? then clean + [f] else clean,
                       if f.place.Unpromoted? then unpromoted + [f] else unpromoted)
  {
    assert (findings + [f])[..|findings|] == findings;
  }

  lemma FindingsGrow(members: seq<LotItem>, i: nat, history: seq<Entry>, ev: Evidence)
    requires i < |members|
    ensures Findings(members[..i + 1], history, ev)
         == Findings(members[..i], history, ev) + [Finding(members[i].docId, Place(members[i], history, ev))]
  {
    assert members[..i + 1][..i] == members[..i];
  }

  /** One pass over the population, appending each document to its list. */
  method ListPopulation(members: seq<LotItem>, results: seq<Entry>, ev: Evidence)
    returns (failures: seq<Finding>, unresolved: seq<Finding>, clean: seq<Finding>, unpromoted: seq<Finding>)
    ensures SortedInto(Findings(members, results, ev), failures, unresolved, clean, unpromoted)
  {
    failures, unresolved, clean, unpromoted := [], [], [], [];
    var history := GroupHistory(results);
    for i := 0 to |members|
      invariant SortedInto(Findings(members[..i], results, ev), failures, unresolved, clean, unpromoted)
    {
      var place := PlaceOne(history, members[i], results, ev);
      var f := Finding(members[i].docId, place);
      FindingsGrow(members, i, results, ev);
      SortOne(Findings(members[..i], results, ev), f, failures, unresolved, clean, unpromoted);
      match place {
        case Failed(_, _, _, _) => failures := failures + [f];
        case Unresolved(_) => unresolved := unresolved + [f];
        case Clean => clean := clean + [f];
        case Unpromoted => unpromoted := unpromoted + [f];
      }
    }
    assert members[..|members|] == members;
  }

  method PlaceOne(history: map<DocId, seq<Entry>>, item: LotItem, ghost results: seq<Entry>, ev: Evidence)
    returns (place: Placement)
    requires (if item.docId in history then history[item.docId] else []) == EntriesOf(results, item.docId)
    ensures place == Place(item, results, ev)
  {
    var entries := if item.docId in history then history[item.docId] else [];
    place := Classify(entries, item, ev);
  }

  method BuildReport(results: seq<Entry>, design: Design, ev: Evidence) returns (r: Report)
    requires YearsAscend(design.frame)
    ensures r == ReportOf(results, design, ev)
  {
    var members, issues := FreezePopulation(design.lot);
    var failures, unresolved, clean, unpromoted := ListPopulation(members, results, ev);
    var failedIds, critical := CollectIds(failures);
    var cleanIds, _ := CollectIds(clean);
    var waitingIds, _ := CollectIds(unpromoted);
    var audited := |failures| + |clean| + |unpromoted|;
    var upper: Option<real> := None;
    if audited > 0 {
      var bound := StratifiedCriticalUpperBound(design.lot, critical, failedIds + cleanIds + waitingIds,
                                                design.frame, design.confidence, design.annual);
      upper := Some(bound.Value());
    }
    var budgetMet: Option<bool> := None;
    if issues == [] && unresolved == [] {
      budgetMet := Some(audited > 0 && upper.value <= design.maxRate);
    }
    return Report(issues, failures, unresolved, clean, unpromoted, |members|, upper, budgetMet);
  }
}
