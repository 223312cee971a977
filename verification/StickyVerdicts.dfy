/** What later history entries can and cannot change in a report: the lists partition the lot,
    fails stay, and exactly the fails with an explicit critical severity keep counting. */
module StickyVerdicts {
  import opened AuditTypes
  import opened StratifiedBound
  import opened AuditReport

  // ---- the lists partition the lot -----------------------------------------------------------

  lemma {:induction false} ListedExact(findings: seq<Finding>, kind: Kind, f: Finding)
    ensures f in Listed(findings, kind) <==> f in findings && kind.Takes(f.place)
  {
    if findings != [] {
      var last := |findings| - 1;
      ListedExact(findings[..last], kind, f);
      assert findings == findings[..last] + [findings[last]];
    }
  }

  lemma {:induction false} FindingIdsExact(findings: seq<Finding>, d: DocId)
    ensures d in FindingIds(findings) <==> exists f :: f in findings && f.docId == d
  {
    if findings != [] {
      var last := |findings| - 1;
      FindingIdsExact(findings[..last], d);
      assert findings == findings[..last] + [findings[last]];
    }
  }

  lemma {:induction false} FindingsExact(lot: seq<LotItem>, history: seq<Entry>, ev: Evidence)
    ensures |Findings(lot, history, ev)| == |lot|
    ensures forall i :: 0 <= i < |lot| ==>
              Findings(lot, history, ev)[i] == Finding(lot[i].docId, Place(lot[i], history, ev))
  {
    if lot != [] {
      FindingsExact(lot[..|lot| - 1], history, ev);
    }
  }

  lemma {:induction false} ListsCover(findings: seq<Finding>)
    ensures |Listed(findings, Failing)| + |Listed(findings, Pending)| + |Listed(findings, Cleared)|
          + |Listed(findings, Waiting)| == |findings|
  {
    if findings != [] {
      ListsCover(findings[..|findings| - 1]);
    }
  }

  function KindOf(p: Placement): Kind {
    match p
    case Failed(_, _, _, _) => Failing
    case Unresolved(_) => Pending
    case Clean => Cleared
    case Unpromoted => Waiting
  }

  function ListIn(r: Report, kind: Kind): seq<Finding> {
    match kind
    case Failing => r.failures
    case Pending => r.unresolved
    case Cleared => r.clean
    case Waiting => r.unpromoted
  }

  lemma ReportLists(history: seq<Entry>, design: Design, ev: Evidence, kind: Kind)
    ensures ListIn(ReportOf(history, design, ev), kind) == Listed(Findings(Members(design.lot), history, ev), kind)
  {
  }

  ghost predicate DistinctIds(findings: seq<Finding>) {
    forall i, j :: 0 <= i < j < |findings| ==> findings[i].docId != findings[j].docId
  }

  /** A document's list is the one its own placement names, and no other. */
  lemma ListedOnce(findings: seq<Finding>, kind: Kind, i: nat)
    requires i < |findings| && DistinctIds(findings)
    ensures findings[i].docId in FindingIds(Listed(findings, kind)) <==> kind.Takes(findings[i].place)
  {
    FindingIdsExact(Listed(findings, kind), findings[i].docId);
    ListedExact(findings, kind, findings[i]);
    if f :| f in Listed(findings, kind) && f.docId == findings[i].docId {
      ListedExact(findings, kind, f);
    }
  }

  /** Every document of a well-formed lot is in exactly one of the four lists, and the lists
      hold nothing else: their lengths add up to the lot. */
  lemma ListsPartitionLot(history: seq<Entry>, design: Design, ev: Evidence, i: nat, kind: Kind)
    requires WellFormed(design.lot) && i < |design.lot|
    ensures var r := ReportOf(history, design, ev);
            && (design.lot[i].docId in FindingIds(ListIn(r, kind))
                <==> kind == KindOf(Place(design.lot[i], history, ev)))
            && |r.failures| + |r.unresolved| + |r.clean| + |r.unpromoted| == |design.lot|
  {
    IssuesExact(design.lot);
    var findings := Findings(design.lot, history, ev);
    FindingsExact(design.lot, history, ev);
    ListedOnce(findings, kind, i);
    ListsCover(findings);
    ReportLists(history, design, ev, kind);
    ReportLists(history, design, ev, Failing);
    ReportLists(history, design, ev, Pending);
    ReportLists(history, design, ev, Cleared);
    ReportLists(history, design, ev, Waiting);
    TakesOne(Place(design.lot[i], history, ev), kind);
  }

  lemma TakesOne(p: Placement, kind: Kind)
    ensures kind.Takes(p) <==> kind == KindOf(p)
  {
  }

  // ---- the sets behind the bound -------------------------------------------------------------

  lemma AppendFinding(findings: seq<Finding>, f: Finding)
    ensures FindingIds(findings + [f]) == FindingIds(findings) + {f.docId}
    ensures CriticalIds(findings + [f]) == CriticalIds(findings) + if IsCritical(f) then {f.docId} else {}
  {
    assert (findings + [f])[..|findings|] == findings;
  }

  lemma {:induction false} CriticalListed(findings: seq<Finding>)
    ensures CriticalIds(Listed(findings, Failing)) == CriticalIds(findings)
  {
    if findings != [] {
      var last := |findings| - 1;
      CriticalListed(findings[..last]);
      AppendFinding(Listed(findings[..last], Failing), findings[last]);
    }
  }

  ghost predicate AllResolved(findings: seq<Finding>) {
    forall i :: 0 <= i < |findings| ==> !findings[i].place.Unresolved?
  }

  function ResolvedIds(findings: seq<Finding>): set<DocId> {
    FindingIds(Listed(findings, Failing)) + FindingIds(Listed(findings, Cleared))
      + FindingIds(Listed(findings, Waiting))
  }

  lemma {:induction false} ResolvedCover(findings: seq<Finding>)
    ensures Listed(findings, Pending) == [] <==> AllResolved(findings)
    ensures AllResolved(findings) ==> ResolvedIds(findings) == FindingIds(findings)
  {
    if findings != [] {
      var last := |findings| - 1;
      var rest, f := findings[..last], findings[last];
      ResolvedCover(rest);
      AppendFinding(Listed(rest, KindOf(f.place)), f);
      assert findings == rest + [f];
    }
  }

  lemma {:induction false} IdsOfFindings(lot: seq<LotItem>, history: seq<Entry>, ev: Evidence)
    ensures FindingIds(Findings(lot, history, ev)) == Ids(lot)
  {
    if lot != [] {
      var last := |lot| - 1;
      IdsOfFindings(lot[..last], history, ev);
      AppendFinding(Findings(lot[..last], history, ev), Finding(lot[last].docId, Place(lot[last], history, ev)));
    }
  }

  /** The lot's documents whose placement is a critical failure. */
  function CriticalNow(lot: seq<LotItem>, history: seq<Entry>, ev: Evidence): set<DocId> {
    CriticalIds(Findings(lot, history, ev))
  }

  lemma CriticalSnoc(lot: seq<LotItem>, history: seq<Entry>, ev: Evidence)
    requires lot != []
    ensures var item := lot[|lot| - 1];
            CriticalNow(lot, history, ev) == CriticalNow(lot[..|lot| - 1], history, ev)
              + if IsCritical(Finding(item.docId, Place(item, history, ev))) then {item.docId} else {}
  {
    var last := |lot| - 1;
    AppendFinding(Findings(lot[..last], history, ev), Finding(lot[last].docId, Place(lot[last], history, ev)));
  }

  lemma {:induction false} CriticalIdsExact(findings: seq<Finding>, d: DocId)
    ensures d in CriticalIds(findings)
       <==> exists f :: f in findings && f.docId == d && f.place.Failed? && f.place.severity.Critical?
  {
    if findings != [] {
      var last := |findings| - 1;
      CriticalIdsExact(findings[..last], d);
      assert findings == findings[..last] + [findings[last]];
    }
  }

  /** Those are the documents placed as failed with a critical severity. */
  lemma CriticalNowExact(lot: seq<LotItem>, history: seq<Entry>, ev: Evidence, d: DocId)
    ensures d in CriticalNow(lot, history, ev)
       <==> exists i :: 0 <= i < |lot| && lot[i].docId == d
                     && Place(lot[i], history, ev).Failed? && Place(lot[i], history, ev).severity.Critical?
  {
    var findings := Findings(lot, history, ev);
    CriticalIdsExact(findings, d);
    FindingsExact(lot, history, ev);
    if d in CriticalNow(lot, history, ev) {
      var f :| f in findings && f.docId == d && f.place.Failed? && f.place.severity.Critical?;
      var i :| 0 <= i < |findings| && findings[i] == f;
      assert lot[i].docId == d;
    }
    if i :| 0 <= i < |lot| && lot[i].docId == d
            && Place(lot[i], history, ev).Failed? && Place(lot[i], history, ev).severity.Critical? {
      assert findings[i] in findings;
    }
  }

  ghost predicate LotResolved(lot: seq<LotItem>, history: seq<Entry>, ev: Evidence) {
    forall i :: 0 <= i < |lot| ==> !Place(lot[i], history, ev).Unresolved?
  }

  lemma ListsOfLot(lot: seq<LotItem>, history: seq<Entry>, ev: Evidence)
    ensures var findings := Findings(lot, history, ev);
            && (Listed(findings, Pending) == [] <==> LotResolved(lot, history, ev))
            && (LotResolved(lot, history, ev) ==> ResolvedIds(findings) == Ids(lot))
            && CriticalIds(Listed(findings, Failing)) == CriticalNow(lot, history, ev)
            && |Listed(findings, Failing)| + |Listed(findings, Cleared)| + |Listed(findings, Waiting)|
                 == |lot| - |Listed(findings, Pending)|
  {
    var findings := Findings(lot, history, ev);
    FindingsExact(lot, history, ev);
    assert AllResolved(findings) <==> LotResolved(lot, history, ev);
    ResolvedCover(findings);
    CriticalListed(findings);
    ListsCover(findings);
    IdsOfFindings(lot, history, ev);
  }

  /** A report is complete exactly when its lot is well formed and every document resolves; its
      decision is then the acceptance bound of the lot with its critical failures. */
  lemma CompleteReport(history: seq<Entry>, design: Design, ev: Evidence)
    ensures var r := ReportOf(history, design, ev);
            && (r.Complete() <==> WellFormed(design.lot) && LotResolved(design.lot, history, ev))
            && (r.budgetMet.Some? <==> r.Complete())
            && (r.Complete() ==>
                  && r.Audited() == |design.lot|
                  && r.upper == Some(CriticalBound(design.lot, CriticalNow(design.lot, history, ev), Ids(design.lot),
                                                   design.frame, design.confidence, design.annual).Value())
                  && r.budgetMet == Some(r.upper.value <= design.maxRate))
  {
    var lot := design.lot;
    IssuesExact(lot);
    ListsOfLot(lot, history, ev);
  }

  lemma UnresolvedOutside(findings: seq<Finding>, i: nat)
    requires i < |findings| && DistinctIds(findings) && findings[i].place.Unresolved?
    ensures findings[i].docId !in ResolvedIds(findings)
  {
    ListedOnce(findings, Failing, i);
    ListedOnce(findings, Cleared, i);
    ListedOnce(findings, Waiting, i);
  }

  lemma ResolvedWithin(findings: seq<Finding>, d: DocId)
    requires d in ResolvedIds(findings)
    ensures d in FindingIds(findings)
  {
    forall kind: Kind | d in FindingIds(Listed(findings, kind))
      ensures d in FindingIds(findings)
    {
      FindingIdsExact(Listed(findings, kind), d);
      var f :| f in Listed(findings, kind) && f.docId == d;
      ListedExact(findings, kind, f);
      FindingIdsExact(findings, d);
    }
  }

  /** The fault of an incomplete report's evidence. */
  lemma IncompleteHasFault(history: seq<Entry>, design: Design, ev: Evidence) returns (f: Fault)
    requires !ReportOf(history, design, ev).Complete()
    ensures Present(f, design.lot, ResolvedIds(Findings(Members(design.lot), history, ev)), design.frame, design.annual)
  {
    var lot, members := design.lot, Members(design.lot);
    var findings := Findings(members, history, ev);
    CompleteReport(history, design, ev);
    if lot == [] {
      return EmptyLot;
    }
    if i, j :| 0 <= i < j < |lot| && lot[i].docId == lot[j].docId {
      return Twice(i, j);
    }
    f := OtherIds;
    if i :| 0 <= i < |lot| && Blank(lot[i].docId) {
      MembersExact(lot);
      IdsOfFindings(members, history, ev);
      if lot[i].docId in ResolvedIds(findings) {
        ResolvedWithin(findings, lot[i].docId);
      }
    } else {
      IssuesExact(lot);
      FindingsExact(lot, history, ev);
      var i :| 0 <= i < |lot| && Place(lot[i], history, ev).Unresolved?;
      UnresolvedOutside(findings, i);
    }
  }

  /** A report that is not complete, for whatever reason, decides nothing and states no bound below 1:
      documents that are not resolved, repeated or blank make the bound refuse. */
  lemma IncompleteReport(history: seq<Entry>, design: Design, ev: Evidence)
    ensures var r := ReportOf(history, design, ev);
            && (r.upper.None? <==> r.Audited() == 0)
            && (!r.Complete() ==> r.budgetMet.None? && (r.Audited() > 0 ==> r.upper == Some(1.0)))
  {
    var r := ReportOf(history, design, ev);
    if !r.Complete() && r.Audited() > 0 {
      var resolved := ResolvedIds(Findings(Members(design.lot), history, ev));
      var f := IncompleteHasFault(history, design, ev);
      RefusesExactly(design.lot, CriticalIds(r.failures), resolved, design.frame, design.confidence, design.annual);
    }
  }

  /** Every interim report: as long as some document of a well-formed lot is unresolved the stored bound
      is 1, however many others passed. */
  lemma InterimBoundIsOne(history: seq<Entry>, design: Design, ev: Evidence, i: nat, j: nat)
    requires WellFormed(design.lot) && i < |design.lot| && j < |design.lot|
    requires Place(design.lot[i], history, ev).Unresolved? && !Place(design.lot[j], history, ev).Unresolved?
    ensures ReportOf(history, design, ev).upper == Some(1.0)
  {
    CompleteReport(history, design, ev);
    IncompleteReport(history, design, ev);
    SomeAudited(history, design, ev, j);
  }

  lemma SomeAudited(history: seq<Entry>, design: Design, ev: Evidence, j: nat)
    requires WellFormed(design.lot) && j < |design.lot| && !Place(design.lot[j], history, ev).Unresolved?
    ensures ReportOf(history, design, ev).Audited() > 0
  {
    var kind := KindOf(Place(design.lot[j], history, ev));
    ListsPartitionLot(history, design, ev, j, kind);
    var findings := ListIn(ReportOf(history, design, ev), kind);
    assert findings != [];
  }

  // ---- appending entries -----------------------------------------------------------------------

  lemma {:induction false} EntriesAppend(history: seq<Entry>, more: seq<Entry>, d: DocId)
    ensures EntriesOf(history + more, d) == EntriesOf(history, d) + EntriesOf(more, d)
    decreases |more|
  {
    if more == [] {
      assert history + more == history;
    } else {
      var last := |more| - 1;
      assert (history + more)[..|history| + last] == history + more[..last];
      EntriesAppend(history, more[..last], d);
    }
  }

  lemma FailsAppend(a: seq<Entry>, b: seq<Entry>)
    ensures HasFail(a + b) <==> HasFail(a) || HasFail(b)
    ensures forall s :: HasFailOf(a + b, s) <==> HasFailOf(a, s) || HasFailOf(b, s)
  {
    var all := a + b;
    assert forall i :: 0 <= i < |a| ==> all[i] == a[i];
    assert forall i :: 0 <= i < |b| ==> all[|a| + i] == b[i];
    if HasFail(b) {
      var i :| 0 <= i < |b| && IsFail(b[i]);
      assert IsFail(all[|a| + i]);
    }
    if HasFail(a) {
      var i :| 0 <= i < |a| && IsFail(a[i]);
      assert IsFail(all[i]);
    }
    forall s
      ensures HasFailOf(all, s) <==> HasFailOf(a, s) || HasFailOf(b, s)
    {
      if HasFailOf(b, s) {
        var i :| 0 <= i < |b| && IsFail(b[i]) && b[i].severity == Some(s);
        assert IsFail(all[|a| + i]) && all[|a| + i].severity == Some(s);
      }
      if HasFailOf(a, s) {
        var i :| 0 <= i < |a| && IsFail(a[i]) && a[i].severity == Some(s);
        assert IsFail(all[i]) && all[i].severity == Some(s);
      }
    }
  }

  lemma SomeFail(entries: seq<Entry>, s: Severity)
    ensures HasFailOf(entries, s) ==> HasFail(entries)
  {
  }

  /** A document with a recorded fail stays failed, whatever is appended and whatever becomes of
      its record. */
  lemma FailIsSticky(item: LotItem, history: seq<Entry>, more: seq<Entry>, ev: Evidence, later: Evidence)
    requires HasFail(EntriesOf(history, item.docId))
    ensures Place(item, history, ev).Failed? && Place(item, history + more, later).Failed?
  {
    EntriesAppend(history, more, item.docId);
    FailsAppend(EntriesOf(history, item.docId), EntriesOf(more, item.docId));
  }

  ghost predicate AllPass(entries: seq<Entry>) {
    entries != [] && forall i :: 0 <= i < |entries| ==> entries[i].verdict == Some(Pass)
  }

  /** The document's live record is the frozen one. */
  predicate Frozen(item: LotItem, ev: Evidence) {
    item.docId in ev.live && item.sha == Some(ev.live[item.docId].stable)
  }

  /** The rows found against ground truth: None when it has no file for the document. */
  predicate RowsMatch(item: LotItem, ev: Evidence)
    requires item.docId in ev.live
  {
    ev.truth.Some? ==>
      item.docId in ev.truth.value && multiset(ev.truth.value[item.docId]) == multiset(ev.live[item.docId].stable.rows)
  }

  lemma NotAllPass(entries: seq<Entry>)
    requires !HasFail(entries) && entries != []
    ensures AllPass(entries) <==> !(exists i :: 0 <= i < |entries| && entries[i].verdict.None?)
  {
    forall i | 0 <= i < |entries|
      ensures entries[i].verdict == Some(Pass) <==> !entries[i].verdict.None?
    {
      assert !IsFail(entries[i]);
      if entries[i].verdict.Some? {
        match entries[i].verdict.value {
          case Pass =>
          case Fail =>
        }
      }
    }
  }

  /** A document passes exactly when it has verdicts, all of them pass, its record is the frozen
      one and its rows are the ground truth's, if any is asked for; it is clean exactly when it
      was promoted too. */
  lemma PassesExactly(item: LotItem, history: seq<Entry>, ev: Evidence)
    ensures var place := Place(item, history, ev);
            && (place.Clean? || place.Unpromoted?
                <==> AllPass(EntriesOf(history, item.docId)) && Frozen(item, ev) && RowsMatch(item, ev))
            && (place.Clean? ==> item.docId in ev.promoted) && (place.Unpromoted? ==> item.docId !in ev.promoted)
  {
    var entries := EntriesOf(history, item.docId);
    if HasFail(entries) {
      assert !AllPass(entries);
    } else if entries != [] {
      NotAllPass(entries);
    }
  }

  /** A document fails exactly when a fail is recorded, or all its verdicts pass on the frozen
      record and its rows differ from the ground truth. */
  lemma FailsExactly(item: LotItem, history: seq<Entry>, ev: Evidence)
    ensures Place(item, history, ev).Failed?
       <==> (HasFail(EntriesOf(history, item.docId))
             || (AllPass(EntriesOf(history, item.docId)) && Frozen(item, ev)
                 && ev.truth.Some? && item.docId in ev.truth.value && !RowsMatch(item, ev)))
  {
    var entries := EntriesOf(history, item.docId);
    if !HasFail(entries) && entries != [] {
      NotAllPass(entries);
    }
  }

  ghost predicate NoneFails(entries: seq<Entry>) {
    forall i :: 0 <= i < |entries| ==> entries[i].verdict != Some(Fail)
  }

  /** The document passed as far as its verdicts go. */
  ghost predicate Passed(item: LotItem, history: seq<Entry>) {
    AllPass(EntriesOf(history, item.docId))
  }

  /** Why a document is unresolved: no verdict; no fail and a verdict nobody can read; or all verdicts pass, and the
      record is gone, is not the frozen one, or has no ground truth where one is asked for. */
  lemma ReasonExactly(item: LotItem, history: seq<Entry>, ev: Evidence)
    ensures var entries, place, d := EntriesOf(history, item.docId), Place(item, history, ev), item.docId;
            && (place == Unresolved(NoVerdict) <==> entries == [])
            && (place == Unresolved(InvalidVerdict)
                <==> NoneFails(entries) && exists i :: 0 <= i < |entries| && entries[i].verdict == None)
            && (place == Unresolved(RecordMissing) <==> Passed(item, history) && d !in ev.live)
            && (place == Unresolved(RecordChanged)
                <==> Passed(item, history) && d in ev.live && item.sha != Some(ev.live[d].stable))
            && (place == Unresolved(NoGroundTruth)
                <==> (Passed(item, history) && d in ev.live && item.sha == Some(ev.live[d].stable)
                      && ev.truth.Some? && d !in ev.truth.value))
  {
    var entries := EntriesOf(history, item.docId);
    assert HasFail(entries) <==> !NoneFails(entries);
    if HasFail(entries) {
      assert !AllPass(entries);
    } else if entries != [] {
      NotAllPass(entries);
    }
  }

  ghost predicate FailsAs(entries: seq<Entry>, severity: Option<Severity>) {
    exists i :: 0 <= i < |entries| && entries[i].verdict == Some(Fail) && entries[i].severity == severity
  }

  /** What a recorded fail is reported as: critical if one says so or none says cosmetic, marked as an old record if no
      fail says anything, and as repaired if a pass comes after the last fail. */
  lemma FailReportedExactly(item: LotItem, history: seq<Entry>, ev: Evidence)
    requires HasFail(EntriesOf(history, item.docId))
    ensures var entries, place := EntriesOf(history, item.docId), Place(item, history, ev);
            && place.Failed? && place.why == VerdictFail
            && (place.severity == Critical <==> FailsAs(entries, Some(Critical)) || !FailsAs(entries, Some(Cosmetic)))
            && (place.legacy <==> !FailsAs(entries, Some(Critical)) && !FailsAs(entries, Some(Cosmetic)))
            && (place.repaired
                <==> exists i :: 0 <= i < |entries| && entries[i].verdict == Some(Pass)
                              && forall j :: i < j < |entries| ==> entries[j].verdict != Some(Fail))
  {
    var entries := EntriesOf(history, item.docId);
    assert forall s: Severity :: HasFailOf(entries, s) <==> FailsAs(entries, Some(s));
    if i :| 0 <= i < |entries| && entries[i].verdict == Some(Pass)
            && forall j :: i < j < |entries| ==> entries[j].verdict != Some(Fail) {
      assert forall j :: i <= j < |entries| ==> !IsFail(entries[j]);
    }
  }

  /** A finding against ground truth is critical and neither old nor repaired: an omission when the ground truth has
      a row more often than the record, otherwise an invention. */
  lemma FindingReportedExactly(item: LotItem, history: seq<Entry>, ev: Evidence)
    requires Place(item, history, ev).Failed? && !HasFail(EntriesOf(history, item.docId))
    ensures item.docId in ev.live && ev.truth.Some? && item.docId in ev.truth.value
    ensures var place := Place(item, history, ev);
            var truth, staged := multiset(ev.truth.value[item.docId]), multiset(ev.live[item.docId].stable.rows);
            && place.severity == Critical && !place.legacy && !place.repaired
            && place.why == (if exists row: Row :: truth[row] > staged[row] then Omission else Invention)
  {
  }

  /** An entry with no readable verdict keeps its document unresolved until a fail is recorded. */
  lemma UnreadableUntilFail(item: LotItem, history: seq<Entry>, more: seq<Entry>, ev: Evidence)
    requires exists i :: 0 <= i < |EntriesOf(history, item.docId)| && EntriesOf(history, item.docId)[i].verdict.None?
    ensures Place(item, history + more, ev).Unresolved? <==> !HasFail(EntriesOf(history + more, item.docId))
  {
    var entries := EntriesOf(history, item.docId);
    EntriesAppend(history, more, item.docId);
    var i :| 0 <= i < |entries| && entries[i].verdict.None?;
    assert (entries + EntriesOf(more, item.docId))[i].verdict.None?;
  }

  // ---- laundering ---------------------------------------------------------------------------

  ghost predicate StaysCritical(item: LotItem, history: seq<Entry>) {
    forall more: seq<Entry>, later: Evidence ::
      IsCritical(Finding(item.docId, Place(item, history + more, later)))
  }

  function CosmeticFail(d: DocId): Entry {
    Entry(d, Some(Fail), Some(Cosmetic), None)
  }

  lemma OneCosmetic(item: LotItem, history: seq<Entry>, ev: Evidence)
    ensures var place := Place(item, history + [CosmeticFail(item.docId)], ev);
            place.Failed? && (place.severity == Critical <==> HasFailOf(EntriesOf(history, item.docId), Critical))
  {
    var d := item.docId;
    var more := [CosmeticFail(d)];
    assert more[..0] == [];
    assert EntriesOf(more, d) == [CosmeticFail(d)];
    EntriesAppend(history, more, d);
    assert IsFail(EntriesOf(more, d)[0]) && EntriesOf(more, d)[0].severity == Some(Cosmetic);
    FailsAppend(EntriesOf(history, d), EntriesOf(more, d));
  }

  /** A document's critical failure is permanent exactly when one of its fails has an explicit
      critical severity: a fail without severity, and an omission or invention found against
      ground truth, are both turned cosmetic by one later cosmetic fail. */
  lemma PermanentExactly(item: LotItem, history: seq<Entry>)
    ensures StaysCritical(item, history) <==> HasFailOf(EntriesOf(history, item.docId), Critical)
  {
    var d := item.docId;
    if HasFailOf(EntriesOf(history, d), Critical) {
      forall more: seq<Entry>, later: Evidence
        ensures IsCritical(Finding(d, Place(item, history + more, later)))
      {
        EntriesAppend(history, more, d);
        FailsAppend(EntriesOf(history, d), EntriesOf(more, d));
        SomeFail(EntriesOf(history + more, d), Critical);
      }
    } else {
      var ev := Evidence(map[], None, {});
      OneCosmetic(item, history, ev);
      assert !IsCritical(Finding(d, Place(item, history + [CosmeticFail(d)], ev)));
    }
  }

  /** The lot's documents with an explicitly critical fail on record. */
  ghost function ExplicitCritical(lot: seq<LotItem>, history: seq<Entry>): set<DocId> {
    if lot == [] then {}
    else
      var last := |lot| - 1;
      ExplicitCritical(lot[..last], history)
        + if HasFailOf(EntriesOf(history, lot[last].docId), Critical) then {lot[last].docId} else {}
  }

  lemma {:induction false} ExplicitStays(lot: seq<LotItem>, history: seq<Entry>, more: seq<Entry>, later: Evidence)
    ensures ExplicitCritical(lot, history) <= CriticalNow(lot, history + more, later)
  {
    if lot != [] {
      var last := |lot| - 1;
      ExplicitStays(lot[..last], history, more, later);
      CriticalSnoc(lot, history + more, later);
      if HasFailOf(EntriesOf(history, lot[last].docId), Critical) {
        PermanentExactly(lot[last], history);
      }
    }
  }

  /** One cosmetic fail for every document of the lot. */
  function CosmeticSweep(lot: seq<LotItem>): seq<Entry> {
    if lot == [] then [] else CosmeticSweep(lot[..|lot| - 1]) + [CosmeticFail(lot[|lot| - 1].docId)]
  }

  lemma {:induction false} SweepEntries(lot: seq<LotItem>, d: DocId)
    ensures !HasFailOf(EntriesOf(CosmeticSweep(lot), d), Critical)
    ensures d in Ids(lot) <==> HasFailOf(EntriesOf(CosmeticSweep(lot), d), Cosmetic)
  {
    if lot != [] {
      var last := |lot| - 1;
      var before, more := CosmeticSweep(lot[..last]), [CosmeticFail(lot[last].docId)];
      SweepEntries(lot[..last], d);
      assert more[..0] == [];
      EntriesAppend(before, more, d);
      FailsAppend(EntriesOf(before, d), EntriesOf(more, d));
      if d == lot[last].docId {
        assert IsFail(EntriesOf(more, d)[0]) && EntriesOf(more, d)[0].severity == Some(Cosmetic);
      }
    }
  }

  lemma SweepPlaces(item: LotItem, lot: seq<LotItem>, history: seq<Entry>, ev: Evidence)
    requires item.docId in Ids(lot)
    ensures var place := Place(item, history + CosmeticSweep(lot), ev);
            place.Failed? && (place.severity == Critical <==> HasFailOf(EntriesOf(history, item.docId), Critical))
  {
    var d := item.docId;
    var sweep := CosmeticSweep(lot);
    SweepEntries(lot, d);
    EntriesAppend(history, sweep, d);
    FailsAppend(EntriesOf(history, d), EntriesOf(sweep, d));
    SomeFail(EntriesOf(sweep, d), Cosmetic);
  }

  lemma {:induction false} SweepLeavesExplicit(part: seq<LotItem>, lot: seq<LotItem>, history: seq<Entry>, ev: Evidence)
    requires Ids(part) <= Ids(lot)
    ensures CriticalNow(part, history + CosmeticSweep(lot), ev) == ExplicitCritical(part, history)
  {
    if part != [] {
      SweepLeavesExplicit(part[..|part| - 1], lot, history, ev);
      SweepPlaces(part[|part| - 1], lot, history, ev);
      CriticalSnoc(part, history + CosmeticSweep(lot), ev);
    }
  }

  lemma SweepResolves(lot: seq<LotItem>, history: seq<Entry>, ev: Evidence)
    ensures LotResolved(lot, history + CosmeticSweep(lot), ev)
  {
    forall i | 0 <= i < |lot|
      ensures !Place(lot[i], history + CosmeticSweep(lot), ev).Unresolved?
    {
      SweepPlaces(lot[i], lot, history, ev);
    }
  }

  ghost predicate Accepts(history: seq<Entry>, design: Design, ev: Evidence) {
    ReportOf(history, design, ev).budgetMet == Some(true)
  }

  /** The bound over the explicitly critical documents alone. */
  ghost function ExplicitBound(history: seq<Entry>, design: Design): real {
    CriticalBound(design.lot, ExplicitCritical(design.lot, history), Ids(design.lot), design.frame,
                  design.confidence, design.annual).Value()
  }

  lemma AcceptedAbove(history: seq<Entry>, more: seq<Entry>, design: Design, later: Evidence)
    requires Accepts(history + more, design, later)
    ensures ExplicitBound(history, design) <= design.maxRate
  {
    CompleteReport(history + more, design, later);
    ExplicitStays(design.lot, history, more, later);
    BoundMonotone(design.lot, ExplicitCritical(design.lot, history), CriticalNow(design.lot, history + more, later),
                  Ids(design.lot), design.frame, design.confidence, design.annual);
  }

  /** From any history over a well-formed lot some appended entries reach an accepting report
      exactly when the explicitly critical documents alone keep within the budget. */
  lemma AcceptanceReachableExactly(history: seq<Entry>, design: Design, ev: Evidence)
    requires WellFormed(design.lot)
    ensures (exists more: seq<Entry> :: Accepts(history + more, design, ev))
       <==> ExplicitBound(history, design) <= design.maxRate
  {
    if more: seq<Entry> :| Accepts(history + more, design, ev) {
      AcceptedAbove(history, more, design, ev);
    }
    if ExplicitBound(history, design) <= design.maxRate {
      var sweep := CosmeticSweep(design.lot);
      SweepLeavesExplicit(design.lot, design.lot, history, ev);
      SweepResolves(design.lot, history, ev);
      CompleteReport(history + sweep, design, ev);
      assert Accepts(history + sweep, design, ev);
    }
  }

  /** Every fail on record states its severity. */
  ghost predicate SeveritiesStated(history: seq<Entry>) {
    forall i :: 0 <= i < |history| && IsFail(history[i]) ==> history[i].severity.Some?
  }

  lemma {:induction false} EntriesFrom(history: seq<Entry>, d: DocId)
    ensures forall i :: 0 <= i < |EntriesOf(history, d)| ==> EntriesOf(history, d)[i] in history
  {
    if history != [] {
      EntriesFrom(history[..|history| - 1], d);
    }
  }

  lemma StatedCritical(history: seq<Entry>, d: DocId)
    requires SeveritiesStated(history) && HasFail(EntriesOf(history, d))
    ensures HasFailOf(EntriesOf(history, d), Critical) || HasFailOf(EntriesOf(history, d), Cosmetic)
  {
    EntriesFrom(history, d);
    var entries := EntriesOf(history, d);
    var i :| 0 <= i < |entries| && IsFail(entries[i]);
    match entries[i].severity.value {
      case Critical => assert HasFailOf(entries, Critical);
      case Cosmetic => assert HasFailOf(entries, Cosmetic);
    }
  }

  lemma CriticalIsExplicit(item: LotItem, history: seq<Entry>, ev: Evidence)
    requires SeveritiesStated(history) && ev.truth.None?
    ensures IsCritical(Finding(item.docId, Place(item, history, ev)))
       <==> HasFailOf(EntriesOf(history, item.docId), Critical)
  {
    if HasFail(EntriesOf(history, item.docId)) {
      StatedCritical(history, item.docId);
    }
    SomeFail(EntriesOf(history, item.docId), Critical);
  }

  lemma {:induction false} AllCriticalExplicit(lot: seq<LotItem>, history: seq<Entry>, ev: Evidence)
    requires SeveritiesStated(history) && ev.truth.None?
    ensures CriticalNow(lot, history, ev) == ExplicitCritical(lot, history)
  {
    if lot != [] {
      AllCriticalExplicit(lot[..|lot| - 1], history, ev);
      CriticalSnoc(lot, history, ev);
      CriticalIsExplicit(lot[|lot| - 1], history, ev);
    }
  }

  /** Without ground truth and with a severity on every fail, a missed budget is final: no
      appended entries, records or promotions make the same lot acceptable. */
  lemma NoLaundering(history: seq<Entry>, design: Design, ev: Evidence)
    requires SeveritiesStated(history) && ev.truth.None?
    requires ReportOf(history, design, ev).budgetMet == Some(false)
    ensures forall more: seq<Entry>, later: Evidence :: !Accepts(history + more, design, later)
  {
    CompleteReport(history, design, ev);
    AllCriticalExplicit(design.lot, history, ev);
    forall more: seq<Entry>, later: Evidence
      ensures !Accepts(history + more, design, later)
    {
      if Accepts(history + more, design, later) {
        AcceptedAbove(history, more, design, later);
      }
    }
  }

  // ---- the two ways to launder -----------------------------------------------------------------

  function OneDocument(d: DocId, sha: Option<StableView>): Design {
    Design([LotItem(d, 2015, false, sha)], [YearFrame(2015, 0, 1)], Some(map[2015 := 1]), 0.95, 0.01)
  }

  lemma OneDocumentSound(d: DocId, sha: Option<StableView>)
    ensures var design := OneDocument(d, sha);
            && DesignSound(design.lot, Ids(design.lot), design.frame, design.annual) && Ids(design.lot) == {d}
            && YearsAscend(design.frame) && Population(Cells(design.frame)) == 1
            && forall cell :: cell in Cells(design.frame) ==> Drawn(design.lot, cell.stratum) == cell.population
  {
    var design := OneDocument(d, sha);
    var lot, frame := design.lot, design.frame;
    assert lot[..0] == [] && frame[..0] == [];
    assert frame[0].year == 2015;
    var a, b := FrameCell(Stratum(2015, Flagged), 0), FrameCell(Stratum(2015, Unflagged), 1);
    assert Cells(frame) == [a, b] && [a, b][..1] == [a] && [a][..0] == [];
    assert Population([a]) == 0 && Population([a, b]) == 1;
    assert Drawn(lot, a.stratum) == 0 && Drawn(lot, b.stratum) == 1;
  }

  lemma OneDocumentBound(d: DocId, sha: Option<StableView>, critical: set<DocId>)
    requires critical <= {d}
    ensures var design := OneDocument(d, sha);
            CriticalBound(design.lot, critical, Ids(design.lot), design.frame, design.confidence, design.annual).Value()
              == if d in critical then 1.0 else 0.0
  {
    var lot := OneDocument(d, sha).lot;
    OneDocumentSound(d, sha);
    BoundRange(lot, critical, Ids(lot), OneDocument(d, sha).frame, 0.95, OneDocument(d, sha).annual);
    assert lot[..0] == [];
    assert CriticalCount(lot, critical) == if d in critical then 1 else 0;
  }

  /** The decision about the one-document census follows its document. */
  lemma OneDocumentReport(d: DocId, sha: Option<StableView>, history: seq<Entry>, ev: Evidence)
    requires !Blank(d)
    requires !Place(LotItem(d, 2015, false, sha), history, ev).Unresolved?
    ensures ReportOf(history, OneDocument(d, sha), ev).budgetMet
         == Some(!IsCritical(Finding(d, Place(LotItem(d, 2015, false, sha), history, ev))))
  {
    var lot := OneDocument(d, sha).lot;
    OneCritical(lot[0], history, ev);
    CompleteReport(history, OneDocument(d, sha), ev);
    OneDocumentBound(d, sha, CriticalNow(lot, history, ev));
  }

  lemma OneCritical(item: LotItem, history: seq<Entry>, ev: Evidence)
    ensures CriticalNow([item], history, ev)
         == if IsCritical(Finding(item.docId, Place(item, history, ev))) then {item.docId} else {}
  {
    CriticalSnoc([item], history, ev);
    assert [item][..0] == [];
    assert Findings([], history, ev) == [];
  }

  lemma OneEntry(e: Entry)
    ensures EntriesOf([e], e.docId) == [e]
  {
    assert [e][..0] == [];
  }

  /** A census lot of one document: a fail recorded without a severity misses the budget, and a
      later cosmetic fail alone makes the same lot acceptable. */
  lemma LegacyFailLaundered(d: DocId, ev: Evidence)
    requires !Blank(d)
    ensures var h := [Entry(d, Some(Fail), None, None)];
            && ReportOf(h, OneDocument(d, None), ev).budgetMet == Some(false)
            && Accepts(h + [CosmeticFail(d)], OneDocument(d, None), ev)
  {
    var h := [Entry(d, Some(Fail), None, None)];
    var item := LotItem(d, 2015, false, None);
    OneEntry(h[0]);
    assert IsFail(h[0]);
    OneCosmetic(item, h, ev);
    OneDocumentReport(d, None, h, ev);
    OneDocumentReport(d, None, h + [CosmeticFail(d)], ev);
  }

  function Reviewed(d: DocId, view: StableView, rows: seq<Row>): Evidence {
    Evidence(map[d := Record(view, Some(Pass), Some(Critical))], Some(map[d := rows]), {})
  }

  lemma PassWithOtherRows(d: DocId, view: StableView, rows: seq<Row>)
    requires multiset(rows) != multiset(view.rows)
    ensures var h := [Entry(d, Some(Pass), Some(Critical), Some(view))];
            IsCritical(Finding(d, Place(LotItem(d, 2015, false, Some(view)), h, Reviewed(d, view, rows))))
  {
    OneEntry(Entry(d, Some(Pass), Some(Critical), Some(view)));
  }

  /** The same with a passed document whose rows differ from the ground truth: the finding is
      critical until a cosmetic fail is recorded, after which the ground truth is not consulted. */
  lemma OmissionLaundered(d: DocId, view: StableView, rows: seq<Row>)
    requires !Blank(d) && multiset(rows) != multiset(view.rows)
    ensures var h := [Entry(d, Some(Pass), Some(Critical), Some(view))];
            && ReportOf(h, OneDocument(d, Some(view)), Reviewed(d, view, rows)).budgetMet == Some(false)
            && Accepts(h + [CosmeticFail(d)], OneDocument(d, Some(view)), Reviewed(d, view, rows))
  {
    var e := Entry(d, Some(Pass), Some(Critical), Some(view));
    PassWithOtherRows(d, view, rows);
    OneEntry(e);
    assert !HasFailOf([e], Critical);
    OneCosmetic(LotItem(d, 2015, false, Some(view)), [e], Reviewed(d, view, rows));
    OneDocumentReport(d, Some(view), [e], Reviewed(d, view, rows));
    OneDocumentReport(d, Some(view), [e] + [CosmeticFail(d)], Reviewed(d, view, rows));
  }
}
