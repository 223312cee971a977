/** Drawing and freezing a sample lot, and why the lot always fits the acceptance bound's
    frame. */
module Sampling {
  import opened AuditTypes
  import opened StratifiedBound

  /** One live staging record as the sampler reads it. */
  datatype Staged = Staged(year: int, docId: DocId, parseStatus: string, assetReview: bool, stable: StableView)
  {
    predicate Eligible() {
      parseStatus == "success" || parseStatus == "no_txs"
    }
  }

  ghost predicate UniqueIds(records: seq<Staged>) {
    forall i, j :: 0 <= i < j < |records| ==> records[i].docId != records[j].docId
  }

  // ---- what the sampler sees in one year --------------------------------------------

  /** The selections the sampler and the frame make. */
  datatype Query = InYear(year: int) | FlaggedInYear(year: int) | AnyFlagged {
    predicate Keeps(r: Staged) {
      match this
      case InYear(y) => r.year == y && r.Eligible()
      case FlaggedInYear(y) => r.year == y && r.Eligible() && r.assetReview
      case AnyFlagged => r.assetReview
    }
  }

  /** The documents whose record the query keeps. */
  function Select(records: seq<Staged>, q: Query): set<DocId> {
    if records == [] then {}
    else
      var last := |records| - 1;
      Select(records[..last], q) + if q.Keeps(records[last]) then {records[last].docId} else {}
  }

  predicate Keeps(records: seq<Staged>, q: Query, d: DocId) {
    exists i :: 0 <= i < |records| && records[i].docId == d && q.Keeps(records[i])
  }

  lemma {:induction false} SelectExact(records: seq<Staged>, q: Query, d: DocId)
    ensures d in Select(records, q) <==> Keeps(records, q, d)
  {
    if records != [] {
      var last := |records| - 1;
      SelectExact(records[..last], q, d);
      if Keeps(records[..last], q, d) {
        var i :| 0 <= i < last && records[..last][i].docId == d && q.Keeps(records[..last][i]);
        assert records[i].docId == d && q.Keeps(records[i]);
      }
      if Keeps(records, q, d) {
        var i :| 0 <= i < |records| && records[i].docId == d && q.Keeps(records[i]);
        if i < last {
          assert records[..last][i] == records[i];
        }
      }
    }
  }

  function EligibleIn(records: seq<Staged>, year: int): set<DocId> {
    Select(records, InYear(year))
  }

  /** The sampler's flagged set ranges over every record, eligible or not, of every year. */
  function FlaggedAnywhere(records: seq<Staged>): set<DocId> {
    Select(records, AnyFlagged)
  }

  /** The frame's flagged documents of one year. */
  function FlaggedIn(records: seq<Staged>, year: int): set<DocId> {
    Select(records, FlaggedInYear(year))
  }

  lemma {:induction false} FlaggedAreEligible(records: seq<Staged>, year: int)
    ensures FlaggedIn(records, year) <= EligibleIn(records, year)
  {
    if records != [] {
      FlaggedAreEligible(records[..|records| - 1], year);
    }
  }

  function FirstRecord(records: seq<Staged>, docId: DocId): (r: Option<Staged>)
    ensures r.None? <==> forall i :: 0 <= i < |records| ==> records[i].docId != docId
    ensures r.Some? ==> r.value in records && r.value.docId == docId
  {
    if records == [] then None
    else if records[0].docId == docId then Some(records[0])
    else FirstRecord(records[1..], docId)
  }

  /** The entry frozen for a sampled document is taken from its first record. */
  ghost predicate IsFrozen(records: seq<Staged>, item: LotItem, year: int) {
    var r := FirstRecord(records, item.docId);
    r.Some? && item == LotItem(item.docId, year, r.value.assetReview, Some(r.value.stable))
  }

  /** The choice the quota allows among a year's eligible documents: flagged ones first, then
      unflagged ones for the slots left over. */
  ghost predicate IsChoice(eligible: set<DocId>, flagged: set<DocId>, quota: nat, chosen: set<DocId>) {
    var taken := Min(quota, |eligible * flagged|);
    && chosen <= eligible
    && |chosen * flagged| == taken
    && |chosen - flagged| == Min(quota - taken, |eligible - flagged|)
  }

  ghost predicate AllFrozen(records: seq<Staged>, year: int, part: seq<LotItem>) {
    forall i :: 0 <= i < |part| ==> IsFrozen(records, part[i], year)
  }

  ghost predicate IsYearSample(records: seq<Staged>, quota: nat, year: int, part: seq<LotItem>) {
    && NoDuplicates(part)
    && AllFrozen(records, year, part)
    && IsChoice(EligibleIn(records, year), FlaggedAnywhere(records), quota, Ids(part))
  }

  /** What any run of the sampler may produce over the given years, whichever documents the
      random generator picks: one part per year. */
  ghost predicate IsSample(records: seq<Staged>, quota: nat, years: seq<int>, parts: seq<seq<LotItem>>) {
    && |parts| == |years|
    && forall i :: 0 <= i < |parts| ==> IsYearSample(records, quota, years[i], parts[i])
  }

  function Joined(parts: seq<seq<LotItem>>): seq<LotItem> {
    if parts == [] then [] else Joined(parts[..|parts| - 1]) + parts[|parts| - 1]
  }

  // ---- the program --------------------------------------------------------------------

  ghost predicate Ascending(years: seq<int>) {
    forall i, j :: 0 <= i < j < |years| ==> years[i] < years[j]
  }

  function Insert(years: seq<int>, y: int): seq<int> {
    if years == [] then [y]
    else if y < years[0] then [y] + years
    else if y == years[0] then years
    else [years[0]] + Insert(years[1..], y)
  }

  lemma {:induction false} InsertKeepsOrder(years: seq<int>, y: int)
    requires Ascending(years)
    ensures Ascending(Insert(years, y))
    ensures forall x :: x in Insert(years, y) <==> x in years || x == y
  {
    if years != [] {
      assert years == [years[0]] + years[1..];
      PrependYear(years[0], years[1..]);
      if y < years[0] {
        PrependYear(y, years);
      } else if y > years[0] {
        InsertKeepsOrder(years[1..], y);
        PrependYear(years[0], Insert(years[1..], y));
      }
    }
  }

  lemma PrependYear(y: int, years: seq<int>)
    ensures forall x :: x in [y] + years <==> x == y || x in years
    ensures Ascending([y] + years) <==> Ascending(years) && forall x :: x in years ==> y < x
  {
    var all := [y] + years;
    assert forall i :: 1 <= i < |all| ==> all[i] == years[i - 1] && all[i] in years;
    if Ascending(all) {
      assert forall i :: 0 <= i < |years| ==> years[i] == all[i + 1];
      forall i, j | 0 <= i < j < |years|
        ensures years[i] < years[j]
      {
        assert all[i + 1] < all[j + 1];
      }
      forall x | x in years
        ensures y < x
      {
        var i :| 0 <= i < |years| && years[i] == x;
        assert all[0] < all[i + 1];
      }
    }
  }

  /** The years that hold an eligible document, in ascending order. */
  function EligibleYears(records: seq<Staged>): seq<int> {
    if records == [] then []
    else
      var last := |records| - 1;
      var before := EligibleYears(records[..last]);
      if records[last].Eligible() then Insert(before, records[last].year) else before
  }

  lemma {:induction false} EligibleYearsExact(records: seq<Staged>, y: int)
    ensures Ascending(EligibleYears(records))
    ensures y in EligibleYears(records) <==> EligibleIn(records, y) != {}
  {
    if records != [] {
      var last := |records| - 1;
      EligibleYearsExact(records[..last], y);
      InsertKeepsOrder(EligibleYears(records[..last]), records[last].year);
    }
  }

  method SortedEligibleYears(records: seq<Staged>) returns (years: seq<int>)
    ensures years == EligibleYears(records) && Ascending(years)
  {
    years := [];
    for i := 0 to |records|
      invariant years == EligibleYears(records[..i])
    {
      assert records[..i + 1][..i] == records[..i];
      if records[i].Eligible() {
        years := Insert(years, records[i].year);
      }
    }
    assert records[..|records|] == records;
    EligibleYearsExact(records, 0);
  }

  /** The random generator's sample(pool, k): k distinct members, which ones is left open. */
  method RngSample(pool: set<DocId>, k: nat) returns (chosen: set<DocId>)
    requires k <= |pool|
    ensures chosen <= pool && |chosen| == k
  {
    chosen := {};
    var rest := pool;
    while |chosen| < k
      invariant chosen <= pool && rest == pool - chosen && |chosen| <= k
    {
      assert |rest| == |pool| - |chosen|;
      var d :| d in rest;
      chosen := chosen + {d};
      rest := rest - {d};
    }
  }

  /** Flagged documents first, all of them when they fit the quota; the slots left over go to
      unflagged documents. */
  method ChooseYear(eligible: set<DocId>, flagged: set<DocId>, quota: nat) returns (chosen: set<DocId>)
    ensures IsChoice(eligible, flagged, quota, chosen)
  {
    var flagHere, plain := eligible * flagged, eligible - flagged;
    var first: set<DocId> := {};
    if |flagHere| > 0 {
      first := RngSample(flagHere, Min(quota, |flagHere|));
    }
    var slots := quota - |first|;
    var more: set<DocId> := {};
    if slots > 0 && |plain| > 0 {
      more := RngSample(plain, Min(slots, |plain|));
    }
    chosen := first + more;
    JoinGroups(eligible, flagged, first, more);
  }

  lemma JoinGroups(eligible: set<DocId>, flagged: set<DocId>, first: set<DocId>, more: set<DocId>)
    requires first <= eligible * flagged && more <= eligible - flagged
    ensures first + more <= eligible
    ensures (first + more) * flagged == first && (first + more) - flagged == more
  {
  }

  /** Freezes one year's choice, one entry per chosen document. */
  method FreezeYear(records: seq<Staged>, year: int, chosen: set<DocId>) returns (part: seq<LotItem>)
    requires forall d :: d in chosen ==> FirstRecord(records, d).Some?
    ensures Ids(part) == chosen && NoDuplicates(part) && AllFrozen(records, year, part)
  {
    part := [];
    var rest := chosen;
    while |rest| > 0
      invariant FrozenSoFar(records, year, chosen, rest, part)
      decreases |rest|
    {
      var d :| d in rest;
      var r := FirstRecord(records, d);
      var item := LotItem(d, year, r.value.assetReview, Some(r.value.stable));
      FreezeOne(records, year, chosen, rest, part, item);
      part := part + [item];
      rest := rest - {d};
    }
    assert rest == {};
  }

  ghost predicate FrozenSoFar(records: seq<Staged>, year: int, chosen: set<DocId>, rest: set<DocId>, part: seq<LotItem>) {
    rest <= chosen && Ids(part) == chosen - rest && NoDuplicates(part) && AllFrozen(records, year, part)
  }

  lemma FreezeOne(records: seq<Staged>, year: int, chosen: set<DocId>, rest: set<DocId>, part: seq<LotItem>, item: LotItem)
    requires FrozenSoFar(records, year, chosen, rest, part)
    requires item.docId in rest && IsFrozen(records, item, year)
    ensures FrozenSoFar(records, year, chosen, rest - {item.docId}, part + [item])
  {
    OneMoreItem(part, item, []);
  }

  lemma EligibleHaveRecords(records: seq<Staged>, year: int, chosen: set<DocId>)
    requires chosen <= EligibleIn(records, year)
    ensures forall d :: d in chosen ==> FirstRecord(records, d).Some?
  {
    forall d | d in chosen
      ensures FirstRecord(records, d).Some?
    {
      SelectExact(records, InYear(year), d);
    }
  }

  lemma AddPart(records: seq<Staged>, quota: nat, years: seq<int>, i: nat, parts: seq<seq<LotItem>>, part: seq<LotItem>)
    requires i < |years| && IsSample(records, quota, years[..i], parts)
    requires IsYearSample(records, quota, years[i], part)
    ensures IsSample(records, quota, years[..i + 1], parts + [part])
    ensures Joined(parts + [part]) == Joined(parts) + part
  {
    assert (parts + [part])[..i] == parts;
  }

  /** The sampler and the freezer together. */
  method BuildLot(records: seq<Staged>, quota: nat) returns (lot: seq<LotItem>)
    ensures exists parts :: IsSample(records, quota, EligibleYears(records), parts) && lot == Joined(parts)
  {
    ghost var parts: seq<seq<LotItem>> := [];
    lot := [];
    var years := SortedEligibleYears(records);
    for i := 0 to |years|
      invariant IsSample(records, quota, years[..i], parts) && lot == Joined(parts)
    {
      var chosen := ChooseYear(EligibleIn(records, years[i]), FlaggedAnywhere(records), quota);
      EligibleHaveRecords(records, years[i], chosen);
      var part := FreezeYear(records, years[i], chosen);
      AddPart(records, quota, years, i, parts, part);
      lot, parts := lot + part, parts + [part];
    }
    assert years[..|years|] == years;
  }

  /** How many distinct eligible documents a year holds, by flag. */
  function YearCount(records: seq<Staged>, year: int): YearFrame {
    var flagged := FlaggedIn(records, year);
    YearFrame(year, |flagged|, |EligibleIn(records, year) - flagged|)
  }

  lemma YearTotal(records: seq<Staged>, year: int)
    ensures YearCount(records, year).flagged + YearCount(records, year).unflagged == |EligibleIn(records, year)|
  {
    var all, flagged := EligibleIn(records, year), FlaggedIn(records, year);
    FlaggedAreEligible(records, year);
    assert all == flagged + (all - flagged);
  }

  /** The frozen frame of the given years. */
  function FrameOf(records: seq<Staged>, years: seq<int>): seq<YearFrame> {
    seq(|years|, i requires 0 <= i < |years| => YearCount(records, years[i]))
  }

  /** Every distinct eligible document is counted once, in its year and in its group. */
  method DesignFrame(records: seq<Staged>) returns (annual: map<int, int>, frame: seq<YearFrame>)
    ensures frame == FrameOf(records, EligibleYears(records))
    ensures AnnualAgrees(Some(annual), frame)
  {
    annual, frame := map[], [];
    var years := SortedEligibleYears(records);
    for i := 0 to |years|
      invariant FrameSoFar(records, years[..i], annual, frame)
    {
      FrameStep(records, years, i, annual, frame);
      annual := annual[years[i] := |EligibleIn(records, years[i])|];
      frame := frame + [YearCount(records, years[i])];
    }
    assert years[..|years|] == years;
    AnnualIsExact(annual, frame);
  }

  ghost predicate FrameSoFar(records: seq<Staged>, years: seq<int>, annual: map<int, int>, frame: seq<YearFrame>) {
    frame == FrameOf(records, years) && AnnualOf(annual, frame)
  }

  lemma FrameStep(records: seq<Staged>, years: seq<int>, i: nat, annual: map<int, int>, frame: seq<YearFrame>)
    requires Ascending(years) && i < |years| && FrameSoFar(records, years[..i], annual, frame)
    ensures FrameSoFar(records, years[..i + 1], annual[years[i] := |EligibleIn(records, years[i])|],
                       frame + [YearCount(records, years[i])])
  {
    FrameGrows(records, years, i);
    YearTotal(records, years[i]);
    AnnualGrows(annual, frame, YearCount(records, years[i]));
  }

  lemma FrameGrows(records: seq<Staged>, years: seq<int>, i: nat)
    requires i < |years|
    ensures FrameOf(records, years[..i + 1]) == FrameOf(records, years[..i]) + [YearCount(records, years[i])]
  {
    var now, next := years[..i], years[..i + 1];
    assert next[i] == years[i] && forall k :: 0 <= k < i ==> next[k] == now[k];
  }

  lemma AnnualIsExact(annual: map<int, int>, frame: seq<YearFrame>)
    requires AnnualOf(annual, frame)
    ensures AnnualAgrees(Some(annual), frame)
  {
    forall y | y in annual
      ensures InFrame(Stratum(y, Flagged), frame)
    {
      var k :| 0 <= k < |frame| && frame[k].year == y;
    }
  }

  ghost predicate AnnualOf(annual: map<int, int>, frame: seq<YearFrame>) {
    && (forall k :: 0 <= k < |frame| ==>
          frame[k].year in annual && annual[frame[k].year] == frame[k].flagged + frame[k].unflagged)
    && (forall y :: y in annual ==> exists k :: 0 <= k < |frame| && frame[k].year == y)
  }

  lemma AnnualGrows(annual: map<int, int>, frame: seq<YearFrame>, last: YearFrame)
    requires AnnualOf(annual, frame) && forall k :: 0 <= k < |frame| ==> frame[k].year != last.year
    ensures AnnualOf(annual[last.year := last.flagged + last.unflagged], frame + [last])
  {
    var more, all := annual[last.year := last.flagged + last.unflagged], frame + [last];
    forall y | y in more
      ensures exists k :: 0 <= k < |all| && all[k].year == y
    {
      if y == last.year {
        assert all[|frame|].year == y;
      } else {
        var k :| 0 <= k < |frame| && frame[k].year == y;
        assert all[k].year == y;
      }
    }
  }

  // ---- what a lot is, by the records -------------------------------------------------

  /** The record was read to a result: a transaction report, or one without transactions. */
  predicate ReadOut(r: Staged) {
    r.parseStatus in {"success", "no_txs"}
  }

  /** The documents with such a record in the year. */
  ghost function Readable(records: seq<Staged>, year: int): set<DocId> {
    set i | 0 <= i < |records| && records[i].year == year && ReadOut(records[i]) :: records[i].docId
  }

  /** The documents flagged by any record. */
  ghost function Marked(records: seq<Staged>): set<DocId> {
    set i | 0 <= i < |records| && records[i].assetReview :: records[i].docId
  }

  /** The entry names the document's year, and its first record's flag and content. */
  ghost predicate TakenFrom(records: seq<Staged>, item: LotItem) {
    exists i :: 0 <= i < |records| && records[i].docId == item.docId
             && (forall j :: 0 <= j < i ==> records[j].docId != item.docId)
             && item.assetReview == records[i].assetReview && item.sha == Some(records[i].stable)
  }

  /** The number drawn is the quota, or all there are when they are fewer. */
  predicate DrawsUpTo(drawn: nat, quota: nat, available: nat) {
    if available <= quota then drawn == available else drawn == quota
  }

  /** A year's part of a lot: different documents of the year, flagged ones up to the quota, others up to what it
      leaves. */
  ghost predicate YearSays(records: seq<Staged>, quota: nat, year: int, part: seq<LotItem>) {
    var ids := set i | 0 <= i < |part| :: part[i].docId;
    var all, flagged := Readable(records, year), Marked(records);
    && AllTaken(records, year, part)
    && (forall i, j :: 0 <= i < j < |part| ==> part[i].docId != part[j].docId)
    && FlaggedFirst(ids, all, flagged, quota)
  }

  ghost predicate AllTaken(records: seq<Staged>, year: int, part: seq<LotItem>) {
    forall i :: 0 <= i < |part| ==> part[i].year == year && TakenFrom(records, part[i])
  }

  ghost predicate FlaggedFirst(ids: set<DocId>, all: set<DocId>, flagged: set<DocId>, quota: nat) {
    && ids <= all
    && DrawsUpTo(|ids * flagged|, quota, |all * flagged|)
    && |ids * flagged| <= quota && DrawsUpTo(|ids - flagged|, quota - |ids * flagged|, |all - flagged|)
  }

  lemma ChoiceIsFlaggedFirst(ids: set<DocId>, all: set<DocId>, flagged: set<DocId>, quota: nat)
    ensures IsChoice(all, flagged, quota, ids) <==> FlaggedFirst(ids, all, flagged, quota)
  {
  }

  lemma AllFrozenIsTaken(records: seq<Staged>, year: int, part: seq<LotItem>)
    ensures AllFrozen(records, year, part) <==> AllTaken(records, year, part)
  {
    forall i | 0 <= i < |part|
      ensures IsFrozen(records, part[i], year) <==> part[i].year == year && TakenFrom(records, part[i])
    {
      FrozenIsTaken(records, part[i], year);
    }
  }

  lemma EligibleIsReadable(records: seq<Staged>, year: int)
    ensures EligibleIn(records, year) == Readable(records, year) && FlaggedAnywhere(records) == Marked(records)
  {
    forall d
      ensures d in EligibleIn(records, year) <==> d in Readable(records, year)
      ensures d in FlaggedAnywhere(records) <==> d in Marked(records)
    {
      SelectExact(records, InYear(year), d);
      SelectExact(records, AnyFlagged, d);
      if Keeps(records, InYear(year), d) {
        var i :| 0 <= i < |records| && records[i].docId == d && InYear(year).Keeps(records[i]);
        assert ReadOut(records[i]);
      }
      if d in Readable(records, year) {
        var i :| 0 <= i < |records| && records[i].year == year && ReadOut(records[i]) && records[i].docId == d;
        assert InYear(year).Keeps(records[i]);
      }
      if d in Marked(records) {
        var i :| 0 <= i < |records| && records[i].assetReview && records[i].docId == d;
        assert AnyFlagged.Keeps(records[i]);
      }
    }
  }

  lemma {:induction false} FirstIsFirst(records: seq<Staged>, d: DocId)
    requires FirstRecord(records, d).Some?
    ensures exists i :: 0 <= i < |records| && records[i] == FirstRecord(records, d).value
                     && forall j :: 0 <= j < i ==> records[j].docId != d
  {
    if records[0].docId != d {
      FirstIsFirst(records[1..], d);
      var i :| 0 <= i < |records| - 1 && records[1..][i] == FirstRecord(records[1..], d).value
            && forall j :: 0 <= j < i ==> records[1..][j].docId != d;
      assert records[i + 1] == records[1..][i];
      forall j | 0 <= j < i + 1
        ensures records[j].docId != d
      {
        if j > 0 {
          assert records[j] == records[1..][j - 1];
        }
      }
    }
  }

  lemma {:induction false} IdsByPlace(lot: seq<LotItem>)
    ensures Ids(lot) == set i | 0 <= i < |lot| :: lot[i].docId
  {
    forall d
      ensures d in Ids(lot) <==> exists i :: 0 <= i < |lot| && lot[i].docId == d
    {
      if d in Ids(lot) {
        IdsFrom(lot, d);
      }
    }
  }

  /** What the sampler may draw in a year, said by the records: any records, any quota, any random choice. */
  lemma YearSaysExactly(records: seq<Staged>, quota: nat, year: int, part: seq<LotItem>)
    ensures IsYearSample(records, quota, year, part) <==> YearSays(records, quota, year, part)
  {
    EligibleIsReadable(records, year);
    IdsByPlace(part);
    AllFrozenIsTaken(records, year, part);
    ChoiceIsFlaggedFirst(Ids(part), EligibleIn(records, year), FlaggedAnywhere(records), quota);
  }

  lemma FrozenIsTaken(records: seq<Staged>, item: LotItem, year: int)
    ensures IsFrozen(records, item, year) <==> item.year == year && TakenFrom(records, item)
  {
    var first := FirstRecord(records, item.docId);
    if first.Some? {
      FirstIsFirst(records, item.docId);
      var k :| 0 <= k < |records| && records[k] == first.value && forall j :: 0 <= j < k ==> records[j].docId != item.docId;
      if TakenFrom(records, item) {
        var i :| 0 <= i < |records| && records[i].docId == item.docId
              && (forall j :: 0 <= j < i ==> records[j].docId != item.docId)
              && item.assetReview == records[i].assetReview && item.sha == Some(records[i].stable);
        assert i == k;
      }
    }
  }

  /** The documents with such a record in the year that is flagged. */
  ghost function ReadableFlagged(records: seq<Staged>, year: int): set<DocId> {
    set i | 0 <= i < |records| && records[i].year == year && ReadOut(records[i]) && records[i].assetReview :: records[i].docId
  }

  lemma FlaggedIsReadable(records: seq<Staged>, year: int)
    ensures FlaggedIn(records, year) == ReadableFlagged(records, year)
  {
    forall d
      ensures d in FlaggedIn(records, year) <==> d in ReadableFlagged(records, year)
    {
      SelectExact(records, FlaggedInYear(year), d);
      if Keeps(records, FlaggedInYear(year), d) {
        var i :| 0 <= i < |records| && records[i].docId == d && FlaggedInYear(year).Keeps(records[i]);
        assert ReadOut(records[i]);
      }
      if d in ReadableFlagged(records, year) {
        var i :| 0 <= i < |records| && records[i].year == year && ReadOut(records[i]) && records[i].assetReview && records[i].docId == d;
        assert FlaggedInYear(year).Keeps(records[i]);
      }
    }
  }

  /** The years of a lot are those with a document to draw, and its frame counts each year's documents by flag. */
  lemma FrameSays(records: seq<Staged>, k: nat)
    requires k < |EligibleYears(records)|
    ensures var year, count := EligibleYears(records)[k], FrameOf(records, EligibleYears(records))[k];
            && count.year == year && Readable(records, year) != {}
            && count.flagged + count.unflagged == |Readable(records, year)|
            && count.flagged == |ReadableFlagged(records, year)|
  {
    var year := EligibleYears(records)[k];
    EligibleYearsExact(records, year);
    EligibleIsReadable(records, year);
    YearTotal(records, year);
    FlaggedIsReadable(records, year);
  }

  // ---- the lot fits the frame -------------------------------------------------------

  ghost predicate FlagsMatch(part: seq<LotItem>, year: int, flagged: set<DocId>) {
    forall i :: 0 <= i < |part| ==>
      part[i].year == year && (part[i].assetReview <==> part[i].docId in flagged)
  }

  function InGroup(ids: set<DocId>, flagged: set<DocId>, group: Group): set<DocId> {
    if group.Flagged? then ids * flagged else ids - flagged
  }

  lemma OneMoreId(ids: set<DocId>, d: DocId, flagged: set<DocId>, group: Group)
    requires d !in ids
    ensures |InGroup(ids + {d}, flagged, group)|
         == |InGroup(ids, flagged, group)| + if group.Flagged? <==> d in flagged then 1 else 0
  {
    if group.Flagged? <==> d in flagged {
      assert InGroup(ids + {d}, flagged, group) == InGroup(ids, flagged, group) + {d};
    } else {
      assert InGroup(ids + {d}, flagged, group) == InGroup(ids, flagged, group);
    }
  }

  /** Counting the entries of a duplicate-free year is counting its documents. */
  lemma {:induction false} DrawnInYear(part: seq<LotItem>, year: int, flagged: set<DocId>, cell: Stratum)
    requires NoDuplicates(part) && FlagsMatch(part, year, flagged)
    ensures Drawn(part, cell) == if cell.year != year then 0 else |InGroup(Ids(part), flagged, cell.group)|
  {
    if part == [] {
      assert InGroup(Ids(part), flagged, cell.group) == {};
    } else {
      var last := |part| - 1;
      var item, rest := part[last], part[..last];
      assert part == rest + [item];
      OneMoreItem(rest, item, []);
      DrawnInYear(rest, year, flagged, cell);
      OneMoreId(Ids(rest), item.docId, flagged, cell.group);
      assert item.Cell() == cell <==> cell.year == year && (cell.group.Flagged? <==> item.docId in flagged);
    }
  }

  lemma {:induction false} DrawnAppend(a: seq<LotItem>, b: seq<LotItem>, cell: Stratum)
    ensures Drawn(a + b, cell) == Drawn(a, cell) + Drawn(b, cell)
    decreases |b|
  {
    if b == [] {
      assert a + b == a;
    } else {
      var last := |b| - 1;
      assert (a + b)[..|a| + last] == a + b[..last];
      DrawnAppend(a, b[..last], cell);
    }
  }

  /** With unique document ids the flag frozen with a document is the flag it was drawn under. */
  lemma FrozenFlag(records: seq<Staged>, item: LotItem, year: int)
    requires UniqueIds(records) && IsFrozen(records, item, year)
    ensures item.assetReview <==> item.docId in FlaggedAnywhere(records)
  {
    var r := FirstRecord(records, item.docId).value;
    var j :| 0 <= j < |records| && records[j] == r;
    SelectExact(records, AnyFlagged, item.docId);
    if r.assetReview {
      assert records[j].docId == item.docId && AnyFlagged.Keeps(records[j]);
    }
  }

  lemma FlaggedHere(records: seq<Staged>, year: int)
    requires UniqueIds(records)
    ensures EligibleIn(records, year) * FlaggedAnywhere(records) == FlaggedIn(records, year)
    ensures EligibleIn(records, year) - FlaggedAnywhere(records)
         == EligibleIn(records, year) - FlaggedIn(records, year)
  {
    forall d
      ensures d in FlaggedIn(records, year) <==> d in EligibleIn(records, year) && d in FlaggedAnywhere(records)
    {
      SelectExact(records, FlaggedInYear(year), d);
      SelectExact(records, InYear(year), d);
      SelectExact(records, AnyFlagged, d);
      if Keeps(records, InYear(year), d) && Keeps(records, AnyFlagged, d) {
        var i :| 0 <= i < |records| && records[i].docId == d && InYear(year).Keeps(records[i]);
        var j :| 0 <= j < |records| && records[j].docId == d && AnyFlagged.Keeps(records[j]);
        assert i == j && FlaggedInYear(year).Keeps(records[i]);
      }
    }
  }

  /** What the quota gives a cell: min(q, F) flagged and min(q - flagged, P) unflagged documents. */
  function Quota(records: seq<Staged>, quota: nat, cell: Stratum): nat {
    var count := YearCount(records, cell.year);
    if cell.group.Flagged? then Min(quota, count.flagged)
    else Min(quota - Min(quota, count.flagged), count.unflagged)
  }

  lemma YearDraws(records: seq<Staged>, quota: nat, year: int, part: seq<LotItem>, cell: Stratum)
    requires UniqueIds(records) && IsYearSample(records, quota, year, part)
    ensures Drawn(part, cell) == if cell.year != year then 0 else Quota(records, quota, cell)
    ensures DrawnFrom(records, [year], part)
  {
    var flagged := FlaggedAnywhere(records);
    forall i | 0 <= i < |part|
      ensures part[i].year == year && (part[i].assetReview <==> part[i].docId in flagged)
      ensures part[i].docId in EligibleIn(records, year)
    {
      assert IsFrozen(records, part[i], year);
      FrozenFlag(records, part[i], year);
      assert part[i].docId in Ids(part);
    }
    DrawnInYear(part, year, flagged, cell);
    FlaggedHere(records, year);
  }

  lemma YearsDisjoint(records: seq<Staged>, y: int, z: int, d: DocId)
    requires UniqueIds(records) && d in EligibleIn(records, y) && d in EligibleIn(records, z)
    ensures y == z
  {
    SelectExact(records, InYear(y), d);
    SelectExact(records, InYear(z), d);
  }

  ghost predicate DrawnFrom(records: seq<Staged>, years: seq<int>, lot: seq<LotItem>) {
    forall i :: 0 <= i < |lot| ==> lot[i].year in years && lot[i].docId in EligibleIn(records, lot[i].year)
  }

  /** No duplicates, every entry eligible in its year, and the cell holds exactly its quota. */
  ghost predicate FillsQuota(records: seq<Staged>, quota: nat, years: seq<int>, lot: seq<LotItem>, cell: Stratum) {
    && NoDuplicates(lot) && DrawnFrom(records, years, lot)
    && Drawn(lot, cell) == if cell.year in years then Quota(records, quota, cell) else 0
  }

  lemma {:induction false} LotFillsQuotas(records: seq<Staged>, quota: nat, years: seq<int>, parts: seq<seq<LotItem>>,
                                          cell: Stratum)
    requires UniqueIds(records) && Ascending(years) && IsSample(records, quota, years, parts)
    ensures FillsQuota(records, quota, years, Joined(parts), cell)
    decreases |years|
  {
    if years != [] {
      var last := |years| - 1;
      LotFillsQuotas(records, quota, years[..last], parts[..last], cell);
      AddYear(records, quota, years, Joined(parts[..last]), parts[last], cell);
    }
  }

  lemma AddYear(records: seq<Staged>, quota: nat, years: seq<int>, before: seq<LotItem>, part: seq<LotItem>,
                cell: Stratum)
    requires UniqueIds(records) && Ascending(years) && years != []
    requires FillsQuota(records, quota, years[..|years| - 1], before, cell)
    requires IsYearSample(records, quota, years[|years| - 1], part)
    ensures FillsQuota(records, quota, years, before + part, cell)
  {
    YearDraws(records, quota, years[|years| - 1], part, cell);
    JoinYears(records, years, before, part);
    DrawnAppend(before, part, cell);
    LastYear(years, cell.year);
  }

  lemma LastYear(years: seq<int>, y: int)
    requires Ascending(years) && years != []
    ensures var last := |years| - 1;
            && (y in years <==> y in years[..last] || y == years[last])
            && (y == years[last] ==> y !in years[..last])
  {
  }

  lemma JoinYears(records: seq<Staged>, years: seq<int>, a: seq<LotItem>, b: seq<LotItem>)
    requires UniqueIds(records) && Ascending(years) && years != []
    requires NoDuplicates(a) && DrawnFrom(records, years[..|years| - 1], a)
    requires NoDuplicates(b) && DrawnFrom(records, [years[|years| - 1]], b)
    ensures NoDuplicates(a + b) && DrawnFrom(records, years, a + b)
  {
    forall i, j | 0 <= i < |a| && 0 <= j < |b|
      ensures a[i].docId != b[j].docId
    {
      assert a[i].year in years[..|years| - 1];
      assert b[j].year in [years[|years| - 1]];
      LastYear(years, b[j].year);
      if a[i].docId == b[j].docId {
        YearsDisjoint(records, a[i].year, b[j].year, a[i].docId);
      }
    }
    forall i | 0 <= i < |a + b|
      ensures (a + b)[i].year in years && (a + b)[i].docId in EligibleIn(records, (a + b)[i].year)
    {
      assert (a + b)[i] == if i < |a| then a[i] else b[i - |a|];
      LastYear(years, (a + b)[i].year);
    }
  }

  lemma YearsInFrame(records: seq<Staged>, years: seq<int>, lot: seq<LotItem>)
    requires Ascending(years) && DrawnFrom(records, years, lot)
    ensures AllInFrame(lot, FrameOf(records, years))
  {
    var frame := FrameOf(records, years);
    forall i | 0 <= i < |lot|
      ensures InFrame(lot[i].Cell(), frame)
    {
      var j :| 0 <= j < |years| && years[j] == lot[i].year;
      assert frame[j].year == lot[i].Cell().year;
    }
  }

  /** For any population with unique document ids, any quota and any random choices, the
      frozen lot and frame pass every check of the acceptance bound once all its documents
      are resolved; only an empty lot fails closed. */
  lemma LotFitsFrame(records: seq<Staged>, quota: nat, parts: seq<seq<LotItem>>, annual: Option<map<int, int>>)
    requires UniqueIds(records) && IsSample(records, quota, EligibleYears(records), parts)
    requires AnnualAgrees(annual, FrameOf(records, EligibleYears(records)))
    ensures var lot, frame := Joined(parts), FrameOf(records, EligibleYears(records));
            && YearsAscend(frame)
            && (DesignSound(lot, Ids(lot), frame, annual) <==> lot != [])
  {
    var years := EligibleYears(records);
    EligibleYearsExact(records, 0);
    FrameAscends(records, years);
    LotFillsQuotas(records, quota, years, parts, Stratum(0, Flagged));
    YearsInFrame(records, years, Joined(parts));
    CellsHoldDraws(records, quota, years, parts);
    if Joined(parts) != [] {
      DrawsGiveSoundDesign(Joined(parts), FrameOf(records, years), annual);
    }
  }

  lemma FrameAscends(records: seq<Staged>, years: seq<int>)
    requires Ascending(years)
    ensures YearsAscend(FrameOf(records, years))
  {
  }

  lemma DrawsGiveSoundDesign(lot: seq<LotItem>, frame: seq<YearFrame>, annual: Option<map<int, int>>)
    requires lot != [] && NoDuplicates(lot) && YearsAscend(frame)
    requires AnnualAgrees(annual, frame) && AllInFrame(lot, frame)
    requires forall cell :: cell in Cells(frame) ==> Drawn(lot, cell.stratum) <= cell.population
    ensures DesignSound(lot, Ids(lot), frame, annual)
  {
    CellsPartitionLot(frame, lot, {});
    DrawnWithin(Cells(frame), lot);
    assert InFrame(lot[0].Cell(), frame);
  }

  lemma {:induction false} DrawnWithin(cells: seq<FrameCell>, lot: seq<LotItem>)
    requires forall cell :: cell in cells ==> Drawn(lot, cell.stratum) <= cell.population
    ensures DrawnTotal(cells, lot) <= Population(cells)
  {
    if cells != [] {
      DrawnWithin(cells[..|cells| - 1], lot);
    }
  }

  lemma {:induction false} CellOfFrame(frame: seq<YearFrame>, cell: FrameCell)
    requires cell in Cells(frame)
    ensures exists i :: 0 <= i < |frame|
              && cell == FrameCell(Stratum(frame[i].year, cell.stratum.group),
                                   if cell.stratum.group.Flagged? then frame[i].flagged else frame[i].unflagged)
  {
    var last := |frame| - 1;
    if cell in Cells(frame[..last]) {
      CellOfFrame(frame[..last], cell);
      var i :| 0 <= i < last
              && cell == FrameCell(Stratum(frame[..last][i].year, cell.stratum.group),
                                   if cell.stratum.group.Flagged? then frame[..last][i].flagged else frame[..last][i].unflagged);
      assert frame[..last][i] == frame[i];
    } else {
      assert cell == FrameCell(Stratum(frame[last].year, cell.stratum.group),
                               if cell.stratum.group.Flagged? then frame[last].flagged else frame[last].unflagged);
    }
  }

  lemma CellsHoldDraws(records: seq<Staged>, quota: nat, years: seq<int>, parts: seq<seq<LotItem>>)
    requires UniqueIds(records) && Ascending(years) && IsSample(records, quota, years, parts)
    ensures forall cell :: cell in Cells(FrameOf(records, years)) ==> Drawn(Joined(parts), cell.stratum) <= cell.population
  {
    forall cell | cell in Cells(FrameOf(records, years))
      ensures Drawn(Joined(parts), cell.stratum) <= cell.population
    {
      LotFillsQuotas(records, quota, years, parts, cell.stratum);
      QuotaFitsCell(records, quota, years, cell);
    }
  }

  lemma QuotaFitsCell(records: seq<Staged>, quota: nat, years: seq<int>, cell: FrameCell)
    requires cell in Cells(FrameOf(records, years))
    ensures Quota(records, quota, cell.stratum) <= cell.population
  {
    var frame := FrameOf(records, years);
    CellOfFrame(frame, cell);
    var i :| 0 <= i < |frame|
            && cell == FrameCell(Stratum(frame[i].year, cell.stratum.group),
                                 if cell.stratum.group.Flagged? then frame[i].flagged else frame[i].unflagged);
    assert frame[i] == YearCount(records, years[i]);
  }

  lemma PairSelected(r: Staged, s: Staged, q: Query)
    ensures Select([r, s], q) == (if q.Keeps(r) then {r.docId} else {}) + (if q.Keeps(s) then {s.docId} else {})
  {
    assert [r, s][..1] == [r] && [r][..0] == [];
    assert Select([r], q) == if q.Keeps(r) then {r.docId} else {};
  }
}
