/** What a frozen lot is in terms of the records that were live when it was drawn: who is in it, how many
    of each year and flag, and what its frame counts. */
module LotOfLive {
  import opened AuditTypes
  import opened StratifiedBound
  import opened PromotionGate
  import opened PromotionProtocol
  import opened PromotionSafety
  import Samples = Sampling

  /** The live documents of a year with a result to audit, by flag. */
  ghost function LiveIn(live: map<DocId, Record>, year: int, flagged: bool): set<DocId> {
    set d | d in live && live[d].stable.year == year && live[d].stable.parseStatus in {"success", "no_txs"}
         && live[d].stable.assetReview == flagged
  }

  /** The entry is that of a live document with a result, with its year, flag and content. */
  predicate WasLive(item: LotItem, live: map<DocId, Record>) {
    && item.docId in live && live[item.docId].stable.parseStatus in {"success", "no_txs"}
    && item == LotItem(item.docId, live[item.docId].stable.year, live[item.docId].stable.assetReview, Some(live[item.docId].stable))
  }

  /** The number of entries the quota gives a year: flagged documents first, the others as far as it reaches. */
  ghost predicate QuotaKept(lot: seq<LotItem>, live: map<DocId, Record>, quota: nat, year: int) {
    var flagged, others := |Places(lot, year, true)|, |Places(lot, year, false)|;
    && Samples.DrawsUpTo(flagged, quota, |LiveIn(live, year, true)|)
    && flagged <= quota && Samples.DrawsUpTo(others, quota - flagged, |LiveIn(live, year, false)|)
  }

  /** The frame lists the years of the live documents with a result, with their numbers. */
  ghost predicate FrameCounts(frame: seq<YearFrame>, live: map<DocId, Record>) {
    && YearsAscend(frame)
    && (forall k :: 0 <= k < |frame| ==>
          frame[k].flagged == |LiveIn(live, frame[k].year, true)| && frame[k].unflagged == |LiveIn(live, frame[k].year, false)|)
    && forall year, flagged, d :: d in LiveIn(live, year, flagged) ==> exists k :: 0 <= k < |frame| && frame[k].year == year
  }

  lemma ReadableIsLive(records: seq<Samples.Staged>, live: map<DocId, Record>, year: int)
    requires Lists(records, live)
    ensures Samples.Readable(records, year) == LiveIn(live, year, true) + LiveIn(live, year, false)
    ensures Samples.FlaggedIn(records, year) == LiveIn(live, year, true)
  {
    forall d
      ensures d in Samples.Readable(records, year) <==> d in LiveIn(live, year, true) || d in LiveIn(live, year, false)
      ensures d in Samples.FlaggedIn(records, year) <==> d in LiveIn(live, year, true)
    {
      Samples.SelectExact(records, Samples.FlaggedInYear(year), d);
      if d in live {
        var i :| 0 <= i < |records| && records[i].docId == d;
        assert records[i] == StagedOf(d, live[d]);
        assert Samples.FlaggedInYear(year).Keeps(records[i]) <==> d in LiveIn(live, year, true);
        assert Samples.ReadOut(records[i]) && records[i].year == year
               <==> d in LiveIn(live, year, true) || d in LiveIn(live, year, false);
      }
    }
  }

  lemma ItemWasLive(records: seq<Samples.Staged>, live: map<DocId, Record>, year: int, item: LotItem)
    requires Lists(records, live) && item.year == year
    requires Samples.TakenFrom(records, item) && item.docId in Samples.Readable(records, year)
    ensures WasLive(item, live)
  {
    var i :| 0 <= i < |records| && records[i].docId == item.docId
          && (forall j :: 0 <= j < i ==> records[j].docId != item.docId)
          && item.assetReview == records[i].assetReview && item.sha == Some(records[i].stable);
    assert records[i] == StagedOf(item.docId, live[item.docId]);
    ReadableIsLive(records, live, year);
  }

  lemma PartWasLive(records: seq<Samples.Staged>, live: map<DocId, Record>, quota: nat, year: int, part: seq<LotItem>, i: nat)
    requires Lists(records, live) && Samples.IsYearSample(records, quota, year, part) && i < |part|
    ensures WasLive(part[i], live)
  {
    Samples.YearSaysExactly(records, quota, year, part);
    assert part[i].docId in Samples.Readable(records, year);
    ItemWasLive(records, live, year, part[i]);
  }

  lemma {:induction false} JoinedFrom(parts: seq<seq<LotItem>>, i: nat) returns (j: nat, k: nat)
    requires i < |Samples.Joined(parts)|
    ensures j < |parts| && k < |parts[j]| && parts[j][k] == Samples.Joined(parts)[i]
    decreases |parts|
  {
    var last := |parts| - 1;
    var before := Samples.Joined(parts[..last]);
    if i < |before| {
      j, k := JoinedFrom(parts[..last], i);
    } else {
      j, k := last, i - |before|;
    }
  }

  lemma QuotaIsKept(records: seq<Samples.Staged>, live: map<DocId, Record>, quota: nat, parts: seq<seq<LotItem>>, year: int)
    requires Lists(records, live) && Samples.IsSample(records, quota, Samples.EligibleYears(records), parts)
    requires year in Samples.EligibleYears(records)
    ensures QuotaKept(Samples.Joined(parts), live, quota, year)
  {
    var years, lot := Samples.EligibleYears(records), Samples.Joined(parts);
    Samples.EligibleYearsExact(records, year);
    Samples.LotFillsQuotas(records, quota, years, parts, Stratum(year, Flagged));
    Samples.LotFillsQuotas(records, quota, years, parts, Stratum(year, Unflagged));
    DrawnIsPlaces(lot, year, true);
    DrawnIsPlaces(lot, year, false);
    LiveCounts(records, live, year);
  }

  lemma LiveCounts(records: seq<Samples.Staged>, live: map<DocId, Record>, year: int)
    requires Lists(records, live)
    ensures Samples.YearCount(records, year) == YearFrame(year, |LiveIn(live, year, true)|, |LiveIn(live, year, false)|)
  {
    ReadableIsLive(records, live, year);
    Samples.EligibleIsReadable(records, year);
    var all, flagged := Samples.EligibleIn(records, year), Samples.FlaggedIn(records, year);
    assert all - flagged == LiveIn(live, year, false);
  }

  lemma FrameIsCounted(records: seq<Samples.Staged>, live: map<DocId, Record>)
    requires Lists(records, live)
    ensures FrameCounts(Samples.FrameOf(records, Samples.EligibleYears(records)), live)
  {
    var years := Samples.EligibleYears(records);
    var frame := Samples.FrameOf(records, years);
    Samples.EligibleYearsExact(records, 0);
    Samples.FrameAscends(records, years);
    forall k | 0 <= k < |frame|
      ensures frame[k].flagged == |LiveIn(live, frame[k].year, true)| && frame[k].unflagged == |LiveIn(live, frame[k].year, false)|
    {
      LiveCounts(records, live, years[k]);
    }
    forall year, flagged, d | d in LiveIn(live, year, flagged)
      ensures exists k :: 0 <= k < |frame| && frame[k].year == year
    {
      YearIsListed(records, live, year, flagged, d);
    }
  }

  lemma YearIsListed(records: seq<Samples.Staged>, live: map<DocId, Record>, year: int, flagged: bool, d: DocId)
    requires Lists(records, live) && d in LiveIn(live, year, flagged)
    ensures var frame := Samples.FrameOf(records, Samples.EligibleYears(records));
            exists k :: 0 <= k < |frame| && frame[k].year == year
  {
    var years := Samples.EligibleYears(records);
    assert d in Samples.Readable(records, year) by { ReadableIsLive(records, live, year); }
    assert Samples.EligibleIn(records, year) == Samples.Readable(records, year) by { Samples.EligibleIsReadable(records, year); }
    Samples.EligibleYearsExact(records, year);
    var k :| 0 <= k < |years| && years[k] == year;
    assert Samples.FrameOf(records, years)[k].year == year;
  }

  ghost predicate AllQuotasKept(file: LotFile, live: map<DocId, Record>, quota: nat) {
    forall k :: 0 <= k < |file.frame| ==> QuotaKept(file.lot, live, quota, file.frame[k].year)
  }

  ghost predicate AllWereLive(lot: seq<LotItem>, live: map<DocId, Record>) {
    && (forall i :: 0 <= i < |lot| ==> WasLive(lot[i], live))
    && (forall i, j :: 0 <= i < j < |lot| ==> lot[i].docId != lot[j].docId)
  }

  predicate AnnualCounts(annual: Option<map<int, int>>, frame: seq<YearFrame>) {
    annual.Some? && forall k :: 0 <= k < |frame| && frame[k].flagged + frame[k].unflagged > 0 ==>
      frame[k].year in annual.value && annual.value[frame[k].year] == frame[k].flagged + frame[k].unflagged
  }

  /** What the sampler freezes: entries of different live documents with a result, with the content of that moment, at
      some quota as many of each year and flag as it allows, beside a frame that counts them all. */
  ghost predicate FrozenOf(file: LotFile, live: map<DocId, Record>) {
    && AllWereLive(file.lot, live) && FrameCounts(file.frame, live) && AnnualCounts(file.annual, file.frame)
    && exists quota: nat :: AllQuotasKept(file, live, quota)
  }

  lemma SampledWereLive(records: seq<Samples.Staged>, live: map<DocId, Record>, quota: nat, parts: seq<seq<LotItem>>)
    requires Lists(records, live) && Samples.IsSample(records, quota, Samples.EligibleYears(records), parts)
    ensures AllWereLive(Samples.Joined(parts), live)
  {
    var years, lot := Samples.EligibleYears(records), Samples.Joined(parts);
    forall i | 0 <= i < |lot|
      ensures WasLive(lot[i], live)
    {
      var j, k := JoinedFrom(parts, i);
      PartWasLive(records, live, quota, years[j], parts[j], k);
    }
    Samples.EligibleYearsExact(records, 0);
    Samples.LotFillsQuotas(records, quota, years, parts, Stratum(0, Flagged));
  }

  lemma SampledKeepsQuotas(file: LotFile, live: map<DocId, Record>, records: seq<Samples.Staged>, quota: nat,
                           parts: seq<seq<LotItem>>)
    requires SampleOf(file, live, records, quota, parts)
    ensures AllQuotasKept(file, live, quota)
  {
    var years := Samples.EligibleYears(records);
    forall k | 0 <= k < |file.frame|
      ensures QuotaKept(file.lot, live, quota, file.frame[k].year)
    {
      assert file.frame[k].year == years[k];
      QuotaIsKept(records, live, quota, parts, years[k]);
    }
  }

  lemma SampledIsFrozen(file: LotFile, live: map<DocId, Record>)
    requires SampledFrom(file, live)
    ensures FrozenOf(file, live)
  {
    var records: seq<Samples.Staged>, quota: nat, parts: seq<seq<LotItem>> :| SampleOf(file, live, records, quota, parts);
    SampledWereLive(records, live, quota, parts);
    FrameIsCounted(records, live);
    SampledKeepsQuotas(file, live, records, quota, parts);
  }

  /** Over every run, each lot on disk is frozen, in just that way, from all records of one moment. */
  lemma LotsAreOfLiveRecords(start: map<DocId, Record>, moves: seq<Move>, t: Sys, name: string)
    requires Reached(start, moves, t) && name in t.lots
    ensures exists k :: 0 <= k < |t.freezes| && FrozenOf(t.lots[name], t.freezes[k].live)
  {
    LotsAreSnapshots(start, moves, t, name);
    var k :| 0 <= k < |t.freezes| && t.freezes[k].file == t.lots[name] && SampledFrom(t.freezes[k].file, t.freezes[k].live);
    SampledIsFrozen(t.freezes[k].file, t.freezes[k].live);
  }
}
