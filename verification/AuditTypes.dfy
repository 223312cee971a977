/** The values the audit workflow passes around. A SHA-256 digest is represented by the value
    it digests, which is what treating the hash as injective means. */
module AuditTypes {

  datatype Option<+T> = None | Some(value: T) {
    function GetOr(other: T): T {
      if None? then other else value
    }
  }

  function Min(a: nat, b: nat): nat {
    if a <= b then a else b
  }

  type DocId = string

  /** One normalized transaction row of a staged document. */
  type Row = seq<string>

  /** A staged record without its audit-mutable fields: everything the frozen hash covers.
      `recipe` stands for the artifact, prompt, model and attempt identity; `promotion` is the
      note a failed promotion leaves on the record, which the hash does cover. */
  datatype StableView = StableView(recipe: string, year: int, parseStatus: string, assetReview: bool, rows: seq<Row>,
                                   promotion: Option<string>)

  datatype Verdict = Pass | Fail
  datatype Severity = Critical | Cosmetic

  /** A live staged record: its stable view and the stamp an audit verdict leaves on it. */
  datatype Record = Record(stable: StableView, audit: Option<Verdict>, severity: Option<Severity>)

  /** One entry of the append-only verdict history. A verdict or severity that is absent or
      unrecognized is None; sha is None when no staged record existed. */
  datatype Entry = Entry(docId: DocId, verdict: Option<Verdict>, severity: Option<Severity>,
                         sha: Option<StableView>)

  datatype Group = Flagged | Unflagged
  datatype Stratum = Stratum(year: int, group: Group)

  /** One document of a frozen sample lot. */
  datatype LotItem = LotItem(docId: DocId, year: int, assetReview: bool, sha: Option<StableView>)
  {
    function Cell(): Stratum {
      Stratum(year, if assetReview then Flagged else Unflagged)
    }
  }

  /** The frozen population of one year, split by the asset-review flag. */
  datatype YearFrame = YearFrame(year: int, flagged: nat, unflagged: nat)

  /** A dictionary keyed by year, as its items in ascending year order. */
  ghost predicate YearsAscend(frame: seq<YearFrame>) {
    forall i, j :: 0 <= i < j < |frame| ==> frame[i].year < frame[j].year
  }

  lemma SubsetOfSameSize<T>(a: set<T>, b: set<T>)
    requires a <= b && |a| == |b|
    ensures a == b
  {
    assert b == a + (b - a);
  }
}
