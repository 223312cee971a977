/** The files of a staging root. Contents stand for bytes, and a digest for the content it
    digests. */
module StagingTypes {
  import opened AuditTypes

  /** One staged row with the identities the validator checks. */
  datatype StagedRow = StagedRow(docId: DocId, recordId: DocId, rowId: string, artifact: string, body: string)

  datatype DocStatus = Resolved | Unresolved | NoTransactions

  /** Why a document is unresolved: the reading of one page, or something else. */
  datatype Reason = Page(n: int, nothing: bool) | Marker | Malformed | OtherReason(text: string)

  /** The classification half of an envelope, which reclassification may rewrite. */
  datatype Meta = Meta(year: int, status: DocStatus, pageCount: Option<int>, covered: seq<int>, uncovered: seq<int>,
                       reasons: seq<Reason>, canary: Option<bool>, note: string)

  datatype Path =
    | ImmutableRows(docId: DocId, sha: Content)
    | LegacyRows(docId: DocId)
    | DocFile(docId: DocId)
    | Attempt(docId: DocId, sha: Content)

  /** The other half binds the envelope to its rows. */
  datatype Envelope = Envelope(docId: DocId, artifact: string, rowCount: int, rowsFile: Path, rowsSha: Content, meta: Meta)

  datatype Content = Rows(rows: seq<StagedRow>) | Env(env: Envelope) | Bytes(text: string)

  type Files = map<Path, Content>

  predicate Immutable(p: Path) {
    p.ImmutableRows? || p.Attempt?
  }

  predicate HasPrefix(s: string, prefix: string) {
    |prefix| <= |s| && s[..|prefix|] == prefix
  }

  /** A row names its document everywhere, and its row id starts with it. */
  predicate RowOwned(row: StagedRow, e: Envelope) {
    && row.docId == e.docId && row.recordId == e.docId && row.artifact == e.artifact
    && HasPrefix(row.rowId, e.docId + ":")
  }

  ghost predicate RowsBound(rows: seq<StagedRow>, e: Envelope) {
    && (forall i :: 0 <= i < |rows| ==> RowOwned(rows[i], e))
    && (forall i, j :: 0 <= i < j < |rows| ==> rows[i].rowId != rows[j].rowId)
  }

  predicate PathBound(e: Envelope) {
    e.rowsFile == LegacyRows(e.docId) || e.rowsFile == ImmutableRows(e.docId, e.rowsSha)
  }

  /** The envelope's rows file exists and matches it in path, digest, identity and count. */
  ghost predicate ValidPair(files: Files, e: Envelope) {
    && e.rowCount >= 0 && PathBound(e)
    && e.rowsFile in files && files[e.rowsFile] == e.rowsSha
    && e.rowsSha.Rows? && RowsBound(e.rowsSha.rows, e) && |e.rowsSha.rows| == e.rowCount
  }

  /** The validator, row by row. */
  method ValidateStagedPair(files: Files, e: Envelope) returns (ok: bool)
    ensures ok <==> ValidPair(files, e)
  {
    if e.rowCount < 0 || !PathBound(e) {
      return false;
    }
    if e.rowsFile !in files || files[e.rowsFile] != e.rowsSha || !e.rowsSha.Rows? {
      return false;
    }
    var rows := e.rowsSha.rows;
    var seen: set<string> := {};
    for i := 0 to |rows|
      invariant RowsBound(rows[..i], e)
      invariant forall s :: s in seen <==> exists k :: 0 <= k < i && rows[k].rowId == s
    {
      if !RowOwned(rows[i], e) || rows[i].rowId in seen {
        return false;
      }
      seen := seen + {rows[i].rowId};
    }
    assert rows[..|rows|] == rows;
    return |rows| == e.rowCount;
  }

  // ---- what a valid pair means ------------------------------------------------------------------

  /** The rows of a valid pair are the envelope's own: each names its document and artifact, is
      numbered under its document, and shares its row id with no other. */
  lemma PairIsOwned(files: Files, e: Envelope)
    requires ValidPair(files, e)
    ensures e.rowsFile in files && files[e.rowsFile] == e.rowsSha && e.rowsFile.docId == e.docId
    ensures e.rowsFile.LegacyRows? || (e.rowsFile.ImmutableRows? && e.rowsFile.sha == e.rowsSha)
    ensures e.rowsSha.Rows? && e.rowCount == |e.rowsSha.rows|
    ensures forall i :: 0 <= i < e.rowCount ==>
              var row := e.rowsSha.rows[i];
              && row.docId == e.docId && row.recordId == e.docId && row.artifact == e.artifact
              && |row.rowId| > |e.docId| && row.rowId[..|e.docId|] == e.docId && row.rowId[|e.docId|] == ':'
    ensures forall i, j :: 0 <= i < j < e.rowCount ==> e.rowsSha.rows[i].rowId != e.rowsSha.rows[j].rowId
  {
    forall i | 0 <= i < e.rowCount
      ensures var id := e.rowsSha.rows[i].rowId;
              |id| > |e.docId| && id[..|e.docId|] == e.docId && id[|e.docId|] == ':'
    {
      assert RowOwned(e.rowsSha.rows[i], e);
      var id, prefix := e.rowsSha.rows[i].rowId, e.docId + ":";
      assert id[|e.docId|] == id[..|prefix|][|e.docId|] == ':';
      assert id[..|e.docId|] == id[..|prefix|][..|e.docId|] == e.docId;
    }
  }

  /** A pair is lost with its rows file, and no other count, content, document or artifact fits. */
  lemma DamagedPairIsInvalid(files: Files, e: Envelope, other: Content)
    requires ValidPair(files, e)
    ensures !ValidPair(files - {e.rowsFile}, e)
    ensures ValidPair(files[e.rowsFile := other], e) ==> other == files[e.rowsFile]
    ensures forall n: int :: ValidPair(files, e.(rowCount := n)) ==> n == e.rowCount
    ensures forall d: DocId :: ValidPair(files, e.(docId := d)) ==> d == e.docId
    ensures e.rowCount > 0 ==> forall a: string :: ValidPair(files, e.(artifact := a)) ==> a == e.artifact
  {
    forall a: string | e.rowCount > 0 && ValidPair(files, e.(artifact := a))
      ensures a == e.artifact
    {
      assert RowOwned(e.rowsSha.rows[0], e) && RowOwned(e.rowsSha.rows[0], e.(artifact := a));
    }
  }

  /** Rows numbered under their document, under an envelope that digests them, make a valid pair at either
      of the two places they may be stored. */
  lemma OwnedPairIsValid(files: Files, e: Envelope)
    requires e.rowsSha.Rows? && e.rowCount == |e.rowsSha.rows|
    requires e.rowsFile in {LegacyRows(e.docId), ImmutableRows(e.docId, e.rowsSha)}
    requires e.rowsFile in files && files[e.rowsFile] == e.rowsSha
    requires forall i :: 0 <= i < e.rowCount ==>
               e.rowsSha.rows[i] == StagedRow(e.docId, e.docId, e.rowsSha.rows[i].rowId, e.artifact, e.rowsSha.rows[i].body)
    requires forall i :: 0 <= i < e.rowCount ==> exists rest: string :: e.rowsSha.rows[i].rowId == e.docId + ":" + rest
    requires forall i, j :: 0 <= i < j < e.rowCount ==> e.rowsSha.rows[i].rowId != e.rowsSha.rows[j].rowId
    ensures ValidPair(files, e)
  {
    forall i | 0 <= i < e.rowCount
      ensures RowOwned(e.rowsSha.rows[i], e)
    {
      var rest: string :| e.rowsSha.rows[i].rowId == e.docId + ":" + rest;
      assert (e.docId + ":" + rest)[..|e.docId| + 1] == e.docId + ":";
    }
  }
}
