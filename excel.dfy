/**
 * The spreadsheet importer: turns the data rows of the first worksheet into
 * `ReferenceNote` records, skipping rows that have neither a title nor a note
 * id, and reports what it did in a `ParseResult`.
 *
 * The workbook reader is not modelled: a file arrives either unreadable or as
 * its worksheets, each already turned into rows mapping header names to cells.
 * Record ids and import timestamps come from the caller as functions of the
 * row index.
 */
module Excel {
  import opened Wrappers
  import opened Text
  import opened Types

  /** A cell value as the row reader hands it over; `Missing` stands for `undefined` and `null`. */
  datatype Cell = Missing | Str(s: string) | Num(n: int) | Bool(b: bool)

  /** One data row: header name to cell. */
  type Row = map<string, Cell>

  /** The uploaded file: unreadable, or its worksheets in order. */
  datatype SpreadsheetFile = Corrupt | Workbook(sheets: seq<seq<Row>>)

  /** The diagnostics the importer produces (the model keeps their kind and row number, not their wording). */
  datatype ImportError =
    | Unreadable
    | NoWorksheet
    | NoData
    | MissingColumns(names: seq<string>)
    | RowSkipped(rowNumber: nat)

  datatype ParseResult = ParseResult(
    success: bool,
    notes: seq<ReferenceNote>,
    errors: seq<ImportError>,
    totalRows: nat,
    parsedRows: nat)

  const NoteIdHeader := "笔记ID"
  const NoteLinkHeader := "笔记链接"
  const NoteTypeHeader := "笔记类型"
  const TitleHeader := "笔记标题"
  const ContentHeader := "笔记内容"
  const LikesHeader := "点赞量"
  const FavoritesHeader := "收藏量"
  const CommentsHeader := "评论量"
  const SharesHeader := "分享量"
  const PublishedAtHeader := "发布时间"
  const AuthorIdHeader := "博主ID"
  const AuthorLinkHeader := "博主链接"
  const AuthorNameHeader := "博主昵称"
  const ImageCountHeader := "图片数量"
  const CoverUrlHeader := "笔记封面链接"

  /** The note type given to rows whose type cell is empty. */
  const DefaultNoteType := "图文"

  /** `row[header]`: a header the row does not have reads as `undefined`. */
  function CellAt(row: Row, header: string): Cell {
    if header in row then row[header] else Missing
  }

  // ---------------------------------------------------------------------------
  // Cell coercion

  /** What JavaScript's `Number(value)` gives for a cell, restricted to integers. */
  datatype NumberValue = NaN | Finite(value: int)

  function ToNumber(c: Cell): NumberValue {
    match c
    case Missing => NaN
    case Num(n) => Finite(n)
    case Bool(b) => Finite(if b then 1 else 0)
    case Str(s) =>
      var t := Trim(s);
      if t == [] then Finite(0)
      else match ParseInteger(t)
        case Some(v) => Finite(v)
        case None => NaN
  }

  /** `parseNumber`: 0 for a missing or empty cell and for anything `Number` cannot read, else its number. */
  function ParseNumber(c: Cell): (r: int)
    ensures c == Missing || c == Str("") || ToNumber(c) == NaN ==> r == 0
    ensures c != Missing && ToNumber(c).Finite? ==> r == ToNumber(c).value
  {
    if c == Missing || c == Str("") then 0
    else match ToNumber(c)
      case NaN => 0
      case Finite(v) => v
  }

  /** A number written into a cell, with any white space around it, is read back unchanged. */
  lemma ParseNumberReadsBack(n: int, pre: string, post: string)
    requires AllSpace(pre) && AllSpace(post)
    ensures ParseNumber(Str(pre + IntToString(n) + post)) == n
    ensures ParseNumber(Num(n)) == n
  {
    TrimPadded(pre, IntToString(n), post);
    IntToStringRoundTrip(n);
    ParseNumberOfInteger(pre + IntToString(n) + post, n);
  }

  /** A cell whose trimmed text reads as an integer is parsed as that integer. */
  lemma ParseNumberOfInteger(s: string, n: int)
    requires Trim(s) != [] && ParseInteger(Trim(s)) == Some(n)
    ensures ParseNumber(Str(s)) == n
  {
  }

  /** A cell that is not a number, e.g. the text "abc", counts as 0. */
  lemma ParseNumberNonNumeric(s: string)
    requires Trim(s) != [] && ParseInteger(Trim(s)) == None
    ensures ParseNumber(Str(s)) == 0
  {
  }

  /** `String(value)` for a present cell. */
  function CellString(c: Cell): string
    requires c != Missing
  {
    match c
    case Str(s) => s
    case Num(n) => IntToString(n)
    case Bool(b) => if b then "true" else "false"
  }

  /** `parseString`: `''` for a missing cell, else its string form trimmed; never padded with white space. */
  function ParseString(c: Cell): (r: string)
    ensures Trimmed(r)
    ensures c == Missing ==> r == []
    ensures c.Str? ==> r == Trim(c.s)
    ensures c.Num? ==> r == IntToString(c.n)
    ensures c.Bool? ==> r == (if c.b then "true" else "false")
  {
    if c == Missing then []
    else if c.Str? then Trim(CellString(c))
    else CellStringTrimmed(c); TrimmedIsFixpoint(CellString(c)); Trim(CellString(c))
  }

  /** A number's or a boolean's string form has no white space to trim. */
  lemma CellStringTrimmed(c: Cell)
    requires c.Num? || c.Bool?
    ensures Trimmed(CellString(c))
  {
  }

  /** A cell holds something once trimmed: it is present and, if text, not all white space. */
  predicate HasContent(c: Cell) {
    c != Missing && !(c.Str? && AllSpace(c.s))
  }

  /** `parseString` gives `''` exactly for missing and blank cells. */
  lemma ParseStringEmptyIff(c: Cell)
    ensures ParseString(c) == [] <==> !HasContent(c)
  {
  }

  // ---------------------------------------------------------------------------
  // One row

  /** The note built from one row (before the title and note-id test), with the given id and timestamp. */
  function BuildNote(row: Row, id: string, now: string): (r: ReferenceNote)
    ensures r.id == id && r.createdAt == now
    ensures r.title == Some(ParseString(CellAt(row, TitleHeader)))
    ensures r.noteId == ParseString(CellAt(row, NoteIdHeader))
    ensures r.noteType != [] && Trimmed(r.noteType)
    ensures r.noteType == DefaultNoteType <==> ParseString(CellAt(row, NoteTypeHeader)) in {[], DefaultNoteType}
    ensures ParseString(CellAt(row, NoteTypeHeader)) != [] ==> r.noteType == ParseString(CellAt(row, NoteTypeHeader))
    ensures ParseString(CellAt(row, NoteTypeHeader)) == [] ==> r.noteType == DefaultNoteType
    ensures r.noteLink == ParseString(CellAt(row, NoteLinkHeader))
    ensures r.content == Some(ParseString(CellAt(row, ContentHeader)))
    ensures r.likes == Some(ParseNumber(CellAt(row, LikesHeader)))
    ensures r.favorites == Some(ParseNumber(CellAt(row, FavoritesHeader)))
    ensures r.comments == Some(ParseNumber(CellAt(row, CommentsHeader)))
    ensures r.shares == ParseNumber(CellAt(row, SharesHeader))
    ensures r.publishedAt == Some(ParseString(CellAt(row, PublishedAtHeader)))
    ensures r.authorId == Some(ParseString(CellAt(row, AuthorIdHeader)))
    ensures r.authorLink == ParseString(CellAt(row, AuthorLinkHeader))
    ensures r.authorName == Some(ParseString(CellAt(row, AuthorNameHeader)))
    ensures r.imageCount == ParseNumber(CellAt(row, ImageCountHeader))
    ensures r.coverUrl == ParseString(CellAt(row, CoverUrlHeader))
  {
    var noteType := ParseString(CellAt(row, NoteTypeHeader));
    ReferenceNote(
      id := id,
      noteId := ParseString(CellAt(row, NoteIdHeader)),
      noteLink := ParseString(CellAt(row, NoteLinkHeader)),
      noteType := if noteType != [] then noteType else DefaultNoteType,
      title := Some(ParseString(CellAt(row, TitleHeader))),
      content := Some(ParseString(CellAt(row, ContentHeader))),
      likes := Some(ParseNumber(CellAt(row, LikesHeader))),
      favorites := Some(ParseNumber(CellAt(row, FavoritesHeader))),
      comments := Some(ParseNumber(CellAt(row, CommentsHeader))),
      shares := ParseNumber(CellAt(row, SharesHeader)),
      publishedAt := Some(ParseString(CellAt(row, PublishedAtHeader))),
      authorId := Some(ParseString(CellAt(row, AuthorIdHeader))),
      authorLink := ParseString(CellAt(row, AuthorLinkHeader)),
      authorName := Some(ParseString(CellAt(row, AuthorNameHeader))),
      imageCount := ParseNumber(CellAt(row, ImageCountHeader)),
      coverUrl := ParseString(CellAt(row, CoverUrlHeader)),
      createdAt := now)
  }

  /** A row is kept when its trimmed title or trimmed note id is non-empty. */
  predicate RowAccepted(row: Row) {
    ParseString(CellAt(row, TitleHeader)) != [] || ParseString(CellAt(row, NoteIdHeader)) != []
  }

  /** A row is kept exactly when its title cell or its note-id cell has content. */
  lemma RowAcceptedIff(row: Row)
    ensures RowAccepted(row) <==> HasContent(CellAt(row, TitleHeader)) || HasContent(CellAt(row, NoteIdHeader))
  {
    ParseStringEmptyIff(CellAt(row, TitleHeader));
    ParseStringEmptyIff(CellAt(row, NoteIdHeader));
  }

  /** The importer's own test: a built note is dropped when both its title and its note id are empty. */
  predicate Kept(note: ReferenceNote) {
    note.title.GetOr([]) != [] || note.noteId != []
  }

  /** A built note is kept exactly when its row is accepted, whatever id and timestamp it was given. */
  lemma KeptIffAccepted(row: Row, id: string, now: string)
    ensures Kept(BuildNote(row, id, now)) <==> RowAccepted(row)
  {
  }

  // ---------------------------------------------------------------------------
  // The whole sheet, as a specification over the first n rows

  /** The per-row callback of the import: row `k` gets record id `ids(k)` and timestamp `clock(k)`. */
  function RowBuilder(ids: nat -> string, clock: nat -> string): (Row, nat) -> ReferenceNote {
    (row: Row, k: nat) => BuildNote(row, ids(k), clock(k))
  }

  /** The note every row would become under `build`, in row order. */
  function BuiltNotes(rows: seq<Row>, build: (Row, nat) -> ReferenceNote): (r: seq<ReferenceNote>)
    ensures |r| == |rows|
    ensures forall i :: 0 <= i < |rows| ==> r[i] == build(rows[i], i)
  {
    seq(|rows|, i requires 0 <= i < |rows| => build(rows[i], i))
  }

  /** The note every row of the sheet becomes before the acceptance test. */
  function Candidates(rows: seq<Row>, ids: nat -> string, clock: nat -> string): seq<ReferenceNote> {
    BuiltNotes(rows, RowBuilder(ids, clock))
  }

  /** Indices of the kept notes among the first `n` candidates, in order. */
  function KeptIndices(cands: seq<ReferenceNote>, n: nat): seq<nat>
    requires n <= |cands|
  {
    if n == 0 then []
    else KeptIndices(cands, n - 1) + (if Kept(cands[n - 1]) then [n - 1] else [])
  }

  /** The kept notes among the first `n` candidates, in order. */
  function KeptNotes(cands: seq<ReferenceNote>, n: nat): seq<ReferenceNote>
    requires n <= |cands|
  {
    if n == 0 then []
    else KeptNotes(cands, n - 1) + (if Kept(cands[n - 1]) then [cands[n - 1]] else [])
  }

  /** One diagnostic per dropped candidate among the first `n`, naming its sheet row (index + 2). */
  function SkippedRows(cands: seq<ReferenceNote>, n: nat): seq<ImportError>
    requires n <= |cands|
  {
    if n == 0 then []
    else SkippedRows(cands, n - 1) + (if Kept(cands[n - 1]) then [] else [RowSkipped(n + 1)])
  }

  /** The required headers missing from `headers`, title first. */
  function MissingHeaders(headers: set<string>): (r: seq<string>)
    ensures forall h :: h in r <==> h in {TitleHeader, NoteIdHeader} && h !in headers
  {
    (if TitleHeader in headers then [] else [TitleHeader])
    + (if NoteIdHeader in headers then [] else [NoteIdHeader])
  }

  /** The warning about missing required headers, if any, read from the first row's keys. */
  function HeaderWarnings(rows: seq<Row>): seq<ImportError>
    requires |rows| > 0
  {
    var missing := MissingHeaders(rows[0].Keys);
    if |missing| > 0 then [MissingColumns(missing)] else []
  }

  function Failure(e: ImportError): ParseResult {
    ParseResult(false, [], [e], 0, 0)
  }

  /**
   * What `parseExcelFile` returns. An unreadable file, a workbook without
   * worksheets and a worksheet without data rows fail with one error and no
   * rows; otherwise `success` holds exactly when some note was kept.
   */
  function ParseSpec(file: SpreadsheetFile, ids: nat -> string, clock: nat -> string): (r: ParseResult)
    ensures r.parsedRows == |r.notes| <= r.totalRows
    ensures r.success <==> |r.notes| > 0
    ensures file.Corrupt? || |file.sheets| == 0 || |file.sheets[0]| == 0 ==>
              !r.success && r.notes == [] && |r.errors| == 1 && r.totalRows == 0
    ensures file.Workbook? && |file.sheets| > 0 ==> r.totalRows == |file.sheets[0]|
  {
    if file.Corrupt? then Failure(Unreadable)
    else if |file.sheets| == 0 then Failure(NoWorksheet)
    else
      var rows := file.sheets[0];
      if |rows| == 0 then Failure(NoData)
      else
        var cands := Candidates(rows, ids, clock);
        var notes := KeptNotes(cands, |rows|);
        RowsAccountedFor(cands, |rows|);
        ParseResult(|notes| > 0, notes, HeaderWarnings(rows) + SkippedRows(cands, |rows|), |rows|, |notes|)
  }

  // ---------------------------------------------------------------------------
  // Properties of the specification

  /** Every row is either kept or reported once: kept + skipped = rows seen. */
  lemma {:induction false} RowsAccountedFor(cands: seq<ReferenceNote>, n: nat)
    requires n <= |cands|
    ensures |KeptNotes(cands, n)| == |KeptIndices(cands, n)|
    ensures |KeptIndices(cands, n)| + |SkippedRows(cands, n)| == n
  {
    if n > 0 {
      RowsAccountedFor(cands, n - 1);
    }
  }

  /** The kept indices are below `n` and strictly increasing: the import keeps row order. */
  lemma {:induction false} KeptIndicesOrdered(cands: seq<ReferenceNote>, n: nat)
    requires n <= |cands|
    ensures forall j :: 0 <= j < |KeptIndices(cands, n)| ==> KeptIndices(cands, n)[j] < n
    ensures forall j, k :: 0 <= j < k < |KeptIndices(cands, n)| ==> KeptIndices(cands, n)[j] < KeptIndices(cands, n)[k]
  {
    if n > 0 {
      KeptIndicesOrdered(cands, n - 1);
      var prev := KeptIndices(cands, n - 1);
      var ext: seq<nat> := if Kept(cands[n - 1]) then [n - 1] else [];
      var idx := prev + ext;
      assert KeptIndices(cands, n) == idx;
      forall j | 0 <= j < |idx| ensures idx[j] < n {
        if j < |prev| {
          assert idx[j] == prev[j];
        } else {
          assert idx[j] == ext[j - |prev|];
        }
      }
      forall j, k | 0 <= j < k < |idx| ensures idx[j] < idx[k] {
        if k < |prev| {
          assert idx[j] == prev[j] && idx[k] == prev[k];
        } else {
          assert idx[k] == n - 1;
          assert idx[j] == prev[j];
        }
      }
    }
  }

  /** An index below `n` is among the kept ones exactly when its candidate is kept. */
  lemma {:induction false} KeptIndicesExact(cands: seq<ReferenceNote>, n: nat, i: nat)
    requires i < n <= |cands|
    ensures i in KeptIndices(cands, n) <==> Kept(cands[i])
  {
    var prev := KeptIndices(cands, n - 1);
    KeptIndicesOrdered(cands, n - 1);
    if Kept(cands[n - 1]) {
      assert KeptIndices(cands, n) == prev + [n - 1];
    } else {
      assert KeptIndices(cands, n) == prev;
    }
    if i < n - 1 {
      KeptIndicesExact(cands, n - 1, i);
    } else {
      assert i !in prev by {
        forall j | 0 <= j < |prev| ensures prev[j] != i {
        }
      }
    }
  }

  /** The j-th imported note is the candidate of the j-th kept row. */
  lemma {:induction false} KeptNotesFollowIndices(cands: seq<ReferenceNote>, n: nat)
    requires n <= |cands|
    ensures |KeptNotes(cands, n)| == |KeptIndices(cands, n)|
    ensures forall j :: 0 <= j < |KeptIndices(cands, n)| ==>
              KeptIndices(cands, n)[j] < n && KeptNotes(cands, n)[j] == cands[KeptIndices(cands, n)[j]]
  {
    KeptIndicesOrdered(cands, n);
    RowsAccountedFor(cands, n);
    if n > 0 {
      KeptNotesFollowIndices(cands, n - 1);
      var prev := KeptIndices(cands, n - 1);
      var prevNotes := KeptNotes(cands, n - 1);
      var idx := KeptIndices(cands, n);
      var notes := KeptNotes(cands, n);
      assert idx == prev + (if Kept(cands[n - 1]) then [n - 1] else []);
      assert notes == prevNotes + (if Kept(cands[n - 1]) then [cands[n - 1]] else []);
      forall j | 0 <= j < |idx| ensures notes[j] == cands[idx[j]] {
        if j < |prev| {
          assert idx[j] == prev[j] && notes[j] == prevNotes[j];
        } else {
          assert idx[j] == n - 1 && notes[j] == cands[n - 1];
        }
      }
    }
  }

  /**
   * The skip diagnostics are all row-skip entries naming dropped rows by
   * their sheet row number (index + 2), in increasing order.
   */
  lemma {:induction false} SkippedNameDroppedRows(cands: seq<ReferenceNote>, n: nat)
    requires n <= |cands|
    ensures forall j :: 0 <= j < |SkippedRows(cands, n)| ==>
              SkippedRows(cands, n)[j].RowSkipped?
              && 2 <= SkippedRows(cands, n)[j].rowNumber < n + 2
              && !Kept(cands[SkippedRows(cands, n)[j].rowNumber - 2])
    ensures forall j, k :: 0 <= j < k < |SkippedRows(cands, n)| ==>
              SkippedRows(cands, n)[j].rowNumber < SkippedRows(cands, n)[k].rowNumber
  {
    if n > 0 {
      SkippedNameDroppedRows(cands, n - 1);
      var prev := SkippedRows(cands, n - 1);
      var ext := if Kept(cands[n - 1]) then [] else [RowSkipped(n + 1)];
      var errs := prev + ext;
      assert SkippedRows(cands, n) == errs;
      forall j | 0 <= j < |errs|
        ensures errs[j].RowSkipped? && 2 <= errs[j].rowNumber < n + 2 && !Kept(cands[errs[j].rowNumber - 2])
      {
        if j < |prev| {
          assert errs[j] == prev[j];
        } else {
          assert errs[j] == RowSkipped(n + 1);
        }
      }
      forall j, k | 0 <= j < k < |errs| ensures errs[j].rowNumber < errs[k].rowNumber {
        if k < |prev| {
          assert errs[j] == prev[j] && errs[k] == prev[k];
        } else {
          assert errs[k] == RowSkipped(n + 1);
          assert errs[j] == prev[j];
        }
      }
    }
  }

  /** Every dropped row among the first `n` is reported. */
  lemma {:induction false} DroppedRowsReported(cands: seq<ReferenceNote>, n: nat, i: nat)
    requires i < n <= |cands| && !Kept(cands[i])
    ensures RowSkipped(i + 2) in SkippedRows(cands, n)
  {
    var prev := SkippedRows(cands, n - 1);
    var ext := if Kept(cands[n - 1]) then [] else [RowSkipped(n + 1)];
    assert SkippedRows(cands, n) == prev + ext;
    if i < n - 1 {
      DroppedRowsReported(cands, n - 1, i);
    } else {
      assert (prev + ext)[|prev|] == RowSkipped(i + 2);
    }
  }

  /** When every candidate is kept, all of them come through and nothing is reported. */
  lemma {:induction false} AllKept(cands: seq<ReferenceNote>, n: nat)
    requires n <= |cands|
    requires forall i :: 0 <= i < n ==> Kept(cands[i])
    ensures KeptNotes(cands, n) == cands[..n]
    ensures SkippedRows(cands, n) == []
  {
    if n > 0 {
      AllKept(cands, n - 1);
      assert cands[..n] == cands[..n - 1] + [cands[n - 1]];
    }
  }

  /**
   * For a readable sheet with data: the notes are the accepted rows' notes in
   * row order; the header warning (if any) comes first, then one entry per
   * skipped row; kept plus skipped rows equal the rows read.
   */
  lemma ParseSpecAccounting(file: SpreadsheetFile, ids: nat -> string, clock: nat -> string)
    requires file.Workbook? && |file.sheets| > 0 && |file.sheets[0]| > 0
    ensures ParseSpec(file, ids, clock).notes == KeptNotes(Candidates(file.sheets[0], ids, clock), |file.sheets[0]|)
    ensures ParseSpec(file, ids, clock).errors
            == HeaderWarnings(file.sheets[0]) + SkippedRows(Candidates(file.sheets[0], ids, clock), |file.sheets[0]|)
    ensures ParseSpec(file, ids, clock).parsedRows + |SkippedRows(Candidates(file.sheets[0], ids, clock), |file.sheets[0]|)|
            == ParseSpec(file, ids, clock).totalRows
    ensures MissingHeaders(file.sheets[0][0].Keys) != [] ==>
              ParseSpec(file, ids, clock).errors[0] == MissingColumns(MissingHeaders(file.sheets[0][0].Keys))
    ensures forall i :: 0 <= i < |file.sheets[0]| ==>
              (Kept(Candidates(file.sheets[0], ids, clock)[i]) <==> RowAccepted(file.sheets[0][i]))
  {
    var rows := file.sheets[0];
    var cands := Candidates(rows, ids, clock);
    RowsAccountedFor(cands, |rows|);
    forall i | 0 <= i < |rows| ensures Kept(cands[i]) <==> RowAccepted(rows[i]) {
      KeptIffAccepted(rows[i], ids(i), clock(i));
    }
  }

  /** A sheet whose every row has a title or note id imports completely and succeeds. */
  lemma CompleteSheetSucceeds(file: SpreadsheetFile, ids: nat -> string, clock: nat -> string)
    requires file.Workbook? && |file.sheets| > 0 && |file.sheets[0]| > 0
    requires forall i :: 0 <= i < |file.sheets[0]| ==> RowAccepted(file.sheets[0][i])
    ensures ParseSpec(file, ids, clock).success
    ensures ParseSpec(file, ids, clock).parsedRows == ParseSpec(file, ids, clock).totalRows == |file.sheets[0]|
    ensures ParseSpec(file, ids, clock).errors == HeaderWarnings(file.sheets[0])
  {
    var rows := file.sheets[0];
    var cands := Candidates(rows, ids, clock);
    forall i | 0 <= i < |rows| ensures Kept(cands[i]) {
      KeptIffAccepted(rows[i], ids(i), clock(i));
    }
    AllKept(cands, |rows|);
  }

  // ---------------------------------------------------------------------------
  // The importer itself

  /** `parseExcelFile`: reads the first worksheet and imports its rows. */
  method ParseExcelFile(file: SpreadsheetFile, ids: nat -> string, clock: nat -> string) returns (r: ParseResult)
    ensures r == ParseSpec(file, ids, clock)
  {
    if file.Corrupt? {
      return Failure(Unreadable);
    }
    if |file.sheets| == 0 {
      return Failure(NoWorksheet);
    }
    var rows := file.sheets[0];
    if |rows| == 0 {
      return Failure(NoData);
    }
    var errors: seq<ImportError> := [];
    var missing := MissingHeaders(rows[0].Keys);
    if |missing| > 0 {
      errors := errors + [MissingColumns(missing)];
    }
    assert errors == HeaderWarnings(rows);
    var notes, skipped := ImportRows(rows, RowBuilder(ids, clock));
    errors := errors + skipped;
    r := ParseResult(|notes| > 0, notes, errors, |rows|, |notes|);
  }

  /**
   * The row loop of `parseExcelFile`: builds each row's note with the
   * per-row callback, then keeps the note or reports the row (index + 2).
   */
  method ImportRows(rows: seq<Row>, build: (Row, nat) -> ReferenceNote)
    returns (notes: seq<ReferenceNote>, skipped: seq<ImportError>)
    ensures notes == KeptNotes(BuiltNotes(rows, build), |rows|)
    ensures skipped == SkippedRows(BuiltNotes(rows, build), |rows|)
  {
    ghost var cands := BuiltNotes(rows, build);
    notes, skipped := [], [];
    var i := 0;
    while i < |rows|
      invariant 0 <= i <= |rows|
      invariant notes == KeptNotes(cands, i)
      invariant skipped == SkippedRows(cands, i)
    {
      var note := build(rows[i], i);
      if note.title.GetOr([]) == [] && note.noteId == [] {
        skipped := skipped + [RowSkipped(i + 2)];
      } else {
        notes := notes + [note];
      }
      i := i + 1;
    }
  }

  // ---------------------------------------------------------------------------
  // File-type check

  const ValidMimeTypes: seq<string> := [
    "application/vnd.openxmlformats-officedocument.spreadsheetml.sheet",
    "application/vnd.ms-excel",
    "text/csv"
  ]

  const ValidExtensions: seq<string> := [".xlsx", ".xls", ".csv"]

  /** `isValidExcelFile`: an allowed MIME type, or a name ending (case-insensitively) in an allowed extension. */
  function IsValidExcelFile(mimeType: string, name: string): (r: bool)
    ensures r <==> mimeType in ValidMimeTypes || exists e :: e in ValidExtensions && EndsWith(ToLower(name), e)
  {
    mimeType in ValidMimeTypes
    || EndsWith(ToLower(name), ".xlsx") || EndsWith(ToLower(name), ".xls") || EndsWith(ToLower(name), ".csv")
  }

  /** The name check ignores letter case: upper-casing or lower-casing the name does not change the verdict. */
  lemma IsValidExcelFileIgnoresCase(mimeType: string, name: string)
    ensures IsValidExcelFile(mimeType, name) == IsValidExcelFile(mimeType, ToLower(name))
  {
    ToLowerIdempotent(name);
  }
}
