/**
  The spreadsheet importer: from the rows of the first sheet, already decoded
  into cells, to new concern records. The header row is normalised, each
  wanted column is located by a list of candidate names, and every later row
  with a concern text becomes a record numbered after the ones before it.
*/
module FileUpload {
  import opened Wrappers
  import opened Text
  import opened Seqs
  import opened QaTypes
  import opened QaCalculations

  /** A decoded cell: nothing, or a value given by its text form and, when the
      value reads as a whole number, that number. */
  datatype Cell = Blank | Filled(text: string, number: Option<int>)

  type Row = seq<Cell>

  /** `String(v ?? "")`. */
  function CellText(c: Cell): string
  {
    match c
    case Blank => ""
    case Filled(t, _) => t
  }

  /** A header cell trimmed and lower-cased: the normal form the candidate
      names are matched against. It holds no capital letter and no space at
      either end, and it is empty exactly when the cell held only spaces. */
  function Header(c: Cell): (h: string)
    ensures NoUpper(h)
    ensures h == [] || (!IsSpace(h[0]) && !IsSpace(h[|h| - 1]))
    ensures h == [] <==> forall j :: 0 <= j < |CellText(c)| ==> IsSpace(CellText(c)[j])
  {
    var t := Text.Trim(CellText(c));
    Text.TrimEmptyIff(CellText(c));
    LowerOfTrimmed(CellText(c), t);
    Lower(t)
  }

  /** Lower-casing keeps what trimming established. */
  lemma LowerOfTrimmed(x: string, t: string)
    requires t == [] || (!IsSpace(t[0]) && !IsSpace(t[|t| - 1]))
    requires t == [] <==> forall j :: 0 <= j < |x| ==> IsSpace(x[j])
    ensures NoUpper(Lower(t))
    ensures Lower(t) == [] || (!IsSpace(Lower(t)[0]) && !IsSpace(Lower(t)[|Lower(t)| - 1]))
    ensures Lower(t) == [] <==> forall j :: 0 <= j < |x| ==> IsSpace(x[j])
  {
    LowerNormal(t);
  }

  /** A header is the cell text with the spaces at both ends cut off,
      lower-cased. */
  lemma HeaderIsTrimmedSlice(c: Cell)
    ensures var x := CellText(c);
      exists a, b :: (0 <= a <= b <= |x| && Header(c) == Lower(x[a..b])
                      && (forall i :: 0 <= i < a ==> IsSpace(x[i]))
                      && (forall i :: b <= i < |x| ==> IsSpace(x[i])))
  {
    LowerOfSlice(CellText(c), Text.Trim(CellText(c)));
  }

  /** Lower-casing a slice with only spaces around it. */
  lemma LowerOfSlice(x: string, t: string)
    requires IsTrimmedSlice(t, x)
    ensures exists a, b :: (0 <= a <= b <= |x| && Lower(t) == Lower(x[a..b])
                            && (forall i :: 0 <= i < a ==> IsSpace(x[i]))
                            && (forall i :: b <= i < |x| ==> IsSpace(x[i])))
  {
    var a, b :| 0 <= a <= b <= |x| && t == x[a..b]
      && (forall i :: 0 <= i < a ==> IsSpace(x[i])) && (forall i :: b <= i < |x| ==> IsSpace(x[i]));
  }

  /** A header cell holding a name with no space at either end reads as that
      name lower-cased, so it matches the name whatever its case. */
  lemma HeaderOfName(c: Cell, n: string)
    requires CellText(c) == n && (n == [] || (!IsSpace(n[0]) && !IsSpace(n[|n| - 1])))
    ensures Header(c) == Lower(n)
  {
    TrimUntrimmable(n);
  }

  /** The header row, each cell in normal form. */
  function Headers(row: Row): (hs: seq<string>)
    ensures |hs| == |row|
    ensures forall i :: 0 <= i < |hs| ==> NoUpper(hs[i])
    ensures forall i :: 0 <= i < |hs| ==> hs[i] == [] || (!IsSpace(hs[i][0]) && !IsSpace(hs[i][|hs[i]| - 1]))
    ensures forall i :: 0 <= i < |hs| ==> (hs[i] == [] <==> forall j :: 0 <= j < |CellText(row[i])| ==> IsSpace(CellText(row[i])[j]))
  {
    seq(|row|, i requires 0 <= i < |row| => Header(row[i]))
  }

  // ---------------------------------------------------------------------------
  // Locating a column

  /** The three tests a header is put to, in the order they are tried. */
  datatype MatchKind = Exact | Prefix | Inside

  predicate Hits(h: string, n: string, kind: MatchKind)
  {
    match kind
    case Exact => h == n
    case Prefix => StartsWith(h, n)
    case Inside => Contains(h, n)
  }

  /** `indexOf` and `findIndex`: the first header that passes the test, or -1 when none does. */
  function IndexWhere(headers: seq<string>, n: string, kind: MatchKind): (idx: int)
    ensures -1 <= idx < |headers|
    ensures idx == -1 <==> forall i :: 0 <= i < |headers| ==> !Hits(headers[i], n, kind)
    ensures idx != -1 ==> Hits(headers[idx], n, kind)
    ensures forall i :: 0 <= i < idx ==> !Hits(headers[i], n, kind)
  {
    if headers == [] then -1
    else if Hits(headers[0], n, kind) then 0
    else
      var rest := IndexWhere(headers[1..], n, kind);
      assert forall i :: 1 <= i < |headers| ==> headers[i] == headers[1..][i - 1];
      if rest == -1 then -1 else rest + 1
  }

  /** One candidate name, tried exactly, then as a prefix, then as a substring. */
  function Locate(headers: seq<string>, n: string): int
  {
    var exact := IndexWhere(headers, n, Exact);
    if exact != -1 then exact
    else
      var prefix := IndexWhere(headers, n, Prefix);
      if prefix != -1 then prefix else IndexWhere(headers, n, Inside)
  }

  /** The tests are tried in priority order: the first header equal to the
      name wins; failing that, the first header starting with it; failing
      that, the first header containing it. */
  lemma LocatePriority(headers: seq<string>, n: string, i: int)
    requires 0 <= i < |headers|
    ensures (Hits(headers[i], n, Exact) && forall j :: 0 <= j < i ==> headers[j] != n)
              ==> Locate(headers, n) == i
    ensures ((forall j :: 0 <= j < |headers| ==> headers[j] != n)
             && StartsWith(headers[i], n) && forall j :: 0 <= j < i ==> !StartsWith(headers[j], n))
              ==> Locate(headers, n) == i
    ensures ((forall j :: 0 <= j < |headers| ==> !StartsWith(headers[j], n))
             && Contains(headers[i], n) && forall j :: 0 <= j < i ==> !Contains(headers[j], n))
              ==> Locate(headers, n) == i
  {
    if forall j :: 0 <= j < |headers| ==> !StartsWith(headers[j], n) {
      forall j | 0 <= j < |headers| ensures headers[j] != n {
        assert !StartsWith(headers[j], n);
      }
    }
  }

  /** A name is located exactly when some header contains it; the index found
      is that of a header containing it. */
  lemma LocateFindsContaining(headers: seq<string>, n: string)
    ensures Locate(headers, n) == -1 <==> forall i :: 0 <= i < |headers| ==> !Contains(headers[i], n)
    ensures Locate(headers, n) != -1 ==> 0 <= Locate(headers, n) < |headers| && Contains(headers[Locate(headers, n)], n)
  {
    var exact := IndexWhere(headers, n, Exact);
    var prefix := IndexWhere(headers, n, Prefix);
    if exact != -1 {
      ContainsItself(n);
      assert headers[exact] == n;
    } else if prefix != -1 {
      PrefixIsContained(headers[prefix], n);
    }
  }

  /** The column `findCol(names)` returns: the first name that is located
      decides, and -1 when no name is. */
  function ColumnFor(headers: seq<string>, names: seq<string>): (idx: int)
    ensures -1 <= idx < |headers|
  {
    if names == [] then -1
    else
      var i := Locate(headers, Lower(names[0]));
      LocateFindsContaining(headers, Lower(names[0]));
      if i != -1 then i else ColumnFor(headers, names[1..])
  }

  /** No column is found exactly when no header contains any of the names. */
  lemma {:induction false} ColumnMissing(headers: seq<string>, names: seq<string>)
    ensures ColumnFor(headers, names) == -1
        <==> forall k, i :: 0 <= k < |names| && 0 <= i < |headers| ==> !Contains(headers[i], Lower(names[k]))
  {
    if names != [] {
      ColumnMissing(headers, names[1..]);
      LocateFindsContaining(headers, Lower(names[0]));
      assert forall k :: 1 <= k < |names| ==> names[k] == names[1..][k - 1];
    }
  }

  /** A found column holds one of the names. */
  lemma {:induction false} ColumnHoldsAName(headers: seq<string>, names: seq<string>)
    requires ColumnFor(headers, names) != -1
    ensures exists k :: 0 <= k < |names| && Contains(headers[ColumnFor(headers, names)], Lower(names[k]))
  {
    LocateFindsContaining(headers, Lower(names[0]));
    if Locate(headers, Lower(names[0])) == -1 {
      ColumnHoldsAName(headers, names[1..]);
      var k :| 0 <= k < |names[1..]| && Contains(headers[ColumnFor(headers, names)], Lower(names[1..][k]));
      assert names[1..][k] == names[k + 1];
    }
  }

  /** The names are tried in order: when no header contains any of the names
      before `names[k]` and some header contains `names[k]`, the column is
      where `names[k]` is located. */
  lemma {:induction false} FirstContainedNameDecides(headers: seq<string>, names: seq<string>, k: int)
    requires 0 <= k < |names|
    requires forall k', i :: 0 <= k' < k && 0 <= i < |headers| ==> !Contains(headers[i], Lower(names[k']))
    requires exists i :: 0 <= i < |headers| && Contains(headers[i], Lower(names[k]))
    ensures ColumnFor(headers, names) == Locate(headers, Lower(names[k]))
    decreases k
  {
    LocateFindsContaining(headers, Lower(names[0]));
    if k > 0 {
      assert forall k' :: 0 <= k' < |names| - 1 ==> names[1..][k'] == names[k' + 1];
      FirstContainedNameDecides(headers, names[1..], k - 1);
    }
  }

  /** The first name wins when some header is exactly that name: its first
      occurrence is the column, whatever the later names would match. */
  lemma ExactFirstNameWins(headers: seq<string>, names: seq<string>, i: int)
    requires names != [] && 0 <= i < |headers| && headers[i] == Lower(names[0])
    requires forall j :: 0 <= j < i ==> headers[j] != Lower(names[0])
    ensures ColumnFor(headers, names) == i
  {
    assert Hits(headers[i], Lower(names[0]), Exact);
  }

  /** `findCol`: tries the names in order and each name exactly, as a prefix,
      then as a substring, returning at the first hit. */
  method FindCol(headers: seq<string>, names: seq<string>) returns (idx: int)
    ensures idx == ColumnFor(headers, names)
    ensures -1 <= idx < |headers|
  {
    var j := 0;
    while j < |names|
      invariant 0 <= j <= |names|
      invariant ColumnFor(headers, names[j..]) == ColumnFor(headers, names)
    {
      assert names[j..][1..] == names[j + 1..];
      var n := Lower(names[j]);
      idx := IndexWhere(headers, n, Exact);
      if idx != -1 {
        return;
      }
      idx := IndexWhere(headers, n, Prefix);
      if idx != -1 {
        return;
      }
      idx := IndexWhere(headers, n, Inside);
      if idx != -1 {
        return;
      }
      j := j + 1;
    }
    return -1;
  }

  // ---------------------------------------------------------------------------
  // Reading cells

  /** `getVal`: the text of the cell with the spaces at both ends cut off;
      "" when the column is missing or out of the row. */
  function GetVal(row: Row, col: int): (v: string)
    ensures (col < 0 || col >= |row|) ==> v == ""
    ensures 0 <= col < |row| ==> IsTrimmedSlice(v, CellText(row[col]))
    ensures Text.Trim(v) == v
  {
    if col < 0 || col >= |row| then ""
    else
      TrimIdempotent(CellText(row[col]));
      Text.Trim(CellText(row[col]))
  }

  /** `getNum`: the number in the cell; null when the column is missing or out
      of the row, when the cell is empty, and when its value is not a number. */
  function GetNum(row: Row, col: int): (v: Option<int>)
    ensures (col < 0 || col >= |row|) ==> v == None
    ensures 0 <= col < |row| && (row[col].Blank? || row[col].text == "") ==> v == None
    ensures 0 <= col < |row| && row[col].Filled? && row[col].text != "" ==> v == row[col].number
  {
    if col < 0 || col >= |row| then None
    else
      match row[col]
      case Blank => None
      case Filled(t, n) => if t == "" then None else n
  }

  /** The defect rating read from the sheet: the value itself when it is 1, 3 or 5, and 1 otherwise. */
  function ClampRating(raw: Option<int>): (r: int)
    ensures IsDefectRating(r)
    ensures raw.Some? && IsDefectRating(raw.value) ==> r == raw.value
    ensures !(raw.Some? && IsDefectRating(raw.value)) ==> r == 1
  {
    if raw == Some(1) || raw == Some(3) || raw == Some(5) then raw.value else 1
  }

  // ---------------------------------------------------------------------------
  // Columns and records

  /** The columns the importer reads, -1 for one that is missing. */
  datatype Columns = Columns(
    source: int, station: int, area: int, concern: int,
    rating: int, resp: int, action: int, target: int)

  /** The candidate names `findCol` is given for each column. */
  const SourceNames: seq<string> := ["source", "src"]
  const StationNames: seq<string> := ["station", "stn", "operation station"]
  const AreaNames: seq<string> := ["area", "designation"]
  const ConcernNames: seq<string> := ["concern", "description"]
  const RatingNames: seq<string> := ["defect rating", "dr", "rating"]
  const RespNames: seq<string> := ["resp", "responsible", "responsibility"]
  const ActionNames: seq<string> := ["action", "mfg action"]
  const TargetNames: seq<string> := ["target"]

  /** Each column located by its candidate names. */
  function SheetColumns(headers: seq<string>): Columns
  {
    Columns(
      ColumnFor(headers, SourceNames),
      ColumnFor(headers, StationNames),
      ColumnFor(headers, AreaNames),
      ColumnFor(headers, ConcernNames),
      ColumnFor(headers, RatingNames),
      ColumnFor(headers, RespNames),
      ColumnFor(headers, ActionNames),
      ColumnFor(headers, TargetNames))
  }

  /** Every check of a group, each with a null score. */
  function AllNull<K(==,!new)>(keys: seq<K>): (m: Scores<K>)
    ensures forall k :: Lookup(m, k) == None
  {
    map k | k in keys :: None
  }

  /** The record literal built for a row, before recomputation. */
  function Draft(row: Row, cols: Columns, sNo: int): Entry
  {
    var rating := ClampRating(GetNum(row, cols.rating));
    var source := GetVal(row, cols.source);
    Entry(
      sNo,
      if source == "" then "Import" else source,
      GetVal(row, cols.station),
      GetVal(row, cols.area),
      GetVal(row, cols.concern),
      rating,
      0,
      [0, 0, 0, 0, 0, 0],
      rating,
      AllNull(TrimKeys),
      AllNull(ChassisKeys),
      AllNull(FinalKeys),
      AllNull(QControlKeys),
      AllNull(QControlDetailKeys),
      ControlRating(0, 0, 0),
      GuaranteedQuality(None, None, None),
      OK,
      NG,
      OK,
      GetVal(row, cols.action),
      GetVal(row, cols.resp),
      GetVal(row, cols.target))
  }

  /** The record a row yields: the literal, recomputed. */
  function BuildEntry(row: Row, cols: Columns, sNo: int): Entry
  {
    RecalculateStatuses(Draft(row, cols, sNo))
  }

  /** The record a row yields is held in its recomputed form. */
  lemma BuildEntryStored(row: Row, cols: Columns, sNo: int)
    ensures Stored(BuildEntry(row, cols, sNo))
  {
    BuildEntryFacts(row, cols, sNo);
  }

  /** What the record of a row holds: the number given, the trimmed cells of
      its columns (a blank source read as "Import"), the clamped defect rating,
      six zero weekly slots and no score; and it is held recomputed. */
  lemma BuildEntryFacts(row: Row, cols: Columns, sNo: int)
    ensures var r := BuildEntry(row, cols, sNo);
      && Stored(r) && r.sNo == sNo
      && r.source == (if GetVal(row, cols.source) == "" then "Import" else GetVal(row, cols.source))
      && r.operationStation == GetVal(row, cols.station) && r.designation == GetVal(row, cols.area)
      && r.mfgAction == GetVal(row, cols.action) && r.resp == GetVal(row, cols.resp)
      && r.target == GetVal(row, cols.target)
      && r.concern == GetVal(row, cols.concern)
      && r.defectRating == ClampRating(GetNum(row, cols.rating))
      && r.weeklyRecurrence == [0, 0, 0, 0, 0, 0]
    ensures forall ref :: ScoreAt(BuildEntry(row, cols, sNo), ref) == None
  {
    var d := Draft(row, cols, sNo);
    DraftFacts(row, cols, sNo);
    RecalculateIsConsistent(d);
    RecalculateKeepsFields(d);
    SameScores(d, RecalculateStatuses(d));
  }

  /** The literal holds six zero weeks, a rating of 1, 3 or 5 and no score. */
  lemma DraftFacts(row: Row, cols: Columns, sNo: int)
    ensures var d := Draft(row, cols, sNo);
      && d.sNo == sNo && d.source != ""
      && d.concern == GetVal(row, cols.concern)
      && d.defectRating == ClampRating(GetNum(row, cols.rating))
      && d.weeklyRecurrence == [0, 0, 0, 0, 0, 0]
    ensures forall ref :: ScoreAt(Draft(row, cols, sNo), ref) == None
  {
    var d := Draft(row, cols, sNo);
    assert d.trim == AllNull(TrimKeys) && d.chassis == AllNull(ChassisKeys)
      && d.final == AllNull(FinalKeys) && d.qControl == AllNull(QControlKeys)
      && d.qControlDetail == AllNull(QControlDetailKeys);
    forall ref ensures ScoreAt(d, ref) == None {
      NoScoreIn(d, ref);
    }
  }

  /** A record whose every group maps each of its checks to null has no score. */
  lemma NoScoreIn(e: Entry, ref: ScoreRef)
    requires e.trim == AllNull(TrimKeys) && e.chassis == AllNull(ChassisKeys)
      && e.final == AllNull(FinalKeys) && e.qControl == AllNull(QControlKeys)
      && e.qControlDetail == AllNull(QControlDetailKeys)
    ensures ScoreAt(e, ref) == None
  {
    match ref
    case Trim(k) => assert Lookup(e.trim, k) == None;
    case Chassis(k) => assert Lookup(e.chassis, k) == None;
    case Final(k) => assert Lookup(e.final, k) == None;
    case QControl(k) => assert Lookup(e.qControl, k) == None;
    case QControlDetail(k) => assert Lookup(e.qControlDetail, k) == None;
  }

  /** A fresh record has no score, so every rating is 0 and, its defect rating
      being at least 1, all three statuses are NG: the OK statuses written in
      the literal never survive recomputation. */
  lemma ImportedRecordStartsNG(row: Row, cols: Columns, sNo: int)
    ensures var r := BuildEntry(row, cols, sNo);
      && r.controlRating == ControlRating(0, 0, 0)
      && r.recurrence == 0
      && r.recurrenceCountPlusDefect == r.defectRating
      && r.workstationStatus == NG && r.mfgStatus == NG && r.plantStatus == NG
  {
    BuildEntryFacts(row, cols, sNo);
    BlankRecordIsNG(BuildEntry(row, cols, sNo));
  }

  // ---------------------------------------------------------------------------
  // The sheet

  /** A data row yields a record when it has cells and a concern text. */
  predicate KeepRow(row: Row, concernCol: int)
  {
    |row| > 0 && GetVal(row, concernCol) != ""
  }

  function Keeps(concernCol: int): Row -> bool
  {
    row => KeepRow(row, concernCol)
  }

  /** The record builder for the columns found. */
  function Builder(cols: Columns): (Row, int) -> Entry
  {
    (row, sNo) => BuildEntry(row, cols, sNo)
  }

  lemma BuilderApplies(cols: Columns, row: Row, sNo: int)
    ensures Builder(cols)(row, sNo) == BuildEntry(row, cols, sNo)
  {
  }

  lemma BuiltAt(xs: seq<Row>, cols: Columns, start: int, k: int)
    requires 0 <= k < |xs|
    ensures MapIndexed(xs, Builder(cols), start)[k] == Builder(cols)(xs[k], start + k)
  {
    MapIndexedAt(xs, Builder(cols), start, k);
  }

  /** The facts of `BuildEntryFacts`, for the builder. */
  lemma BuilderFacts(cols: Columns, row: Row, sNo: int)
    ensures Builder(cols)(row, sNo) == BuildEntry(row, cols, sNo)
    ensures Stored(Builder(cols)(row, sNo)) && Builder(cols)(row, sNo).sNo == sNo
  {
    BuilderApplies(cols, row, sNo);
    BuildEntryFacts(row, cols, sNo);
  }

  /** The records of the data rows that have cells and a concern text, in
      row order, the k-th numbered `start + k`. */
  function Records(rows: seq<Row>, cols: Columns, start: int): (es: seq<Entry>)
    requires |rows| >= 1
    ensures |es| <= |rows| - 1
  {
    MapIndexed(Filter(rows[1..], Keeps(cols.concern)), Builder(cols), start)
  }

  /** What `parseSheet` yields: nothing for fewer than two rows, otherwise the
      records of the data rows under the columns the header row gives. */
  function SheetEntries(rows: seq<Row>, start: int): (es: seq<Entry>)
    ensures |rows| < 2 ==> es == []
    ensures |es| <= if |rows| < 2 then 0 else |rows| - 1
  {
    if |rows| < 2 then [] else Records(rows, SheetColumns(Headers(rows[0])), start)
  }

  /** The k-th record is built from the k-th kept row: it is stored and numbered `start + k`. */
  lemma RecordsNumbered(rows: seq<Row>, cols: Columns, start: int, k: int)
    requires |rows| >= 1 && 0 <= k < |Records(rows, cols, start)|
    ensures Records(rows, cols, start)[k] == Builder(cols)(Filter(rows[1..], Keeps(cols.concern))[k], start + k)
    ensures Records(rows, cols, start)[k].sNo == start + k
  {
    var kept := Filter(rows[1..], Keeps(cols.concern));
    assert Records(rows, cols, start) == MapIndexed(kept, Builder(cols), start);
    BuiltAt(kept, cols, start, k);
    BuilderFacts(cols, kept[k], start + k);
  }

  lemma BuilderStored(cols: Columns, row: Row, sNo: int)
    ensures Stored(Builder(cols)(row, sNo))
  {
    BuilderApplies(cols, row, sNo);
    BuildEntryStored(row, cols, sNo);
  }

  lemma BuiltAllStored(xs: seq<Row>, cols: Columns, start: int)
    ensures AllStored(MapIndexed(xs, Builder(cols), start))
  {
    forall row, sNo ensures IsStored()(Builder(cols)(row, sNo)) {
      BuilderStored(cols, row, sNo);
    }
    MapIndexedAll(xs, Builder(cols), start, IsStored());
  }

  /** Every record a sheet yields is held in its recomputed form. */
  lemma SheetEntriesStored(rows: seq<Row>, start: int)
    ensures AllStored(SheetEntries(rows, start))
  {
    if |rows| >= 2 {
      BuiltAllStored(Filter(rows[1..], Keeps(SheetColumns(Headers(rows[0])).concern)), SheetColumns(Headers(rows[0])), start);
    }
  }

  /** The records of a sheet are numbered `start`, `start + 1`, … in order. */
  lemma SheetEntriesNumbered(rows: seq<Row>, start: int)
    ensures forall k :: 0 <= k < |SheetEntries(rows, start)| ==> SheetEntries(rows, start)[k].sNo == start + k
  {
    if |rows| >= 2 {
      var cols := SheetColumns(Headers(rows[0]));
      forall k | 0 <= k < |SheetEntries(rows, start)| ensures SheetEntries(rows, start)[k].sNo == start + k {
        RecordsNumbered(rows, cols, start, k);
      }
    }
  }

  /** Every data row with cells and a concern text yields its record. */
  lemma RecordsKeepRowsWithConcern(rows: seq<Row>, cols: Columns, start: int, row: Row)
    requires |rows| >= 1 && row in rows[1..] && KeepRow(row, cols.concern)
    ensures exists k :: (0 <= k < |Records(rows, cols, start)|
      && Records(rows, cols, start)[k] == Builder(cols)(row, start + k))
  {
    var kept := Filter(rows[1..], Keeps(cols.concern));
    FilterMembership(rows[1..], Keeps(cols.concern), row);
    var k :| 0 <= k < |kept| && kept[k] == row;
    RecordsNumbered(rows, cols, start, k);
  }

  /** A data row without cells or without a concern text yields no record:
      every record is that of a kept row. */
  lemma RecordsComeFromKeptRows(rows: seq<Row>, cols: Columns, start: int, k: int)
    requires |rows| >= 1 && 0 <= k < |Records(rows, cols, start)|
    ensures exists row :: (row in rows[1..] && KeepRow(row, cols.concern)
      && Records(rows, cols, start)[k] == Builder(cols)(row, start + k))
  {
    var kept := Filter(rows[1..], Keeps(cols.concern));
    RecordsNumbered(rows, cols, start, k);
    FilterMembership(rows[1..], Keeps(cols.concern), kept[k]);
    assert Keeps(cols.concern)(kept[k]);
  }

  /** `parseSheet` from the decoded rows on: nothing for fewer than two rows;
      otherwise the header row is normalised, the columns located, and the
      data rows turned into records numbered from `startSNo`. */
  method ParseSheet(rows: seq<Row>, startSNo: int) returns (entries: seq<Entry>)
    ensures entries == SheetEntries(rows, startSNo)
  {
    if |rows| < 2 {
      return [];
    }
    var headers := Headers(rows[0]);
    var sourceCol := FindCol(headers, SourceNames);
    var stationCol := FindCol(headers, StationNames);
    var areaCol := FindCol(headers, AreaNames);
    var concernCol := FindCol(headers, ConcernNames);
    var drCol := FindCol(headers, RatingNames);
    var respCol := FindCol(headers, RespNames);
    var actionCol := FindCol(headers, ActionNames);
    var targetCol := FindCol(headers, TargetNames);
    var cols := Columns(sourceCol, stationCol, areaCol, concernCol, drCol, respCol, actionCol, targetCol);
    assert cols == SheetColumns(headers);
    entries := RowsToEntries(rows, cols.concern, Builder(cols), startSNo);
  }

  /** The row loop of `parseSheet`: skips empty rows and rows without a
      concern, and pushes the record `build` makes of every other row,
      numbered `startSNo` plus the number of records pushed before it. */
  method RowsToEntries(rows: seq<Row>, concernCol: int, build: (Row, int) -> Entry, startSNo: int)
    returns (entries: seq<Entry>)
    requires |rows| >= 1
    ensures entries == MapIndexed(Filter(rows[1..], Keeps(concernCol)), build, startSNo)
  {
    entries := [];
    ghost var kept: seq<Row> := [];
    var i := 1;
    while i < |rows|
      invariant 1 <= i <= |rows|
      invariant kept == Filter(rows[1..i], Keeps(concernCol))
      invariant entries == MapIndexed(kept, build, startSNo)
    {
      var row := rows[i];
      FilterNumberStep(rows, 1, i, Keeps(concernCol), build, startSNo, kept, entries);
      if |row| == 0 {
        i := i + 1;
        continue;
      }
      var concern := GetVal(row, concernCol);
      if concern == "" {
        i := i + 1;
        continue;
      }
      entries := entries + [build(row, startSNo + |entries|)];
      kept := kept + [row];
      i := i + 1;
    }
    assert rows[1..i] == rows[1..];
  }
}
