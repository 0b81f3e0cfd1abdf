/**
  The QA matrix page: the list of concern records it holds, the handlers that
  edit, delete, import and add records, the source and area choices it offers,
  and the filter that selects the records shown.
*/
module IndexPage {
  import opened Wrappers
  import opened Text
  import opened Seqs
  import opened QaTypes
  import opened QaCalculations
  import FileUpload

  // ---------------------------------------------------------------------------
  // Editing one record

  /** The fields the field handler writes: the defect rating, or one of the
      text fields. */
  datatype Field = DefectRating | Source | OperationStation | Designation | Concern | MfgAction | Resp | Target

  /** What a handler does to the record it targets. */
  datatype Edit =
    | Weekly(weekIndex: int, count: int)
    | Score(ref: ScoreRef, score: Option<int>)
    | SetField(field: Field, value: string)

  /** A defect rating typed in: the decimal form of 1, 3 or 5. */
  predicate RatingText(value: string)
  {
    ParseNat(value).Some? && IsDefectRating(ParseNat(value).value)
  }

  /** What the handlers expect of the record they edit: a week slot it has,
      and a rating text that reads as a rating. */
  predicate Fits(e: Entry, edit: Edit)
  {
    match edit
    case Weekly(w, _) => 0 <= w < |e.weeklyRecurrence|
    case Score(_, _) => true
    case SetField(f, v) => f == DefectRating ==> RatingText(v)
  }

  function TextOf(e: Entry, f: Field): string
    requires f != DefectRating
  {
    match f
    case Source => e.source
    case OperationStation => e.operationStation
    case Designation => e.designation
    case Concern => e.concern
    case MfgAction => e.mfgAction
    case Resp => e.resp
    case Target => e.target
  }

  /** The record with every text field blanked. */
  function WithoutText(e: Entry): Entry
  {
    e.(source := "", operationStation := "", designation := "", concern := "", mfgAction := "", resp := "", target := "")
  }

  /** `{ ...entry, [field]: value }` for a text field: that field holds the
      value, every other text field and every other field is as before. */
  function SetText(e: Entry, f: Field, v: string): (r: Entry)
    requires f != DefectRating
    ensures TextOf(r, f) == v
    ensures forall g :: g != DefectRating && g != f ==> TextOf(r, g) == TextOf(e, g)
    ensures WithoutText(r) == WithoutText(e)
  {
    match f
    case Source => e.(source := v)
    case OperationStation => e.(operationStation := v)
    case Designation => e.(designation := v)
    case Concern => e.(concern := v)
    case MfgAction => e.(mfgAction := v)
    case Resp => e.(resp := v)
    case Target => e.(target := v)
  }

  /** The record spread with the edited value, before any recomputation. */
  function Written(e: Entry, edit: Edit): (r: Entry)
    requires Fits(e, edit)
    ensures r.sNo == e.sNo
  {
    match edit
    case Weekly(w, c) => e.(weeklyRecurrence := e.weeklyRecurrence[w := c])
    case Score(ref, v) => SetScore(e, ref, v)
    case SetField(f, v) =>
      if f == DefectRating then e.(defectRating := ParseNat(v).value) else SetText(e, f, v)
  }

  /** Every edit recomputes the derived fields, except a text field's. */
  predicate Recomputes(edit: Edit)
  {
    !edit.SetField? || edit.field == DefectRating
  }

  /** The record after a handler's edit: the spread record, recomputed unless
      only a text field changed. */
  function Apply(e: Entry, edit: Edit): (r: Entry)
    requires Fits(e, edit)
    ensures !Recomputes(edit) ==> r == Written(e, edit)
  {
    var w := Written(e, edit);
    if Recomputes(edit) then RecalculateStatuses(w) else w
  }

  /** An edit keeps the record's number, and the edited record's inputs are
      those of the spread record: recomputation changes derived fields only. */
  lemma ApplyKeepsInputs(e: Entry, edit: Edit)
    requires Fits(e, edit)
    ensures Apply(e, edit).sNo == e.sNo
    ensures Inputs(Apply(e, edit)) == Inputs(Written(e, edit))
  {
    var w := Written(e, edit);
    assert Inputs(w).sNo == w.sNo;
  }

  /** A weekly edit sets that one slot, keeps the others and every other
      input, and recomputes the recurrence from the new slots. */
  lemma WeeklyEdit(e: Entry, w: int, c: int)
    requires 0 <= w < |e.weeklyRecurrence|
    ensures var r := Apply(e, Weekly(w, c));
      && |r.weeklyRecurrence| == |e.weeklyRecurrence| && r.weeklyRecurrence[w] == c
      && (forall j :: 0 <= j < |e.weeklyRecurrence| && j != w ==> r.weeklyRecurrence[j] == e.weeklyRecurrence[j])
      && Inputs(r).(weeklyRecurrence := e.weeklyRecurrence) == Inputs(e)
      && Consistent(r)
  {
    RecalculateIsConsistent(Written(e, Weekly(w, c)));
  }

  /** A score edit sets that one score, keeps every other score and every
      other input, and recomputes the ratings from the new scores. */
  lemma ScoreEdit(e: Entry, ref: ScoreRef, v: Option<int>)
    ensures var r := Apply(e, Score(ref, v));
      && ScoreAt(r, ref) == v
      && (forall other :: other != ref ==> ScoreAt(r, other) == ScoreAt(e, other))
      && Inputs(r).(trim := e.trim, chassis := e.chassis, final := e.final,
                    qControl := e.qControl, qControlDetail := e.qControlDetail) == Inputs(e)
      && Consistent(r)
  {
    var w := SetScore(e, ref, v);
    RecalculateIsConsistent(w);
    SameScores(RecalculateStatuses(w), w);
  }

  /** A rating edit sets the rating to the number typed, keeps every other
      input, and recomputes the statuses against the new rating. */
  lemma RatingEdit(e: Entry, v: string)
    requires RatingText(v)
    ensures var r := Apply(e, SetField(DefectRating, v));
      && r.defectRating == ParseNat(v).value && IsDefectRating(r.defectRating)
      && Inputs(r).(defectRating := e.defectRating) == Inputs(e)
      && Consistent(r)
  {
    RecalculateIsConsistent(Written(e, SetField(DefectRating, v)));
  }

  /** A text edit sets that field and nothing else: the derived fields are
      not recomputed, and putting the old text back gives the record back. */
  lemma TextEdit(e: Entry, f: Field, v: string)
    requires f != DefectRating
    ensures var r := Apply(e, SetField(f, v));
      && TextOf(r, f) == v
      && SetText(r, f, TextOf(e, f)) == e
  {
    var r := Apply(e, SetField(f, v));
    var back := SetText(r, f, TextOf(e, f));
    assert WithoutText(back) == WithoutText(e);
    assert TextOf(back, f) == TextOf(e, f);
    match f
    case Source =>
    case OperationStation =>
    case Designation =>
    case Concern =>
    case MfgAction =>
    case Resp =>
    case Target =>
  }

  /** An edit keeps a stored record stored: six slots, a rating of 1, 3 or 5,
      and derived fields that agree with the inputs (a text field feeds none). */
  lemma ApplyKeepsStored(e: Entry, edit: Edit)
    requires Stored(e) && Fits(e, edit)
    ensures Stored(Apply(e, edit))
  {
    match edit
    case Weekly(i, c) => WeeklyKeepsStored(e, i, c);
    case Score(ref, v) => ScoreKeepsStored(e, ref, v);
    case SetField(f, v) =>
      if f == DefectRating {
        RatingKeepsStored(e, v);
      } else {
        assert Apply(e, edit) == SetText(e, f, v);
        TextKeepsStored(e, f, v);
      }
  }

  lemma WeeklyKeepsStored(e: Entry, i: int, c: int)
    requires Stored(e) && 0 <= i < 6
    ensures Stored(Apply(e, Weekly(i, c)))
  {
    var w := e.(weeklyRecurrence := e.weeklyRecurrence[i := c]);
    assert Written(e, Weekly(i, c)) == w;
    RecomputedIsStored(w);
  }

  lemma ScoreKeepsStored(e: Entry, ref: ScoreRef, v: Option<int>)
    requires Stored(e)
    ensures Stored(Apply(e, Score(ref, v)))
  {
    var w := SetScore(e, ref, v);
    assert w.weeklyRecurrence == e.weeklyRecurrence && w.defectRating == e.defectRating;
    RecomputedIsStored(w);
  }

  lemma RatingKeepsStored(e: Entry, v: string)
    requires Stored(e) && RatingText(v)
    ensures Stored(Apply(e, SetField(DefectRating, v)))
  {
    var w := e.(defectRating := ParseNat(v).value);
    assert Written(e, SetField(DefectRating, v)) == w;
    RecomputedIsStored(w);
  }

  /** The derived fields read no text field. */
  lemma TextKeepsStored(e: Entry, f: Field, v: string)
    requires Stored(e) && f != DefectRating
    ensures Stored(SetText(e, f, v))
  {
    var r := SetText(e, f, v);
    assert WithoutText(r) == WithoutText(e);
    assert r.weeklyRecurrence == e.weeklyRecurrence && r.defectRating == e.defectRating;
    TableRatingReadsScores(r, e, Mfg);
    TableRatingReadsScores(r, e, Quality);
    TableRatingReadsScores(r, e, Plant);
  }

  /** Applying the same edit a second time changes nothing. */
  lemma ApplyIdempotent(e: Entry, edit: Edit)
    requires Fits(e, edit)
    ensures Fits(Apply(e, edit), edit)
    ensures Apply(Apply(e, edit), edit) == Apply(e, edit)
  {
    if Recomputes(edit) {
      RecomputingTwice(e, edit);
    } else {
      TextTwice(e, edit.field, edit.value);
    }
  }

  lemma RecomputingTwice(e: Entry, edit: Edit)
    requires Fits(e, edit) && Recomputes(edit)
    ensures Fits(Apply(e, edit), edit)
    ensures Apply(Apply(e, edit), edit) == Apply(e, edit)
  {
    RecalculateIdempotent(Written(e, edit));
    match edit
    case Weekly(i, c) => WeeklyRewritten(e, i, c);
    case Score(ref, v) => ScoreRewritten(e, ref, v);
    case SetField(f, v) => RatingRewritten(e, v);
  }

  /** The recomputed record already holds the week written. */
  lemma WeeklyRewritten(e: Entry, i: int, c: int)
    requires 0 <= i < |e.weeklyRecurrence|
    ensures Fits(Apply(e, Weekly(i, c)), Weekly(i, c))
    ensures Written(Apply(e, Weekly(i, c)), Weekly(i, c)) == Apply(e, Weekly(i, c))
  {
    var r := Apply(e, Weekly(i, c));
    assert r.weeklyRecurrence == e.weeklyRecurrence[i := c];
    assert r.weeklyRecurrence[i := c] == r.weeklyRecurrence;
  }

  /** The recomputed record already holds the score written. */
  lemma ScoreRewritten(e: Entry, ref: ScoreRef, v: Option<int>)
    ensures Written(Apply(e, Score(ref, v)), Score(ref, v)) == Apply(e, Score(ref, v))
  {
    var w := SetScore(e, ref, v);
    RecalculateKeepsFields(w);
    SetScoreTwice(e, ref, v);
    SetScoreNoOpByScores(RecalculateStatuses(w), w, ref, v);
  }

  /** The recomputed record already holds the rating written. */
  lemma RatingRewritten(e: Entry, v: string)
    requires RatingText(v)
    ensures Written(Apply(e, SetField(DefectRating, v)), SetField(DefectRating, v)) == Apply(e, SetField(DefectRating, v))
  {
    var r := Apply(e, SetField(DefectRating, v));
    assert r.defectRating == ParseNat(v).value;
  }

  lemma TextTwice(e: Entry, f: Field, v: string)
    requires f != DefectRating
    ensures SetText(SetText(e, f, v), f, v) == SetText(e, f, v)
  {
  }

  // ---------------------------------------------------------------------------
  // Editing the list

  /** Every record with number `sNo` fits the edit. */
  predicate FitsWhere(s: seq<Entry>, sNo: int, edit: Edit)
  {
    forall i :: 0 <= i < |s| && s[i].sNo == sNo ==> Fits(s[i], edit)
  }

  /** `prev.map(entry => entry.sNo !== sNo ? entry : edited(entry))`: the
      records keep their number and their place; those numbered `sNo` are
      edited and every other record is left as it is. */
  function UpdateWhere(s: seq<Entry>, sNo: int, edit: Edit): (r: seq<Entry>)
    requires FitsWhere(s, sNo, edit)
    ensures |r| == |s|
    ensures forall i :: 0 <= i < |s| ==> r[i].sNo == s[i].sNo
    ensures forall i :: 0 <= i < |s| && s[i].sNo != sNo ==> r[i] == s[i]
    ensures forall i :: 0 <= i < |s| && s[i].sNo == sNo ==> r[i] == Apply(s[i], edit)
  {
    seq(|s|, i requires 0 <= i < |s| => if s[i].sNo == sNo then Apply(s[i], edit) else s[i])
  }

  /** Editing keeps every record stored. */
  lemma UpdateKeepsStored(s: seq<Entry>, sNo: int, edit: Edit)
    requires AllStored(s) && FitsWhere(s, sNo, edit)
    ensures AllStored(UpdateWhere(s, sNo, edit))
  {
    var r := UpdateWhere(s, sNo, edit);
    forall i | 0 <= i < |r| ensures Stored(r[i]) {
      if s[i].sNo == sNo {
        ApplyKeepsStored(s[i], edit);
      }
    }
  }

  /** Sending the same edit twice has the effect of sending it once. */
  lemma UpdateIdempotent(s: seq<Entry>, sNo: int, edit: Edit)
    requires FitsWhere(s, sNo, edit)
    ensures FitsWhere(UpdateWhere(s, sNo, edit), sNo, edit)
    ensures UpdateWhere(UpdateWhere(s, sNo, edit), sNo, edit) == UpdateWhere(s, sNo, edit)
  {
    var r := UpdateWhere(s, sNo, edit);
    forall i | 0 <= i < |s| && s[i].sNo == sNo ensures Fits(r[i], edit) && Apply(r[i], edit) == r[i] {
      ApplyIdempotent(s[i], edit);
    }
  }

  /** The record numbers, in list order. */
  function SNos(s: seq<Entry>): (ns: seq<int>)
    ensures |ns| == |s|
  {
    seq(|s|, i requires 0 <= i < |s| => s[i].sNo)
  }

  function OtherThan(sNo: int): Entry -> bool
  {
    (e: Entry) => e.sNo != sNo
  }

  /** `prev.filter(entry => entry.sNo !== sNo)`: exactly the records numbered
      `sNo` go, each other record stays as often as it was there, in its order. */
  lemma DeleteRemovesExactly(s: seq<Entry>, sNo: int)
    ensures IsSubsequence(Filter(s, OtherThan(sNo)), s)
    ensures forall x :: x in Filter(s, OtherThan(sNo)) <==> x in s && x.sNo != sNo
    ensures forall x :: multiset(Filter(s, OtherThan(sNo)))[x] == if x.sNo != sNo then multiset(s)[x] else 0
  {
    FilterKeepsOrderAndCounts(s, OtherThan(sNo));
    forall x ensures x in Filter(s, OtherThan(sNo)) <==> x in s && x.sNo != sNo {
      FilterMembership(s, OtherThan(sNo), x);
    }
  }

  /** Deleting keeps every remaining record stored. */
  lemma DeleteKeepsStored(s: seq<Entry>, sNo: int)
    requires AllStored(s)
    ensures AllStored(Filter(s, OtherThan(sNo)))
  {
    FilterKeepsProperty(s, OtherThan(sNo), IsStored());
  }

  /** A list stays stored when stored records are appended, and only then. */
  lemma AppendStored(s: seq<Entry>, t: seq<Entry>)
    ensures AllStored(s + t) <==> AllStored(s) && AllStored(t)
  {
    var u := s + t;
    if AllStored(u) {
      forall i | 0 <= i < |s| ensures Stored(s[i]) {
        assert s[i] == u[i];
      }
      forall i | 0 <= i < |t| ensures Stored(t[i]) {
        assert t[i] == u[|s| + i];
      }
    }
    if AllStored(s) && AllStored(t) {
      forall i | 0 <= i < |u| ensures Stored(u[i]) {
        if i < |s| {
          assert u[i] == s[i];
        } else {
          assert u[i] == t[i - |s|];
        }
      }
    }
  }

  // ---------------------------------------------------------------------------
  // Record numbers

  /** No two records share a number. */
  predicate DistinctSNos(s: seq<Entry>)
  {
    forall i, j :: 0 <= i < j < |s| ==> s[i].sNo != s[j].sNo
  }

  function Number(): Entry -> int
  {
    (e: Entry) => e.sNo
  }

  /** The number the page hands to the import dialog as written: one more
      than the count of records. */
  function NextSNoAsWritten(s: seq<Entry>): int
  {
    |s| + 1
  }

  /** After deleting record 1 of the records 1 and 2, the number handed out
      next is 2, which the remaining record already carries. */
  lemma AsWrittenNextSNoClashes(e: Entry)
    ensures var after := Filter([e.(sNo := 1), e.(sNo := 2)], OtherThan(1));
      && after == [e.(sNo := 2)]
      && NextSNoAsWritten(after) == after[0].sNo
      && !DistinctSNos(after + [e.(sNo := NextSNoAsWritten(after))])
  {
    var one, two := e.(sNo := 1), e.(sNo := 2);
    FilterSnoc([], one, OtherThan(1));
    assert [] + [one] == [one];
    FilterSnoc([one], two, OtherThan(1));
    assert [one] + [two] == [one, two];
    var after := Filter([one, two], OtherThan(1));
    assert after == [two];
    var t := after + [e.(sNo := 2)];
    assert t[0].sNo == t[1].sNo;
  }

  /** The largest record number, 0 for no records. */
  function MaxSNo(s: seq<Entry>): (m: int)
    ensures m >= 0
    ensures forall i :: 0 <= i < |s| ==> s[i].sNo <= m
  {
    if s == [] then 0
    else
      var m := MaxSNo(s[..|s| - 1]);
      if s[|s| - 1].sNo > m then s[|s| - 1].sNo else m
  }

  /** The number the next record gets: above every number in use. */
  function NextSNo(s: seq<Entry>): (n: int)
    ensures n >= 1
    ensures forall i :: 0 <= i < |s| ==> s[i].sNo < n
  {
    MaxSNo(s) + 1
  }

  /** While the records are numbered 1, 2, … in order, as before any delete,
      the corrected number is the one the page computes. */
  lemma {:induction false} NextSNoAgreesWhileDense(s: seq<Entry>)
    requires forall i :: 0 <= i < |s| ==> s[i].sNo == i + 1
    ensures NextSNo(s) == NextSNoAsWritten(s)
  {
    if s != [] {
      NextSNoAgreesWhileDense(s[..|s| - 1]);
    }
  }

  /** Importing a sheet numbered from `NextSNo` keeps the numbers distinct. */
  lemma ImportKeepsSNosDistinct(s: seq<Entry>, rows: seq<FileUpload.Row>)
    requires DistinctSNos(s)
    ensures DistinctSNos(s + FileUpload.SheetEntries(rows, NextSNo(s)))
  {
    var start := NextSNo(s);
    var t := FileUpload.SheetEntries(rows, start);
    FileUpload.SheetEntriesNumbered(rows, start);
    var u := s + t;
    forall i, j | 0 <= i < j < |u| ensures u[i].sNo != u[j].sNo {
      if j >= |s| {
        assert u[j] == t[j - |s|];
        if i >= |s| {
          assert u[i] == t[i - |s|];
        }
      }
    }
  }

  // ---------------------------------------------------------------------------
  // Source and area choices

  function SourceColumn(s: seq<Entry>): seq<string>
  {
    seq(|s|, i requires 0 <= i < |s| => s[i].source)
  }

  function DesignationColumn(s: seq<Entry>): seq<string>
  {
    seq(|s|, i requires 0 <= i < |s| => Upper(s[i].designation))
  }

  /** The source choices: every source in use once, in increasing order. */
  function Sources(s: seq<Entry>): (r: seq<string>)
    ensures StrictlySorted(r)
    ensures forall y :: y in r <==> exists i :: 0 <= i < |s| && s[i].source == y
  {
    var col := SourceColumn(s);
    assert forall i :: 0 <= i < |s| ==> col[i] == s[i].source;
    SortedDistinct(col)
  }

  /** The area choices: every designation in use, upper-cased, once, in
      increasing order. */
  function Designations(s: seq<Entry>): (r: seq<string>)
    ensures StrictlySorted(r)
    ensures forall y :: y in r <==> exists i :: 0 <= i < |s| && Upper(s[i].designation) == y
  {
    var col := DesignationColumn(s);
    assert forall i :: 0 <= i < |s| ==> col[i] == Upper(s[i].designation);
    SortedDistinct(col)
  }

  /** Any sorted list of distinct values that holds exactly the sources in
      use is the source choice list. */
  lemma SourcesAreUnique(s: seq<Entry>, r: seq<string>)
    requires StrictlySorted(r)
    requires forall y :: y in r <==> exists i :: 0 <= i < |s| && s[i].source == y
    ensures r == Sources(s)
  {
    StrictlySortedUnique(r, Sources(s));
  }

  function FromSource(source: string): Entry -> bool
  {
    (e: Entry) => e.source == source
  }

  function InDesignation(designation: string): Entry -> bool
  {
    (e: Entry) => Upper(e.designation) == designation
  }

  /** Picking a source offered shows at least one record. */
  lemma SourceChoiceShowsRecords(s: seq<Entry>, source: string)
    requires source in Sources(s)
    ensures |Filter(s, FromSource(source))| > 0
  {
    var i :| 0 <= i < |s| && s[i].source == source;
    FilterMembership(s, FromSource(source), s[i]);
  }

  /** Picking an area offered shows at least one record. */
  lemma DesignationChoiceShowsRecords(s: seq<Entry>, designation: string)
    requires designation in Designations(s)
    ensures |Filter(s, InDesignation(designation))| > 0
  {
    var i :| 0 <= i < |s| && Upper(s[i].designation) == designation;
    FilterMembership(s, InDesignation(designation), s[i]);
  }

  // ---------------------------------------------------------------------------
  // The filter

  /** The filter inputs as the page holds them; an empty text is no filter. */
  datatype Criteria = Criteria(searchTerm: string, source: string, designation: string, rating: string, status: string)

  /** The search matches the concern, the station or the record number. */
  predicate SearchMatches(term: string, e: Entry)
  {
    || Contains(Lower(e.concern), term)
    || Contains(Lower(e.operationStation), term)
    || Contains(IntToString(e.sNo), term)
  }

  predicate HasNG(e: Entry)
  {
    e.workstationStatus == NG || e.mfgStatus == NG || e.plantStatus == NG
  }

  predicate AllOK(e: Entry)
  {
    e.workstationStatus == OK && e.mfgStatus == OK && e.plantStatus == OK
  }

  /** Whether a record is shown: it passes every filter that is set. A status
      filter other than "NG" and "OK" filters nothing; a rating that is not a
      number matches no record. */
  predicate Selected(c: Criteria, e: Entry)
  {
    && (c.searchTerm != "" ==> SearchMatches(Lower(c.searchTerm), e))
    && (c.source != "" ==> e.source == c.source)
    && (c.designation != "" ==> Upper(e.designation) == c.designation)
    && (c.rating != "" ==> ParseNat(c.rating).Some? && e.defectRating == ParseNat(c.rating).value)
    && (c.status == "NG" ==> HasNG(e))
    && (c.status == "OK" ==> AllOK(e))
  }

  function SelectedBy(c: Criteria): Entry -> bool
  {
    (e: Entry) => Selected(c, e)
  }

  /** The first `k` filters of the chain, in the page's order. */
  predicate PassesFirst(c: Criteria, e: Entry, k: nat)
    requires k <= 6
  {
    && (k >= 1 && c.searchTerm != "" ==> SearchMatches(Lower(c.searchTerm), e))
    && (k >= 2 && c.source != "" ==> e.source == c.source)
    && (k >= 3 && c.designation != "" ==> Upper(e.designation) == c.designation)
    && (k >= 4 && c.rating != "" ==> ParseNat(c.rating).Some? && e.defectRating == ParseNat(c.rating).value)
    && (k >= 5 && c.status == "NG" ==> HasNG(e))
    && (k >= 6 && c.status == "OK" ==> AllOK(e))
  }

  function First(c: Criteria, k: nat): Entry -> bool
    requires k <= 6
  {
    (e: Entry) => PassesFirst(c, e, k)
  }

  function SearchHit(term: string): Entry -> bool
  {
    (e: Entry) => SearchMatches(term, e)
  }

  function WithRating(rating: Option<nat>): Entry -> bool
  {
    (e: Entry) => rating.Some? && e.defectRating == rating.value
  }

  function NGOnly(): Entry -> bool
  {
    (e: Entry) => HasNG(e)
  }

  function OKOnly(): Entry -> bool
  {
    (e: Entry) => AllOK(e)
  }

  lemma AllStages(c: Criteria)
    ensures forall e :: First(c, 0)(e)
    ensures forall e :: First(c, 6)(e) == SelectedBy(c)(e)
  {
  }

  /** Before any stage, every record is kept. */
  lemma ChainStartsWithAll(data: seq<Entry>, c: Criteria)
    ensures Filter(data, First(c, 0)) == data
  {
    AllStages(c);
    FilterAllPass(data, First(c, 0));
  }

  /** After the six stages, the records kept are those selected. */
  lemma ChainEndsSelected(data: seq<Entry>, c: Criteria)
    ensures Filter(data, First(c, 6)) == Filter(data, SelectedBy(c))
  {
    AllStages(c);
    FilterCongruent(data, First(c, 6), SelectedBy(c));
  }

  /** Whether stage `k` of the chain (1 to 6) is switched on. */
  predicate StageOn(c: Criteria, k: nat)
  {
    match k
    case 1 => c.searchTerm != ""
    case 2 => c.source != ""
    case 3 => c.designation != ""
    case 4 => c.rating != ""
    case 5 => c.status == "NG"
    case _ => c.status == "OK"
  }

  /** The test stage `k` puts each record to when it is switched on. */
  function StageTest(c: Criteria, k: nat): Entry -> bool
  {
    match k
    case 1 => SearchHit(Lower(c.searchTerm))
    case 2 => FromSource(c.source)
    case 3 => InDesignation(c.designation)
    case 4 => WithRating(ParseNat(c.rating))
    case 5 => NGOnly()
    case _ => OKOnly()
  }

  /** Stage `k` applied to the records `xs` left by the stages before it. */
  function Stage(xs: seq<Entry>, c: Criteria, k: nat): seq<Entry>
  {
    if StageOn(c, k) then Filter(xs, StageTest(c, k)) else xs
  }

  /** Stage `k` turns the records passing the first `k - 1` stages into those
      passing the first `k`. */
  lemma StageStep(data: seq<Entry>, c: Criteria, k: nat, result: seq<Entry>)
    requires 1 <= k <= 6 && result == Filter(data, First(c, k - 1))
    ensures Stage(result, c, k) == Filter(data, First(c, k))
  {
    forall i | 0 <= i < |data|
      ensures First(c, k)(data[i]) == (First(c, k - 1)(data[i]) && (!StageOn(c, k) || StageTest(c, k)(data[i])))
    {
    }
    FilterNarrow(data, result, First(c, k - 1), StageTest(c, k), First(c, k), StageOn(c, k));
  }

  /** The records left after the first `k` stages of the chain, each stage
      that is switched on narrowing what the one before left. */
  function Chain(data: seq<Entry>, c: Criteria, k: nat): seq<Entry>
    requires k <= 6
  {
    if k == 0 then data else Stage(Chain(data, c, k - 1), c, k)
  }

  /** The chain, stage by stage, keeps exactly the records that pass every
      filter set. */
  lemma ChainIsSelected(data: seq<Entry>, c: Criteria)
    ensures Chain(data, c, 6) == Filter(data, SelectedBy(c))
  {
    ChainStartsWithAll(data, c);
    ChainStep(data, c, 1);
    ChainStep(data, c, 2);
    ChainStep(data, c, 3);
    ChainStep(data, c, 4);
    ChainStep(data, c, 5);
    ChainStep(data, c, 6);
    ChainEndsSelected(data, c);
  }

  /** Stage `k` carries the records passing the first `k - 1` filters to
      those passing the first `k`. */
  lemma ChainStep(data: seq<Entry>, c: Criteria, k: nat)
    requires 1 <= k <= 6 && Chain(data, c, k - 1) == Filter(data, First(c, k - 1))
    ensures Chain(data, c, k) == Filter(data, First(c, k))
  {
    StageStep(data, c, k, Chain(data, c, k - 1));
  }

  /** `filteredData`: the records that pass every filter set, in list order. */
  method FilteredData(data: seq<Entry>, c: Criteria) returns (result: seq<Entry>)
    ensures result == Filter(data, SelectedBy(c))
  {
    result := data;
    if c.searchTerm != "" {
      var term := Lower(c.searchTerm);
      result := Filter(result, SearchHit(term));
    }
    assert result == Chain(data, c, 1);
    if c.source != "" {
      result := Filter(result, FromSource(c.source));
    }
    assert result == Chain(data, c, 2);
    if c.designation != "" {
      result := Filter(result, InDesignation(c.designation));
    }
    assert result == Chain(data, c, 3);
    if c.rating != "" {
      result := Filter(result, WithRating(ParseNat(c.rating)));
    }
    assert result == Chain(data, c, 4);
    if c.status == "NG" {
      result := Filter(result, NGOnly());
    }
    assert result == Chain(data, c, 5);
    if c.status == "OK" {
      result := Filter(result, OKOnly());
    }
    assert result == Chain(data, c, 6);
    ChainIsSelected(data, c);
  }

  /** The shown records are records of the list, in list order, and a record
      is shown exactly when it passes every filter set. */
  lemma FilterShowsExactlySelected(data: seq<Entry>, c: Criteria)
    ensures IsSubsequence(Filter(data, SelectedBy(c)), data)
    ensures forall x :: x in Filter(data, SelectedBy(c)) <==> x in data && Selected(c, x)
  {
    FilterKeepsOrderAndCounts(data, SelectedBy(c));
    forall x ensures x in Filter(data, SelectedBy(c)) <==> x in data && Selected(c, x) {
      FilterMembership(data, SelectedBy(c), x);
    }
  }

  /** With no filter set, or only a status other than "NG" and "OK", every
      record is shown. */
  lemma NoCriteriaShowsAll(data: seq<Entry>, c: Criteria)
    requires c.searchTerm == "" && c.source == "" && c.designation == "" && c.rating == ""
    requires c.status != "NG" && c.status != "OK"
    ensures Filter(data, SelectedBy(c)) == data
  {
    FilterAllPass(data, SelectedBy(c));
  }

  /** Searching for a record's number shows that record. */
  lemma SearchFindsSNo(data: seq<Entry>, e: Entry)
    requires e in data
    ensures e in Filter(data, SelectedBy(Criteria(IntToString(e.sNo), "", "", "", "")))
  {
    var c := Criteria(IntToString(e.sNo), "", "", "", "");
    LowerIntToString(e.sNo);
    ContainsItself(IntToString(e.sNo));
    IntToStringNonEmpty(e.sNo);
    FilterMembership(data, SelectedBy(c), e);
  }

  /** Choosing a record's defect rating in the rating filter shows that record. */
  lemma RatingFindsRecord(data: seq<Entry>, e: Entry)
    requires e in data && e.defectRating >= 0
    ensures e in Filter(data, SelectedBy(Criteria("", "", "", NatToString(e.defectRating), "")))
  {
    var c := Criteria("", "", "", NatToString(e.defectRating), "");
    ParseNatToString(e.defectRating);
    FilterMembership(data, SelectedBy(c), e);
  }

  /** Filtering the shown records again by the same criteria shows the same records. */
  lemma FilteringTwiceShowsSame(data: seq<Entry>, c: Criteria)
    ensures Filter(Filter(data, SelectedBy(c)), SelectedBy(c)) == Filter(data, SelectedBy(c))
  {
    FilterIdempotent(data, SelectedBy(c));
  }

  /** A rating filter that is not a number shows nothing. */
  lemma UnreadableRatingShowsNothing(data: seq<Entry>, c: Criteria)
    requires c.rating != "" && ParseNat(c.rating) == None
    ensures Filter(data, SelectedBy(c)) == []
  {
    FilterNonePass(data, SelectedBy(c));
  }

  /** The "Has NG" and "All OK" choices split the records the other filters
      show into two parts. */
  lemma StatusFiltersSplit(data: seq<Entry>, search: string, source: string, designation: string, rating: string)
    ensures |Filter(data, SelectedBy(Criteria(search, source, designation, rating, "NG")))|
          + |Filter(data, SelectedBy(Criteria(search, source, designation, rating, "OK")))|
         == |Filter(data, SelectedBy(Criteria(search, source, designation, rating, "")))|
  {
    FilterSplit(data, SelectedBy(Criteria(search, source, designation, rating, "NG")),
                SelectedBy(Criteria(search, source, designation, rating, "OK")),
                SelectedBy(Criteria(search, source, designation, rating, "")));
  }

  /** For a stored record, "Has NG" means a week recurred or the MFG or the
      Plant rating falls short of the defect rating. */
  lemma NGMeansShortfall(e: Entry)
    requires Stored(e)
    ensures HasNG(e) <==> (HasRecurrence(e.weeklyRecurrence)
                       || TableRating(e, Mfg) < e.defectRating
                       || TableRating(e, Plant) < e.defectRating)
  {
  }

  // ---------------------------------------------------------------------------
  // The page state

  /** The list of records the page holds. */
  class ConcernList {
    var data: seq<Entry>

    /** Every record is held in its recomputed form. */
    ghost predicate Valid()
      reads this
    {
      AllStored(data)
    }

    /** The list as loaded. */
    constructor (initial: seq<Entry>)
      ensures data == initial
      ensures Valid() <==> AllStored(initial)
    {
      data := initial;
    }

    /** `handleWeeklyUpdate`: sets week `weekIndex` of the records numbered `sNo`. */
    method UpdateWeekly(sNo: int, weekIndex: int, value: int)
      modifies this
      requires FitsWhere(data, sNo, Weekly(weekIndex, value))
      ensures data == UpdateWhere(old(data), sNo, Weekly(weekIndex, value))
      ensures old(Valid()) ==> Valid()
      ensures SNos(data) == SNos(old(data))
    {
      if Valid() {
        UpdateKeepsStored(data, sNo, Weekly(weekIndex, value));
      }
      data := UpdateWhere(data, sNo, Weekly(weekIndex, value));
    }

    /** `handleScoreUpdate`: sets one score field of the records numbered `sNo`. */
    method UpdateScore(sNo: int, ref: ScoreRef, value: Option<int>)
      modifies this
      ensures data == UpdateWhere(old(data), sNo, Score(ref, value))
      ensures old(Valid()) ==> Valid()
      ensures SNos(data) == SNos(old(data))
    {
      if Valid() {
        UpdateKeepsStored(data, sNo, Score(ref, value));
      }
      data := UpdateWhere(data, sNo, Score(ref, value));
    }

    /** `handleFieldUpdate`: sets the rating or a text field of the records
        numbered `sNo`. */
    method UpdateField(sNo: int, field: Field, value: string)
      modifies this
      requires field == DefectRating ==> RatingText(value)
      ensures data == UpdateWhere(old(data), sNo, SetField(field, value))
      ensures old(Valid()) ==> Valid()
      ensures SNos(data) == SNos(old(data))
    {
      if Valid() {
        UpdateKeepsStored(data, sNo, SetField(field, value));
      }
      data := UpdateWhere(data, sNo, SetField(field, value));
    }

    /** `handleDeleteEntry`: drops the records numbered `sNo`. */
    method Delete(sNo: int)
      modifies this
      ensures data == Filter(old(data), OtherThan(sNo))
      ensures old(Valid()) ==> Valid()
      ensures old(DistinctSNos(data)) ==> DistinctSNos(data)
    {
      if Valid() {
        DeleteKeepsStored(data, sNo);
      }
      if DistinctSNos(data) {
        assert DistinctKeys(data, Number());
        FilterKeepsDistinct(data, OtherThan(sNo), Number());
      }
      data := Filter(data, OtherThan(sNo));
    }

    /** `handleFileImport`: appends the imported records. */
    method Import(entries: seq<Entry>)
      modifies this
      ensures data == old(data) + entries
      ensures Valid() <==> old(Valid()) && AllStored(entries)
    {
      AppendStored(data, entries);
      data := data + entries;
    }

    /** `handleAddConcern`: appends one record. */
    method AddConcern(entry: Entry)
      modifies this
      ensures data == old(data) + [entry]
      ensures Valid() <==> old(Valid()) && Stored(entry)
    {
      AppendStored(data, [entry]);
      assert [entry][0] == entry;
      assert AllStored([entry]) <==> Stored(entry);
      data := data + [entry];
    }

    /** The import dialog's flow: parse the sheet numbered from the next free
        number and, when it yields records, import them. */
    method ImportSheet(rows: seq<FileUpload.Row>)
      modifies this
      ensures data == old(data) + FileUpload.SheetEntries(rows, NextSNo(old(data)))
      ensures old(Valid()) ==> Valid()
      ensures old(DistinctSNos(data)) ==> DistinctSNos(data)
    {
      var entries := FileUpload.ParseSheet(rows, NextSNo(data));
      FileUpload.SheetEntriesStored(rows, NextSNo(data));
      if DistinctSNos(data) {
        ImportKeepsSNosDistinct(data, rows);
      }
      if |entries| > 0 {
        Import(entries);
      } else {
        assert data + entries == data;
      }
    }
  }
}
