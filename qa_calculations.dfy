/**
  The recomputation engine: the three control ratings, the recurrence totals
  and the three OK/NG statuses of a record.

  Besides the computation as the source writes it (per-group value lists
  concatenated and summed, with ResidualTorque split off the final group),
  the module gives an independent reference: a routing table that says, for
  every score field, which ratings it feeds. `TableMatchesCode` proves the two
  agree; `Consistent` states what a recomputed record looks like in terms of
  the table.
*/
module QaCalculations {
  import opened Wrappers
  import opened QaTypes

  // ---------------------------------------------------------------------------
  // Sums

  /** `sumNonNull`: the left-to-right sum of the values, null counted as 0. */
  function SumNonNull(values: seq<Option<int>>): int
  {
    if values == [] then 0 else SumNonNull(values[..|values| - 1]) + OrZero(values[|values| - 1])
  }

  /** `reduce((a, b) => a + b, 0)` over the weekly counts. */
  function Total(ws: seq<int>): int
  {
    if ws == [] then 0 else Total(ws[..|ws| - 1]) + ws[|ws| - 1]
  }

  lemma {:induction false} SumNonNullAppend(a: seq<Option<int>>, b: seq<Option<int>>)
    ensures SumNonNull(a + b) == SumNonNull(a) + SumNonNull(b)
    decreases |b|
  {
    if b == [] {
      assert a + b == a;
    } else {
      SumNonNullAppend(a, b[..|b| - 1]);
      assert (a + b)[..|a + b| - 1] == a + b[..|b| - 1];
    }
  }

  lemma {:induction false} SumNonNullAllNull(a: seq<Option<int>>)
    requires forall i :: 0 <= i < |a| ==> a[i] == None
    ensures SumNonNull(a) == 0
  {
    if a != [] {
      SumNonNullAllNull(a[..|a| - 1]);
    }
  }

  /** Raising values (null read as 0) never lowers the sum. */
  lemma {:induction false} SumNonNullMonotone(a: seq<Option<int>>, b: seq<Option<int>>)
    requires |a| == |b|
    requires forall i :: 0 <= i < |a| ==> OrZero(a[i]) <= OrZero(b[i])
    ensures SumNonNull(a) <= SumNonNull(b)
  {
    if a != [] {
      SumNonNullMonotone(a[..|a| - 1], b[..|b| - 1]);
    }
  }

  // ---------------------------------------------------------------------------
  // The ratings as the source computes them

  /** `Object.values(group)`: the nullable score of every check of the group. */
  function Values<K>(m: Scores<K>, keys: seq<K>): (vs: seq<Option<int>>)
    ensures |vs| == |keys|
  {
    seq(|keys|, i requires 0 <= i < |keys| => Lookup(m, keys[i]))
  }

  function GroupSum<K>(m: Scores<K>, keys: seq<K>): int
  {
    SumNonNull(Values(m, keys))
  }

  /** MFG control rating: trim, chassis and final scores without ResidualTorque. */
  function MfgRating(e: Entry): int
  {
    SumNonNull(Values(e.trim, TrimKeys) + Values(e.chassis, ChassisKeys) + Values(e.final, FinalMfgKeys))
  }

  /** Quality control rating: the Q'Control scores. */
  function QualityRating(e: Entry): int
  {
    SumNonNull(Values(e.qControl, QControlKeys))
  }

  /** Plant control rating: ResidualTorque, the Q'Control and the Q'Control detail scores. */
  function PlantRating(e: Entry): int
  {
    SumNonNull([Lookup(e.final, ResidualTorque)] + Values(e.qControl, QControlKeys)
               + Values(e.qControlDetail, QControlDetailKeys))
  }

  /** `weeklyRecurrence.some(w => w > 0)`. */
  predicate HasRecurrence(ws: seq<int>)
  {
    exists i :: 0 <= i < |ws| && ws[i] > 0
  }

  /** `recalculateStatuses`: recomputes the derived fields and copies every
      other field. The Workstation status is never more lenient than the MFG
      status, and any weekly recurrence makes it NG. */
  function RecalculateStatuses(e: Entry): (r: Entry)
    ensures Inputs(r) == Inputs(e)
    ensures r.recurrenceCountPlusDefect == e.defectRating + r.recurrence
    ensures HasRecurrence(e.weeklyRecurrence) ==> r.workstationStatus == NG
    ensures r.workstationStatus == OK ==> r.mfgStatus == OK
  {
    var dr := e.defectRating;
    var recurrence := Total(e.weeklyRecurrence);
    var mfg := MfgRating(e);
    var quality := QualityRating(e);
    var plant := PlantRating(e);
    var ws := if HasRecurrence(e.weeklyRecurrence) then NG else (if mfg >= dr then OK else NG);
    var mfgStatus := if mfg >= dr then OK else NG;
    var plantStatus := if plant >= dr then OK else NG;
    e.(recurrence := recurrence,
       recurrenceCountPlusDefect := dr + recurrence,
       controlRating := ControlRating(mfg, quality, plant),
       workstationStatus := ws,
       mfgStatus := mfgStatus,
       plantStatus := plantStatus)
  }

  // ---------------------------------------------------------------------------
  // The routing table: which score field feeds which rating

  datatype Level = Mfg | Quality | Plant

  function Feeds(ref: ScoreRef, level: Level): bool
  {
    match ref
    case Trim(_) => level == Mfg
    case Chassis(_) => level == Mfg
    case Final(k) => if k == ResidualTorque then level == Plant else level == Mfg
    case QControl(_) => level == Quality || level == Plant
    case QControlDetail(_) => level == Plant
  }

  function TrimRefs(): seq<ScoreRef>
  {
    seq(|TrimKeys|, i requires 0 <= i < |TrimKeys| => Trim(TrimKeys[i]))
  }

  function ChassisRefs(): seq<ScoreRef>
  {
    seq(|ChassisKeys|, i requires 0 <= i < |ChassisKeys| => Chassis(ChassisKeys[i]))
  }

  function FinalMfgRefs(): seq<ScoreRef>
  {
    seq(|FinalMfgKeys|, i requires 0 <= i < |FinalMfgKeys| => Final(FinalMfgKeys[i]))
  }

  function QControlRefs(): seq<ScoreRef>
  {
    seq(|QControlKeys|, i requires 0 <= i < |QControlKeys| => QControl(QControlKeys[i]))
  }

  function QControlDetailRefs(): seq<ScoreRef>
  {
    seq(|QControlDetailKeys|, i requires 0 <= i < |QControlDetailKeys| => QControlDetail(QControlDetailKeys[i]))
  }

  /** Every score field of a record, each once. */
  function AllRefs(): seq<ScoreRef>
  {
    TrimRefs() + ChassisRefs() + FinalMfgRefs() + [Final(ResidualTorque)] + QControlRefs() + QControlDetailRefs()
  }

  /** The scores of `refs` that feed `level`; the others read as null. */
  function Routed(e: Entry, refs: seq<ScoreRef>, level: Level): (vs: seq<Option<int>>)
    ensures |vs| == |refs|
  {
    seq(|refs|, i requires 0 <= i < |refs| => if Feeds(refs[i], level) then ScoreAt(e, refs[i]) else None)
  }

  /** A rating read off the routing table: the sum of the fields that feed it. */
  function TableRating(e: Entry, level: Level): int
  {
    SumNonNull(Routed(e, AllRefs(), level))
  }

  /** What a recomputed record looks like: its derived fields are the table
      ratings, the totals of its weekly counts, and the statuses those give;
      the Workstation status equals the MFG status unless a week recurred. */
  predicate Consistent(e: Entry)
  {
    && e.recurrence == Total(e.weeklyRecurrence)
    && e.recurrenceCountPlusDefect == e.defectRating + e.recurrence
    && e.controlRating == ControlRating(TableRating(e, Mfg), TableRating(e, Quality), TableRating(e, Plant))
    && e.mfgStatus == (if e.controlRating.mfg >= e.defectRating then OK else NG)
    && e.plantStatus == (if e.controlRating.plant >= e.defectRating then OK else NG)
    && e.workstationStatus == (if HasRecurrence(e.weeklyRecurrence) then NG else e.mfgStatus)
  }

  /** A record as the page keeps it: six weekly slots, a defect rating of 1, 3
      or 5, and derived fields recomputed from its inputs. */
  predicate Stored(e: Entry)
  {
    |e.weeklyRecurrence| == 6 && IsDefectRating(e.defectRating) && Consistent(e)
  }

  /** Recomputing a record with six slots and a valid rating stores it. */
  lemma RecomputedIsStored(e: Entry)
    requires |e.weeklyRecurrence| == 6 && IsDefectRating(e.defectRating)
    ensures Stored(RecalculateStatuses(e))
  {
    RecalculateIsConsistent(e);
    RecalculateKeepsFields(e);
  }

  /** Every record of a list is stored. */
  predicate AllStored(es: seq<Entry>)
  {
    forall i :: 0 <= i < |es| ==> Stored(es[i])
  }

  function IsStored(): Entry -> bool
  {
    e => Stored(e)
  }

  // ---------------------------------------------------------------------------
  // The table against the code

  lemma RoutedAppend(e: Entry, a: seq<ScoreRef>, b: seq<ScoreRef>, level: Level)
    ensures Routed(e, a + b, level) == Routed(e, a, level) + Routed(e, b, level)
  {
  }

  /** A group that does not feed `level` adds nothing to it. */
  lemma SilentGroup(e: Entry, refs: seq<ScoreRef>, level: Level)
    requires forall i :: 0 <= i < |refs| ==> !Feeds(refs[i], level)
    ensures SumNonNull(Routed(e, refs, level)) == 0
  {
    SumNonNullAllNull(Routed(e, refs, level));
  }

  /** The table ratings split group by group. */
  lemma TableByGroup(e: Entry, level: Level)
    ensures TableRating(e, level)
         == SumNonNull(Routed(e, TrimRefs(), level)) + SumNonNull(Routed(e, ChassisRefs(), level))
          + SumNonNull(Routed(e, FinalMfgRefs(), level)) + SumNonNull(Routed(e, [Final(ResidualTorque)], level))
          + SumNonNull(Routed(e, QControlRefs(), level)) + SumNonNull(Routed(e, QControlDetailRefs(), level))
  {
    var t, c, f, rt, q, d := TrimRefs(), ChassisRefs(), FinalMfgRefs(), [Final(ResidualTorque)], QControlRefs(), QControlDetailRefs();
    RoutedAppend(e, t, c, level);
    RoutedAppend(e, t + c, f, level);
    RoutedAppend(e, t + c + f, rt, level);
    RoutedAppend(e, t + c + f + rt, q, level);
    RoutedAppend(e, t + c + f + rt + q, d, level);
    var T, C, F, RT, Q, D :=
      Routed(e, t, level), Routed(e, c, level), Routed(e, f, level),
      Routed(e, rt, level), Routed(e, q, level), Routed(e, d, level);
    assert Routed(e, AllRefs(), level) == T + C + F + RT + Q + D;
    SumNonNullAppend(T, C);
    SumNonNullAppend(T + C, F);
    SumNonNullAppend(T + C + F, RT);
    SumNonNullAppend(T + C + F + RT, Q);
    SumNonNullAppend(T + C + F + RT + Q, D);
  }

  /** The trim, chassis and non-torque final groups feed MFG with their values. */
  lemma MfgGroupsRouted(e: Entry)
    ensures Routed(e, TrimRefs(), Mfg) == Values(e.trim, TrimKeys)
    ensures Routed(e, ChassisRefs(), Mfg) == Values(e.chassis, ChassisKeys)
    ensures Routed(e, FinalMfgRefs(), Mfg) == Values(e.final, FinalMfgKeys)
  {
    assert ResidualTorque !in FinalMfgKeys;
    forall i | 0 <= i < |FinalMfgKeys| ensures FinalMfgKeys[i] != ResidualTorque {
      assert FinalMfgKeys[i] in FinalMfgKeys;
    }
  }

  /** The table gives the MFG rating the source computes. */
  lemma TableMatchesMfg(e: Entry)
    ensures TableRating(e, Mfg) == MfgRating(e)
  {
    var trim, chassis, fin := Values(e.trim, TrimKeys), Values(e.chassis, ChassisKeys), Values(e.final, FinalMfgKeys);
    TableByGroup(e, Mfg);
    MfgGroupsRouted(e);
    SilentGroup(e, [Final(ResidualTorque)], Mfg);
    SilentGroup(e, QControlRefs(), Mfg);
    SilentGroup(e, QControlDetailRefs(), Mfg);
    SumNonNullAppend(trim, chassis);
    SumNonNullAppend(trim + chassis, fin);
  }

  /** The table gives the Quality rating the source computes. */
  lemma TableMatchesQuality(e: Entry)
    ensures TableRating(e, Quality) == QualityRating(e)
  {
    TableByGroup(e, Quality);
    SilentGroup(e, TrimRefs(), Quality);
    SilentGroup(e, ChassisRefs(), Quality);
    SilentGroup(e, FinalMfgRefs(), Quality);
    SilentGroup(e, [Final(ResidualTorque)], Quality);
    assert Routed(e, QControlRefs(), Quality) == Values(e.qControl, QControlKeys);
    SilentGroup(e, QControlDetailRefs(), Quality);
  }

  /** ResidualTorque and the two Q'Control groups feed Plant with their values. */
  lemma PlantGroupsRouted(e: Entry)
    ensures Routed(e, [Final(ResidualTorque)], Plant) == [Lookup(e.final, ResidualTorque)]
    ensures Routed(e, QControlRefs(), Plant) == Values(e.qControl, QControlKeys)
    ensures Routed(e, QControlDetailRefs(), Plant) == Values(e.qControlDetail, QControlDetailKeys)
  {
  }

  /** The table gives the Plant rating the source computes. */
  lemma TableMatchesPlant(e: Entry)
    ensures TableRating(e, Plant) == PlantRating(e)
  {
    var q, d := Values(e.qControl, QControlKeys), Values(e.qControlDetail, QControlDetailKeys);
    var torque := [Lookup(e.final, ResidualTorque)];
    TableByGroup(e, Plant);
    SilentGroup(e, TrimRefs(), Plant);
    SilentGroup(e, ChassisRefs(), Plant);
    SilentGroup(e, FinalMfgRefs(), Plant);
    PlantGroupsRouted(e);
    SumNonNullAppend(torque, q);
    SumNonNullAppend(torque + q, d);
  }

  /** The table gives the ratings the source computes. */
  lemma TableMatchesCode(e: Entry)
    ensures TableRating(e, Mfg) == MfgRating(e)
    ensures TableRating(e, Quality) == QualityRating(e)
    ensures TableRating(e, Plant) == PlantRating(e)
  {
    TableMatchesMfg(e);
    TableMatchesQuality(e);
    TableMatchesPlant(e);
  }

  /** A record with no score at all rates 0 at every level. */
  lemma NoScoreRatesZero(e: Entry, level: Level)
    requires forall ref :: ScoreAt(e, ref) == None
    ensures TableRating(e, level) == 0
  {
    SumNonNullAllNull(Routed(e, AllRefs(), level));
  }

  /** A stored record with no score and no recurrence rates 0 everywhere and,
      its defect rating being at least 1, is NG in all three statuses. */
  lemma BlankRecordIsNG(e: Entry)
    requires Stored(e)
    requires e.weeklyRecurrence == [0, 0, 0, 0, 0, 0]
    requires forall ref :: ScoreAt(e, ref) == None
    ensures e.controlRating == ControlRating(0, 0, 0)
    ensures e.recurrence == 0 && e.recurrenceCountPlusDefect == e.defectRating
    ensures e.workstationStatus == NG && e.mfgStatus == NG && e.plantStatus == NG
  {
    NoScoreRatesZero(e, Mfg);
    NoScoreRatesZero(e, Quality);
    NoScoreRatesZero(e, Plant);
    SixWeekTotal(e.weeklyRecurrence);
    assert !HasRecurrence(e.weeklyRecurrence);
  }

  // ---------------------------------------------------------------------------
  // Recomputation

  /** A recomputed record is consistent, and recomputation keeps the inputs. */
  lemma RecalculateIsConsistent(e: Entry)
    ensures Consistent(RecalculateStatuses(e))
    ensures Inputs(RecalculateStatuses(e)) == Inputs(e)
  {
    var r := RecalculateStatuses(e);
    TableMatchesCode(e);
    TableMatchesCode(r);
    assert r.trim == e.trim && r.chassis == e.chassis && r.final == e.final;
    assert r.qControl == e.qControl && r.qControlDetail == e.qControlDetail;
  }

  /** Field by field, what recomputation keeps. */
  lemma RecalculateKeepsFields(e: Entry)
    ensures var r := RecalculateStatuses(e);
      && r.sNo == e.sNo && r.source == e.source && r.concern == e.concern
      && r.defectRating == e.defectRating && r.weeklyRecurrence == e.weeklyRecurrence
      && r.trim == e.trim && r.chassis == e.chassis && r.final == e.final
      && r.qControl == e.qControl && r.qControlDetail == e.qControlDetail
  {
  }

  /** The table ratings read only the score fields. */
  lemma TableRatingReadsScores(a: Entry, b: Entry, level: Level)
    requires a.trim == b.trim && a.chassis == b.chassis && a.final == b.final
    requires a.qControl == b.qControl && a.qControlDetail == b.qControlDetail
    ensures TableRating(a, level) == TableRating(b, level)
  {
    assert Routed(a, AllRefs(), level) == Routed(b, AllRefs(), level);
  }

  /** The inputs fix the derived fields: two consistent records with the same
      inputs are the same record. */
  lemma ConsistentIsDetermined(a: Entry, b: Entry)
    requires Consistent(a) && Consistent(b)
    requires Inputs(a) == Inputs(b)
    ensures a == b
  {
    TableRatingReadsScores(a, b, Mfg);
    TableRatingReadsScores(a, b, Quality);
    TableRatingReadsScores(a, b, Plant);
  }

  /** Recomputing a consistent record changes nothing. */
  lemma RecalculateFixesConsistent(e: Entry)
    requires Consistent(e)
    ensures RecalculateStatuses(e) == e
  {
    RecalculateIsConsistent(e);
    ConsistentIsDetermined(RecalculateStatuses(e), e);
  }

  /** Recomputing twice is recomputing once. */
  lemma RecalculateIdempotent(e: Entry)
    ensures RecalculateStatuses(RecalculateStatuses(e)) == RecalculateStatuses(e)
  {
    RecalculateIsConsistent(e);
    RecalculateFixesConsistent(RecalculateStatuses(e));
  }

  /** Records with the same inputs recompute to the same record, whatever
      stale derived values they carried. */
  lemma RecalculateReadsOnlyInputs(a: Entry, b: Entry)
    requires Inputs(a) == Inputs(b)
    ensures RecalculateStatuses(a) == RecalculateStatuses(b)
  {
    RecalculateIsConsistent(a);
    RecalculateIsConsistent(b);
    ConsistentIsDetermined(RecalculateStatuses(a), RecalculateStatuses(b));
  }

  // ---------------------------------------------------------------------------
  // The ratings, group by group

  /** MFG is the trim sum plus the chassis sum plus the final sum without ResidualTorque. */
  lemma MfgRatingByGroup(e: Entry)
    ensures MfgRating(e)
         == GroupSum(e.trim, TrimKeys) + GroupSum(e.chassis, ChassisKeys) + GroupSum(e.final, FinalMfgKeys)
  {
    var t, c, f := Values(e.trim, TrimKeys), Values(e.chassis, ChassisKeys), Values(e.final, FinalMfgKeys);
    SumNonNullAppend(t, c);
    SumNonNullAppend(t + c, f);
  }

  /** Plant is ResidualTorque (null as 0) plus the Q'Control sum plus the Q'Control detail sum. */
  lemma PlantRatingByGroup(e: Entry)
    ensures PlantRating(e)
         == OrZero(Lookup(e.final, ResidualTorque)) + GroupSum(e.qControl, QControlKeys)
          + GroupSum(e.qControlDetail, QControlDetailKeys)
  {
    var t, q, d := [Lookup(e.final, ResidualTorque)], Values(e.qControl, QControlKeys),
                   Values(e.qControlDetail, QControlDetailKeys);
    SumNonNullAppend(t, q);
    SumNonNullAppend(t + q, d);
    assert t[..0] == [];
  }

  /** Editing ResidualTorque moves the Plant rating by the change in that
      score and leaves the MFG and Quality ratings where they were. */
  lemma ResidualTorqueOnlyMovesPlant(e: Entry, v: Option<int>)
    ensures MfgRating(SetScore(e, Final(ResidualTorque), v)) == MfgRating(e)
    ensures QualityRating(SetScore(e, Final(ResidualTorque), v)) == QualityRating(e)
    ensures PlantRating(SetScore(e, Final(ResidualTorque), v))
         == PlantRating(e) - OrZero(Lookup(e.final, ResidualTorque)) + OrZero(v)
  {
    var e' := SetScore(e, Final(ResidualTorque), v);
    assert ResidualTorque !in FinalMfgKeys;
    assert Values(e'.final, FinalMfgKeys) == Values(e.final, FinalMfgKeys) by {
      forall i | 0 <= i < |FinalMfgKeys| ensures FinalMfgKeys[i] != ResidualTorque {
        assert FinalMfgKeys[i] in FinalMfgKeys;
      }
    }
    PlantRatingByGroup(e);
    PlantRatingByGroup(e');
  }

  /** Editing a trim or chassis score never moves the Plant or Quality rating. */
  lemma TrimAndChassisNeverMovePlant(e: Entry, ref: ScoreRef, v: Option<int>)
    requires ref.Trim? || ref.Chassis?
    ensures PlantRating(SetScore(e, ref, v)) == PlantRating(e)
    ensures QualityRating(SetScore(e, ref, v)) == QualityRating(e)
  {
  }

  // ---------------------------------------------------------------------------
  // Recurrence

  /** For the six weekly slots, the recurrence is their plain sum. */
  lemma SixWeekTotal(ws: seq<int>)
    requires |ws| == 6
    ensures Total(ws) == ws[0] + ws[1] + ws[2] + ws[3] + ws[4] + ws[5]
  {
    assert ws[..0] == [];
    TotalStep(ws, 0);
    TotalStep(ws, 1);
    TotalStep(ws, 2);
    TotalStep(ws, 3);
    TotalStep(ws, 4);
    TotalStep(ws, 5);
    assert ws[..6] == ws;
  }

  lemma TotalStep(ws: seq<int>, k: nat)
    requires k < |ws|
    ensures Total(ws[..k + 1]) == Total(ws[..k]) + ws[k]
  {
    assert ws[..k + 1][..k] == ws[..k];
  }

  /** With non-negative weekly counts, a week recurred exactly when the total is positive. */
  lemma {:induction false} RecurrenceIffPositiveTotal(ws: seq<int>)
    requires forall i :: 0 <= i < |ws| ==> ws[i] >= 0
    ensures Total(ws) >= 0
    ensures HasRecurrence(ws) <==> Total(ws) > 0
  {
    if ws != [] {
      var init := ws[..|ws| - 1];
      RecurrenceIffPositiveTotal(init);
      assert HasRecurrence(ws) <==> HasRecurrence(init) || ws[|ws| - 1] > 0 by {
        if HasRecurrence(ws) {
          var i :| 0 <= i < |ws| && ws[i] > 0;
          if i < |ws| - 1 {
            assert init[i] > 0;
          }
        }
        if HasRecurrence(init) {
          var i :| 0 <= i < |init| && init[i] > 0;
          assert ws[i] > 0;
        }
      }
    }
  }

  // ---------------------------------------------------------------------------
  // Statuses

  /** The statuses of a recomputed record depend on the MFG and Plant ratings,
      the defect rating and the weekly counts only: the Quality rating gates nothing. */
  lemma QualityFeedsNoStatus(a: Entry, b: Entry)
    requires a.defectRating == b.defectRating && a.weeklyRecurrence == b.weeklyRecurrence
    requires MfgRating(a) == MfgRating(b) && PlantRating(a) == PlantRating(b)
    ensures RecalculateStatuses(a).workstationStatus == RecalculateStatuses(b).workstationStatus
    ensures RecalculateStatuses(a).mfgStatus == RecalculateStatuses(b).mfgStatus
    ensures RecalculateStatuses(a).plantStatus == RecalculateStatuses(b).plantStatus
  {
  }

  /** The recurrence override is the Workstation status's alone: with a recurring
      week the MFG status still follows the rating while Workstation is NG. */
  lemma RecurrenceOverridesWorkstationOnly(e: Entry)
    requires HasRecurrence(e.weeklyRecurrence)
    ensures RecalculateStatuses(e).workstationStatus == NG
    ensures RecalculateStatuses(e).mfgStatus == OK <==> TableRating(e, Mfg) >= e.defectRating
    ensures RecalculateStatuses(e).plantStatus == OK <==> TableRating(e, Plant) >= e.defectRating
  {
    TableMatchesCode(e);
  }

  /** `b` holds at least the scores of `a`, field by field (null read as 0). */
  ghost predicate ScoresAtLeast(a: Entry, b: Entry)
  {
    forall ref :: OrZero(ScoreAt(a, ref)) <= OrZero(ScoreAt(b, ref))
  }

  lemma TableRatingMonotone(a: Entry, b: Entry, level: Level)
    requires ScoresAtLeast(a, b)
    ensures TableRating(a, level) <= TableRating(b, level)
  {
    SumNonNullMonotone(Routed(a, AllRefs(), level), Routed(b, AllRefs(), level));
  }

  /** With the defect rating and the weekly counts fixed, higher scores can only
      turn a status from NG to OK, never from OK to NG. */
  lemma RaisingScoresNeverDemotes(a: Entry, b: Entry)
    requires a.defectRating == b.defectRating && a.weeklyRecurrence == b.weeklyRecurrence
    requires ScoresAtLeast(a, b)
    ensures RecalculateStatuses(a).workstationStatus == OK ==> RecalculateStatuses(b).workstationStatus == OK
    ensures RecalculateStatuses(a).mfgStatus == OK ==> RecalculateStatuses(b).mfgStatus == OK
    ensures RecalculateStatuses(a).plantStatus == OK ==> RecalculateStatuses(b).plantStatus == OK
  {
    TableMatchesCode(a);
    TableMatchesCode(b);
    TableRatingMonotone(a, b, Mfg);
    TableRatingMonotone(a, b, Plant);
  }

  /** The score-edit case: raising one score never demotes a status. */
  lemma RaisingOneScoreNeverDemotes(e: Entry, ref: ScoreRef, v: Option<int>)
    requires OrZero(ScoreAt(e, ref)) <= OrZero(v)
    ensures var before, after := RecalculateStatuses(e), RecalculateStatuses(SetScore(e, ref, v));
      && (before.workstationStatus == OK ==> after.workstationStatus == OK)
      && (before.mfgStatus == OK ==> after.mfgStatus == OK)
      && (before.plantStatus == OK ==> after.plantStatus == OK)
  {
    RaisingScoresNeverDemotes(e, SetScore(e, ref, v));
  }
}
