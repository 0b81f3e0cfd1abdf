/**
  The quality-concern record. Each of the five score groups is a map from that
  group's closed set of check identifiers to a nullable score; a check that is
  absent from the map reads as null, exactly as a null entry does.
*/
module QaTypes {
  import opened Wrappers

  datatype Status = OK | NG

  datatype TrimKey = T10 | T20 | T30 | T40 | T50 | T60 | T70 | T80 | T90 | T100 | TPQG

  datatype ChassisKey =
    | C10 | C20 | C30 | C40 | C45 | P10 | P20 | P30 | C50 | C60 | C70 | RSub | TS | C80 | CPQG

  datatype FinalKey =
    | F10 | F20 | F30 | F40 | F50 | F60 | F70 | F80 | F90 | F100 | FPQG | ResidualTorque

  datatype QControlKey =
    | FreqControl_1_1 | VisualControl_1_2 | PeriodicAudit_1_3 | HumanControl_1_4
    | SaeAlert_3_1 | FreqMeasure_3_2 | ManualTool_3_3 | HumanTracking_3_4
    | AutoControl_5_1 | Impossibility_5_2 | SaeProhibition_5_3

  datatype QControlDetailKey = CVT | SHOWER | DynamicUB | CC4

  /** The check identifiers of each group, in the order the importer lists them. */
  const TrimKeys: seq<TrimKey> := [T10, T20, T30, T40, T50, T60, T70, T80, T90, T100, TPQG]
  const ChassisKeys: seq<ChassisKey> :=
    [C10, C20, C30, C40, C45, P10, P20, P30, C50, C60, C70, RSub, TS, C80, CPQG]
  /** The final-line checks other than ResidualTorque. */
  const FinalMfgKeys: seq<FinalKey> := [F10, F20, F30, F40, F50, F60, F70, F80, F90, F100, FPQG]
  const FinalKeys: seq<FinalKey> := FinalMfgKeys + [ResidualTorque]
  const QControlKeys: seq<QControlKey> :=
    [ FreqControl_1_1, VisualControl_1_2, PeriodicAudit_1_3, HumanControl_1_4,
      SaeAlert_3_1, FreqMeasure_3_2, ManualTool_3_3, HumanTracking_3_4,
      AutoControl_5_1, Impossibility_5_2, SaeProhibition_5_3 ]
  const QControlDetailKeys: seq<QControlDetailKey> := [CVT, SHOWER, DynamicUB, CC4]

  type Scores<K> = map<K, Option<int>>

  /** The score recorded for check `k`; null when none is. */
  function Lookup<K>(m: Scores<K>, k: K): Option<int>
  {
    if k in m then m[k] else None
  }

  /** A score field of a record: the group (`section`) and the check within it. */
  datatype ScoreRef =
    | Trim(trimKey: TrimKey)
    | Chassis(chassisKey: ChassisKey)
    | Final(finalKey: FinalKey)
    | QControl(qControlKey: QControlKey)
    | QControlDetail(qControlDetailKey: QControlDetailKey)

  datatype ControlRating = ControlRating(mfg: int, quality: int, plant: int)

  datatype GuaranteedQuality =
    GuaranteedQuality(workstation: Option<int>, mfg: Option<int>, plant: Option<int>)

  /** One quality concern. `recurrence`, `recurrenceCountPlusDefect`,
      `controlRating` and the three statuses are derived fields. */
  datatype Entry = Entry(
    sNo: int,
    source: string,
    operationStation: string,
    designation: string,
    concern: string,
    defectRating: int,
    recurrence: int,
    weeklyRecurrence: seq<int>,
    recurrenceCountPlusDefect: int,
    trim: Scores<TrimKey>,
    chassis: Scores<ChassisKey>,
    final: Scores<FinalKey>,
    qControl: Scores<QControlKey>,
    qControlDetail: Scores<QControlDetailKey>,
    controlRating: ControlRating,
    guaranteedQuality: GuaranteedQuality,
    workstationStatus: Status,
    mfgStatus: Status,
    plantStatus: Status,
    mfgAction: string,
    resp: string,
    target: string)

  /** The severity weights a defect rating may take. */
  predicate IsDefectRating(r: int)
  {
    r == 1 || r == 3 || r == 5
  }

  /** The score stored in a score field. */
  function ScoreAt(e: Entry, ref: ScoreRef): Option<int>
  {
    match ref
    case Trim(k) => Lookup(e.trim, k)
    case Chassis(k) => Lookup(e.chassis, k)
    case Final(k) => Lookup(e.final, k)
    case QControl(k) => Lookup(e.qControl, k)
    case QControlDetail(k) => Lookup(e.qControlDetail, k)
  }

  /** Records with the same score groups hold the same score in every field. */
  lemma SameScores(a: Entry, b: Entry)
    requires a.trim == b.trim && a.chassis == b.chassis && a.final == b.final
    requires a.qControl == b.qControl && a.qControlDetail == b.qControlDetail
    ensures forall ref :: ScoreAt(a, ref) == ScoreAt(b, ref)
  {
  }

  /** `{ ...entry, [section]: { ...entry[section], [key]: value } }`: the one
      score field now holds `value` and every other score is as before. */
  function SetScore(e: Entry, ref: ScoreRef, value: Option<int>): (r: Entry)
    ensures ScoreAt(r, ref) == value
    ensures forall other :: other != ref ==> ScoreAt(r, other) == ScoreAt(e, other)
  {
    match ref
    case Trim(k) => e.(trim := e.trim[k := value])
    case Chassis(k) => e.(chassis := e.chassis[k := value])
    case Final(k) => e.(final := e.final[k := value])
    case QControl(k) => e.(qControl := e.qControl[k := value])
    case QControlDetail(k) => e.(qControlDetail := e.qControlDetail[k := value])
  }

  /** Writing the same score twice is writing it once. */
  lemma SetScoreTwice(e: Entry, ref: ScoreRef, value: Option<int>)
    ensures SetScore(SetScore(e, ref, value), ref, value) == SetScore(e, ref, value)
  {
    match ref
    case Trim(k) => assert e.trim[k := value][k := value] == e.trim[k := value];
    case Chassis(k) => assert e.chassis[k := value][k := value] == e.chassis[k := value];
    case Final(k) => assert e.final[k := value][k := value] == e.final[k := value];
    case QControl(k) => assert e.qControl[k := value][k := value] == e.qControl[k := value];
    case QControlDetail(k) => assert e.qControlDetail[k := value][k := value] == e.qControlDetail[k := value];
  }

  /** Whether a score write changes a record depends on its score fields alone. */
  lemma SetScoreNoOpByScores(a: Entry, b: Entry, ref: ScoreRef, value: Option<int>)
    requires a.trim == b.trim && a.chassis == b.chassis && a.final == b.final
    requires a.qControl == b.qControl && a.qControlDetail == b.qControlDetail
    requires SetScore(b, ref, value) == b
    ensures SetScore(a, ref, value) == a
  {
    match ref
    case Trim(k) => assert b.trim[k := value] == SetScore(b, ref, value).trim;
    case Chassis(k) => assert b.chassis[k := value] == SetScore(b, ref, value).chassis;
    case Final(k) => assert b.final[k := value] == SetScore(b, ref, value).final;
    case QControl(k) => assert b.qControl[k := value] == SetScore(b, ref, value).qControl;
    case QControlDetail(k) => assert b.qControlDetail[k := value] == SetScore(b, ref, value).qControlDetail;
  }

  /** The record with its derived fields blanked: two records with the same
      inputs differ at most in what recomputation overwrites. */
  function Inputs(e: Entry): Entry
  {
    e.(recurrence := 0, recurrenceCountPlusDefect := 0, controlRating := ControlRating(0, 0, 0),
       workstationStatus := OK, mfgStatus := OK, plantStatus := OK)
  }
}
