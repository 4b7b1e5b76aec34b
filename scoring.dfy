/**
 * The task scorer: `compute_task_score`, split into its stages. A task
 * record is normalised field by field (title, due date, importance,
 * estimated hours, dependencies), the due date is turned into an urgency
 * multiplier, and importance, urgency, an effort factor and a dependency
 * penalty are combined into a non-negative score. The result is the input
 * record with three added keys: `_score`, `_explanation` and
 * `_days_until_due`.
 */
module Scoring {
  import opened Wrappers
  import opened Calendar
  import opened Values

  const UntitledTask := "Untitled Task"
  const ScoreKey := "_score"
  const ExplanationKey := "_explanation"
  const DaysKey := "_days_until_due"

  // ---------------------------------------------------------------- due date

  /** Why a present due date was not used. */
  datatype DueNote = InvalidFormat | Unrecognized

  datatype DueDate = DueDate(date: Option<CivilDate>, note: Option<DueNote>)

  /**
   * A `date` object is used as it is; a string is read with `ParseDate`;
   * `None` (or a missing key) means no deadline without comment; any other
   * value means no deadline, with a note.
   */
  function ResolveDueDate(raw: Value): (r: DueDate)
    ensures raw.DateValue? ==> r == DueDate(Some(raw.date), None)
    ensures raw.Str? ==> r.date == ParseDate(raw.s)
    ensures r.note == Some(InvalidFormat) <==> raw.Str? && ParseDate(raw.s).None?
    ensures r.note == Some(Unrecognized) <==> !(raw.Null? || raw.Str? || raw.DateValue?)
    ensures raw.Null? ==> r == DueDate(None, None)
    ensures !(raw.Str? || raw.DateValue?) ==> r.date.None?
  {
    match raw
    case DateValue(d) => DueDate(Some(d), None)
    case Str(s) =>
      (match ParseDate(s)
       case Some(d) => DueDate(Some(d), None)
       case None => DueDate(None, Some(InvalidFormat)))
    case Null => DueDate(None, None)
    case _ => DueDate(None, Some(Unrecognized))
  }

  // ----------------------------------------------------------------- urgency

  datatype Urgency = PastDue | DueToday | DueSoon | DueWithinWeek | DueLater | NoDeadline

  /** The threshold ladder, tried in order; `None` is "no valid due date". */
  function UrgencyOf(daysUntilDue: Option<int>): (u: Urgency)
    ensures u == NoDeadline <==> daysUntilDue.None?
    ensures u == PastDue <==> daysUntilDue.Some? && daysUntilDue.value < 0
    ensures u == DueToday <==> daysUntilDue == Some(0)
    ensures u == DueSoon <==> daysUntilDue.Some? && 1 <= daysUntilDue.value <= 3
    ensures u == DueWithinWeek <==> daysUntilDue.Some? && 4 <= daysUntilDue.value <= 7
    ensures u == DueLater <==> daysUntilDue.Some? && daysUntilDue.value > 7
  {
    match daysUntilDue
    case None => NoDeadline
    case Some(delta) =>
      if delta < 0 then PastDue
      else if delta == 0 then DueToday
      else if delta <= 3 then DueSoon
      else if delta <= 7 then DueWithinWeek
      else DueLater
  }

  function Multiplier(u: Urgency): (m: real)
    ensures 0.8 <= m <= 1.5
  {
    match u
    case PastDue => 1.5
    case DueToday => 1.3
    case DueSoon => 1.1
    case DueWithinWeek => 1.0
    case DueLater => 0.8
    case NoDeadline => 0.9
  }

  /** The sooner a dated task is due, the larger its multiplier. */
  lemma MultiplierMonotone(d1: int, d2: int)
    requires d1 <= d2
    ensures Multiplier(UrgencyOf(Some(d1))) >= Multiplier(UrgencyOf(Some(d2)))
  {
  }

  // --------------------------------------------------------------- importance

  /** `int(raw)` clamped to [1, 10], or 5 when `int()` raises. */
  function ResolveImportance(raw: Value): (r: int)
    ensures 1 <= r <= 10
    ensures ToInt(raw).None? ==> r == 5
    ensures ToInt(raw).Some? ==> var n := ToInt(raw).value;
      && (1 <= n <= 10 ==> r == n)
      && (n < 1 ==> r == 1)
      && (n > 10 ==> r == 10)
  {
    var n := match ToInt(raw) case Some(n) => n case None => 5;
    if n < 1 then 1 else if n > 10 then 10 else n
  }

  // ---------------------------------------------------------- estimated hours

  /** `float(raw)` when it succeeds and is positive, else 1.0. */
  function ResolveHours(raw: Value): (h: real)
    ensures h > 0.0
    ensures ToFloat(raw).Some? && ToFloat(raw).value > 0.0 ==> h == ToFloat(raw).value
    ensures ToFloat(raw).None? || ToFloat(raw).value <= 0.0 ==> h == 1.0
  {
    match ToFloat(raw)
    case Some(x) => if x <= 0.0 then 1.0 else x
    case None => 1.0
  }

  // ------------------------------------------------------------- dependencies

  predicate IsEmptyLike(raw: Value) {
    raw == Null || raw == Str("") || raw == Dict(map[])
  }

  /** A list is kept; `None`, `""` and `{}` are no dependencies; any other value is one. */
  function NormalizeDependencies(raw: Value): (deps: seq<Value>)
    ensures raw.List? ==> deps == raw.items
    ensures !raw.List? && IsEmptyLike(raw) ==> deps == []
    ensures !raw.List? && !IsEmptyLike(raw) ==> deps == [raw]
  {
    if raw.List? then raw.items
    else if IsEmptyLike(raw) then []
    else [raw]
  }

  /** 0.2 plus 0.05 per dependency, or nothing when there are none. */
  function DependencyPenalty(count: nat): (p: real)
    ensures p >= 0.0
    ensures p == 0.0 <==> count == 0
  {
    if count > 0 then 0.2 + 0.05 * count as real else 0.0
  }

  lemma PenaltyGrowth(count: nat)
    ensures DependencyPenalty(1) == 0.25
    ensures count > 0 ==> DependencyPenalty(count + 1) == DependencyPenalty(count) + 0.05
  {
  }

  // ------------------------------------------------------------------ effort

  /**
   * `math.log10`, which the model does not compute: any function that is
   * positive and non-decreasing above 1, as log10 is there.
   */
  type Log10 = f: real -> real
    | (forall x :: 1.0 < x ==> 0.0 < f(x)) && (forall x, y :: 1.0 < x <= y ==> f(x) <= f(y))
    ghost witness (x: real) => x - 1.0

  /** `1 / (1 + log10(hours + 1))`: a damping factor strictly between 0 and 1. */
  function EffortFactor(log10: Log10, hours: real): (f: real)
    requires hours > 0.0
    ensures 0.0 < f < 1.0
  {
    assert 0.0 < log10(hours + 1.0);
    1.0 / (1.0 + log10(hours + 1.0))
  }

  /** Fewer estimated hours never give a smaller effort factor. */
  lemma EffortFactorDecreasing(log10: Log10, h1: real, h2: real)
    requires 0.0 < h1 <= h2
    ensures EffortFactor(log10, h1) >= EffortFactor(log10, h2)
  {
    assert 0.0 < log10(h1 + 1.0) <= log10(h2 + 1.0);
    var a, b := 1.0 + log10(h1 + 1.0), 1.0 + log10(h2 + 1.0);
    assert EffortFactor(log10, h1) == 1.0 / a && EffortFactor(log10, h2) == 1.0 / b;
    ReciprocalAntitone(a, b);
  }

  lemma ReciprocalAntitone(a: real, b: real)
    requires 0.0 < a <= b
    ensures 1.0 / a >= 1.0 / b
  {
    var x, y := 1.0 / a, 1.0 / b;
    assert x * a == 1.0 && y * b == 1.0;
    assert y > 0.0;
    MulMonotone(a, b, y);
    assert a * y <= b * y == 1.0 == x * a;
    NonNegativeFactor(x - y, a);
  }

  lemma NonNegativeFactor(c: real, a: real)
    requires 0.0 < a && 0.0 <= c * a
    ensures 0.0 <= c
  {
  }

  // ------------------------------------------------------------- combination

  /** The base score before the penalty: `float(importance) * urgency * effort`. */
  function RawScore(importance: int, multiplier: real, effort: real): real {
    importance as real * multiplier * effort
  }

  /** `max(0, raw - penalty)`. */
  function FinalScore(importance: int, multiplier: real, effort: real, penalty: real): (s: real)
    ensures s >= 0.0
    ensures s >= RawScore(importance, multiplier, effort) - penalty
    ensures s == 0.0 || s == RawScore(importance, multiplier, effort) - penalty
  {
    var raw := RawScore(importance, multiplier, effort);
    if raw - penalty > 0.0 then raw - penalty else 0.0
  }

  /** Python's `round(x)` on a real: nearest integer, ties to even. */
  function RoundHalfEven(y: real): (n: int)
    ensures y - 0.5 <= n as real <= y + 0.5
    ensures n as real == y - 0.5 || n as real == y + 0.5 ==> n % 2 == 0
    ensures y >= 0.0 ==> n >= 0
  {
    var f := y.Floor;
    var rest := y - f as real;
    if rest < 0.5 then f
    else if rest > 0.5 then f + 1
    else if f % 2 == 0 then f
    else f + 1
  }

  /** `round(x, 4)` on a real. */
  function Round4(x: real): (r: real)
    ensures x >= 0.0 ==> r >= 0.0
    ensures x - 0.00005 <= r <= x + 0.00005
  {
    RoundHalfEven(x * 10000.0) as real / 10000.0
  }

  // ------------------------------------------------------------- explanation

  /**
   * One sentence of the explanation text. The numbers are those the text
   * prints; their `:.1f` and `:.2f` formatting is not modelled.
   */
  datatype Clause =
    | TitleClause(title: Value)
    | FactorsClause(importance: int, hours: real, multiplier: real, effort: real)
    | ScoresClause(rawScore: real, penalty: real)
    | FinalScoreClause(score: real)
    | DueNoteClause(note: DueNote)
    | UrgencyClause(urgency: Urgency)
    | DependencyClause(count: nat)

  type Explanation = seq<Clause>

  // ------------------------------------------------------------- the scorer

  /** The fully defaulted, typed form of a task record. */
  datatype NormalizedTask = NormalizedTask(
    title: Value,
    due: DueDate,
    importance: int,
    hours: real,
    dependencies: seq<Value>)

  function Normalize(task: Record): (n: NormalizedTask)
    ensures n.title == if Truthy(Get(task, "title")) then Get(task, "title") else Str(UntitledTask)
    ensures n.due == ResolveDueDate(Get(task, "due_date"))
    ensures n.importance == ResolveImportance(GetOr(task, "importance", Int(5)))
    ensures n.hours == ResolveHours(GetOr(task, "estimated_hours", Int(1)))
    ensures n.dependencies == NormalizeDependencies(Get(task, "dependencies"))
    ensures 1 <= n.importance <= 10 && n.hours > 0.0
  {
    NormalizedTask(
      if Truthy(Get(task, "title")) then Get(task, "title") else Str(UntitledTask),
      ResolveDueDate(Get(task, "due_date")),
      ResolveImportance(GetOr(task, "importance", Int(5))),
      ResolveHours(GetOr(task, "estimated_hours", Int(1))),
      NormalizeDependencies(Get(task, "dependencies")))
  }

  /** What the scorer adds to a record, before it is written into the copy. */
  datatype Assessment = Assessment(score: real, explanation: Explanation, daysUntilDue: Option<int>)

  function DaysUntil(due: Option<CivilDate>, today: CivilDate): Option<int> {
    match due
    case Some(d) => Some(DaysBetween(today, d))
    case None => None
  }

  /**
   * The explanation text, clause by clause: the title, the factors, the
   * scores, the final score, then the due-date text (an optional note and
   * the urgency sentence) and the dependency sentence.
   */
  function Explain(n: NormalizedTask, urgency: Urgency, multiplier: real, effort: real,
                   raw: real, penalty: real, final: real): (e: Explanation)
    ensures |e| == if n.due.note.Some? then 7 else 6
    ensures e[0] == TitleClause(n.title)
    ensures e[1] == FactorsClause(n.importance, n.hours, multiplier, effort)
    ensures e[2] == ScoresClause(raw, penalty)
    ensures e[3] == FinalScoreClause(final)
    ensures n.due.note.Some? ==> e[4] == DueNoteClause(n.due.note.value)
    ensures e[|e| - 2] == UrgencyClause(urgency)
    ensures forall i :: 0 <= i < |e| - 2 ==> !e[i].UrgencyClause?
    ensures e[|e| - 1] == DependencyClause(|n.dependencies|)
  {
    var note := match n.due.note case Some(x) => [DueNoteClause(x)] case None => [];
    [ TitleClause(n.title),
      FactorsClause(n.importance, n.hours, multiplier, effort),
      ScoresClause(raw, penalty),
      FinalScoreClause(final) ]
    + note
    + [UrgencyClause(urgency), DependencyClause(|n.dependencies|)]
  }

  function Assess(n: NormalizedTask, today: CivilDate, log10: Log10): (a: Assessment)
    requires n.hours > 0.0
    ensures a.score == FinalScore(n.importance, Multiplier(UrgencyOf(a.daysUntilDue)),
                                  EffortFactor(log10, n.hours), DependencyPenalty(|n.dependencies|))
    ensures a.score >= 0.0
    ensures a.daysUntilDue.None? <==> n.due.date.None?
    ensures n.due.date.Some? ==> a.daysUntilDue == Some(Ordinal(n.due.date.value) - Ordinal(today))
    ensures |a.explanation| == if n.due.note.Some? then 7 else 6
    ensures a.explanation[0] == TitleClause(n.title)
    ensures a.explanation[1] == FactorsClause(n.importance, n.hours,
      Multiplier(UrgencyOf(a.daysUntilDue)), EffortFactor(log10, n.hours))
    ensures a.explanation[2] == ScoresClause(
      RawScore(n.importance, Multiplier(UrgencyOf(a.daysUntilDue)), EffortFactor(log10, n.hours)),
      DependencyPenalty(|n.dependencies|))
    ensures a.explanation[3] == FinalScoreClause(a.score)
    ensures n.due.note.Some? ==> a.explanation[4] == DueNoteClause(n.due.note.value)
    ensures a.explanation[|a.explanation| - 2] == UrgencyClause(UrgencyOf(a.daysUntilDue))
    ensures forall i :: 0 <= i < |a.explanation| - 2 ==> !a.explanation[i].UrgencyClause?
    ensures a.explanation[|a.explanation| - 1] == DependencyClause(|n.dependencies|)
  {
    var days := DaysUntil(n.due.date, today);
    var urgency := UrgencyOf(days);
    var multiplier := Multiplier(urgency);
    var effort := EffortFactor(log10, n.hours);
    var penalty := DependencyPenalty(|n.dependencies|);
    var raw := RawScore(n.importance, multiplier, effort);
    var final := FinalScore(n.importance, multiplier, effort, penalty);
    Assessment(final, Explain(n, urgency, multiplier, effort, raw, penalty, final), days)
  }

  /** A value of the returned record: copied from the input, or one of the three added keys. */
  datatype Field =
    | Kept(value: Value)
    | Score(score: real)
    | ExplanationText(clauses: Explanation)
    | DaysUntilDue(days: Option<int>)

  type ScoredRecord = map<string, Field>

  /** `dict(task)` followed by the three key writes. */
  function Enrich(task: Record, a: Assessment): (out: ScoredRecord)
    ensures out.Keys == task.Keys + {ScoreKey, ExplanationKey, DaysKey}
    ensures forall k :: k in task && k !in {ScoreKey, ExplanationKey, DaysKey} ==> out[k] == Kept(task[k])
    ensures out[ScoreKey] == Score(Round4(a.score))
    ensures out[ExplanationKey] == ExplanationText(a.explanation)
    ensures out[DaysKey] == DaysUntilDue(a.daysUntilDue)
  {
    (map k | k in task :: Kept(task[k]))
      [ScoreKey := Score(Round4(a.score))]
      [ExplanationKey := ExplanationText(a.explanation)]
      [DaysKey := DaysUntilDue(a.daysUntilDue)]
  }

  /** `compute_task_score(task)`, with "today" passed in. */
  function ComputeTaskScore(task: Record, today: CivilDate, log10: Log10): (out: ScoredRecord)
    ensures out.Keys == task.Keys + {ScoreKey, ExplanationKey, DaysKey}
    ensures forall k :: k in task && k !in {ScoreKey, ExplanationKey, DaysKey} ==> out[k] == Kept(task[k])
    ensures out[ScoreKey].Score? && out[ScoreKey].score >= 0.0
    ensures out[DaysKey].DaysUntilDue?
    ensures out[DaysKey].days.None? <==> ResolveDueDate(Get(task, "due_date")).date.None?
    ensures out[DaysKey].days.Some? ==>
      out[DaysKey].days == Some(DaysBetween(today, ResolveDueDate(Get(task, "due_date")).date.value))
    ensures out[ExplanationKey].ExplanationText? && |out[ExplanationKey].clauses| >= 6
    ensures out[ExplanationKey].clauses[0] == TitleClause(Normalize(task).title)
    ensures var e, due := out[ExplanationKey].clauses, ResolveDueDate(Get(task, "due_date"));
      && (due.note.Some? <==> |e| == 7)
      && (due.note.Some? ==> e[4] == DueNoteClause(due.note.value))
      && e[|e| - 2] == UrgencyClause(UrgencyOf(out[DaysKey].days))
      && (forall i :: 0 <= i < |e| - 2 ==> !e[i].UrgencyClause?)
      && e[|e| - 1] == DependencyClause(|NormalizeDependencies(Get(task, "dependencies"))|)
  {
    var n := Normalize(task);
    Enrich(task, Assess(n, today, log10))
  }

  // ------------------------------------------------------------- properties

  lemma MulMonotone(a: real, b: real, c: real)
    requires a <= b && 0.0 <= c
    ensures a * c <= b * c
  {
  }

  /** Without dependencies the score is the plain product, never clamped to 0. */
  lemma NoPenaltyScore(importance: int, multiplier: real, effort: real)
    requires 1 <= importance && 0.0 < multiplier && 0.0 < effort
    ensures FinalScore(importance, multiplier, effort, DependencyPenalty(0))
      == importance as real * multiplier * effort
  {
    var i := importance as real;
    MulMonotone(0.0, i, multiplier);
    assert i * multiplier > 0.0;
    MulMonotone(0.0, i * multiplier, effort);
    assert i * multiplier * effort > 0.0;
  }

  /** No task scores 15 or more: importance is at most 10, urgency at most 1.5, effort below 1. */
  lemma ScoreBelowFifteen(importance: int, u: Urgency, effort: real, penalty: real)
    requires 1 <= importance <= 10 && 0.0 < effort < 1.0 && 0.0 <= penalty
    ensures FinalScore(importance, Multiplier(u), effort, penalty) < 15.0
  {
    var i, m := importance as real, Multiplier(u);
    MulMonotone(i, 10.0, m);
    assert i * m <= 15.0;
    MulMonotone(i * m, 15.0, effort);
    assert i * m * effort <= 15.0 * effort < 15.0;
  }

  /** A due date given as the ISO text of the day `k` days from today is `k` days away. */
  lemma DueInDays(today: CivilDate, k: nat, due: CivilDate)
    requires Ordinal(today) + k <= Ordinal(MaxDate) && due == AddDays(today, k)
    ensures ResolveDueDate(Str(IsoFormat(due))) == DueDate(Some(due), None)
    ensures DaysUntil(Some(due), today) == Some(k)
  {
    ParseIsoFormat(due);
    assert Ordinal(AddDays(today, k)) == Ordinal(today) + k;
    assert DaysBetween(today, due) == k;
  }

  /** A due date `k` days before today is `-k` days away: past due once `k > 0`. */
  lemma OverdueByDays(due: CivilDate, today: CivilDate, k: nat)
    requires Ordinal(due) + k <= Ordinal(MaxDate) && today == AddDays(due, k)
    ensures DaysUntil(ResolveDueDate(DateValue(due)).date, today) == Some(-(k as int))
    ensures k > 0 ==> UrgencyOf(DaysUntil(Some(due), today)) == PastDue
  {
  }

  /**
   * The stored score, stage by stage: the clamped importance, the urgency
   * multiplier of the due date, the effort factor of the hours and the
   * penalty of the normalised dependencies, combined and rounded.
   */
  lemma ScoreOfTask(task: Record, today: CivilDate, log10: Log10)
    ensures ComputeTaskScore(task, today, log10)[ScoreKey] == Score(Round4(FinalScore(
      ResolveImportance(GetOr(task, "importance", Int(5))),
      Multiplier(UrgencyOf(DaysUntil(ResolveDueDate(Get(task, "due_date")).date, today))),
      EffortFactor(log10, ResolveHours(GetOr(task, "estimated_hours", Int(1)))),
      DependencyPenalty(|NormalizeDependencies(Get(task, "dependencies"))|))))
  {
  }

  /**
   * A task due today (its due date given as today's ISO text) with importance
   * `i` in range, and no hours or dependencies given, combines importance `i`,
   * the due-today multiplier 1.3, the effort factor of one hour and no
   * penalty; by `NoPenaltyScore` that is `i * 1.3 * effort(1)`.
   */
  lemma DueTodayScore(task: Record, today: CivilDate, log10: Log10, i: int)
    requires Get(task, "due_date") == Str(IsoFormat(today))
    requires GetOr(task, "importance", Int(5)) == Int(i) && 1 <= i <= 10
    requires "estimated_hours" !in task && "dependencies" !in task
    ensures ComputeTaskScore(task, today, log10)[ScoreKey]
      == Score(Round4(FinalScore(i, 1.3, EffortFactor(log10, 1.0), DependencyPenalty(0))))
  {
    ScoreOfTask(task, today, log10);
    ParseIsoFormat(today);
    assert ResolveDueDate(Get(task, "due_date")).date == Some(today);
    assert Multiplier(UrgencyOf(DaysUntil(Some(today), today))) == 1.3;
    assert ResolveImportance(GetOr(task, "importance", Int(5))) == i;
    assert ResolveHours(GetOr(task, "estimated_hours", Int(1))) == 1.0;
    assert |NormalizeDependencies(Get(task, "dependencies"))| == 0;
  }
}
