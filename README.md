# Task prioritisation scorer — a Dafny model

This project models the smart task analyzer's two core pieces:

- `compute_task_score` scores one loosely typed task record. It normalises the fields and returns a copy of the record with three added keys: `_score`, `_explanation` and `_days_until_due`.
  - Fields normalised: title, due date, importance, estimated hours and dependencies.
  - The due date becomes an urgency multiplier through a threshold ladder.
  - The score is importance × urgency × an effort factor, minus a dependency penalty, clamped at zero.
- The `analyze_tasks` and `suggest_tasks` views score every dict element of a request's `tasks` list.
  - They rank the scored records with a stable sort: score descending, then days until due ascending.
  - `analyze_tasks` returns all of them. `suggest_tasks` returns the first three with a summary.

Modules:

- `Wrappers`: `Option`.
- `Text`: the string side of Python's `int()`, `float()` and `str.split`, and zero padding.
- `Calendar`: proleptic-Gregorian dates with years 1..9999, day ordinals, `date.isoformat()`, and the scorer's `Y-M-D` parser.
- `Values`: the record's loosely typed values, with `dict.get`, truthiness, `int()` and `float()`.
- `Scoring`: `compute_task_score`, stage by stage.
- `Ranking`: the sort key, and a specification of the stable sort.
  - Also an in-place insertion sort on an array, proved to produce exactly that specification.
- `Views`: the two request handlers, as methods over a classified request.

Representation choices:

- `log10` is a function parameter. Only two facts about it are assumed: it is positive above 1, and it is non-decreasing there. From those the model proves that the effort factor `1/(1+log10(h+1))` lies strictly between 0 and 1 and never rises as hours grow.
- Scores are `real`. Python's `round(x, 4)` is modelled as round-half-even on reals.
- The explanation text is an ordered sequence of clauses, not a string.
- "Today" is a parameter.

## Model

| member | source | states |
|---|---|---|
| Scoring.ResolveDueDate | tasks/scoring.py:17-33 | A `date` is used as is. A string is used iff it parses as a valid date; otherwise it gets the invalid-format note. `None` means no deadline and no note. Every other value gets the unrecognized note and no deadline. |
| Calendar.ParseIsoFormat | tasks/scoring.py:24-28 | The due-date parser (split on `-`, exactly three `int()` fields, `date(y, m, d)`) reads every ISO `YYYY-MM-DD` date back as that date. |
| Calendar.ParseDigitFields | tasks/scoring.py:24-30 | Three digit fields joined by `-` parse to the date they spell exactly when that date is valid, and to no date otherwise. |
| Calendar.ParseUnpadded | tasks/scoring.py:24-28 | The parser is looser than ISO 8601: fields without zero padding parse to the same date. |
| Calendar.ParseDate | tasks/scoring.py:24-30 | A string reads as a date only if it splits on `-` into exactly three fields that `int()` accepts, and the date has those fields. Every such split whose fields form a valid date does read as a date. |
| Calendar.DaysInMonth | tasks/scoring.py:28 | `date()`'s month lengths lie in 28..31; February has 29 days iff the year is a Gregorian leap year. |
| Calendar.NextDayOrdinal | tasks/scoring.py:37 | The ordinal behind date subtraction goes up by exactly one from each valid date to the next. |
| Calendar.Ordinal | tasks/scoring.py:37 | A date's day count lies within its own year's block of 365 or 366 days. |
| Calendar.OrdinalIncreasing | tasks/scoring.py:37 | The day count follows the calendar order. |
| Calendar.DaysBetween | tasks/scoring.py:37 | `(due - today).days` is positive iff the due date is later, zero iff it is the same day, and negative iff it is earlier. |
| Calendar.DaysBeforeNextYear | tasks/scoring.py:37 | A year adds 365 days to the ordinal, or 366 in a leap year. |
| Calendar.AddDays | tasks/scoring.py:37 | The date `n` days later has an ordinal exactly `n` greater. |
| Text.JoinSplit | tasks/scoring.py:27 | Joining the pieces of `s.split(sep)` with `sep` gives back `s`. |
| Text.SplitJoin | tasks/scoring.py:27 | Splitting a join of separator-free fields gives back exactly those fields. |
| Text.Split | tasks/scoring.py:27 | `str.split` yields at least one part, and no part contains the separator. |
| Text.ParseShowInt | tasks/scoring.py:27 | `int()` of the decimal text of any integer is that integer. |
| Text.ParseInt | tasks/scoring.py:27 | `int()` of a string accepts exactly one or more ASCII digits with an optional sign. A digit string reads as its value. A `+` sign keeps the value of the digits after it, and a `-` sign negates it; only a `-` sign gives a negative number. |
| Text.ParseDecimal | tasks/scoring.py:69 | `float()` of a string succeeds exactly on plain decimal text: an optional sign, then digits with at most one point and at least one digit; any other string (`"abc"`, `"1.2.3"`, `"+"`) raises, so the hours fall back to 1.0. Every string `int()` accepts reads as the same value. Only a leading `-` gives a negative number. |
| Text.ParseDecimalSign | tasks/scoring.py:69 | A `+` before unsigned text keeps the value `float()` reads, and a `-` negates it; both fail where the unsigned text fails. |
| Text.ParseDecimalSignedPoint | tasks/scoring.py:69 | `float()` of a signed point literal (`"+2.5"`, `"-.5"`) is the whole part plus the scaled fraction digits, negated after a `-`. |
| Text.ParseDecimalPoint | tasks/scoring.py:69 | `float()` of digits around one point (`"2.5"`, `"2."`, `".5"`) is the whole part plus the fraction digits divided by ten to the power of their count. |
| Text.ZeroPad | tasks/views.py:79 | The zero padding of `isoformat` yields digits of the requested width or more, with the same value. |
| Calendar.IsoFormat | tasks/views.py:79 | `isoformat()` gives ten characters: four year digits, `-`, two month digits, `-`, two day digits, whose values are the date's fields. |
| Scoring.UrgencyOf | tasks/scoring.py:35-56 | Exactly one ladder rung applies: no date; delta < 0; delta == 0; 1..3; 4..7; above 7. Each rung holds iff its condition holds. |
| Scoring.Multiplier | tasks/scoring.py:40-55 | The urgency multiplier lies in [0.8, 1.5]. |
| Scoring.MultiplierMonotone | tasks/scoring.py:39-53 | Among dated tasks, the sooner the task is due, the larger or equal its multiplier. |
| Scoring.DueInDays | tasks/scoring.py:24-38 | A due date `k` days ahead, given as ISO text, resolves to that date with no note, and its delta is `k`. |
| Scoring.OverdueByDays | tasks/scoring.py:22-40 | A due `date` `k` days in the past gives delta `-k`, and for `k > 0` the past-due rung. |
| Scoring.ResolveImportance | tasks/scoring.py:59-64 | Importance always lies in [1, 10]. It is the clamp of `int(raw)` when that succeeds, and 5 when the conversion fails. |
| Values.Truncate | tasks/scoring.py:61 | `int()` of a float truncates toward zero: for negative inputs it rounds up, not down. |
| Values.Truthy | tasks/scoring.py:14 | A value is falsy exactly when it is `None`, `False`, `0`, `0.0`, `""`, `[]` or `{}`. |
| Values.ToInt | tasks/scoring.py:61 | `int()` succeeds exactly on booleans, integers, floats and strings it can parse. `True` is 1 and `False` is 0, an integer is kept, a float is truncated toward zero, and a string is read by `int()`'s string grammar. |
| Values.ToFloat | tasks/scoring.py:69 | `float()` succeeds exactly on booleans, integers, floats and strings it can parse. A float is kept, and a string is read by `float()`'s decimal grammar. On every non-float value `int()` accepts, including booleans, it gives the same value as `int()`. |
| Scoring.ResolveHours | tasks/scoring.py:67-73 | Hours are always positive. They equal `float(raw)` when that succeeds and is positive, and 1.0 otherwise. |
| Scoring.NormalizeDependencies | tasks/scoring.py:76-83 | A list is kept as it is. `None`, `""` and `{}` become the empty list. Any other value becomes a one-element list. |
| Scoring.DependencyPenalty | tasks/scoring.py:85-93 | The penalty is non-negative, and zero iff there are no dependencies. |
| Scoring.PenaltyGrowth | tasks/scoring.py:88 | One dependency costs 0.25, and each further one costs 0.05 more. |
| Scoring.EffortFactor | tasks/scoring.py:102 | For positive hours the effort factor lies strictly between 0 and 1. |
| Scoring.EffortFactorDecreasing | tasks/scoring.py:102 | More hours never give a larger effort factor: lower effort is favoured. |
| Scoring.FinalScore | tasks/scoring.py:104-108 | The score is never negative. It is either 0 or `importance*multiplier*effort - penalty`, and at least the latter. |
| Scoring.NoPenaltyScore | tasks/scoring.py:104-108 | With no dependencies, the score is exactly `importance*multiplier*effort`. |
| Scoring.ScoreBelowFifteen | tasks/scoring.py:95-108 | Every score lies below 15, the product of the largest importance and the largest multiplier. |
| Scoring.RoundHalfEven | tasks/scoring.py:121 | The result lies within 0.5 of the input, and a tie goes to the even integer. |
| Scoring.Round4 | tasks/scoring.py:121 | `round(x, 4)` moves a value by at most 0.00005 and keeps non-negative values non-negative. |
| Scoring.Normalize | tasks/scoring.py:14-83 | A truthy title is kept, and a missing or falsy one becomes "Untitled Task". The due date, importance (default 5), hours (default 1) and dependencies each come from their own key through their own coercion. Importance lies in [1, 10] and hours are positive. |
| Scoring.Explain | tasks/scoring.py:110-118 | The explanation has six clauses, or seven with a due note. In order: the title; importance, hours, multiplier and effort factor; base score and penalty; the final score; the note, when present; exactly one urgency clause; the dependency clause last. |
| Scoring.Assess | tasks/scoring.py:35-118 | The score is `max(0, importance*multiplier*effort - penalty)`, with the multiplier of the urgency rung of the day delta. The delta is absent iff there is no valid date, and otherwise equals due minus today. The explanation carries those same values: factors second, base score and penalty third, final score fourth, the due note (when present) fifth, then exactly one urgency clause and the dependency clause last. |
| Scoring.Enrich | tasks/scoring.py:120-124 | The output holds every input key with its value unchanged, plus the three added keys. Only those three keys are overwritten. |
| Scoring.ComputeTaskScore | tasks/scoring.py:7-124 | The output keys are the input keys plus the three added ones, and the other values are copied. The score is non-negative. `_days_until_due` is null iff no valid due date, and otherwise equals the day delta. The stored explanation starts with the defaulted title. It has a seventh clause, the due note in fifth place, exactly when the record's `due_date` gets one. Its only urgency clause is the rung of the stored delta, second to last, and the count of the normalised dependencies comes last. |
| Scoring.ScoreOfTask | tasks/scoring.py:59-121 | The stored `_score` is `round4` of the combination of four things: the clamped importance, the urgency multiplier of the resolved date, the effort factor of the resolved hours, and the penalty of the normalised dependencies. |
| Scoring.DueTodayScore | tasks/scoring.py:17-121 | A task due today (given as ISO text), with in-range importance `i` and no hours or dependencies, stores `round4` of the combination of `i`, 1.3, the effort factor of one hour and no penalty. |
| Ranking.KeyOf | tasks/views.py:46-49 | The sort key is `(-score, days)`. A missing score counts as 0, and a null delta counts as `10**6`. |
| Ranking.KeyLeIsTotalOrder | tasks/views.py:49-51 | Tuple comparison of sort keys is a total order. |
| Ranking.SortBy | tasks/views.py:51 | The specified sort returns as many elements as it was given. |
| Ranking.Rank | tasks/views.py:51 | Ranking returns the same records as it was given, as a multiset. |
| Ranking.InsertPermutes | tasks/views.py:51 | Inserting one element into the sorted prefix adds exactly that element. |
| Ranking.InsertSorted | tasks/views.py:51 | Inserting into a sorted list keeps it sorted. |
| Ranking.InsertWithKey | tasks/views.py:51 | The new element goes after every element with an equal key. |
| Ranking.SortBySorted | tasks/views.py:51 | The specified sort yields a list sorted by the key. |
| Ranking.SortByPermutes | tasks/views.py:51 | The specified sort yields a permutation of its input. |
| Ranking.SortByStable | tasks/views.py:51 | The specified sort keeps every group of equal keys in input order. |
| Ranking.RankIsStableSort | tasks/views.py:46-51 | Ranking is a stable sort by `sort_key`: sorted, a permutation, and order-preserving among equal keys. |
| Ranking.StableSortUnique | tasks/views.py:51 | Any two stable sorts of the same list by the same key are equal. |
| Ranking.StableSortIsRank | tasks/views.py:51 | Every stable sort by `sort_key`, whatever its algorithm, yields exactly the ranking. |
| Ranking.SortedLastIsGreatest | tasks/views.py:51 | In a sorted list, no element has a larger key than the last. |
| Ranking.SortedPrefix | tasks/views.py:77 | Every prefix of a sorted list is sorted. |
| Ranking.InsertAtGap | tasks/views.py:51 | Insertion puts the new element in the gap whose left neighbour has a key no greater than its own and whose right side holds only greater keys. |
| Ranking.InsertAt | tasks/views.py:51 | One in-place insertion step shifts the greater keys right and drops `a[i]` into the gap. The prefix up to `i` becomes the insertion of `a[i]` into the old prefix, and the rest is untouched. |
| Ranking.SortInPlace | tasks/views.py:51 | Sorting the array in place by any key leaves exactly the specified stable sort of its old contents by that key. |
| Views.ParsePayload | tasks/views.py:13-20 | A JSON object body is the payload. A blank, undecodable or non-object body is `{}`. |
| Views.ParsePayloadAgrees | tasks/views.py:13-29 | Wherever `payload.get` does not raise, the corrected payload answers exactly as the code as written does. It raises exactly for non-object JSON. |
| Views.PayloadGetAsWritten | tasks/views.py:28-29 | `payload.get` raises exactly when the decoded body is not a dict. |
| Views.ParseRequestBodyAsWritten | tasks/views.py:13-20 | A decoded JSON body is returned whatever its type. A blank or undecodable body gives `{}`. |
| Views.ArrayBodyRaises | tasks/views.py:13-29 | A `[]` body makes `payload.get("tasks")` raise. |
| Views.Strategy | tasks/views.py:36 | `strategy` is always truthy. It echoes a truthy payload value, and is "default" otherwise. |
| Views.DictItemsKeepsDictsOnly | tasks/views.py:39-41 | Each dict element is kept once per occurrence, and nothing else is kept or added. The filter drops nothing iff every element is a dict. |
| Views.DictItems | tasks/views.py:39-41 | The filter never returns more records than the list had elements. |
| Views.DictItemsCounts | tasks/views.py:39-43 | Each dict occurs among the kept records exactly as often as it occurs as an element of the list. |
| Views.ScoreAll | tasks/views.py:42-43 | Scoring yields exactly one record per input record. |
| Views.ScoreAllAppend | tasks/views.py:42-43 | Scoring a list extended by one task appends that task's `compute_task_score` and leaves the earlier records as they were. |
| Views.ScoreAllScored | tasks/views.py:42-43 | Every scored record carries a numeric `_score` that is not negative. |
| Views.ScoreDicts | tasks/views.py:38-43 | The loop yields the scored dict elements, in order. |
| Views.SortList | tasks/views.py:51 | Copying into an array and sorting in place gives the ranking. |
| Views.AnalysisIsPermutation | tasks/views.py:38-51 | The analysis output is a stable sort, and so a permutation, of the scored dict elements. It is no longer than the input list. |
| Views.RankedRecordsAreScored | tasks/views.py:42-51 | Every ranked record carries a non-negative score. |
| Views.AnalyzeTasks | tasks/views.py:23-53 | 405 iff the method is not POST. 400 when the payload's `tasks` is not a list, including a blank or undecodable body. Otherwise 200 with the ranked scored dict elements and the strategy. The payload is the corrected one: a non-object JSON body reads as `{}` and gives 400, where the code as written answers 500 (see Findings). |
| Views.SuggestInput | tasks/views.py:62-67 | A GET, or a POST whose `tasks` is not a list, scores nothing. |
| Views.Summarize | tasks/views.py:79-84 | The summary is the "no tasks" case iff nothing is selected. Otherwise it gives the count and the selected explanations in rank order. |
| Views.ExplanationOf | tasks/views.py:80 | `t.get("_explanation", "")` gives the stored explanation when there is one, and the empty explanation otherwise. |
| Views.SummaryDateIsToday | tasks/views.py:79-82 | The date in the summary is today's, in a form the due-date parser reads back as today. |
| Views.SuggestTasks | tasks/views.py:56-86 | 405 for any method other than GET or POST. Otherwise 200 with the first `min(3, n)` of the ranking and their summary. A GET gives an empty list and the "no tasks" summary. The payload is the corrected one: a non-object JSON body scores nothing and gives 200, where the code as written answers 500 (see Findings). |
| Views.SuggestedOutrankRest | tasks/views.py:76-77 | Each suggested record ranks no lower than every record left out. |
| Views.SuggestIsPrefixOfAnalysis | tasks/views.py:23-77 | For the same POSTed list, suggest ranks exactly what analyze ranks and returns at most three of them. |

## Left out

- Django itself is not modelled: the request object, `JsonResponse`, CSRF exemption and routing. A request is a method name plus a body already classified as blank, undecodable, or a decoded JSON value.
- UTF-8 and JSON decoding of the body are not modelled; the body arrives already classified.
- `date.today()` is a parameter. The source reads the clock once per task and once more in `suggest_tasks`, so a run across midnight could mix two days; the model uses one day throughout.
- `math.log10` is a parameter assumed only positive and non-decreasing above 1. Its actual values are not modelled.
- Floating point is not modelled. Scores, hours and multipliers are exact reals, so representation error, NaN and infinities are absent.
  - `float("nan")` and `float("inf")` are not accepted.
  - `int()` of an infinite float, which raises in Python, cannot arise.
- Scoring.Round4: models `round(x, 4)` as exact round-half-even on reals, not on the binary double Python rounds.
- The `:.1f`/`:.2f` number formatting of the explanation text is not modelled. Scoring.Assess states the explanation as an ordered list of clauses carrying the printed values.
- The " | "-joined text of the summary is not modelled. Views.Summarize gives the summary as a count, a date and the explanations.
- Values.ToFloat: `float()` of an integer beyond the double range raises `OverflowError` in Python, and the hours then fall back to 1.0. The model converts every integer exactly.
- Text.ParseInt: Python's `int()` string grammar is narrowed to an optional sign followed by ASCII digits.
  - Not modelled: surrounding whitespace, `_` digit separators and non-ASCII digits.
  - Text.ParseDecimal narrows `float()` the same way; exponents, `inf` and `nan` are not accepted.
- `datetime` values, a subclass of `date`, are not distinguished from dates. The model's date value has no time part.
- Ranking.SortInPlace: Python's sort is Timsort; the model sorts by insertion. Ranking.StableSortUnique proves every stable sort by the same key gives the same list, so the result is the same.
- The key order of the output dicts (insertion order in Python) is not modelled; records are maps.
- `frontend/script.js` (rendering and input plumbing) and `tasks/models.py` (an ORM field with no behaviour) are not part of this model.
- Scoring.ComputeTaskScore: the input record is a value, so that the function "does not change its input" is true by construction rather than a stated property.

## Findings

| source | as written | input that shows it | evidently intended | confidence | as-written member | corrected member |
|---|---|---|---|---|---|---|
| tasks/views.py:13-29 | `_parse_request_body` returns whatever `json.loads` yields, and both views then call `payload.get`. | A POST with body `[]` (or `5`, `"x"`, `null`): `payload.get("tasks")` raises `AttributeError`, so the view answers 500 instead of 400 (analyze) or 200 (suggest). | A body that is not a JSON object is treated like an empty or unparsable one, as `{}`. | not executed | Views.PayloadGetAsWritten, Views.ArrayBodyRaises | Views.ParsePayload, Views.ParsePayloadAgrees |
