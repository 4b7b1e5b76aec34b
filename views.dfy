/**
 * The two request handlers built on the scorer: `analyze_tasks` ranks every
 * dict in the payload's `tasks` list, and `suggest_tasks` returns the three
 * best with a one-line summary. Request decoding, the HTTP response object
 * and the clock are outside the model: the request arrives as a method name
 * and an already classified body, and "today" is a parameter.
 */
module Views {
  import opened Wrappers
  import opened Calendar
  import opened Values
  import opened Scoring
  import opened Ranking

  /** The request body as `_parse_request_body` classifies it. */
  datatype Body =
    | Blank              // empty, or only whitespace
    | Undecodable        // not UTF-8, or not JSON
    | Json(value: Value) // what `json.loads` returned

  datatype Request = Request(httpMethod: string, body: Body)

  /** The suggestion summary; its text rendering is not modelled. */
  datatype Summary =
    | NothingToSuggest
    | TopSuggestions(count: nat, day: string, explanations: seq<Explanation>)

  datatype Content =
    | Detail(message: string)
    | Analysis(tasks: seq<ScoredRecord>, strategy: Value)
    | Suggestion(tasks: seq<ScoredRecord>, summary: Summary)

  datatype Response = Response(status: int, content: Content)

  const OnlyPost := "Only POST is allowed."
  const OnlyGetOrPost := "Only GET or POST is allowed."
  const TasksListRequired := "Request body must contain a 'tasks' list."
  const SuggestLimit := 3

  // ------------------------------------------------------------ the payload

  /** `_parse_request_body` as written: whatever `json.loads` returned, or `{}`. */
  function ParseRequestBodyAsWritten(body: Body): (v: Value)
    ensures body.Json? ==> v == body.value
    ensures !body.Json? ==> v == Dict(map[])
  {
    match body
    case Json(v) => v
    case _ => Dict(map[])
  }

  /** `payload.get(key)` on that result; `None` where it raises `AttributeError`. */
  function PayloadGetAsWritten(payload: Value, key: string): (r: Option<Value>)
    ensures r.None? <==> !payload.Dict?
  {
    if payload.Dict? then Some(Get(payload.entries, key)) else None
  }

  /** A JSON array body makes both views raise instead of answering 400. */
  lemma ArrayBodyRaises()
    ensures PayloadGetAsWritten(ParseRequestBodyAsWritten(Json(List([]))), "tasks") == None
  {
  }

  /** The payload the views evidently expect: a JSON object, or `{}` for anything else. */
  function ParsePayload(body: Body): (payload: Record)
    ensures body.Json? && body.value.Dict? ==> payload == body.value.entries
    ensures !(body.Json? && body.value.Dict?) ==> payload == map[]
  {
    match body
    case Json(Dict(m)) => m
    case _ => map[]
  }

  /** The corrected payload agrees with the code as written wherever that does not raise. */
  lemma ParsePayloadAgrees(body: Body, key: string)
    ensures PayloadGetAsWritten(ParseRequestBodyAsWritten(body), key).Some? ==>
      PayloadGetAsWritten(ParseRequestBodyAsWritten(body), key) == Some(Get(ParsePayload(body), key))
    ensures body.Json? && !body.value.Dict? ==> PayloadGetAsWritten(ParseRequestBodyAsWritten(body), key).None?
  {
  }

  /** `payload.get("strategy") or "default"`. */
  function Strategy(payload: Record): (s: Value)
    ensures Truthy(s)
    ensures Truthy(Get(payload, "strategy")) ==> s == Get(payload, "strategy")
    ensures !Truthy(Get(payload, "strategy")) ==> s == Str("default")
  {
    if Truthy(Get(payload, "strategy")) then Get(payload, "strategy") else Str("default")
  }

  // ------------------------------------------------------------ the scoring

  /** The dict elements of the `tasks` list, in order; everything else is skipped. */
  function DictItems(items: seq<Value>): (records: seq<Record>)
    ensures |records| <= |items|
  {
    if items == [] then []
    else
      var last := items[|items| - 1];
      DictItems(items[..|items| - 1]) + (if last.Dict? then [last.entries] else [])
  }

  /**
   * The filter keeps each dict element once per occurrence and nothing else,
   * and drops nothing exactly when every element is a dict.
   */
  lemma DictItemsKeepsDictsOnly(items: seq<Value>)
    ensures forall m :: multiset(DictItems(items))[m] == multiset(items)[Dict(m)]
    ensures forall m :: m in DictItems(items) <==> Dict(m) in items
    ensures |DictItems(items)| == |items| <==> forall i :: 0 <= i < |items| ==> items[i].Dict?
  {
    DictItemsCounts(items);
    forall m
      ensures m in DictItems(items) <==> Dict(m) in items
    {
      assert m in DictItems(items) <==> m in multiset(DictItems(items));
      assert Dict(m) in items <==> Dict(m) in multiset(items);
    }
    DictItemsLength(items);
  }

  lemma {:induction false} DictItemsCounts(items: seq<Value>)
    ensures forall m :: multiset(DictItems(items))[m] == multiset(items)[Dict(m)]
  {
    if items != [] {
      var init, last := items[..|items| - 1], items[|items| - 1];
      DictItemsCounts(init);
      assert items == init + [last];
      assert DictItems(items) == DictItems(init) + (if last.Dict? then [last.entries] else []);
    }
  }

  lemma {:induction false} DictItemsLength(items: seq<Value>)
    ensures |DictItems(items)| == |items| <==> forall i :: 0 <= i < |items| ==> items[i].Dict?
  {
    if items != [] {
      var init, last := items[..|items| - 1], items[|items| - 1];
      DictItemsLength(init);
      assert DictItems(items) == DictItems(init) + (if last.Dict? then [last.entries] else []);
      assert forall i :: 0 <= i < |init| ==> init[i] == items[i];
      if last.Dict? {
        assert (forall i :: 0 <= i < |items| ==> items[i].Dict?)
          <==> (forall i :: 0 <= i < |init| ==> init[i].Dict?);
      } else {
        assert !items[|items| - 1].Dict?;
      }
    }
  }

  /** `compute_task_score` applied to each record, in order. */
  function ScoreAll(tasks: seq<Record>, today: CivilDate, log10: Log10): (scored: seq<ScoredRecord>)
    ensures |scored| == |tasks|
  {
    if tasks == [] then []
    else ScoreAll(tasks[..|tasks| - 1], today, log10) + [ComputeTaskScore(tasks[|tasks| - 1], today, log10)]
  }

  /** Every scored record carries a non-negative score. */
  lemma {:induction false} ScoreAllScored(tasks: seq<Record>, today: CivilDate, log10: Log10, r: ScoredRecord)
    requires r in ScoreAll(tasks, today, log10)
    ensures ScoreKey in r && r[ScoreKey].Score? && r[ScoreKey].score >= 0.0
  {
    var init := tasks[..|tasks| - 1];
    if r in ScoreAll(init, today, log10) {
      ScoreAllScored(init, today, log10, r);
    }
  }

  /**
   * The analysis output is a permutation of the scored dict elements: the
   * same records, and as many as there were dicts in the list.
   */
  lemma AnalysisIsPermutation(items: seq<Value>, today: CivilDate, log10: Log10)
    ensures var scored := ScoreAll(DictItems(items), today, log10);
      && multiset(Rank(scored)) == multiset(scored)
      && |Rank(scored)| == |DictItems(items)| <= |items|
      && IsStableSortOf(Rank(scored), scored, KeyOf)
  {
    RankIsStableSort(ScoreAll(DictItems(items), today, log10));
    DictItemsKeepsDictsOnly(items);
  }

  /** Every ranked record carries a non-negative score, so its sort key is not positive. */
  lemma RankedRecordsAreScored(items: seq<Value>, today: CivilDate, log10: Log10, r: ScoredRecord)
    requires r in Rank(ScoreAll(DictItems(items), today, log10))
    ensures ScoreKey in r && r[ScoreKey].Score? && r[ScoreKey].score >= 0.0
    ensures KeyOf(r).negatedScore <= 0.0
  {
    var scored := ScoreAll(DictItems(items), today, log10);
    RankIsStableSort(scored);
    assert r in multiset(scored);
    ScoreAllScored(DictItems(items), today, log10, r);
  }

  // ------------------------------------------------------------ the views

  lemma DictItemsStep(items: seq<Value>, i: nat)
    requires i < |items|
    ensures DictItems(items[..i + 1])
      == DictItems(items[..i]) + (if items[i].Dict? then [items[i].entries] else [])
  {
    assert items[..i + 1][..i] == items[..i];
  }

  lemma ScoreAllAppend(tasks: seq<Record>, t: Record, today: CivilDate, log10: Log10)
    ensures ScoreAll(tasks + [t], today, log10) == ScoreAll(tasks, today, log10) + [ComputeTaskScore(t, today, log10)]
  {
    assert (tasks + [t])[..|tasks|] == tasks;
  }

  /** The loop of `analyze_tasks`: score each dict element, skip the rest. */
  method ScoreDicts(items: seq<Value>, today: CivilDate, log10: Log10) returns (scored: seq<ScoredRecord>)
    ensures scored == ScoreAll(DictItems(items), today, log10)
  {
    scored := [];
    for i := 0 to |items|
      invariant scored == ScoreAll(DictItems(items[..i]), today, log10)
    {
      DictItemsStep(items, i);
      if items[i].Dict? {
        ScoreAllAppend(DictItems(items[..i]), items[i].entries, today, log10);
        scored := scored + [ComputeTaskScore(items[i].entries, today, log10)];
      } else {
        assert DictItems(items[..i + 1]) == DictItems(items[..i]) + [];
        assert DictItems(items[..i]) + [] == DictItems(items[..i]);
      }
    }
    assert items[..|items|] == items;
  }

  /** `scored.sort(key=sort_key)` on a fresh list holding `scored`. */
  method SortList(scored: seq<ScoredRecord>) returns (ranked: seq<ScoredRecord>)
    ensures ranked == Rank(scored)
  {
    var list := new ScoredRecord[|scored|](k requires 0 <= k < |scored| => scored[k]);
    assert list[..] == scored;
    SortInPlace(list, KeyOf);
    ranked := list[..];
  }

  /** `analyze_tasks`. */
  method AnalyzeTasks(request: Request, today: CivilDate, log10: Log10) returns (response: Response)
    ensures request.httpMethod != "POST" ==> response == Response(405, Detail(OnlyPost))
    ensures request.httpMethod == "POST" && !Get(ParsePayload(request.body), "tasks").List? ==>
      response == Response(400, Detail(TasksListRequired))
    ensures request.httpMethod == "POST" && Get(ParsePayload(request.body), "tasks").List? ==>
      var payload := ParsePayload(request.body);
      response == Response(200, Analysis(
        Rank(ScoreAll(DictItems(Get(payload, "tasks").items), today, log10)),
        Strategy(payload)))
  {
    if request.httpMethod != "POST" {
      return Response(405, Detail(OnlyPost));
    }
    var payload := ParsePayload(request.body);
    var rawTasks := Get(payload, "tasks");
    if !rawTasks.List? {
      return Response(400, Detail(TasksListRequired));
    }
    var strategy := Strategy(payload);
    var scored := ScoreDicts(rawTasks.items, today, log10);
    var ranked := SortList(scored);
    response := Response(200, Analysis(ranked, strategy));
  }

  /** What `suggest_tasks` scores: the dict elements of a POST's `tasks` list, else nothing. */
  function SuggestInput(request: Request): (tasks: seq<Record>)
    ensures request.httpMethod != "POST" ==> tasks == []
    ensures request.httpMethod == "POST" && !Get(ParsePayload(request.body), "tasks").List? ==> tasks == []
  {
    var rawTasks := Get(ParsePayload(request.body), "tasks");
    if request.httpMethod == "POST" && rawTasks.List? then DictItems(rawTasks.items) else []
  }

  /** `t.get("_explanation", "")`, with `""` as the empty explanation. */
  function ExplanationOf(r: ScoredRecord): (e: Explanation)
    ensures ExplanationKey in r && r[ExplanationKey].ExplanationText? ==> e == r[ExplanationKey].clauses
    ensures !(ExplanationKey in r && r[ExplanationKey].ExplanationText?) ==> e == []
  {
    if ExplanationKey in r && r[ExplanationKey].ExplanationText? then r[ExplanationKey].clauses else []
  }

  /** The `summary` of `suggest_tasks` for the selected records. */
  function Summarize(top: seq<ScoredRecord>, today: CivilDate): (s: Summary)
    ensures s == NothingToSuggest <==> top == []
    ensures s.TopSuggestions? ==> s.count == |s.explanations| == |top|
    ensures s.TopSuggestions? ==> forall i :: 0 <= i < |top| ==> s.explanations[i] == ExplanationOf(top[i])
  {
    if top == [] then NothingToSuggest
    else TopSuggestions(|top|, IsoFormat(today), seq(|top|, i requires 0 <= i < |top| => ExplanationOf(top[i])))
  }

  /** The date in the summary is today's, in a form the due-date parser reads back. */
  lemma SummaryDateIsToday(top: seq<ScoredRecord>, today: CivilDate)
    requires top != []
    ensures ParseDate(Summarize(top, today).day) == Some(today)
  {
    ParseIsoFormat(today);
  }

  function Min(a: int, b: int): int {
    if a < b then a else b
  }

  /** `suggest_tasks`. */
  method SuggestTasks(request: Request, today: CivilDate, log10: Log10) returns (response: Response)
    ensures request.httpMethod !in {"GET", "POST"} ==> response == Response(405, Detail(OnlyGetOrPost))
    ensures request.httpMethod in {"GET", "POST"} ==>
      var ranked := Rank(ScoreAll(SuggestInput(request), today, log10));
      var k := Min(SuggestLimit, |ranked|);
      && response.status == 200
      && response.content.Suggestion?
      && response.content.tasks == ranked[..k]
      && response.content.summary == Summarize(ranked[..k], today)
    ensures request.httpMethod == "GET" ==> response == Response(200, Suggestion([], NothingToSuggest))
  {
    if request.httpMethod !in {"GET", "POST"} {
      return Response(405, Detail(OnlyGetOrPost));
    }
    var scored := ScoreAll(SuggestInput(request), today, log10);
    var ranked := SortList(scored);
    var top := ranked[..Min(SuggestLimit, |ranked|)];
    response := Response(200, Suggestion(top, Summarize(top, today)));
  }

  // ------------------------------------------------------------ properties

  /**
   * The suggested records are the best ones: each ranks no lower than every
   * record of the analysis that was not suggested, and there are at most three.
   */
  lemma SuggestedOutrankRest(tasks: seq<Record>, today: CivilDate, log10: Log10, i: nat, j: nat)
    requires var ranked := Rank(ScoreAll(tasks, today, log10));
      i < Min(SuggestLimit, |ranked|) <= j < |ranked|
    ensures var ranked := Rank(ScoreAll(tasks, today, log10));
      KeyLe(KeyOf(ranked[i]), KeyOf(ranked[j]))
  {
    RankIsStableSort(ScoreAll(tasks, today, log10));
  }

  /** A POST to either view with the same `tasks` list ranks it the same way; suggest keeps a prefix. */
  lemma SuggestIsPrefixOfAnalysis(request: Request, today: CivilDate, log10: Log10)
    requires request.httpMethod == "POST" && Get(ParsePayload(request.body), "tasks").List?
    ensures var analysis := Rank(ScoreAll(DictItems(Get(ParsePayload(request.body), "tasks").items), today, log10));
      var suggestion := Rank(ScoreAll(SuggestInput(request), today, log10));
      suggestion == analysis && |suggestion[..Min(SuggestLimit, |suggestion|)]| <= SuggestLimit
  {
  }
}
