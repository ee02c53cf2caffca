/**
 * `test_generic`, the loop that judges one category of the function-calling
 * leaderboard, and the totals and averages taken over all categories.
 * Loading the problems and answers and calling the model are outside the
 * model: the loop receives the problems, the answers by problem id and one
 * generation record per problem.
 */
module BerkeleyRunner {
  import opened Options
  import opened Values
  import opened Scores
  import opened FunctionCalls
  import opened CallJudge

  /** One problem of a category: its id and the user's question. */
  datatype Item = Item(id: string, question: string)

  /** What the loop records for one problem. */
  datatype Record = Record(id: string, question: string, response: string, truth: GroundTruth,
                           judgedCorrect: bool, success: bool)

  /** What `test_generic` returns for a category. */
  datatype TaskResult = TaskResult(task: string, total: nat, correct: nat, successRate: real, records: seq<Record>)

  /** `answers.get(test_id, [])` */
  function TruthFor(answers: map<string, GroundTruth>, id: string): (truth: GroundTruth)
    ensures id in answers ==> truth == answers[id]
    ensures id !in answers ==> truth == []
  {
    if id in answers then answers[id] else []
  }

  /**
   * The verdict on one generation: a failed one is incorrect; otherwise the
   * irrelevance judge, or the parsed call checked against the ground truth.
   */
  function Verdict(g: Generation, isIrrelevance: bool, truth: GroundTruth, decode: Decoder): (ok: bool)
    ensures ok ==> g.success
    ensures ok && isIrrelevance ==> |g.response| >= 4
    ensures ok && !isIrrelevance ==> Parse(g.response, decode).Some? && truth != []
  {
    g.success && (if isIrrelevance then JudgeIrrelevance(g.response) else Accepts(Parse(g.response, decode), truth))
  }

  /** The verdicts on the problems, in order. */
  function Verdicts(items: seq<Item>, answers: map<string, GroundTruth>, gens: seq<Generation>,
                    isIrrelevance: bool, decode: Decoder): (vs: seq<bool>)
    requires |gens| == |items|
    ensures |vs| == |items|
    ensures forall k :: 0 <= k < |items| && vs[k] ==> gens[k].success
  {
    seq(|items|, k requires 0 <= k < |items| => Verdict(gens[k], isIrrelevance, TruthFor(answers, items[k].id), decode))
  }

  /** The record of problem `k`. */
  function RecordOf(items: seq<Item>, answers: map<string, GroundTruth>, gens: seq<Generation>,
                    isIrrelevance: bool, decode: Decoder, k: nat): (r: Record)
    requires |gens| == |items| && k < |items|
    ensures r.id == items[k].id && r.question == items[k].question && r.response == gens[k].response
    ensures r.truth == (if items[k].id in answers then answers[items[k].id] else [])
    ensures r.success == gens[k].success && (r.judgedCorrect ==> r.success)
  {
    Record(items[k].id, items[k].question, gens[k].response, TruthFor(answers, items[k].id),
           Verdict(gens[k], isIrrelevance, TruthFor(answers, items[k].id), decode), gens[k].success)
  }

  /** A result whose count is at most its total and whose rate is the percentage of the two. */
  predicate Consistent(r: TaskResult)
  {
    r.correct <= r.total && r.successRate == Rate(r.correct, r.total)
  }

  /** The records of all problems, in order. */
  function Records(items: seq<Item>, answers: map<string, GroundTruth>, gens: seq<Generation>,
                   isIrrelevance: bool, decode: Decoder): (rs: seq<Record>)
    requires |gens| == |items|
    ensures |rs| == |items|
  {
    seq(|items|, k requires 0 <= k < |items| => RecordOf(items, answers, gens, isIrrelevance, decode, k))
  }

  /** Whether a record was judged correct. */
  function Judged(r: Record): bool { r.judgedCorrect }

  /** The flags the records of a category hold are the verdicts on its problems. */
  lemma FlagsAreVerdicts(items: seq<Item>, answers: map<string, GroundTruth>, gens: seq<Generation>,
                         isIrrelevance: bool, decode: Decoder)
    requires |gens| == |items|
    ensures Flags(Records(items, answers, gens, isIrrelevance, decode), Judged) == Verdicts(items, answers, gens, isIrrelevance, decode)
  {
    var rs := Records(items, answers, gens, isIrrelevance, decode);
    forall k | 0 <= k < |rs|
      ensures Flags(rs, Judged)[k] == Verdicts(items, answers, gens, isIrrelevance, decode)[k]
    {
      assert Flags(rs, Judged)[k] == Judged(rs[k]);
    }
  }


  /** The loop body for problem `k`: nothing is judged for a failed generation, else the category's judge decides. */
  method JudgeItem(items: seq<Item>, answers: map<string, GroundTruth>, gens: seq<Generation>,
                   isIrrelevance: bool, decode: Decoder, k: nat) returns (record: Record)
    requires |gens| == |items| && k < |items|
    ensures record == RecordOf(items, answers, gens, isIrrelevance, decode, k)
  {
    var truth := TruthFor(answers, items[k].id);
    var isCorrect := false;
    if gens[k].success {
      if isIrrelevance {
        isCorrect := JudgeIrrelevance(gens[k].response);
      } else {
        var parsed := ParseFunctionCall(gens[k].response, decode);
        isCorrect := EvaluateFunctionCall(parsed, truth);
      }
    }
    record := Record(items[k].id, items[k].question, gens[k].response, truth, isCorrect, gens[k].success);
  }

  /** `test_generic`: judge every problem in order, count the correct ones, and take the rate. */
  method TestGeneric(task: string, items: seq<Item>, answers: map<string, GroundTruth>, gens: seq<Generation>,
                     isIrrelevance: bool, decode: Decoder) returns (result: TaskResult)
    requires |gens| == |items|
    ensures Consistent(result) && result.task == task && result.total == |items|
    ensures result.records == Records(items, answers, gens, isIrrelevance, decode)
    ensures result.correct == Count(Flags(result.records, Judged))
    ensures items == [] ==> result == TaskResult(task, 0, 0, 0.0, [])
  {
    if items == [] {
      return TaskResult(task, 0, 0, 0.0, []);
    }
    ghost var rs := Records(items, answers, gens, isIrrelevance, decode);
    var records: seq<Record> := [];
    var correct: nat := 0;
    for k := 0 to |items|
      invariant records == rs[..k]
      invariant correct == Count(Flags(records, Judged))
    {
      var record := JudgeItem(items, answers, gens, isIrrelevance, decode, k);
      CountAppend(records, record, Judged);
      if record.judgedCorrect {
        correct := correct + 1;
      }
      PrefixSnoc(rs, k);
      records := records + [record];
    }
    assert rs[..|items|] == rs;
    result := TaskResult(task, |items|, correct, Rate(correct, |items|), records);
  }

  /** A failed generation is recorded as judged incorrect. */
  lemma FailedGenerationIncorrect(items: seq<Item>, answers: map<string, GroundTruth>, gens: seq<Generation>,
                                  isIrrelevance: bool, decode: Decoder, k: nat)
    requires |gens| == |items| && k < |items| && !gens[k].success
    ensures !Records(items, answers, gens, isIrrelevance, decode)[k].judgedCorrect
    ensures !Verdicts(items, answers, gens, isIrrelevance, decode)[k]
  {
  }

  function SumTotals(rs: seq<TaskResult>): nat
  {
    if rs == [] then 0 else SumTotals(rs[..|rs| - 1]) + rs[|rs| - 1].total
  }

  function SumCorrect(rs: seq<TaskResult>): nat
  {
    if rs == [] then 0 else SumCorrect(rs[..|rs| - 1]) + rs[|rs| - 1].correct
  }

  /** `total_correct / total_tests * 100`, 0 without tests. */
  function OverallAccuracy(rs: seq<TaskResult>): (r: real)
    ensures SumTotals(rs) == 0 ==> r == 0.0
    ensures SumCorrect(rs) <= SumTotals(rs) ==> 0.0 <= r <= 100.0
  {
    assert SumCorrect(rs) <= SumTotals(rs) ==> 0.0 <= Rate(SumCorrect(rs), SumTotals(rs)) <= 100.0 by {
      if SumCorrect(rs) <= SumTotals(rs) {
        RateBounds(SumCorrect(rs), SumTotals(rs));
      }
    }
    Rate(SumCorrect(rs), SumTotals(rs))
  }

  /** The rates of the categories that had problems, in order. */
  function ValidRates(rs: seq<TaskResult>): (vs: seq<real>)
    ensures |vs| <= |rs|
    ensures (forall k :: 0 <= k < |rs| ==> rs[k].total == 0) ==> vs == []
  {
    if rs == [] then []
    else ValidRates(rs[..|rs| - 1]) + (if rs[|rs| - 1].total > 0 then [rs[|rs| - 1].successRate] else [])
  }

  function SumReals(xs: seq<real>): real
  {
    if xs == [] then 0.0 else SumReals(xs[..|xs| - 1]) + xs[|xs| - 1]
  }

  /** `sum(valid_rates) / len(valid_rates)`, 0 when no category had problems. */
  function AverageRate(rs: seq<TaskResult>): (r: real)
    ensures (forall k :: 0 <= k < |rs| ==> rs[k].total == 0) ==> r == 0.0
    ensures (forall k :: 0 <= k < |ValidRates(rs)| ==> 0.0 <= ValidRates(rs)[k] <= 100.0) ==> 0.0 <= r <= 100.0
  {
    var vs := ValidRates(rs);
    if vs == [] then 0.0 else
    assert (forall k :: 0 <= k < |vs| ==> 0.0 <= vs[k] <= 100.0) ==> 0.0 <= SumReals(vs) / |vs| as real <= 100.0 by {
      if forall k :: 0 <= k < |vs| ==> 0.0 <= vs[k] <= 100.0 {
        SumRealsBounds(vs);
        MeanBounds(SumReals(vs), |vs|);
      }
    }
    SumReals(vs) / |vs| as real
  }

  /** Over consistent results the totals bound the counts, and overall accuracy is a percentage. */
  lemma {:induction false} OverallAccuracyBounds(rs: seq<TaskResult>)
    requires forall k :: 0 <= k < |rs| ==> Consistent(rs[k])
    ensures SumCorrect(rs) <= SumTotals(rs)
    ensures 0.0 <= OverallAccuracy(rs) <= 100.0
  {
    if rs != [] {
      OverallAccuracyBounds(rs[..|rs| - 1]);
    }
    RateBounds(SumCorrect(rs), SumTotals(rs));
  }

  /** Every valid rate is a percentage when every result is consistent. */
  lemma {:induction false} ValidRatesBounds(rs: seq<TaskResult>)
    requires forall k :: 0 <= k < |rs| ==> Consistent(rs[k])
    ensures forall k :: 0 <= k < |ValidRates(rs)| ==> 0.0 <= ValidRates(rs)[k] <= 100.0
  {
    if rs != [] {
      var last := rs[|rs| - 1];
      ValidRatesBounds(rs[..|rs| - 1]);
      RateBounds(last.correct, last.total);
    }
  }

  /** A sum of percentages lies between 0 and 100 times their number. */
  lemma {:induction false} SumRealsBounds(xs: seq<real>)
    requires forall k :: 0 <= k < |xs| ==> 0.0 <= xs[k] <= 100.0
    ensures 0.0 <= SumReals(xs) <= 100.0 * |xs| as real
  {
    if xs != [] {
      SumRealsBounds(xs[..|xs| - 1]);
    }
  }

  /** A sum of `n` percentages divided by `n` is a percentage. */
  lemma MeanBounds(sum: real, n: nat)
    requires n > 0 && 0.0 <= sum <= 100.0 * n as real
    ensures 0.0 <= sum / n as real <= 100.0
  {
    var q := sum / n as real;
    assert q * n as real == sum;
    if q > 100.0 {
      assert q * n as real > 100.0 * n as real;
    }
  }

  /** The average category rate is a percentage. */
  lemma AverageRateBounds(rs: seq<TaskResult>)
    requires forall k :: 0 <= k < |rs| ==> Consistent(rs[k])
    ensures 0.0 <= AverageRate(rs) <= 100.0
  {
    var vs := ValidRates(rs);
    if vs != [] {
      ValidRatesBounds(rs);
      SumRealsBounds(vs);
      MeanBounds(SumReals(vs), |vs|);
    }
  }

  /** The valid rates of two lists of results one after the other. */
  lemma {:induction false} ValidRatesConcat(a: seq<TaskResult>, b: seq<TaskResult>)
    ensures ValidRates(a + b) == ValidRates(a) + ValidRates(b)
  {
    if b != [] {
      assert (a + b)[..|a + b| - 1] == a + b[..|b| - 1];
      ValidRatesConcat(a, b[..|b| - 1]);
    } else {
      assert a + b == a;
    }
  }

  /** A category without problems, wherever it stands, leaves the average rate as it was. */
  lemma EmptyCategoryIgnored(a: seq<TaskResult>, r: TaskResult, b: seq<TaskResult>)
    requires r.total == 0
    ensures AverageRate(a + [r] + b) == AverageRate(a + b)
  {
    ValidRatesConcat(a + [r], b);
    ValidRatesConcat(a, [r]);
    ValidRatesConcat(a, b);
    assert ValidRates([r]) == ValidRates([]) + [];
    assert ValidRates(a + [r] + b) == ValidRates(a) + ValidRates(b);
  }
}
