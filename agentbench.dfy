/**
 * `judge_answer` of the AgentBench script: a heuristic verdict on a model's
 * answer, chosen by a task tag ("sql", "kg", "math", "mcq", "os"), and the
 * loop every task of that script runs over its problems.
 */
module AgentBench {
  import opened Options
  import opened Text
  import opened Numerals
  import opened Values
  import opened Scores

  /**
   * An expected answer: a scalar (a number or a letter), a list of scalars
   * (the SQL labels), or a list of objects with their string fields (the
   * knowledge-graph entities).
   */
  datatype Expected = Scalar(v: Value) | Labels(xs: seq<Value>) | Entities(es: seq<map<string, string>>)

  /** `bool(expected_answer)` */
  predicate ExpectedTruthy(e: Expected)
  {
    match e
    case Scalar(v) => Truthy(v)
    case Labels(xs) => xs != []
    case Entities(es) => es != []
  }

  /**
   * The answers the judge handles without raising: a SQL judge given objects
   * would print them with `str(dict)`, and a knowledge-graph judge given
   * scalars would call `.get` on them.
   */
  predicate Judgeable(e: Expected, taskType: string)
  {
    !(taskType == "sql" && e.Entities? && e.es != []) && !(taskType == "kg" && e.Labels? && e.xs != [])
  }

  // ---------------------------------------------------------------- sql

  /**
   * With labels: "select" occurs and the first label (lower-cased) occurs, or
   * one of its words does; otherwise "select" alone decides.
   */
  function JudgeSql(r: string, e: Expected): (ok: bool)
    requires !(e.Entities? && e.es != [])
    ensures ok ==> Contains(r, "select")
    ensures !e.Labels? || e.xs == [] ==> (ok <==> Contains(r, "select"))
    ensures e.Labels? && e.xs != [] && Contains(r, "select") && Contains(r, Lower(Str(e.xs[0]))) ==> ok
  {
    if e.Labels? && e.xs != [] then
      var expected := Lower(Str(e.xs[0]));
      var words := Words(expected, 0);
      Contains(r, "select") && (Contains(r, expected) || exists k :: 0 <= k < |words| && Contains(r, words[k]))
    else Contains(r, "select")
  }

  // ---------------------------------------------------------------- kg

  /** `item.get('entity_name', '')` */
  function EntityName(item: map<string, string>): string
  {
    if "entity_name" in item then item["entity_name"] else ""
  }

  /** The first entity's name, lower-cased, is non-empty and occurs in the response. */
  function JudgeKg(r: string, e: Expected): (ok: bool)
    ensures ok ==> e.Entities? && e.es != [] && |EntityName(e.es[0])| > 0
    ensures ok ==> Contains(r, Lower(EntityName(e.es[0])))
  {
    e.Entities? && e.es != [] && var entity := Lower(EntityName(e.es[0])); entity != [] && Contains(r, entity)
  }

  // ---------------------------------------------------------------- math

  /** The text of `\d+\.?\d*` in full: digits, then possibly a point and more digits. */
  predicate NumberShape(t: string)
  {
    var d := RunEnd(t, 0, IsDigit);
    d > 0 && (d == |t| || (t[d] == '.' && AllDigits(t[d + 1..])))
  }

  /**
   * `\b\d+\.?\d*\b` at position `i`: where its match ends. Of the ends the
   * pattern can take, the regex engine's backtracking tries the longer first,
   * so the match is the longest well-shaped stretch that ends at a boundary.
   */
  function NumberTokenAt(s: string, i: nat): (r: Option<nat>)
    ensures r.Some? ==> i < r.value <= |s| && IsDigit(s[i]) && Boundary(s, i) && Boundary(s, r.value)
  {
    if !(i < |s| && IsDigit(s[i]) && Boundary(s, i)) then None
    else
      var a := RunEnd(s, i, IsDigit);
      if a < |s| && s[a] == '.' then
        var b := RunEnd(s, a + 1, IsDigit);
        if b > a + 1 then Some(if Boundary(s, b) then b else a + 1)
        else Some(if WordAt(s, a + 1) then a + 1 else a)
      else if Boundary(s, a) then Some(a) else None
  }

  /** What the token scanner finds has the token's shape. */
  lemma NumberTokenShape(s: string, i: nat)
    requires NumberTokenAt(s, i).Some?
    ensures NumberShape(s[i..NumberTokenAt(s, i).value])
  {
    var e := NumberTokenAt(s, i).value;
    var a := RunEnd(s, i, IsDigit);
    RunEndSlice(s, i, e, IsDigit);
    if a < e {
      assert s[i..e][a - i] == s[a];
      assert s[i..e][a - i + 1..] == s[a + 1..e];
    }
  }

  /**
   * The scanner's match is the longest: every well-shaped stretch from a
   * boundary at `i` to a boundary is a match, and none is longer than the
   * scanner's.
   */
  lemma NumberTokenLongest(s: string, i: nat, e: nat)
    requires i < e <= |s| && Boundary(s, i) && Boundary(s, e) && NumberShape(s[i..e])
    ensures NumberTokenAt(s, i).Some? && e <= NumberTokenAt(s, i).value
  {
    var t := s[i..e];
    var a := RunEnd(s, i, IsDigit);
    RunEndSlice(s, i, e, IsDigit);
    assert s[i] == t[0];
    if a < e {
      assert s[a] == t[a - i];
      var b := RunEnd(s, a + 1, IsDigit);
      forall k | a + 1 <= k < e
        ensures IsDigit(s[k])
      {
        assert s[k] == t[a - i + 1..][k - a - 1];
      }
      assert b >= e;
    }
  }

  /** `re.search` for a number token from `from` on. */
  function SearchNumber(s: string, from: nat): (r: Option<(nat, nat)>)
    ensures r.Some? ==> from <= r.value.0 < |s| && NumberTokenAt(s, r.value.0) == Some(r.value.1)
    ensures r.Some? ==> forall k :: from <= k < r.value.0 ==> NumberTokenAt(s, k).None?
    ensures r.None? ==> forall k :: from <= k < |s| ==> NumberTokenAt(s, k).None?
  {
    var at := i => NumberTokenAt(s, i);
    assert forall k :: at(k) == NumberTokenAt(s, k);
    Leftmost(|s|, from, at)
  }

  /**
   * `re.finditer` from `from` on: the leftmost token, then the tokens found
   * from its end on. The matches come in order and never overlap.
   */
  function NumberSpans(s: string, from: nat): (sp: seq<(nat, nat)>)
    ensures forall k :: 0 <= k < |sp| ==> from <= sp[k].0 < sp[k].1 <= |s| && NumberTokenAt(s, sp[k].0) == Some(sp[k].1)
    ensures InOrder(sp)
    ensures sp == [] <==> SearchNumber(s, from).None?
    decreases |s| - from
  {
    match SearchNumber(s, from)
    case None => []
    case Some((i, e)) =>
      var rest := NumberSpans(s, e);
      InOrderCons((i, e), rest);
      [(i, e)] + rest
  }

  /**
   * `re.findall(...)[-1]` from `from` on: the start and end of the last
   * token; no token is found after it.
   */
  function LastNumber(s: string, from: nat): (r: Option<(nat, nat)>)
    ensures r.Some? ==> from <= r.value.0 < r.value.1 <= |s| && NumberTokenAt(s, r.value.0) == Some(r.value.1)
    ensures r.Some? ==> SearchNumber(s, r.value.1).None?
    ensures r.None? <==> SearchNumber(s, from).None?
    ensures r.None? <==> NumberSpans(s, from) == []
    ensures r.Some? ==> r.value == NumberSpans(s, from)[|NumberSpans(s, from)| - 1]
    decreases |s| - from
  {
    match SearchNumber(s, from)
    case None => None
    case Some((i, e)) =>
      var rest := NumberSpans(s, e);
      assert NumberSpans(s, from) == [(i, e)] + rest;
      match LastNumber(s, e)
      case None => Some((i, e))
      case Some(m) =>
        assert ([(i, e)] + rest)[|rest|] == rest[|rest| - 1];
        Some(m)
  }

  /**
   * Only the last match counts: the token read is one of the matches
   * `findall` yields, and every other match ends before it starts, so a
   * token starting inside an earlier match is never read.
   */
  lemma LastNumberIsLastMatch(s: string, from: nat, k: nat)
    requires k < |NumberSpans(s, from)|
    ensures LastNumber(s, from).Some? && LastNumber(s, from).value in NumberSpans(s, from)
    ensures k < |NumberSpans(s, from)| - 1 ==> NumberSpans(s, from)[k].1 <= LastNumber(s, from).value.0
    ensures !(NumberSpans(s, from)[k].0 < LastNumber(s, from).value.0 < NumberSpans(s, from)[k].1)
  {
  }

  /** A token's text always reads as a float, and never as a negative one: signs are not part of a token. */
  lemma NumberShapeValue(t: string)
    requires NumberShape(t)
    ensures ParseFloat(t).Some? && DecimalReal(ParseFloat(t).value) >= 0.0
  {
    var d := RunEnd(t, 0, IsDigit);
    assert IsDigit(t[0]);
    assert !IsSpace(t[|t| - 1]) by {
      if d < |t| {
        assert d == |t| - 1 || IsDigit(t[d + 1..][|t| - d - 2]);
      }
    }
    StripUnchanged(t, IsSpace);
    UnsignedFloat(t);
  }

  function Abs(x: real): real { if x < 0.0 then -x else x }

  /** `float(expected_answer)`: a scalar's value; a list raises. */
  function ExpectedFloat(e: Expected): (r: Option<real>)
    ensures r.Some? ==> e.Scalar?
    ensures e.Scalar? && e.v.IntV? ==> r == Some(e.v.i as real)
    ensures e.Scalar? && e.v.StrV? && ParseFloat(e.v.s).Some? ==> r == Some(DecimalReal(ParseFloat(e.v.s).value))
    ensures e.Scalar? && (e.v.NoneV? || (e.v.StrV? && ParseFloat(e.v.s).None?)) ==> r.None?
  {
    if e.Scalar? then ToFloat(e.v) else None
  }

  /** The last token, read as a float, lies within 0.01 of the expected value, which must be truthy. */
  function JudgeMath(r: string, e: Expected): (ok: bool)
    ensures ok ==> ExpectedTruthy(e) && e.Scalar? && ExpectedFloat(e).Some?
    ensures ok ==> exists k :: 0 <= k < |r| && IsDigit(r[k])
  {
    match LastNumber(r, 0)
    case None => false
    case Some((i, j)) =>
      ExpectedTruthy(e) && ExpectedFloat(e).Some? && ParseFloat(r[i..j]).Some?
      && Abs(DecimalReal(ParseFloat(r[i..j]).value) - ExpectedFloat(e).value) < 0.01
  }

  // ---------------------------------------------------------------- mcq

  /**
   * The first isolated letter a-d, upper-cased, is `str(expected).upper()`.
   * The text of a list starts with `[` and is never one letter, so only a
   * scalar can match.
   */
  function JudgeMcq(r: string, e: Expected): (ok: bool)
    ensures ok ==> ExpectedTruthy(e) && e.Scalar? && |Str(e.v)| == 1 && 'A' <= UpperChar(Str(e.v)[0]) <= 'D'
  {
    match FirstIsolated(r, 'a', 'd')
    case None => false
    case Some(c) =>
      assert e.Scalar? && [UpperChar(c)] == Upper(Str(e.v)) ==> UpperChar(Str(e.v)[0]) == Upper(Str(e.v))[0] == UpperChar(c);
      ExpectedTruthy(e) && e.Scalar? && [UpperChar(c)] == Upper(Str(e.v))
  }

  /**
   * The first isolated letter a-d decides: wherever it stands, the verdict is
   * whether its capital is `str(expected).upper()`, whatever follows it.
   */
  lemma McqFirstLetterDecides(r: string, e: Expected, i: nat)
    requires i < |r| && IsolatedAt(r, 'a', 'd', i).Some?
    requires forall j :: 0 <= j < i ==> IsolatedAt(r, 'a', 'd', j).None?
    ensures JudgeMcq(r, e) <==> ExpectedTruthy(e) && e.Scalar? && [UpperChar(r[i])] == Upper(Str(e.v))
  {
    var c := FirstIsolated(r, 'a', 'd');
    assert c.Some?;
    var i' :| 0 <= i' < |r| && r[i'] == c.value && IsolatedAt(r, 'a', 'd', i') == c
              && forall j :: 0 <= j < i' ==> IsolatedAt(r, 'a', 'd', j).None?;
    assert i' == i;
  }

  // ---------------------------------------------------------------- os

  /** Keywords the response must mention, chosen by the first trigger phrase found in the question. */
  function JudgeOs(r: string, question: string): (ok: bool)
    ensures ok ==> |r| > 50 || Contains(r, "ls -a") || Contains(r, "find") || Contains(r, "watch")
                   || Contains(r, "tail") || Contains(r, "stat") || Contains(r, "grep")
                   || Contains(r, "alias") || Contains(r, "bc") || Contains(r, "function")
    ensures var q := Lower(question);
      (!Contains(q, "hidden files") && !Contains(q, "interval") && !Contains(q, "seconds")
       && !Contains(q, "calc") && !Contains(q, "alias")) ==> (ok <==> |r| > 50)
  {
    var q := Lower(question);
    if Contains(q, "hidden files") then Contains(r, "ls -a") || Contains(r, "find")
    else if Contains(q, "interval") || Contains(q, "seconds") then
      Contains(r, "watch") || Contains(r, "tail") || Contains(r, "stat") || Contains(r, "grep")
    else if Contains(q, "calc") || Contains(q, "alias") then
      Contains(r, "alias") || Contains(r, "bc") || Contains(r, "function")
    else |r| > 50
  }

  /** `judge_answer`: the response is lower-cased and judged by the tag's judge; an unknown tag is wrong. */
  function JudgeAnswer(response: string, expected: Expected, question: string, taskType: string): (ok: bool)
    requires Judgeable(expected, taskType)
    ensures ok ==> taskType in ["sql", "kg", "math", "mcq", "os"]
    ensures ok && taskType == "sql" ==> Contains(Lower(response), "select")
    ensures ok && (taskType == "math" || taskType == "mcq") ==> ExpectedTruthy(expected) && expected.Scalar?
    ensures ok && taskType == "kg" ==> expected.Entities? && expected.es != []
  {
    var r := Lower(response);
    if taskType == "sql" then JudgeSql(r, expected)
    else if taskType == "kg" then JudgeKg(r, expected)
    else if taskType == "math" then JudgeMath(r, expected)
    else if taskType == "mcq" then JudgeMcq(r, expected)
    else if taskType == "os" then JudgeOs(r, question)
    else false
  }

  /** Only the lower-cased response counts: changing its case changes no verdict. */
  lemma JudgeIgnoresCase(response: string, expected: Expected, question: string, taskType: string)
    requires Judgeable(expected, taskType)
    ensures JudgeAnswer(Upper(response), expected, question, taskType) == JudgeAnswer(response, expected, question, taskType)
    ensures JudgeAnswer(Lower(response), expected, question, taskType) == JudgeAnswer(response, expected, question, taskType)
  {
    assert Lower(Upper(response)) == Lower(response);
    LowerIdempotent(response);
  }

  /** An unknown tag, and a falsy expected answer for math or multiple choice, always give False. */
  lemma AlwaysWrong(response: string, expected: Expected, question: string, taskType: string)
    requires Judgeable(expected, taskType)
    requires taskType !in ["sql", "kg", "math", "mcq", "os"] || ((taskType == "math" || taskType == "mcq") && !ExpectedTruthy(expected))
    ensures !JudgeAnswer(response, expected, question, taskType)
  {
  }

  /** SQL: without "select" in any case, never right. */
  lemma SqlNeedsSelect(response: string, expected: Expected, question: string)
    requires Judgeable(expected, "sql")
    requires !Contains(Lower(response), "select")
    ensures !JudgeAnswer(response, expected, question, "sql")
  {
  }

  /** SQL: a response with "select" that mentions the first label, in any case, is right. */
  lemma SqlLabelMentioned(response: string, xs: seq<Value>, question: string)
    requires xs != []
    requires Contains(Lower(response), "select") && Contains(response, Str(xs[0]))
    ensures JudgeAnswer(response, Labels(xs), question, "sql")
  {
    ContainsLowered(response, Str(xs[0]));
  }

  /** SQL with a scalar or an empty list: "select" alone decides. */
  lemma SqlScalarSelect(response: string, e: Expected, question: string)
    requires !(e.Labels? && e.xs != []) && !(e.Entities? && e.es != [])
    ensures JudgeAnswer(response, e, question, "sql") <==> Contains(Lower(response), "select")
  {
  }

  /** SQL: one word of the first label, with "select", is enough. */
  lemma SqlWordMentioned(response: string, xs: seq<Value>, question: string, k: nat)
    requires xs != [] && k < |Words(Lower(Str(xs[0])), 0)|
    requires Contains(Lower(response), "select") && Contains(Lower(response), Words(Lower(Str(xs[0])), 0)[k])
    ensures JudgeAnswer(response, Labels(xs), question, "sql")
  {
  }

  /** Knowledge graph: a scalar or an empty list of entities is never matched. */
  lemma KgNeedsEntities(response: string, e: Expected, question: string)
    requires Judgeable(e, "kg") && (!e.Entities? || e.es == [])
    ensures !JudgeAnswer(response, e, question, "kg")
  {
  }

  /** Knowledge graph: right iff the first entity's name is non-empty and occurs, ignoring case. */
  lemma KgEntityMentioned(response: string, es: seq<map<string, string>>, question: string)
    requires es != [] && EntityName(es[0]) != [] && Contains(response, EntityName(es[0]))
    ensures JudgeAnswer(response, Entities(es), question, "kg")
  {
    ContainsLowered(response, EntityName(es[0]));
  }

  /** Knowledge graph: an entity without a name is never found. */
  lemma KgNamelessEntity(response: string, es: seq<map<string, string>>, question: string)
    requires es != [] && EntityName(es[0]) == []
    ensures !JudgeAnswer(response, Entities(es), question, "kg")
  {
  }

  /** No token is found in text without digits. */
  lemma NoDigitsNoNumber(s: string, from: nat, upto: nat)
    requires from <= upto <= |s|
    requires forall k :: from <= k < upto ==> !IsDigit(s[k])
    ensures forall k :: from <= k < upto ==> NumberTokenAt(s, k).None?
  {
  }

  /**
   * A number written after text without digits that ends in a non-word
   * character ("The answer is 42") is the last token, from start to end.
   */
  lemma LastNumberAfterText(p: string, n: nat)
    requires forall k :: 0 <= k < |p| ==> !IsDigit(p[k])
    requires p == [] || !IsWordChar(p[|p| - 1])
    ensures LastNumber(p + NatText(n), 0) == Some((|p|, |p + NatText(n)|))
  {
    var t := NatText(n);
    var s := p + t;
    forall k | 0 <= k < |p|
      ensures NumberTokenAt(s, k).None?
    {
      assert s[k] == p[k];
    }
    forall k | |p| <= k < |s|
      ensures IsDigit(s[k])
    {
      assert s[k] == t[k - |p|];
    }
    assert Boundary(s, |p|) by {
      if p != [] {
        assert s[|p| - 1] == p[|p| - 1];
      }
    }
    RunEndIs(s, |p|, IsDigit, |s|);
    assert NumberTokenAt(s, |p|) == Some(|s|);
    assert SearchNumber(s, 0) == Some((|p|, |s|));
    assert s[|p|..|s|] == t;
  }

  /**
   * Math: "The answer is 42" and "42" are right for 42, and so is "-42":
   * the sign is not read, so "-42" is wrong for -42.
   */
  lemma MathReadsLastNumberUnsigned(p: string, n: nat, question: string)
    requires n > 0
    requires forall k :: 0 <= k < |p| ==> !IsDigit(p[k])
    requires p == [] || !IsWordChar(p[|p| - 1])
    requires Lower(p) == p
    ensures JudgeAnswer(p + NatText(n), Scalar(IntV(n)), question, "math")
    ensures !JudgeAnswer(p + NatText(n), Scalar(IntV(-(n as int))), question, "math")
  {
    var t := NatText(n);
    assert Lower(p + t) == p + t by {
      LowerConcat(p, t);
      DigitsLower(t);
    }
    MathLastNumber(p, n);
  }

  /** The math judge reads the number written after digit-free text, and reads it as unsigned. */
  lemma MathLastNumber(p: string, n: nat)
    requires n > 0
    requires forall k :: 0 <= k < |p| ==> !IsDigit(p[k])
    requires p == [] || !IsWordChar(p[|p| - 1])
    ensures JudgeMath(p + NatText(n), Scalar(IntV(n)))
    ensures !JudgeMath(p + NatText(n), Scalar(IntV(-(n as int))))
  {
    var t := NatText(n);
    var s := p + t;
    assert LastNumber(s, 0) == Some((|p|, |s|)) by {
      LastNumberAfterText(p, n);
    }
    assert s[|p|..|s|] == t;
    assert ParseFloat(t).Some? && DecimalReal(ParseFloat(t).value) == n as real by {
      IntTextRoundTrip(n);
      IntIsFloat(t);
    }
  }

  /**
   * Number tokens carry no sign, so they read as non-negative: an expected
   * value of -0.01 or less is never within 0.01 of one, whatever the response.
   */
  lemma MathNegativeNeverRight(response: string, expected: Expected, question: string)
    requires Judgeable(expected, "math")
    requires ExpectedFloat(expected).Some? && ExpectedFloat(expected).value <= -0.01
    ensures !JudgeAnswer(response, expected, question, "math")
  {
    var r := Lower(response);
    if LastNumber(r, 0).Some? {
      var (i, j) := LastNumber(r, 0).value;
      NumberTokenShape(r, i);
      NumberShapeValue(r[i..j]);
    }
  }

  /** A negative expected value closer than 0.01 to zero can still be matched: "0" is right for -0.005. */
  lemma MathNearZeroNegative(question: string)
    ensures JudgeAnswer("0", Scalar(FloatV(Decimal(-5, 3))), question, "math")
  {
    var s := "0";
    assert Lower(s) == s;
    assert NumberTokenAt(s, 0) == Some(1);
    assert SearchNumber(s, 0) == Some((0, 1));
    assert SearchNumber(s, 1).None?;
    assert LastNumber(s, 0) == Some((0, 1));
    assert s[0..1] == "0";
    assert ParseFloat("0").Some? && DecimalReal(ParseFloat("0").value) == 0.0 by {
      IntTextRoundTrip(0);
      IntIsFloat(IntText(0));
    }
  }

  /** Digits are their own lower case. */
  lemma DigitsLower(t: string)
    requires AllDigits(t)
    ensures Lower(t) == t
  {
    forall k | 0 <= k < |t|
      ensures Lower(t)[k] == t[k]
    {
      assert IsDigit(t[k]);
    }
  }

  /** Multiple choice: a response that is just the expected letter, in either case, is right. */
  lemma McqSingleLetter(c: char, expected: char, question: string)
    requires 'a' <= LowerChar(c) <= 'd' && LowerChar(expected) == LowerChar(c)
    ensures JudgeAnswer([c], Scalar(StrV([expected])), question, "mcq")
  {
    var r := Lower([c]);
    assert r == [LowerChar(c)];
    assert IsolatedAt(r, 'a', 'd', 0) == Some(LowerChar(c));
    assert FirstIsolated(r, 'a', 'd') == Some(LowerChar(c));
    assert Upper([expected]) == [UpperChar(expected)];
  }

  /** Multiple choice: with no isolated letter a-d in the lower-cased response, never right. */
  lemma McqNoLetter(response: string, expected: Expected, question: string)
    requires FirstIsolated(Lower(response), 'a', 'd').None?
    ensures !JudgeAnswer(response, expected, question, "mcq")
  {
  }

  /**
   * Multiple choice: the first isolated letter decides, wherever the right one
   * stands later, so a response opening with the article "a" is read as A.
   */
  lemma McqArticleFirst(q: string, question: string)
    ensures !JudgeAnswer("a " + q, Scalar(StrV("B")), question, "mcq")
  {
    LowerConcat("a ", q);
    var r := Lower("a " + q);
    assert Lower("a ") == "a ";
    assert r[0] == 'a' && r[1] == ' ';
    assert IsolatedAt(r, 'a', 'd', 0) == Some('a');
    assert FirstIsolated(r, 'a', 'd') == Some('a');
    assert Upper("B") == "B";
  }

  /** OS: a question without any trigger phrase passes every response of more than 50 characters. */
  lemma OsFallbackLength(response: string, question: string)
    requires !Contains(Lower(question), "hidden files") && !Contains(Lower(question), "interval")
    requires !Contains(Lower(question), "seconds") && !Contains(Lower(question), "calc") && !Contains(Lower(question), "alias")
    ensures JudgeAnswer(response, Scalar(NoneV), question, "os") <==> |response| > 50
  {
  }

  /** OS: "hidden files" in the question takes precedence over every other trigger. */
  lemma OsHiddenFilesFirst(response: string, question: string)
    requires Contains(Lower(question), "hidden files")
    ensures JudgeAnswer(response, Scalar(NoneV), question, "os")
      <==> Contains(Lower(response), "ls -a") || Contains(Lower(response), "find")
  {
  }

  // ---------------------------------------------------------------- the runners

  /** One problem of a task: its question and expected answer. */
  datatype Problem = Problem(question: string, expected: Expected)

  /** What a runner records for one problem (`id` counts from 1). */
  datatype Record = Record(id: nat, question: string, expected: Expected, response: string,
                           judgedCorrect: bool, success: bool)

  datatype TaskResult = TaskResult(task: string, total: nat, correct: nat, successRate: real, records: seq<Record>)

  /** The verdict on one problem: a failed generation is wrong, the others are judged. */
  function Verdict(problem: Problem, g: Generation, taskType: string): (ok: bool)
    requires Judgeable(problem.expected, taskType)
    ensures ok ==> g.success && taskType in ["sql", "kg", "math", "mcq", "os"]
  {
    g.success && JudgeAnswer(g.response, problem.expected, problem.question, taskType)
  }

  /** The record of problem `k`. */
  function RecordOf(problems: seq<Problem>, gens: seq<Generation>, taskType: string, k: nat): (r: Record)
    requires |gens| == |problems| && k < |problems|
    requires Judgeable(problems[k].expected, taskType)
    ensures r.id == k + 1 && r.id > 0
    ensures r.question == problems[k].question && r.expected == problems[k].expected
    ensures r.response == gens[k].response && r.success == gens[k].success
    ensures r.judgedCorrect ==> r.success
  {
    Record(k + 1, problems[k].question, problems[k].expected, gens[k].response,
           Verdict(problems[k], gens[k], taskType), gens[k].success)
  }

  /** The records of all problems, in order; only a successful generation can be judged correct. */
  function Records(problems: seq<Problem>, gens: seq<Generation>, taskType: string): (rs: seq<Record>)
    requires |gens| == |problems|
    requires forall k :: 0 <= k < |problems| ==> Judgeable(problems[k].expected, taskType)
    ensures |rs| == |problems|
    ensures forall k :: 0 <= k < |problems| && rs[k].judgedCorrect ==> gens[k].success
  {
    seq(|problems|, k requires 0 <= k < |problems| => RecordOf(problems, gens, taskType, k))
  }

  /** Whether a record was judged correct. */
  function Judged(r: Record): bool { r.judgedCorrect }

  /** The loop body for problem `k`: a failed generation is wrong, otherwise `judge_answer` decides. */
  method JudgeProblem(problems: seq<Problem>, gens: seq<Generation>, taskType: string, k: nat) returns (record: Record)
    requires |gens| == |problems| && k < |problems|
    requires Judgeable(problems[k].expected, taskType)
    ensures record == RecordOf(problems, gens, taskType, k)
  {
    var isCorrect := false;
    if gens[k].success {
      isCorrect := JudgeAnswer(gens[k].response, problems[k].expected, problems[k].question, taskType);
    }
    record := Record(k + 1, problems[k].question, problems[k].expected, gens[k].response, isCorrect, gens[k].success);
  }

  /**
   * The loop of `test_math_reasoning`, `test_common_sense_qa`,
   * `test_sql_generation` and `test_knowledge_graph`: judge each problem in
   * order, count, and take the rate.
   */
  method RunTask(task: string, problems: seq<Problem>, gens: seq<Generation>, taskType: string) returns (result: TaskResult)
    requires |gens| == |problems|
    requires forall k :: 0 <= k < |problems| ==> Judgeable(problems[k].expected, taskType)
    ensures result.task == task && result.total == |problems|
    ensures result.records == Records(problems, gens, taskType)
    ensures result.correct == Count(Flags(result.records, Judged)) && result.correct <= result.total
    ensures result.successRate == Rate(result.correct, result.total)
  {
    ghost var rs := Records(problems, gens, taskType);
    var records: seq<Record> := [];
    var correct: nat := 0;
    for k := 0 to |problems|
      invariant records == rs[..k]
      invariant correct == Count(Flags(records, Judged))
    {
      var record := JudgeProblem(problems, gens, taskType, k);
      CountAppend(records, record, Judged);
      if record.judgedCorrect {
        correct := correct + 1;
      }
      PrefixSnoc(rs, k);
      records := records + [record];
    }
    assert rs[..|problems|] == rs;
    result := TaskResult(task, |problems|, correct, Rate(correct, |problems|), records);
  }

  /** A run in which every generation succeeds and is judged right counts every problem and rates 100. */
  lemma PerfectRun(problems: seq<Problem>, gens: seq<Generation>, taskType: string)
    requires |gens| == |problems| && problems != []
    requires forall k :: 0 <= k < |problems| ==> Judgeable(problems[k].expected, taskType)
    requires forall k :: 0 <= k < |problems| ==>
      gens[k].success && JudgeAnswer(gens[k].response, problems[k].expected, problems[k].question, taskType)
    ensures Count(Flags(Records(problems, gens, taskType), Judged)) == |problems|
    ensures Rate(Count(Flags(Records(problems, gens, taskType), Judged)), |problems|) == 100.0
  {
    var bs := Flags(Records(problems, gens, taskType), Judged);
    forall k | 0 <= k < |bs|
      ensures bs[k]
    {
      assert Records(problems, gens, taskType)[k] == RecordOf(problems, gens, taskType, k);
    }
    RateBounds(Count(bs), |problems|);
  }
}
