/**
 * The three agents of the simplified AgentBench script: lateral-thinking
 * puzzles (any answer counts), math word problems (a number is extracted
 * from the answer and compared), and common-sense multiple choice (a capital
 * letter A-D is extracted and compared).
 */
module SimpleAgents {
  import opened Options
  import opened Text
  import opened Numerals
  import opened Scores

  // ---------------------------------------------------------------- numbers

  predicate IsSign(c: char) { c == '+' || c == '-' }

  /**
   * `[+-]?\d+\.?\d*` at position `k`: where its match ends. Nothing follows
   * the pattern, so every part takes as much as it can.
   */
  function SignedNumberAt(s: string, k: nat): (r: Option<nat>)
    ensures r.Some? ==> k < r.value <= |s|
  {
    var p := if k < |s| && IsSign(s[k]) then k + 1 else k;
    if p > |s| then None
    else
      var a := RunEnd(s, p, IsDigit);
      if a == p then None
      else if a < |s| && s[a] == '.' then Some(RunEnd(s, a + 1, IsDigit))
      else Some(a)
  }

  /** A sign, then digits, then possibly a point and more digits: a token's text. */
  predicate SignedShape(t: string)
  {
    var u := SplitSign(t).1;
    var d := RunEnd(u, 0, IsDigit);
    d > 0 && (d == |u| || (u[d] == '.' && AllDigits(u[d + 1..])))
  }

  /**
   * The match has the token's shape, and it is maximal: the character after
   * it could not extend it.
   */
  lemma SignedNumberShape(s: string, k: nat)
    requires SignedNumberAt(s, k).Some?
    ensures SignedShape(s[k..SignedNumberAt(s, k).value])
    ensures var e := SignedNumberAt(s, k).value;
      e == |s| || (!IsDigit(s[e]) && (s[e] == '.' ==> '.' in s[k..e]))
  {
    var e := SignedNumberAt(s, k).value;
    var t := s[k..e];
    var p := if IsSign(s[k]) then k + 1 else k;
    var a := RunEnd(s, p, IsDigit);
    assert SplitSign(t).1 == s[p..e] by {
      assert t[0] == s[k];
      if IsSign(s[k]) {
        assert t[1..] == s[p..e];
      }
    }
    RunEndSlice(s, p, e, IsDigit);
    if a < e {
      assert s[p..e][a - p] == s[a];
      assert s[p..e][a - p + 1..] == s[a + 1..e];
      assert t[a - k] == '.';
    }
  }

  /** Every token reads as a float, so the `float()` calls on tokens never raise. */
  lemma SignedShapeParses(t: string)
    requires SignedShape(t)
    ensures ParseFloat(t).Some?
  {
    var u := SplitSign(t).1;
    var d := RunEnd(u, 0, IsDigit);
    assert !IsSpace(t[0]) by {
      if !IsSign(t[0]) {
        assert t[0] == u[0];
      }
    }
    assert !IsSpace(t[|t| - 1]) by {
      assert u[|u| - 1] == t[|t| - 1];
      if d < |u| {
        assert d == |u| - 1 || IsDigit(u[d + 1..][|u| - d - 2]);
      }
    }
    StripUnchanged(t, IsSpace);
  }

  /**
   * The scanner misses no token: wherever a signed number's text starts, a
   * match starts there too, and it reaches at least as far.
   */
  lemma SignedNumberFound(s: string, k: nat, e: nat)
    requires k < e <= |s| && SignedShape(s[k..e])
    ensures SignedNumberAt(s, k).Some? && e <= SignedNumberAt(s, k).value
  {
    var t := s[k..e];
    var p := if IsSign(s[k]) then k + 1 else k;
    assert t[0] == s[k];
    assert SplitSign(t).1 == s[p..e] by {
      if IsSign(s[k]) {
        assert t[1..] == s[p..e];
      }
    }
    UnsignedPartFound(s, p, e);
  }

  /** The unsigned part of a token's text `s[p..e]`: the scanner's digit run and fraction reach `e`. */
  lemma UnsignedPartFound(s: string, p: nat, e: nat)
    requires p <= e <= |s|
    requires var u := s[p..e]; var d := RunEnd(u, 0, IsDigit);
      d > 0 && (d == |u| || (u[d] == '.' && AllDigits(u[d + 1..])))
    ensures var a := RunEnd(s, p, IsDigit);
      p < a && (a < e ==> s[a] == '.' && e <= RunEnd(s, a + 1, IsDigit))
  {
    var u := s[p..e];
    var a := RunEnd(s, p, IsDigit);
    RunEndSlice(s, p, e, IsDigit);
    if a < e {
      assert s[a] == u[a - p];
      forall m | a + 1 <= m < e
        ensures IsDigit(s[m])
      {
        assert s[m] == u[a - p + 1..][m - a - 1];
      }
    }
  }

  /** The value of a token's text. */
  function TokenValue(s: string, k: nat, e: nat): (r: Option<real>)
    requires k <= e <= |s|
    ensures r.Some? <==> ParseFloat(s[k..e]).Some?
    ensures SignedShape(s[k..e]) ==> r.Some?
  {
    assert SignedShape(s[k..e]) ==> ParseFloat(s[k..e]).Some? by {
      if SignedShape(s[k..e]) {
        SignedShapeParses(s[k..e]);
      }
    }
    match ParseFloat(s[k..e])
    case Some(d) => Some(DecimalReal(d))
    case None => None
  }

  // ---------------------------------------------------------------- answer patterns

  /**
   * The answer patterns in the order they are tried, lower-cased (they are
   * matched ignoring case): "Final Answer:", "answer is", "=". Each is
   * followed by optional spaces and the captured number.
   */
  const AnswerPatterns: seq<string> := ["final answer:", "answer is", "="]

  /** `<lit>\s*([+-]?\d+\.?\d*)` at position `i`, ignoring case: the captured number's start and end. */
  function PatternAt(s: string, lit: string, i: nat): (r: Option<(nat, nat)>)
    ensures r.Some? ==> i + |lit| <= r.value.0 < r.value.1 <= |s| && HasAtIgnoreCase(s, i, lit)
    ensures r.Some? ==> SignedNumberAt(s, r.value.0) == Some(r.value.1)
  {
    if !HasAtIgnoreCase(s, i, lit) then None
    else
      var k := RunEnd(s, i + |lit|, IsSpace);
      match SignedNumberAt(s, k)
      case None => None
      case Some(e) => Some((k, e))
  }

  /** `re.search(pattern, response, re.IGNORECASE)`: the leftmost match, and its number's start and end. */
  function SearchPattern(s: string, lit: string): (r: Option<(nat, (nat, nat))>)
    ensures r.Some? ==> r.value.0 < |s| && PatternAt(s, lit, r.value.0) == Some(r.value.1)
    ensures r.Some? ==> forall i :: 0 <= i < r.value.0 ==> PatternAt(s, lit, i).None?
    ensures r.None? ==> forall i :: 0 <= i < |s| ==> PatternAt(s, lit, i).None?
  {
    var at := i => PatternAt(s, lit, i);
    assert forall i :: at(i) == PatternAt(s, lit, i);
    Leftmost(|s|, 0, at)
  }

  /** The value the first pattern that matches captures (a capture that does not read as a float is passed over). */
  function PatternAnswer(s: string, patterns: seq<string>): (r: Option<real>)
    ensures r.Some? ==> SearchSigned(s, 0).Some?
    ensures r.None? <==> forall l :: 0 <= l < |patterns| ==> SearchPattern(s, patterns[l]).None?
    decreases |patterns|
  {
    if patterns == [] then None
    else
      assert forall l :: 1 <= l < |patterns| ==> patterns[l] == patterns[1..][l - 1];
      match SearchPattern(s, patterns[0])
      case Some((_, (k, e))) =>
        assert TokenValue(s, k, e).Some? by {
          SignedNumberShape(s, k);
          SignedShapeParses(s[k..e]);
        }
        TokenValue(s, k, e)
      case None => PatternAnswer(s, patterns[1..])
  }

  /** `re.search` for a signed number from `from` on. */
  function SearchSigned(s: string, from: nat): (r: Option<(nat, nat)>)
    ensures r.Some? ==> from <= r.value.0 < |s| && SignedNumberAt(s, r.value.0) == Some(r.value.1)
    ensures r.Some? ==> forall k :: from <= k < r.value.0 ==> SignedNumberAt(s, k).None?
    ensures r.None? ==> forall k :: from <= k < |s| ==> SignedNumberAt(s, k).None?
  {
    var at := i => SignedNumberAt(s, i);
    assert forall k :: at(k) == SignedNumberAt(s, k);
    Leftmost(|s|, from, at)
  }

  /**
   * `re.finditer` for signed numbers from `from` on: the leftmost match, then
   * the matches found from its end on. In "5-3" they are "5" and "-3".
   */
  function SignedSpans(s: string, from: nat): (sp: seq<(nat, nat)>)
    ensures forall k :: 0 <= k < |sp| ==> from <= sp[k].0 < sp[k].1 <= |s| && SignedNumberAt(s, sp[k].0) == Some(sp[k].1)
    ensures InOrder(sp)
    ensures sp == [] <==> SearchSigned(s, from).None?
    decreases |s| - from
  {
    match SearchSigned(s, from)
    case None => []
    case Some((k, e)) =>
      var rest := SignedSpans(s, e);
      InOrderCons((k, e), rest);
      [(k, e)] + rest
  }

  /** `re.findall(...)[-1]` from `from` on: the last signed number; none is found after it. */
  function LastSigned(s: string, from: nat): (r: Option<(nat, nat)>)
    ensures r.Some? ==> from <= r.value.0 < r.value.1 <= |s| && SignedNumberAt(s, r.value.0) == Some(r.value.1)
    ensures r.Some? ==> SearchSigned(s, r.value.1).None?
    ensures r.None? <==> SearchSigned(s, from).None?
    ensures r.None? <==> SignedSpans(s, from) == []
    ensures r.Some? ==> r.value == SignedSpans(s, from)[|SignedSpans(s, from)| - 1]
    decreases |s| - from
  {
    match SearchSigned(s, from)
    case None => None
    case Some((k, e)) =>
      var rest := SignedSpans(s, e);
      assert SignedSpans(s, from) == [(k, e)] + rest;
      match LastSigned(s, e)
      case None => Some((k, e))
      case Some(m) =>
        assert ([(k, e)] + rest)[|rest|] == rest[|rest| - 1];
        Some(m)
  }

  /**
   * Only the last match counts: the number read is one of the matches
   * `findall` yields, and every other match ends before it starts, so a
   * number starting inside an earlier match (the "3" of "5-3") is never read.
   */
  lemma LastSignedIsLastMatch(s: string, from: nat, k: nat)
    requires k < |SignedSpans(s, from)|
    ensures LastSigned(s, from).Some? && LastSigned(s, from).value in SignedSpans(s, from)
    ensures k < |SignedSpans(s, from)| - 1 ==> SignedSpans(s, from)[k].1 <= LastSigned(s, from).value.0
    ensures !(SignedSpans(s, from)[k].0 < LastSigned(s, from).value.0 < SignedSpans(s, from)[k].1)
  {
  }

  /** In "5-3" the matches are "5" and "-3": the last number read is -3, sign included, and never the bare 3. */
  lemma LastSignedKeepsSign()
    ensures SignedSpans("5-3", 0) == [(0, 1), (1, 3)]
    ensures LastSigned("5-3", 0) == Some((1, 3))
  {
    var s := "5-3";
    assert SignedNumberAt(s, 0) == Some(1) by {
      assert RunEnd(s, 0, IsDigit) == 1 by {
        RunEndIs(s, 0, IsDigit, 1);
      }
    }
    assert SignedNumberAt(s, 1) == Some(3) by {
      assert RunEnd(s, 2, IsDigit) == 3 by {
        RunEndIs(s, 2, IsDigit, 3);
      }
    }
    assert SearchSigned(s, 0) == Some((0, 1));
    assert SearchSigned(s, 1) == Some((1, 3));
    assert SearchSigned(s, 3).None?;
    assert SignedSpans(s, 3) == [];
    assert SignedSpans(s, 1) == [(1, 3)];
  }

  /** What the math agent extracts: the first matching pattern's number, else the last number, else nothing. */
  function MathAnswer(s: string): (r: Option<real>)
    ensures r.Some? <==> SearchSigned(s, 0).Some?
  {
    match PatternAnswer(s, AnswerPatterns)
    case Some(x) => Some(x)
    case None =>
      match LastSigned(s, 0)
      case None => None
      case Some((k, e)) =>
        assert TokenValue(s, k, e).Some? by {
          SignedNumberShape(s, k);
          SignedShapeParses(s[k..e]);
        }
        TokenValue(s, k, e)
  }

  /**
   * The extraction as the source runs it: the patterns in order, stopping at
   * the first whose capture reads as a float; then, if nothing was read, the
   * last number of the response.
   */
  method ExtractMathAnswer(response: string) returns (extracted: Option<real>)
    ensures extracted == MathAnswer(response)
  {
    extracted := None;
    var idx := 0;
    while idx < |AnswerPatterns|
      invariant idx <= |AnswerPatterns|
      invariant PatternAnswer(response, AnswerPatterns) == PatternAnswer(response, AnswerPatterns[idx..])
    {
      var m := SearchPattern(response, AnswerPatterns[idx]);
      if m.Some? {
        var f := ParseFloat(response[m.value.1.0..m.value.1.1]);
        if f.Some? {
          extracted := Some(DecimalReal(f.value));
          break;
        }
      }
      assert AnswerPatterns[idx..][1..] == AnswerPatterns[idx + 1..];
      idx := idx + 1;
    }
    if extracted.None? {
      var last := LastSigned(response, 0);
      if last.Some? {
        var f := ParseFloat(response[last.value.0..last.value.1]);
        if f.Some? {
          extracted := Some(DecimalReal(f.value));
        }
      }
    }
  }

  /** The math verdict: something was extracted and it lies within 0.01 of the expected integer. */
  function MathCorrect(response: string, expected: int): (ok: bool)
    ensures ok ==> SearchSigned(response, 0).Some?
  {
    var x := MathAnswer(response);
    x.Some? && -0.01 < x.value - expected as real < 0.01
  }

  /** Whatever the patterns capture reads as a number, so a matching pattern always decides. */
  lemma PatternDecides(s: string, patterns: seq<string>)
    requires patterns != [] && SearchPattern(s, patterns[0]).Some?
    ensures PatternAnswer(s, patterns).Some?
  {
    var (k, e) := SearchPattern(s, patterns[0]).value.1;
    SignedNumberShape(s, k);
    SignedShapeParses(s[k..e]);
  }

  /**
   * The first pattern, in order, whose search matches supplies the value:
   * the patterns before it find nothing, and its capture always reads as a
   * float, so the `except` branch never moves on.
   */
  lemma {:induction false} PatternAnswerFirst(s: string, patterns: seq<string>, j: nat)
    requires j < |patterns| && SearchPattern(s, patterns[j]).Some?
    requires forall l :: 0 <= l < j ==> SearchPattern(s, patterns[l]).None?
    ensures var (k, e) := SearchPattern(s, patterns[j]).value.1;
      TokenValue(s, k, e).Some? && PatternAnswer(s, patterns) == TokenValue(s, k, e)
    decreases j
  {
    if j == 0 {
      var (k, e) := SearchPattern(s, patterns[0]).value.1;
      SignedNumberShape(s, k);
      SignedShapeParses(s[k..e]);
    } else {
      assert patterns[1..][j - 1] == patterns[j];
      assert forall l :: 0 <= l < j - 1 ==> patterns[1..][l] == patterns[l + 1];
      PatternAnswerFirst(s, patterns[1..], j - 1);
    }
  }

  /** `extract_math_answer` with a matching pattern: the first one that matches gives the answer. */
  lemma MathAnswerPattern(s: string, j: nat)
    requires j < |AnswerPatterns| && SearchPattern(s, AnswerPatterns[j]).Some?
    requires forall l :: 0 <= l < j ==> SearchPattern(s, AnswerPatterns[l]).None?
    ensures var (k, e) := SearchPattern(s, AnswerPatterns[j]).value.1;
      MathAnswer(s).Some? && MathAnswer(s) == TokenValue(s, k, e)
  {
    PatternAnswerFirst(s, AnswerPatterns, j);
  }

  /** `extract_math_answer` without a matching pattern: the last number of the response, or nothing. */
  lemma MathAnswerFallback(s: string)
    requires forall l :: 0 <= l < |AnswerPatterns| ==> SearchPattern(s, AnswerPatterns[l]).None?
    ensures LastSigned(s, 0).None? ==> MathAnswer(s).None?
    ensures LastSigned(s, 0).Some? ==> var (k, e) := LastSigned(s, 0).value;
      MathAnswer(s).Some? && MathAnswer(s) == TokenValue(s, k, e)
  {
    assert PatternAnswer(s, AnswerPatterns).None?;
  }

  /** With a number anywhere in the response, something is always extracted. */
  lemma NumberExtracted(s: string)
    requires SearchSigned(s, 0).Some?
    ensures MathAnswer(s).Some?
  {
    if PatternAnswer(s, AnswerPatterns).None? {
      var (k, e) := LastSigned(s, 0).value;
      SignedNumberShape(s, k);
      SignedShapeParses(s[k..e]);
    }
  }

  /** Any signed number's text anywhere in the answer makes the extraction succeed. */
  lemma TokenExtracted(s: string, k: nat, e: nat)
    requires k < e <= |s| && SignedShape(s[k..e])
    ensures SearchSigned(s, 0).Some? && MathAnswer(s).Some?
  {
    SignedNumberFound(s, k, e);
    NumberExtracted(s);
  }

  /** Lower-casing the literal "Final Answer:". */
  lemma FinalAnswerLiteral()
    ensures Lower("Final Answer:") == "final answer:"
  {
    var w := "Final Answer:";
    assert forall k :: 0 <= k < |w| ==> Lower(w)[k] == LowerChar(w[k]);
  }

  /** The characters of `"Final Answer: " + t + q`, one by one where it matters. */
  lemma FinalAnswerChars(t: string, q: string)
    ensures var s := "Final Answer: " + t + q;
      s[..13] == "Final Answer:" && s[13] == ' ' && s[14..14 + |t|] == t
      && forall k :: 0 <= k < |q| ==> s[14 + |t| + k] == q[k]
  {
  }

  /** Where the number of `"Final Answer: " + IntText(n) + q` starts and ends. */
  lemma FinalAnswerToken(n: int, q: string)
    requires q == [] || (!IsDigit(q[0]) && q[0] != '.')
    ensures var s := "Final Answer: " + IntText(n) + q;
      PatternAt(s, AnswerPatterns[0], 0) == Some((14, 14 + |IntText(n)|))
  {
    var t := IntText(n);
    var s := "Final Answer: " + t + q;
    var e := 14 + |t|;
    FinalAnswerChars(t, q);
    FinalAnswerLiteral();
    assert HasAtIgnoreCase(s, 0, "final answer:") by {
      assert s[0..13] == "Final Answer:";
    }
    assert s[14] == t[0];
    assert !IsSpace(s[14]);
    assert RunEnd(s, 13, IsSpace) == 14 by {
      RunEndIs(s, 13, IsSpace, 14);
    }
    var p := if n < 0 then 15 else 14;
    assert IsSign(s[14]) <==> n < 0;
    assert RunEnd(s, p, IsDigit) == e by {
      forall k | p <= k < e
        ensures IsDigit(s[k])
      {
        assert s[k] == t[k - 14];
      }
      RunEndIs(s, p, IsDigit, e);
    }
    assert e < |s| ==> s[e] == q[0];
  }

  /**
   * Round trip of the requested format: `"Final Answer: " + str(n)`, with
   * anything after it that does not continue the number, is read back as `n`
   * and judged right for `n`.
   */
  lemma FinalAnswerRoundTrip(n: int, q: string)
    requires q == [] || (!IsDigit(q[0]) && q[0] != '.')
    ensures MathAnswer("Final Answer: " + IntText(n) + q) == Some(n as real)
    ensures MathCorrect("Final Answer: " + IntText(n) + q, n)
  {
    var t := IntText(n);
    var s := "Final Answer: " + t + q;
    FinalAnswerToken(n, q);
    assert SearchPattern(s, AnswerPatterns[0]) == Some((0, (14, 14 + |t|)));
    assert s[14..14 + |t|] == t;
    IntTextRoundTrip(n);
    IntIsFloat(t);
  }

  // ---------------------------------------------------------------- multiple choice

  /** The letter the common-sense agent extracts: the first isolated capital A-D of the stripped response. */
  function ExtractLetter(response: string): (r: Option<char>)
    ensures r.Some? ==> 'A' <= r.value <= 'D'
    ensures var t := Strip(response, IsSpace);
      r.Some? ==> exists i :: 0 <= i < |t| && t[i] == r.value && IsolatedAt(t, 'A', 'D', i) == r
                    && forall j :: 0 <= j < i ==> IsolatedAt(t, 'A', 'D', j).None?
    ensures var t := Strip(response, IsSpace);
      r.None? <==> forall i :: 0 <= i < |t| ==> IsolatedAt(t, 'A', 'D', i).None?
  {
    FirstIsolated(Strip(response, IsSpace), 'A', 'D')
  }

  /** The multiple-choice verdict: the extracted letter is `expected.upper()`. */
  function LetterCorrect(response: string, expected: string): (ok: bool)
    ensures ok ==> |expected| == 1 && 'A' <= UpperChar(expected[0]) <= 'D'
  {
    var c := ExtractLetter(response);
    assert c.Some? && [c.value] == Upper(expected) ==> UpperChar(expected[0]) == Upper(expected)[0] == c.value;
    c.Some? && [c.value] == Upper(expected)
  }

  /** Lower-case letters are never recognised: a response without capitals A-D yields nothing. */
  lemma NoCapitalNoLetter(response: string)
    requires forall k :: 0 <= k < |response| ==> !('A' <= response[k] <= 'D')
    ensures ExtractLetter(response).None?
  {
    var t := Strip(response, IsSpace);
    StripMeaning(response, IsSpace);
    var a :| 0 <= a <= |response| && t <= response[a..];
    forall i | 0 <= i < |t|
      ensures IsolatedAt(t, 'A', 'D', i).None?
    {
      assert t[i] == response[a..][i] == response[a + i];
    }
  }

  /**
   * A response opening with a capital letter A-D that stands alone ("B",
   * "B) because ...") yields that letter, and it is judged right when it is the
   * expected one in either case.
   */
  lemma LeadingLetter(c: char, q: string, expected: string)
    requires 'A' <= c <= 'D'
    requires q == [] || !IsWordChar(q[0])
    requires Upper(expected) == [c]
    ensures ExtractLetter([c] + q) == Some(c)
    ensures LetterCorrect([c] + q, expected)
  {
    var s := [c] + q;
    var t := Strip(s, IsSpace);
    assert RunEnd(s, 0, IsSpace) == 0;
    var j := RunStart(s, 0, |s|, IsSpace);
    assert j >= 1;
    assert t == s[0..j];
    assert t[0] == c;
    assert 1 < |t| ==> t[1] == q[0];
    assert IsolatedAt(t, 'A', 'D', 0) == Some(c);
  }

  // ---------------------------------------------------------------- the runners

  /** What the lateral-thinking runner records: the generation as it came (the puzzle counts from 1). */
  datatype PuzzleRecord = PuzzleRecord(id: nat, story: string, expected: string, response: string,
                                       success: bool, error: Option<string>)

  /** A lateral-thinking puzzle: its story and reference answer (never compared). */
  datatype Puzzle = Puzzle(story: string, answer: string)

  datatype LateralResult = LateralResult(total: nat, successful: nat, successRate: real, records: seq<PuzzleRecord>)

  function Successes(gens: seq<Generation>): (ss: seq<bool>)
    ensures |ss| == |gens|
  {
    seq(|gens|, k requires 0 <= k < |gens| => gens[k].success)
  }

  /** The record of puzzle `k`. */
  function PuzzleRecordOf(puzzles: seq<Puzzle>, gens: seq<Generation>, k: nat): (r: PuzzleRecord)
    requires |gens| == |puzzles| && k < |puzzles|
    ensures r.id == k + 1 && r.story == puzzles[k].story && r.expected == puzzles[k].answer
    ensures r.response == gens[k].response && r.success == gens[k].success && r.error == gens[k].error
  {
    PuzzleRecord(k + 1, puzzles[k].story, puzzles[k].answer, gens[k].response, gens[k].success, gens[k].error)
  }

  /** `test_lateral_thinking_puzzles`: every successful generation counts; nothing is judged. */
  method TestLateralThinking(puzzles: seq<Puzzle>, gens: seq<Generation>) returns (result: LateralResult)
    requires |gens| == |puzzles|
    ensures result.total == |puzzles| && result.successful == Count(Successes(gens))
    ensures result.successful <= result.total
    ensures result.successRate == Rate(result.successful, result.total)
    ensures |result.records| == |puzzles|
    ensures forall k :: 0 <= k < |puzzles| ==> result.records[k] == PuzzleRecordOf(puzzles, gens, k)
  {
    ghost var ss := Successes(gens);
    var records: seq<PuzzleRecord> := [];
    var successful: nat := 0;
    for k := 0 to |puzzles|
      invariant successful == Count(ss[..k])
      invariant |records| == k
      invariant forall l :: 0 <= l < k ==> records[l] == PuzzleRecordOf(puzzles, gens, l)
    {
      if gens[k].success {
        successful := successful + 1;
      }
      CountPrefix(ss, k);
      records := records + [PuzzleRecord(k + 1, puzzles[k].story, puzzles[k].answer, gens[k].response, gens[k].success, gens[k].error)];
    }
    assert ss[..|puzzles|] == ss;
    result := LateralResult(|puzzles|, successful, Rate(successful, |puzzles|), records);
  }

  /** A math word problem and its integer answer. */
  datatype MathProblem = MathProblem(problem: string, answer: int)

  /** What the math runner records; `extracted` stays None for a failed generation. */
  datatype MathRecord = MathRecord(id: nat, problem: string, expected: int, extracted: Option<real>, response: string,
                                   isCorrect: bool, success: bool, error: Option<string>)

  /** What the math and the common-sense runners return. */
  datatype AgentResult<R> = AgentResult(total: nat, successful: nat, correct: nat, successRate: real, accuracy: real,
                                         records: seq<R>)

  /** The verdicts of the math runner: a failed generation is wrong, the others are judged. */
  function MathVerdicts(problems: seq<MathProblem>, gens: seq<Generation>): (vs: seq<bool>)
    requires |gens| == |problems|
    ensures |vs| == |problems|
  {
    seq(|problems|, k requires 0 <= k < |problems| => gens[k].success && MathCorrect(gens[k].response, problems[k].answer))
  }

  /** The record of math problem `k`. */
  function MathRecordOf(problems: seq<MathProblem>, gens: seq<Generation>, k: nat): (r: MathRecord)
    requires |gens| == |problems| && k < |problems|
    ensures r.id == k + 1 && r.problem == problems[k].problem && r.expected == problems[k].answer
    ensures r.response == gens[k].response && r.success == gens[k].success && r.error == gens[k].error
    ensures !r.success ==> r.extracted.None? && !r.isCorrect
    ensures r.isCorrect ==> r.extracted.Some? && -0.01 < r.extracted.value - r.expected as real < 0.01
  {
    var extracted := if gens[k].success then MathAnswer(gens[k].response) else None;
    MathRecord(k + 1, problems[k].problem, problems[k].answer, extracted, gens[k].response,
               gens[k].success && MathCorrect(gens[k].response, problems[k].answer), gens[k].success, gens[k].error)
  }

  /** The records of all math problems, in order. */
  function MathRecords(problems: seq<MathProblem>, gens: seq<Generation>): (rs: seq<MathRecord>)
    requires |gens| == |problems|
    ensures |rs| == |problems|
  {
    seq(|problems|, k requires 0 <= k < |problems| => MathRecordOf(problems, gens, k))
  }

  /** A failed generation records nothing extracted and is not correct. */
  lemma FailedMathRecord(problems: seq<MathProblem>, gens: seq<Generation>, k: nat)
    requires |gens| == |problems| && k < |problems| && !gens[k].success
    ensures MathRecords(problems, gens)[k].extracted.None? && !MathRecords(problems, gens)[k].isCorrect
  {
  }

  /** Math problem `k`: extract and compare when the generation succeeded, and record the outcome. */
  method JudgeMath(problems: seq<MathProblem>, gens: seq<Generation>, k: nat) returns (record: MathRecord)
    requires |gens| == |problems| && k < |problems|
    ensures record == MathRecordOf(problems, gens, k)
  {
    var isCorrect := false;
    var extracted: Option<real> := None;
    if gens[k].success {
      extracted := ExtractMathAnswer(gens[k].response);
      if extracted.Some? && -0.01 < extracted.value - problems[k].answer as real < 0.01 {
        isCorrect := true;
      }
      assert isCorrect == MathCorrect(gens[k].response, problems[k].answer);
    }
    record := MathRecord(k + 1, problems[k].problem, problems[k].answer, extracted, gens[k].response,
                         isCorrect, gens[k].success, gens[k].error);
  }

  /** `test_math_reasoning`: count the successful generations and the correct answers, and take both rates. */
  method TestMathReasoning(problems: seq<MathProblem>, gens: seq<Generation>) returns (result: AgentResult<MathRecord>)
    requires |gens| == |problems|
    ensures result.total == |problems|
    ensures result.successful == Count(Successes(gens)) && result.correct == Count(MathVerdicts(problems, gens))
    ensures result.correct <= result.successful <= result.total
    ensures result.successRate == Rate(result.successful, result.total)
    ensures result.accuracy == Rate(result.correct, result.total)
    ensures result.records == MathRecords(problems, gens)
  {
    ghost var ss := Successes(gens);
    ghost var vs := MathVerdicts(problems, gens);
    ghost var rs := MathRecords(problems, gens);
    var records: seq<MathRecord> := [];
    var successful: nat := 0;
    var correct: nat := 0;
    for k := 0 to |problems|
      invariant successful == Count(ss[..k]) && correct == Count(vs[..k])
      invariant records == rs[..k]
    {
      var record := JudgeMath(problems, gens, k);
      if gens[k].success {
        successful := successful + 1;
      }
      if record.isCorrect {
        correct := correct + 1;
      }
      CountPrefix(ss, k);
      CountPrefix(vs, k);
      PrefixSnoc(rs, k);
      records := records + [record];
    }
    assert rs[..|problems|] == rs;
    assert ss[..|problems|] == ss;
    assert vs[..|problems|] == vs;
    CountMonotone(vs, ss);
    result := AgentResult(|problems|, successful, correct, Rate(successful, |problems|), Rate(correct, |problems|), records);
  }

  /** A multiple-choice question, its options and its expected letter. */
  datatype Question = Question(question: string, options: seq<string>, answer: string)

  /** What the common-sense runner records; `extracted` stays None when no letter was found. */
  datatype QuestionRecord = QuestionRecord(id: nat, question: string, options: seq<string>, expected: string,
                                           extracted: Option<char>, response: string, isCorrect: bool, success: bool,
                                           error: Option<string>)

  function LetterVerdicts(questions: seq<Question>, gens: seq<Generation>): (vs: seq<bool>)
    requires |gens| == |questions|
    ensures |vs| == |questions|
  {
    seq(|questions|, k requires 0 <= k < |questions| => gens[k].success && LetterCorrect(gens[k].response, questions[k].answer))
  }

  /** The record of question `k`. */
  function QuestionRecordOf(questions: seq<Question>, gens: seq<Generation>, k: nat): (r: QuestionRecord)
    requires |gens| == |questions| && k < |questions|
    ensures r.id == k + 1 && r.question == questions[k].question && r.options == questions[k].options
    ensures r.expected == questions[k].answer && r.response == gens[k].response
    ensures r.success == gens[k].success && r.error == gens[k].error
    ensures !r.success ==> r.extracted.None? && !r.isCorrect
    ensures r.isCorrect ==> r.extracted.Some? && [r.extracted.value] == Upper(r.expected)
  {
    var extracted := if gens[k].success then ExtractLetter(gens[k].response) else None;
    QuestionRecord(k + 1, questions[k].question, questions[k].options, questions[k].answer, extracted, gens[k].response,
                   gens[k].success && LetterCorrect(gens[k].response, questions[k].answer), gens[k].success, gens[k].error)
  }

  /** The records of all questions, in order. */
  function QuestionRecords(questions: seq<Question>, gens: seq<Generation>): (rs: seq<QuestionRecord>)
    requires |gens| == |questions|
    ensures |rs| == |questions|
  {
    seq(|questions|, k requires 0 <= k < |questions| => QuestionRecordOf(questions, gens, k))
  }

  /** A failed generation records no letter and is not correct. */
  lemma FailedQuestionRecord(questions: seq<Question>, gens: seq<Generation>, k: nat)
    requires |gens| == |questions| && k < |questions| && !gens[k].success
    ensures QuestionRecords(questions, gens)[k].extracted.None? && !QuestionRecords(questions, gens)[k].isCorrect
  {
  }

  /** Question `k`: strip the response, take the first isolated capital A-D, compare it, and record the outcome. */
  method JudgeQuestion(questions: seq<Question>, gens: seq<Generation>, k: nat) returns (record: QuestionRecord)
    requires |gens| == |questions| && k < |questions|
    ensures record == QuestionRecordOf(questions, gens, k)
  {
    var isCorrect := false;
    var extracted: Option<char> := None;
    if gens[k].success {
      var response := Strip(gens[k].response, IsSpace);
      extracted := FirstIsolated(response, 'A', 'D');
      if extracted.Some? && [extracted.value] == Upper(questions[k].answer) {
        isCorrect := true;
      }
    }
    record := QuestionRecord(k + 1, questions[k].question, questions[k].options, questions[k].answer,
                             extracted, gens[k].response, isCorrect, gens[k].success, gens[k].error);
  }

  /** `test_common_sense_qa`: count the successful generations and the correct letters, and take both rates. */
  method TestCommonSenseQa(questions: seq<Question>, gens: seq<Generation>) returns (result: AgentResult<QuestionRecord>)
    requires |gens| == |questions|
    ensures result.total == |questions|
    ensures result.successful == Count(Successes(gens)) && result.correct == Count(LetterVerdicts(questions, gens))
    ensures result.correct <= result.successful <= result.total
    ensures result.successRate == Rate(result.successful, result.total)
    ensures result.accuracy == Rate(result.correct, result.total)
    ensures result.records == QuestionRecords(questions, gens)
  {
    ghost var ss := Successes(gens);
    ghost var vs := LetterVerdicts(questions, gens);
    ghost var rs := QuestionRecords(questions, gens);
    var records: seq<QuestionRecord> := [];
    var successful: nat := 0;
    var correct: nat := 0;
    for k := 0 to |questions|
      invariant successful == Count(ss[..k]) && correct == Count(vs[..k])
      invariant records == rs[..k]
    {
      var record := JudgeQuestion(questions, gens, k);
      if gens[k].success {
        successful := successful + 1;
      }
      if record.isCorrect {
        correct := correct + 1;
      }
      CountPrefix(ss, k);
      CountPrefix(vs, k);
      PrefixSnoc(rs, k);
      records := records + [record];
    }
    assert rs[..|questions|] == rs;
    assert ss[..|questions|] == ss;
    assert vs[..|questions|] == vs;
    CountMonotone(vs, ss);
    result := AgentResult(|questions|, successful, correct, Rate(successful, |questions|), Rate(correct, |questions|), records);
  }
}
