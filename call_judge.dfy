/**
 * `evaluate_function_call` and the irrelevance judge. The ground truth of a
 * problem is a list of alternatives; each alternative maps function names to
 * the arguments they expect, and each expected argument lists the values it
 * may take. A parsed call is accepted when one function of one alternative is
 * satisfied by it.
 */
module CallJudge {
  import opened Options
  import opened Text
  import opened Values
  import opened FunctionCalls

  /** One expected argument and the values it may take (`""` among them makes it optional). */
  datatype ArgSpec = ArgSpec(name: string, allowed: seq<Value>)

  /** One entry of an alternative: a function name and its expected arguments, in order. */
  datatype FuncSpec = FuncSpec(name: string, args: seq<ArgSpec>)

  /** The ground truth of one problem: alternatives, each a dictionary of function entries in order. */
  type GroundTruth = seq<seq<FuncSpec>>

  /** The parsed name is the expected one, or ends with it as a plain string. */
  function NameMatches(parsed: string, func: string): (m: bool)
    ensures m <==> EndsWith(parsed, func)
  {
    parsed == func || EndsWith(parsed, func)
  }

  /** The value is `==` to an allowed value, or its `str()` is that of one. */
  function Acceptable(v: Value, allowed: seq<Value>): (ok: bool)
    ensures v in allowed ==> ok
    ensures allowed == [] ==> !ok
  {
    PyIn(v, allowed) || Str(v) in Strs(allowed)
  }

  /** An expected argument is met by a present, acceptable value, or is absent and allowed to be `""`. */
  function ArgSatisfied(arguments: map<string, Value>, spec: ArgSpec): (ok: bool)
    ensures spec.name in arguments && arguments[spec.name] in spec.allowed ==> ok
    ensures spec.name !in arguments ==> (ok <==> StrV("") in spec.allowed)
    ensures spec.allowed == [] ==> !ok
  {
    if spec.name in arguments then Acceptable(arguments[spec.name], spec.allowed)
    else PyIn(StrV(""), spec.allowed)
  }

  /** The call's name matches the entry and every expected argument is met. */
  function FuncSatisfied(call: Call, f: FuncSpec): (ok: bool)
    ensures ok ==> EndsWith(call.name, f.name)
    ensures f.args == [] ==> (ok <==> EndsWith(call.name, f.name))
    ensures ok ==> forall k :: 0 <= k < |f.args| && f.args[k].name !in call.arguments ==> StrV("") in f.args[k].allowed
  {
    NameMatches(call.name, f.name) && forall k :: 0 <= k < |f.args| ==> ArgSatisfied(call.arguments, f.args[k])
  }

  /** The verdict: there is a parsed call and some entry of some alternative is satisfied by it. */
  function Accepts(parsed: Option<Call>, truth: GroundTruth): (ok: bool)
    ensures parsed.None? || truth == [] ==> !ok
    ensures ok ==> exists i :: 0 <= i < |truth| && truth[i] != []
  {
    parsed.Some? && exists i, j :: 0 <= i < |truth| && 0 <= j < |truth[i]| && FuncSatisfied(parsed.value, truth[i][j])
  }

  /** The argument loop of one entry: each expected argument is checked in turn until one is not met. */
  method ArgumentsMatch(arguments: map<string, Value>, specs: seq<ArgSpec>) returns (allArgsMatch: bool)
    ensures allArgsMatch <==> forall k :: 0 <= k < |specs| ==> ArgSatisfied(arguments, specs[k])
  {
    allArgsMatch := true;
    var k := 0;
    while k < |specs|
      invariant k <= |specs|
      invariant forall k' :: 0 <= k' < k ==> ArgSatisfied(arguments, specs[k'])
    {
      var spec := specs[k];
      if spec.name in arguments {
        var actual := arguments[spec.name];
        if !PyIn(actual, spec.allowed) && Str(actual) !in Strs(spec.allowed) {
          return false;
        }
      } else if !PyIn(StrV(""), spec.allowed) {
        return false;
      }
      k := k + 1;
    }
  }

  /**
   * `evaluate_function_call` as the source runs it: no call or no ground
   * truth is a rejection; otherwise the alternatives and their entries are
   * scanned in order, and each entry's arguments are checked until one fails.
   */
  method EvaluateFunctionCall(parsed: Option<Call>, truth: GroundTruth) returns (verdict: bool)
    ensures verdict == Accepts(parsed, truth)
    ensures parsed.None? || truth == [] ==> !verdict
  {
    if parsed.None? || truth == [] {
      return false;
    }
    var call := parsed.value;
    for i := 0 to |truth|
      invariant forall i', j :: 0 <= i' < i && 0 <= j < |truth[i']| ==> !FuncSatisfied(call, truth[i'][j])
    {
      var gt := truth[i];
      for j := 0 to |gt|
        invariant forall j' :: 0 <= j' < j ==> !FuncSatisfied(call, gt[j'])
      {
        var f := gt[j];
        if NameMatches(call.name, f.name) {
          var allArgsMatch := ArgumentsMatch(call.arguments, f.args);
          if allArgsMatch {
            return true;
          }
        }
      }
    }
    return false;
  }

  /** The entries of all alternatives. */
  function Entries(truth: GroundTruth): (fs: set<FuncSpec>)
    ensures forall i, j :: 0 <= i < |truth| && 0 <= j < |truth[i]| ==> truth[i][j] in fs
  {
    set i, j | 0 <= i < |truth| && 0 <= j < |truth[i]| :: truth[i][j]
  }

  /** The verdict depends only on the set of entries: accepted iff some entry is satisfied. */
  lemma AcceptsByEntries(parsed: Option<Call>, truth: GroundTruth)
    ensures Accepts(parsed, truth) <==> parsed.Some? && exists f :: f in Entries(truth) && FuncSatisfied(parsed.value, f)
  {
    if parsed.Some? && exists f :: f in Entries(truth) && FuncSatisfied(parsed.value, f) {
      var f :| f in Entries(truth) && FuncSatisfied(parsed.value, f);
      var i, j :| 0 <= i < |truth| && 0 <= j < |truth[i]| && truth[i][j] == f;
    }
  }

  /** Monotonicity: a ground truth whose entries include all of another's accepts whatever that one accepts. */
  lemma AcceptsMonotone(parsed: Option<Call>, truth: GroundTruth, wider: GroundTruth)
    requires Entries(truth) <= Entries(wider)
    requires Accepts(parsed, truth)
    ensures Accepts(parsed, wider)
  {
    AcceptsByEntries(parsed, truth);
    AcceptsByEntries(parsed, wider);
  }

  /** Adding alternatives, before or after the others, never turns an acceptance into a rejection. */
  lemma MoreAlternatives(parsed: Option<Call>, truth: GroundTruth, more: GroundTruth)
    requires Accepts(parsed, truth)
    ensures Accepts(parsed, truth + more) && Accepts(parsed, more + truth)
  {
    var i, j :| 0 <= i < |truth| && 0 <= j < |truth[i]| && FuncSatisfied(parsed.value, truth[i][j]);
    assert (truth + more)[i] == truth[i];
    assert (more + truth)[|more| + i] == truth[i];
  }

  /**
   * Only the arguments the ground truth names matter: two calls with the same
   * name whose argument maps agree on every named argument get the same verdict.
   */
  lemma NamedArgumentsDecide(name: string, a: map<string, Value>, b: map<string, Value>, truth: GroundTruth)
    requires forall i, j, k :: 0 <= i < |truth| && 0 <= j < |truth[i]| && 0 <= k < |truth[i][j].args| ==>
      var key := truth[i][j].args[k].name; (key in a <==> key in b) && (key in a ==> a[key] == b[key])
    ensures Accepts(Some(Call(name, a)), truth) == Accepts(Some(Call(name, b)), truth)
  {
    forall i, j | 0 <= i < |truth| && 0 <= j < |truth[i]|
      ensures FuncSatisfied(Call(name, a), truth[i][j]) == FuncSatisfied(Call(name, b), truth[i][j])
    {
      var f := truth[i][j];
      assert forall k :: 0 <= k < |f.args| ==> ArgSatisfied(a, f.args[k]) == ArgSatisfied(b, f.args[k]);
    }
  }

  /** An extra argument the ground truth never names leaves the verdict as it was. */
  lemma ExtraArgumentIgnored(name: string, args: map<string, Value>, key: string, v: Value, truth: GroundTruth)
    requires key !in args
    requires forall i, j, k :: 0 <= i < |truth| && 0 <= j < |truth[i]| && 0 <= k < |truth[i][j].args| ==> truth[i][j].args[k].name != key
    ensures Accepts(Some(Call(name, args[key := v])), truth) == Accepts(Some(Call(name, args)), truth)
  {
    NamedArgumentsDecide(name, args[key := v], args, truth);
  }

  /** An absent argument is met exactly when the empty string is among its allowed values. */
  lemma MissingArgument(arguments: map<string, Value>, spec: ArgSpec)
    requires spec.name !in arguments
    ensures ArgSatisfied(arguments, spec) <==> StrV("") in spec.allowed
  {
    if ArgSatisfied(arguments, spec) {
      var v :| v in spec.allowed && PyEq(StrV(""), v);
      assert v == StrV("");
    }
  }

  /** Every allowed value is acceptable, and so is a string spelling an allowed value's `str()`. */
  lemma AllowedAcceptable(v: Value, allowed: seq<Value>)
    requires v in allowed
    ensures Acceptable(v, allowed)
    ensures Acceptable(StrV(Str(v)), allowed)
  {
    var k :| 0 <= k < |allowed| && allowed[k] == v;
    assert Strs(allowed)[k] == Str(v);
  }

  /** The integer `n` is acceptable where the float `n.0` is allowed, by `==` alone. */
  lemma IntMatchesWholeFloat(n: int)
    ensures Acceptable(IntV(n), [FloatV(Numerals.Decimal(n, 0))])
  {
    WholeFloatEqualsInt(n);
  }

  /** A call that spells an entry exactly (its name, and an allowed value for every argument) satisfies it. */
  lemma ExactCallSatisfies(f: FuncSpec, arguments: map<string, Value>)
    requires forall k :: 0 <= k < |f.args| ==> f.args[k].name in arguments && arguments[f.args[k].name] in f.args[k].allowed
    ensures FuncSatisfied(Call(f.name, arguments), f)
  {
    forall k | 0 <= k < |f.args|
      ensures ArgSatisfied(arguments, f.args[k])
    {
      AllowedAcceptable(arguments[f.args[k].name], f.args[k].allowed);
    }
  }

  /** A name is matched by any name it ends with, a module-qualified one among them. */
  lemma QualifiedNameMatches(prefix: string, func: string)
    ensures NameMatches(prefix + func, func)
  {
    assert (prefix + func)[|prefix|..] == func;
  }

  /**
   * The irrelevance judge: the lower-cased response mentions
   * "no_function", "none", "cannot" or "not applicable".
   */
  function JudgeIrrelevance(response: string): (refused: bool)
    ensures refused ==> |response| >= 4
    ensures Contains(response, "none") || Contains(response, "cannot") ==> refused
  {
    var r := Lower(response);
    assert Contains(response, "none") ==> Contains(r, "none") by {
      if Contains(response, "none") {
        assert Lower("none") == "none";
        ContainsLower(response, "none");
      }
    }
    assert Contains(response, "cannot") ==> Contains(r, "cannot") by {
      if Contains(response, "cannot") {
        assert Lower("cannot") == "cannot";
        ContainsLower(response, "cannot");
      }
    }
    Contains(r, "no_function") || Contains(r, "none") || Contains(r, "cannot") || Contains(r, "not applicable")
  }

  /** The phrase the prompt asks for is judged a correct refusal. */
  lemma RequestedRefusalAccepted()
    ensures JudgeIrrelevance("NO_FUNCTION_NEEDED")
  {
    assert "no_function" <= Lower("NO_FUNCTION_NEEDED")[0..];
  }

  /** A response judged a refusal stays one with any text around it. */
  lemma IrrelevanceSurroundingText(p: string, s: string, q: string)
    requires JudgeIrrelevance(s)
    ensures JudgeIrrelevance(p + s + q)
  {
    LowerConcat(p + s, q);
    LowerConcat(p, s);
    var l := Lower(s);
    if Contains(l, "no_function") {
      ContainsExtend(Lower(p), l, Lower(q), "no_function");
    } else if Contains(l, "none") {
      ContainsExtend(Lower(p), l, Lower(q), "none");
    } else if Contains(l, "cannot") {
      ContainsExtend(Lower(p), l, Lower(q), "cannot");
    } else {
      ContainsExtend(Lower(p), l, Lower(q), "not applicable");
    }
  }

  /** The judge ignores case: upper- or lower-casing the response first changes nothing. */
  lemma IrrelevanceIgnoresCase(s: string)
    ensures JudgeIrrelevance(Lower(s)) == JudgeIrrelevance(s)
    ensures JudgeIrrelevance(Upper(s)) == JudgeIrrelevance(s)
  {
    LowerIdempotent(s);
    assert Lower(Upper(s)) == Lower(s);
  }
}
