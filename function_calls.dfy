/**
 * `parse_function_call`: reading a function call out of a model's answer.
 * Two patterns are tried in order: a JSON object
 * `{"name": "...", "arguments": {...}}`, whose argument object goes through
 * the JSON decoder, and call syntax `dotted.name(key=value, ...)`, whose
 * `key=value` pieces are collected one by one into the argument map.
 */
module FunctionCalls {
  import opened Options
  import opened Text
  import opened Numerals
  import opened Values

  /** A parsed call: the function's name and its arguments by name. */
  datatype Call = Call(name: string, arguments: map<string, Value>)

  /** `json.loads` on an object's text: the object it decodes to, or None where it raises. */
  type Decoder = string -> Option<map<string, Value>>

  predicate NotDoubleQuote(c: char) { c != '"' }

  predicate NotBrace(c: char) { c != '{' && c != '}' }

  predicate NotCloseParen(c: char) { c != ')' }

  predicate NotComma(c: char) { c != ',' }

  /** `[^"]+`: a name that can stand between JSON quotes. */
  predicate IsQuotedName(t: string) { t != [] && forall k :: 0 <= k < |t| ==> NotDoubleQuote(t[k]) }

  /** `\{[^{}]*\}`: an object text with no braces inside. */
  predicate IsFlatObject(t: string)
  {
    |t| >= 2 && t[0] == '{' && t[|t| - 1] == '}' && forall k :: 0 < k < |t| - 1 ==> NotBrace(t[k])
  }

  /** `lit\s*` at `i`: the literal, then where the blanks after it end. */
  function Token(s: string, i: nat, lit: string): (r: Option<nat>)
    ensures r.Some? ==> i + |lit| <= r.value <= |s|
  {
    if HasAt(s, i, lit) then Some(RunEnd(s, i + |lit|, IsSpace)) else None
  }

  /** A literal followed by blanks up to `j` is a token ending at `j`. */
  lemma TokenIs(s: string, i: nat, lit: string, j: nat)
    requires HasAt(s, i, lit) && i + |lit| <= j <= |s|
    requires forall k :: i + |lit| <= k < j ==> IsSpace(s[k])
    requires j == |s| || !IsSpace(s[j])
    ensures Token(s, i, lit) == Some(j)
  {
    RunEndIs(s, i + |lit|, IsSpace, j);
  }

  /** `"([^"]+)"\s*,\s*` at `c`: the quoted name and where the blanks after the comma end. */
  function QuotedNameAt(s: string, c: nat): (r: Option<(string, nat)>)
    ensures r.Some? ==> c < r.value.1 <= |s| && IsQuotedName(r.value.0)
  {
    if !(c < |s| && s[c] == '"') then None else
    var d := RunEnd(s, c + 1, NotDoubleQuote);
    if d == c + 1 || d == |s| then None else
    match Token(s, d, "\"")
    case None => None
    case Some(e) =>
      match Token(s, e, ",")
      case None => None
      case Some(f) => Some((s[c + 1..d], f))
  }

  /**
   * The first half of the JSON pattern, `\{\s*"name"\s*:\s*"([^"]+)"\s*,\s*`,
   * matched at `i`: the name and where the rest of the pattern must start.
   */
  function JsonNameAt(s: string, i: nat): (r: Option<(string, nat)>)
    ensures r.Some? ==> i < |s| && s[i] == '{' && i < r.value.1 <= |s| && IsQuotedName(r.value.0)
  {
    match Token(s, i, "{")
    case None => None
    case Some(a) =>
      match Token(s, a, "\"name\"")
      case None => None
      case Some(b) =>
        match Token(s, b, ":")
        case None => None
        case Some(c) => QuotedNameAt(s, c)
  }

  /** `\s*\}` at `j`: blanks, then the brace closing the call object. */
  predicate ClosedAfter(s: string, j: nat)
  {
    exists t :: j <= t < |s| && s[t] == '}' && forall k :: j <= k < t ==> IsSpace(s[k])
  }

  /**
   * `(\{[^{}]*\})\s*\}` at `h`: the argument object, which must be followed
   * by blanks and the brace closing the call object.
   */
  function ObjectAt(s: string, h: nat): (r: Option<string>)
    ensures r.Some? ==> IsFlatObject(r.value) && HasAt(s, h, r.value) && ClosedAfter(s, h + |r.value|)
  {
    if !(h < |s| && s[h] == '{') then None else
    var k := RunEnd(s, h + 1, NotBrace);
    if !(k < |s| && s[k] == '}') then None else
    var t := RunEnd(s, k + 1, IsSpace);
    if !(t < |s| && s[t] == '}') then None else
    assert forall l :: h < l < k ==> s[h..k + 1][l - h] == s[l];
    Some(s[h..k + 1])
  }

  /**
   * A flat object at `h` followed by blanks and `}` is exactly what ObjectAt
   * captures: `[^{}]*` cannot stop before the object's own `}`, nor run past it.
   */
  lemma ObjectAtIs(s: string, h: nat, obj: string, t: nat)
    requires IsFlatObject(obj) && HasAt(s, h, obj)
    requires h + |obj| <= t < |s| && s[t] == '}'
    requires forall k :: h + |obj| <= k < t ==> IsSpace(s[k])
    ensures ObjectAt(s, h) == Some(obj)
  {
    var m := |obj|;
    HasAtChars(s, h, obj);
    assert s[h + m - 1] == obj[m - 1];
    forall l | h + 1 <= l < h + m - 1
      ensures NotBrace(s[l])
    {
      assert s[h + (l - h)] == obj[l - h];
    }
    RunEndIs(s, h + 1, NotBrace, h + m - 1);
    RunEndIs(s, h + m, IsSpace, t);
  }

  /**
   * The second half of the JSON pattern, `"arguments"\s*:\s*(\{[^{}]*\})\s*\}`,
   * matched at `f`: the text of the argument object.
   */
  function JsonArgumentsAt(s: string, f: nat): (r: Option<string>)
    ensures r.Some? ==> HasAt(s, f, "\"arguments\"") && IsFlatObject(r.value)
    ensures r.Some? ==> exists h :: f < h && HasAt(s, h, r.value) && ClosedAfter(s, h + |r.value|)
  {
    match Token(s, f, "\"arguments\"")
    case None => None
    case Some(g) =>
      match Token(s, g, ":")
      case None => None
      case Some(h) => ObjectAt(s, h)
  }

  /**
   * The JSON pattern `\{\s*"name"\s*:\s*"([^"]+)"\s*,\s*"arguments"\s*:\s*(\{[^{}]*\})\s*\}`
   * matched at `i`: the name and the text of the argument object.
   */
  function JsonAt(s: string, i: nat): (r: Option<(string, string)>)
    ensures r.Some? ==> i < |s| && s[i] == '{'
    ensures r.Some? ==> IsQuotedName(r.value.0) && IsFlatObject(r.value.1)
    ensures r.Some? ==> exists h :: i < h && HasAt(s, h, r.value.1) && ClosedAfter(s, h + |r.value.1|)
  {
    match JsonNameAt(s, i)
    case None => None
    case Some((name, f)) =>
      match JsonArgumentsAt(s, f)
      case None => None
      case Some(obj) => Some((name, obj))
  }

  /** `re.search` with the JSON pattern. */
  function SearchJson(s: string): (r: Option<(nat, (string, string))>)
    ensures r.Some? ==> r.value.0 < |s| && JsonAt(s, r.value.0) == Some(r.value.1)
    ensures r.Some? ==> forall k :: 0 <= k < r.value.0 ==> JsonAt(s, k).None?
    ensures r.None? ==> forall k :: 0 <= k < |s| ==> JsonAt(s, k).None?
  {
    var at := i => JsonAt(s, i);
    assert forall k :: at(k) == JsonAt(s, k);
    Leftmost(|s|, 0, at)
  }

  /** `\w+(?:\.\w+)*`: word characters joined by single dots. */
  predicate IsDottedName(t: string)
  {
    && t != [] && IsWordChar(t[0]) && IsWordChar(t[|t| - 1])
    && forall k :: 0 <= k < |t| ==> IsWordChar(t[k]) || (t[k] == '.' && k + 1 < |t| && IsWordChar(t[k + 1]))
  }

  /** Every character of a dotted name is a word character or a dot. */
  lemma DottedNameChars(t: string)
    requires IsDottedName(t)
    ensures forall k :: 0 <= k < |t| ==> IsWordChar(t[k]) || t[k] == '.'
  {
    forall k | 0 <= k < |t|
      ensures IsWordChar(t[k]) || t[k] == '.'
    {
      if k + 1 < |t| {
        assert IsWordChar(t[k + 1]) || !IsWordChar(t[k + 1]);
      }
    }
  }

  /** Inside a dotted name every character is a word character or a dot followed by one. */
  lemma DottedNameInner(s: string, i: nat, j: nat, e: nat)
    requires i <= e < j <= |s| && IsDottedName(s[i..j])
    ensures IsWordChar(s[e]) || (s[e] == '.' && e + 1 < |s| && IsWordChar(s[e + 1]))
  {
    var t := s[i..j];
    assert t[e - i] == s[e];
    if e + 1 < j {
      assert t[e - i + 1] == s[e + 1];
    } else {
      assert t[|t| - 1] == s[e];
    }
  }

  /** A run of word characters, a dot and a dotted name make a dotted name. */
  lemma DottedNameJoin(s: string, i: nat, w: nat, j: nat)
    requires i < w && w + 1 < j <= |s|
    requires forall k :: i <= k < w ==> IsWordChar(s[k])
    requires s[w] == '.' && IsDottedName(s[w + 1..j])
    ensures IsDottedName(s[i..j])
  {
    var t := s[i..j];
    var u := s[w + 1..j];
    forall k | 0 <= k < |t|
      ensures IsWordChar(t[k]) || (t[k] == '.' && k + 1 < |t| && IsWordChar(t[k + 1]))
    {
      if i + k > w {
        assert t[k] == u[k - (w + 1 - i)];
        if k + 1 < |t| {
          assert t[k + 1] == u[k + 1 - (w + 1 - i)];
        }
      } else if i + k == w {
        assert t[k + 1] == u[0];
      } else {
        assert t[k] == s[i + k];
      }
    }
    assert t[0] == s[i];
    assert t[|t| - 1] == u[|u| - 1];
  }

  /**
   * Where the greedy `\w+(?:\.\w+)*` that starts at `i` ends: a dot is taken
   * only when a word character follows it.
   */
  function DottedNameEnd(s: string, i: nat): (j: nat)
    requires i < |s| && IsWordChar(s[i])
    ensures i < j <= |s| && IsDottedName(s[i..j])
    ensures j == |s| || (!IsWordChar(s[j]) && !(s[j] == '.' && j + 1 < |s| && IsWordChar(s[j + 1])))
    decreases |s| - i
  {
    var w := RunEnd(s, i, IsWordChar);
    if w + 1 < |s| && s[w] == '.' && IsWordChar(s[w + 1]) then
      var j := DottedNameEnd(s, w + 1);
      DottedNameJoin(s, i, w, j);
      j
    else w
  }

  /**
   * The call pattern `(\w+(?:\.\w+)*)\s*\(\s*([^)]*)\s*\)` matched at `i`:
   * the dotted name and the text up to the first closing parenthesis.
   */
  function CallAt(s: string, i: nat): (r: Option<(string, string)>)
    ensures r.Some? ==> IsDottedName(r.value.0) && HasAt(s, i, r.value.0)
    ensures r.Some? ==> forall k :: 0 <= k < |r.value.1| ==> r.value.1[k] != ')'
  {
    if !(i < |s| && IsWordChar(s[i])) then None else
    var n := DottedNameEnd(s, i);
    var p := RunEnd(s, n, IsSpace);
    if !(p < |s| && s[p] == '(') then None else
    var q := RunEnd(s, p + 1, IsSpace);
    var c := RunEnd(s, q, NotCloseParen);
    if c == |s| then None else Some((s[i..n], s[q..c]))
  }

  /** `re.search` with the call pattern. */
  function SearchCall(s: string): (r: Option<(nat, (string, string))>)
    ensures r.Some? ==> r.value.0 < |s| && CallAt(s, r.value.0) == Some(r.value.1)
    ensures r.Some? ==> forall k :: 0 <= k < r.value.0 ==> CallAt(s, k).None?
    ensures r.None? ==> forall k :: 0 <= k < |s| ==> CallAt(s, k).None?
  {
    var at := i => CallAt(s, i);
    assert forall k :: at(k) == CallAt(s, k);
    Leftmost(|s|, 0, at)
  }

  /** `\w+`: a non-empty run of word characters. */
  predicate IsWord(t: string) { t != [] && forall k :: 0 <= k < |t| ==> IsWordChar(t[k]) }

  /**
   * The keyword pattern `(\w+)\s*=\s*([^,]+)` matched at `i`: the key, the
   * value text and the end of the match. The value runs to the next comma;
   * when only blanks follow the `=`, backtracking leaves the last blank as the
   * value, and a comma right after the `=` means no match.
   */
  function KeywordAt(s: string, i: nat): (r: Option<(string, string, nat)>)
    ensures r.Some? ==> i < r.value.2 <= |s| && IsWord(r.value.0) && HasAt(s, i, r.value.0)
    ensures r.Some? ==> r.value.1 != [] && forall k :: 0 <= k < |r.value.1| ==> NotComma(r.value.1[k])
  {
    if !(i < |s| && IsWordChar(s[i])) then None else
    var j := RunEnd(s, i, IsWordChar);
    var k := RunEnd(s, j, IsSpace);
    if !(k < |s| && s[k] == '=') then None else
    match ValueAfter(s, k)
    case None => None
    case Some((value, c)) => Some((s[i..j], value, c))
  }

  /**
   * The `\s*([^,]+)` part of the keyword pattern after the `=` at `k`: the
   * value text and the end of the match.
   */
  function ValueAfter(s: string, k: nat): (r: Option<(string, nat)>)
    requires k < |s|
    ensures r.Some? ==> k + 1 < r.value.1 <= |s| && r.value.0 != []
    ensures r.Some? ==> forall t :: 0 <= t < |r.value.0| ==> NotComma(r.value.0[t])
  {
    var c := RunEnd(s, k + 1, NotComma);
    if c == k + 1 then None else
    var w := RunEnd(s, k + 1, IsSpace);
    assert c < w ==> IsSpace(s[c]);
    Some((if w < c then s[w..c] else s[c - 1..c], c))
  }

  /** The value after the `=` at `k` when no blank follows it. */
  lemma ValueAfterIs(s: string, k: nat, c: nat)
    requires k < |s| && RunEnd(s, k + 1, NotComma) == c && k + 1 < c && RunEnd(s, k + 1, IsSpace) == k + 1
    ensures ValueAfter(s, k) == Some((s[k + 1..c], c))
  {
  }

  /** The keyword match at `i` given the ends of the runs that make up its key and the value after its `=`. */
  lemma KeywordAtIs(s: string, i: nat, j: nat, k: nat, value: string, c: nat)
    requires i < |s| && IsWordChar(s[i]) && RunEnd(s, i, IsWordChar) == j
    requires RunEnd(s, j, IsSpace) == k && k < |s| && s[k] == '=' && ValueAfter(s, k) == Some((value, c))
    ensures KeywordAt(s, i) == Some((s[i..j], value, c))
  {
  }

  /** `re.search` with the keyword pattern from position `from` on. */
  function SearchKeyword(s: string, from: nat): (r: Option<(nat, (string, string, nat))>)
    ensures r.Some? ==> from <= r.value.0 < |s| && KeywordAt(s, r.value.0) == Some(r.value.1)
    ensures r.Some? ==> forall k :: from <= k < r.value.0 ==> KeywordAt(s, k).None?
    ensures r.None? ==> forall k :: from <= k < |s| ==> KeywordAt(s, k).None?
  {
    var at := i => KeywordAt(s, i);
    assert forall k :: at(k) == KeywordAt(s, k);
    Leftmost(|s|, from, at)
  }

  /** Positions where no keyword match starts can be skipped. */
  lemma {:induction false} SearchKeywordSkip(s: string, from: nat, until: nat)
    requires from <= until
    requires forall k :: from <= k < until ==> KeywordAt(s, k).None?
    ensures SearchKeyword(s, from) == SearchKeyword(s, until)
    decreases until - from
  {
    if from < until {
      SearchKeywordSkip(s, from + 1, until);
    }
  }

  /** `re.finditer` with the keyword pattern from `from` on: each match's key and value text, in order. */
  function KeywordMatches(s: string, from: nat): (ms: seq<(string, string)>)
    ensures forall k :: 0 <= k < |ms| ==> IsWord(ms[k].0) && ms[k].1 != []
    decreases |s| - from
  {
    match SearchKeyword(s, from)
    case None => []
    case Some((_, (key, value, end))) => [(key, value)] + KeywordMatches(s, end)
  }

  /** `finditer` yields nothing at the end of the text. */
  lemma KeywordMatchesAtEnd(s: string)
    ensures KeywordMatches(s, |s|) == []
  {
    assert SearchKeyword(s, |s|).None?;
  }

  /** `finditer` passes over positions where no keyword match starts. */
  lemma KeywordMatchesSkip(s: string, from: nat, until: nat)
    requires from <= until
    requires forall k :: from <= k < until ==> KeywordAt(s, k).None?
    ensures KeywordMatches(s, from) == KeywordMatches(s, until)
  {
    SearchKeywordSkip(s, from, until);
    match SearchKeyword(s, from)
    case None =>
    case Some((_, (_, _, end))) =>
      assert KeywordMatches(s, from) == [(SearchKeyword(s, from).value.1.0, SearchKeyword(s, from).value.1.1)] + KeywordMatches(s, end);
  }

  /** A match at `from` is the first one `finditer` yields from there. */
  lemma KeywordMatchesStep(s: string, from: nat, key: string, value: string, end: nat)
    requires KeywordAt(s, from) == Some((key, value, end))
    ensures KeywordMatches(s, from) == [(key, value)] + KeywordMatches(s, end)
  {
    var r := SearchKeyword(s, from);
    assert r.Some? && r.value.0 == from;
  }

  /** A match at `from` followed by a stretch that changes nothing for `finditer`. */
  lemma KeywordMatchesCons(s: string, from: nat, m: (string, string), end: nat, next: nat)
    requires KeywordAt(s, from) == Some((m.0, m.1, end))
    requires KeywordMatches(s, end) == KeywordMatches(s, next)
    ensures KeywordMatches(s, from) == [m] + KeywordMatches(s, next)
  {
    KeywordMatchesStep(s, from, m.0, m.1, end);
  }

  /** `args[key] = value` for each match in turn, with the value coerced. */
  function Assign(args: map<string, Value>, ms: seq<(string, string)>): (r: map<string, Value>)
    ensures args.Keys <= r.Keys
    ensures forall j :: 0 <= j < |ms| ==> ms[j].0 in r
    decreases |ms|
  {
    if ms == [] then args else Assign(args[ms[0].0 := Coerce(ms[0].1)], ms[1..])
  }

  /** The argument map the call syntax's argument text yields. */
  function KeywordArguments(argsText: string): (args: map<string, Value>)
    ensures forall key :: key in args ==> IsWord(key)
    ensures forall j :: 0 <= j < |KeywordMatches(argsText, 0)| ==> KeywordMatches(argsText, 0)[j].0 in args
  {
    var ms := KeywordMatches(argsText, 0);
    assert forall key :: key in Assign(map[], ms) ==> IsWord(key) by {
      forall key | key in Assign(map[], ms)
        ensures IsWord(key)
      {
        AssignKeys(map[], ms, key);
      }
    }
    Assign(map[], ms)
  }

  /** After the assignments a key is present iff it was there before or some match names it. */
  lemma {:induction false} AssignKeys(args: map<string, Value>, ms: seq<(string, string)>, key: string)
    ensures key in Assign(args, ms) <==> key in args || exists j :: 0 <= j < |ms| && ms[j].0 == key
    decreases |ms|
  {
    if ms != [] {
      AssignKeys(args[ms[0].0 := Coerce(ms[0].1)], ms[1..], key);
      if exists j :: 0 <= j < |ms| && ms[j].0 == key {
        var j :| 0 <= j < |ms| && ms[j].0 == key;
        if j > 0 {
          assert ms[1..][j - 1] == ms[j];
        }
      }
      if exists j :: 0 <= j < |ms[1..]| && ms[1..][j].0 == key {
        var j :| 0 <= j < |ms[1..]| && ms[1..][j].0 == key;
        assert ms[j + 1] == ms[1..][j];
      }
    }
  }

  /** A key no match names keeps the value it had. */
  lemma {:induction false} AssignUntouched(args: map<string, Value>, ms: seq<(string, string)>, key: string)
    requires key in args
    requires forall l :: 0 <= l < |ms| ==> ms[l].0 != key
    ensures key in Assign(args, ms) && Assign(args, ms)[key] == args[key]
    decreases |ms|
  {
    if ms != [] {
      assert forall l :: 0 <= l < |ms[1..]| ==> ms[1..][l] == ms[l + 1];
      AssignUntouched(args[ms[0].0 := Coerce(ms[0].1)], ms[1..], key);
    }
  }

  /** A repeated key keeps its last value: the coerced value of the last match naming it. */
  lemma {:induction false} AssignLast(args: map<string, Value>, ms: seq<(string, string)>, j: nat)
    requires j < |ms|
    requires forall l :: j < l < |ms| ==> ms[l].0 != ms[j].0
    ensures ms[j].0 in Assign(args, ms) && Assign(args, ms)[ms[j].0] == Coerce(ms[j].1)
    decreases |ms|
  {
    var next := args[ms[0].0 := Coerce(ms[0].1)];
    assert Assign(args, ms) == Assign(next, ms[1..]);
    assert forall l :: 0 <= l < |ms[1..]| ==> ms[1..][l] == ms[l + 1];
    if j > 0 {
      AssignLast(next, ms[1..], j - 1);
    } else {
      AssignUntouched(next, ms[1..], ms[0].0);
    }
  }

  /** When the leftmost match does not decode, every match that does decode comes after it. */
  lemma LaterDecodable(s: string, decode: Decoder, i: nat)
    requires SearchJson(s).Some? && SearchJson(s).value.0 == i
    requires decode(SearchJson(s).value.1.1).None?
    ensures forall j :: 0 <= j < |s| && JsonAt(s, j).Some? && decode(JsonAt(s, j).value.1).Some?
              ==> i < j && JsonAt(s, i).Some?
  {
    forall j | 0 <= j < |s| && JsonAt(s, j).Some? && decode(JsonAt(s, j).value.1).Some?
      ensures i < j
    {
      if j == i {
        assert false;
      }
    }
  }

  /**
   * Pattern 1: the leftmost JSON object, when its argument object decodes.
   * A match further right is never tried: if the leftmost object does not
   * decode, this pattern gives nothing.
   */
  function ParseJson(s: string, decode: Decoder): (r: Option<Call>)
    ensures r.Some? ==> IsQuotedName(r.value.name)
    ensures r.Some? ==> exists i :: 0 <= i < |s| && JsonAt(s, i).Some?
                          && JsonAt(s, i).value.0 == r.value.name
                          && decode(JsonAt(s, i).value.1) == Some(r.value.arguments)
                          && forall k :: 0 <= k < i ==> JsonAt(s, k).None?
    ensures r.None? ==> forall i :: 0 <= i < |s| && JsonAt(s, i).Some? && decode(JsonAt(s, i).value.1).Some?
                          ==> exists k :: 0 <= k < i && JsonAt(s, k).Some?
  {
    match SearchJson(s)
    case None => None
    case Some((i, (name, obj))) =>
      match decode(obj)
      case None =>
        LaterDecodable(s, decode, i);
        None
      case Some(arguments) => Some(Call(name, arguments))
  }

  /** Pattern 2: the leftmost call, with the arguments its keyword pieces give. */
  function ParseCallSyntax(s: string): (r: Option<Call>)
    ensures r.Some? ==> IsDottedName(r.value.name)
    ensures r.Some? ==> forall key :: key in r.value.arguments ==> IsWord(key)
  {
    match SearchCall(s)
    case None => None
    case Some((_, (name, argsText))) =>
      Some(Call(name, KeywordArguments(argsText)))
  }

  /**
   * `parse_function_call`: the JSON pattern first; if it finds nothing or its
   * object does not decode, the call pattern; None when neither applies.
   */
  function Parse(s: string, decode: Decoder): (r: Option<Call>)
    ensures r.None? <==> ParseJson(s, decode).None? && SearchCall(s).None?
  {
    if ParseJson(s, decode).Some? then ParseJson(s, decode) else ParseCallSyntax(s)
  }

  /** The `finditer` loop that fills the argument map. */
  method ParseKeywordArguments(argsText: string) returns (args: map<string, Value>)
    ensures args == KeywordArguments(argsText)
  {
    args := map[];
    var pos: nat := 0;
    var next := SearchKeyword(argsText, pos);
    while next.Some?
      invariant pos <= |argsText| && next == SearchKeyword(argsText, pos)
      invariant Assign(args, KeywordMatches(argsText, pos)) == KeywordArguments(argsText)
      decreases |argsText| - pos
    {
      var (_, (key, value, end)) := next.value;
      args := args[key := Coerce(value)];
      pos := end;
      next := SearchKeyword(argsText, pos);
    }
  }

  /** `parse_function_call` as the source runs it: search, decode, and fall back. */
  method ParseFunctionCall(response: string, decode: Decoder) returns (parsed: Option<Call>)
    ensures parsed == Parse(response, decode)
  {
    var json := SearchJson(response);
    if json.Some? {
      var decoded := decode(json.value.1.1);
      if decoded.Some? {
        return Some(Call(json.value.1.0, decoded.value));
      }
    }
    var call := SearchCall(response);
    if call.None? {
      return None;
    }
    var arguments := ParseKeywordArguments(call.value.1.1);
    return Some(Call(call.value.1.0, arguments));
  }

  // Round trips: the texts a model is asked to write parse back to the call they spell.

  /** A written name in quotes and the comma after it: `"<name>", `. */
  function QuotedText(name: string): string
  {
    "\"" + name + "\", "
  }

  /** The first part of a written call object: `{"name": "<name>", `. */
  function NameText(name: string): string
  {
    "{\"name\": " + QuotedText(name)
  }

  /** Text made of blanks only, such as the indentation before a closing brace. */
  predicate IsBlank(t: string) { forall k :: 0 <= k < |t| ==> IsSpace(t[k]) }

  /** The rest of a written call object: `"arguments": <object><gap>}`. */
  function ArgumentsText(obj: string, gap: string): string
  {
    "\"arguments\": " + obj + gap + "}"
  }

  /**
   * A written call object, `{"name": "<name>", "arguments": <object><gap>}`:
   * with an empty gap it is what `json.dumps` writes, and a blank or a line
   * break in the gap is how a model often lays out the closing brace.
   */
  function JsonText(name: string, obj: string, gap: string): string
  {
    NameText(name) + ArgumentsText(obj, gap)
  }

  /** The quoted-name part of the JSON pattern reads a written name back. */
  lemma QuotedNameAtText(s: string, c: nat, name: string)
    requires IsQuotedName(name) && HasAt(s, c, QuotedText(name))
    requires c + |QuotedText(name)| < |s| && !IsSpace(s[c + |QuotedText(name)|])
    ensures QuotedNameAt(s, c) == Some((name, c + |QuotedText(name)|))
  {
    QuotedTextChars(s, c, name);
    QuotedNameAtChars(s, c, name);
  }

  /** A written quoted name, character by character. */
  lemma QuotedTextChars(s: string, c: nat, name: string)
    requires HasAt(s, c, QuotedText(name))
    ensures var d := c + 1 + |name|;
      && d + 3 <= |s| && s[c] == '"' && HasAt(s, c + 1, name)
      && s[d] == '"' && s[d + 1] == ',' && s[d + 2] == ' '
  {
    var d := c + 1 + |name|;
    HasAtSplit(s, c, "\"" + name, "\", ");
    HasAtSplit(s, c, "\"", name);
    assert s[c] == s[c..c + 1][0];
    HasAtChars(s, d, "\", ");
  }

  /** The quoted-name part of the JSON pattern over the characters of a written quoted name. */
  lemma QuotedNameAtChars(s: string, c: nat, name: string)
    requires IsQuotedName(name)
    requires var d := c + 1 + |name|;
      && d + 3 < |s| && s[c] == '"' && HasAt(s, c + 1, name)
      && s[d] == '"' && s[d + 1] == ',' && s[d + 2] == ' ' && !IsSpace(s[d + 3])
    ensures QuotedNameAt(s, c) == Some((name, c + 4 + |name|))
  {
    var d := c + 1 + |name|;
    assert RunEnd(s, c + 1, NotDoubleQuote) == d by {
      RunEndOver(s, c + 1, name, NotDoubleQuote);
    }
    assert Token(s, d, "\"") == Some(d + 1) by {
      HasAtOne(s, d);
      TokenIs(s, d, "\"", d + 1);
    }
    assert Token(s, d + 1, ",") == Some(d + 3) by {
      HasAtOne(s, d + 1);
      TokenIs(s, d + 1, ",", d + 3);
    }
    QuotedNameAtIs(s, c, d, d + 1, d + 3);
  }

  /** The quoted-name match at `c` given where its name and its two tokens end. */
  lemma QuotedNameAtIs(s: string, c: nat, d: nat, e: nat, f: nat)
    requires c < |s| && s[c] == '"' && RunEnd(s, c + 1, NotDoubleQuote) == d && c + 1 < d < |s|
    requires Token(s, d, "\"") == Some(e) && Token(s, e, ",") == Some(f)
    ensures QuotedNameAt(s, c) == Some((s[c + 1..d], f))
  {
  }

  /** The first half of the JSON pattern reads a written name back. */
  lemma JsonNameAtText(s: string, i: nat, name: string)
    requires IsQuotedName(name) && HasAt(s, i, NameText(name))
    requires i + |NameText(name)| < |s| && s[i + |NameText(name)|] == '"'
    ensures JsonNameAt(s, i) == Some((name, i + |NameText(name)|))
  {
    HasAtSplit(s, i, "{\"name\": ", QuotedText(name));
    var head := "{\"name\": ";
    HasAtPart(s, i, head, 0, 1);
    assert head[0..1] == "{";
    HasAtPart(s, i, head, 1, 7);
    assert head[1..7] == "\"name\"";
    HasAtPart(s, i, head, 7, 8);
    assert head[7..8] == ":";
    HasAtChars(s, i, head);
    TokenIs(s, i, "{", i + 1);
    TokenIs(s, i + 1, "\"name\"", i + 7);
    TokenIs(s, i + 7, ":", i + 9);
    QuotedNameAtText(s, i + 9, name);
  }

  /** The object part of the JSON pattern reads a written object, blanks and the closing brace back. */
  lemma ObjectAtText(s: string, h: nat, obj: string, gap: string)
    requires IsFlatObject(obj) && IsBlank(gap) && HasAt(s, h, obj + gap + "}")
    ensures ObjectAt(s, h) == Some(obj)
  {
    var m := |obj|;
    var t := h + m + |gap|;
    HasAtSplit(s, h, obj + gap, "}");
    HasAtSplit(s, h, obj, gap);
    HasAtChars(s, h + m, gap);
    HasAtChars(s, t, "}");
    forall k | h + m <= k < t
      ensures IsSpace(s[k])
    {
      assert s[h + m + (k - h - m)] == gap[k - h - m];
    }
    ObjectAtIs(s, h, obj, t);
  }

  /** The second half of the JSON pattern reads a written argument object back. */
  lemma JsonArgumentsAtText(s: string, f: nat, obj: string, gap: string)
    requires IsFlatObject(obj) && IsBlank(gap) && HasAt(s, f, ArgumentsText(obj, gap))
    ensures JsonArgumentsAt(s, f) == Some(obj)
  {
    var t := ArgumentsText(obj, gap);
    var m := |obj| + |gap|;
    HasAtPart(s, f, t, 0, 11);
    assert t[0..11] == "\"arguments\"";
    HasAtPart(s, f, t, 11, 12);
    assert t[11..12] == ":";
    HasAtPart(s, f, t, 13, 14 + m);
    assert t[13..14 + m] == obj + gap + "}";
    HasAtChars(s, f, t);
    assert t[12] == ' ' && t[13] == '{';
    TokenIs(s, f, "\"arguments\"", f + 11);
    TokenIs(s, f + 11, ":", f + 13);
    ObjectAtText(s, f + 13, obj, gap);
  }

  /** The JSON pattern matches where its two halves do, one after the other. */
  lemma JsonAtParts(s: string, i: nat, name: string, f: nat, obj: string)
    requires JsonNameAt(s, i) == Some((name, f)) && JsonArgumentsAt(s, f) == Some(obj)
    ensures JsonAt(s, i) == Some((name, obj))
  {
  }

  /** The JSON pattern reads a written call object back, wherever it stands. */
  lemma JsonAtText(s: string, i: nat, name: string, obj: string, gap: string)
    requires IsQuotedName(name) && IsFlatObject(obj) && IsBlank(gap)
    requires HasAt(s, i, JsonText(name, obj, gap))
    ensures JsonAt(s, i) == Some((name, obj))
  {
    var f := i + |NameText(name)|;
    assert HasAt(s, i, NameText(name)) && HasAt(s, f, ArgumentsText(obj, gap)) by {
      HasAtSplit(s, i, NameText(name), ArgumentsText(obj, gap));
    }
    assert s[f] == '"' by {
      HasAtChars(s, f, ArgumentsText(obj, gap));
      assert ArgumentsText(obj, gap)[0] == '"';
    }
    assert JsonNameAt(s, i) == Some((name, f)) by {
      JsonNameAtText(s, i, name);
    }
    assert JsonArgumentsAt(s, f) == Some(obj) by {
      JsonArgumentsAtText(s, f, obj, gap);
    }
    JsonAtParts(s, i, name, f, obj);
  }

  /**
   * A written call object followed by any text parses to that call once its
   * arguments decode: the JSON pattern wins over any call syntax after it.
   */
  lemma ParseJsonFirst(name: string, obj: string, gap: string, rest: string, decode: Decoder)
    requires IsQuotedName(name) && IsFlatObject(obj) && IsBlank(gap) && decode(obj).Some?
    ensures Parse(JsonText(name, obj, gap) + rest, decode) == Some(Call(name, decode(obj).value))
  {
    var s := JsonText(name, obj, gap) + rest;
    JsonTextFirst(name, obj, gap, rest);
    assert ParseJson(s, decode) == Some(Call(name, decode(obj).value));
  }

  /** The JSON pattern finds a written call object at the start of the text. */
  lemma JsonTextFirst(name: string, obj: string, gap: string, rest: string)
    requires IsQuotedName(name) && IsFlatObject(obj) && IsBlank(gap)
    ensures SearchJson(JsonText(name, obj, gap) + rest) == Some((0, (name, obj)))
  {
    var s := JsonText(name, obj, gap) + rest;
    assert s[0..|JsonText(name, obj, gap)|] == JsonText(name, obj, gap);
    JsonAtText(s, 0, name, obj, gap);
  }

  /** When the argument object does not decode, the result is whatever the call pattern finds. */
  lemma ParseJsonUndecodable(name: string, obj: string, gap: string, rest: string, decode: Decoder)
    requires IsQuotedName(name) && IsFlatObject(obj) && IsBlank(gap) && decode(obj).None?
    ensures Parse(JsonText(name, obj, gap) + rest, decode) == ParseCallSyntax(JsonText(name, obj, gap) + rest)
  {
    var s := JsonText(name, obj, gap) + rest;
    JsonTextFirst(name, obj, gap, rest);
    assert ParseJson(s, decode).None?;
  }

  /** The argument text the model is asked to write: `key=value` pieces joined by `", "`. */
  function JoinArgs(pairs: seq<(string, string)>): string
  {
    if pairs == [] then ""
    else if |pairs| == 1 then pairs[0].0 + "=" + pairs[0].1
    else pairs[0].0 + "=" + pairs[0].1 + ", " + JoinArgs(pairs[1..])
  }

  /** `name(key=value, ...)` */
  function CallText(name: string, pairs: seq<(string, string)>): string
  {
    name + "(" + JoinArgs(pairs) + ")"
  }

  /** A value the call syntax carries through unchanged: no leading blank, no `,`, `)` or braces. */
  predicate IsPlainValue(v: string)
  {
    v != [] && !IsSpace(v[0]) && forall k :: 0 <= k < |v| ==> v[k] != ',' && v[k] != ')' && NotBrace(v[k])
  }

  predicate IsPlainPair(p: (string, string)) { IsWord(p.0) && IsPlainValue(p.1) }

  predicate AllPlain(pairs: seq<(string, string)>) { forall k :: 0 <= k < |pairs| ==> IsPlainPair(pairs[k]) }

  /** After a written piece, the comma and the blank hold no keyword match. */
  lemma KeywordMatchesAfterComma(s: string, c: nat)
    requires c + 2 <= |s| && s[c] == ',' && s[c + 1] == ' '
    ensures KeywordMatches(s, c) == KeywordMatches(s, c + 2)
  {
    assert KeywordAt(s, c).None?;
    assert KeywordAt(s, c + 1).None?;
    KeywordMatchesSkip(s, c, c + 2);
  }

  /** One written `key=value` piece holds no `,`, `)` or braces. */
  lemma PieceChars(key: string, value: string)
    requires IsPlainPair((key, value))
    ensures forall k :: 0 <= k < |key + "=" + value| ==>
      var c := (key + "=" + value)[k]; c != ',' && c != ')' && NotBrace(c)
  {
    var head := key + "=" + value;
    forall k | 0 <= k < |head|
      ensures head[k] != ',' && head[k] != ')' && NotBrace(head[k])
    {
      if k < |key| {
        assert head[k] == key[k] && IsWordChar(key[k]);
      } else if k > |key| {
        assert head[k] == value[k - |key| - 1];
      }
    }
  }

  /** Written argument text holds no `)` and no braces, and starts with a word character. */
  lemma {:induction false} JoinArgsChars(pairs: seq<(string, string)>)
    requires AllPlain(pairs)
    ensures forall k :: 0 <= k < |JoinArgs(pairs)| ==> JoinArgs(pairs)[k] != ')' && NotBrace(JoinArgs(pairs)[k])
    ensures pairs != [] ==> IsWordChar(JoinArgs(pairs)[0])
  {
    if pairs != [] {
      var (key, value) := pairs[0];
      assert IsPlainPair(pairs[0]);
      var head := key + "=" + value;
      PieceChars(key, value);
      assert head[0] == key[0];
      if |pairs| > 1 {
        JoinArgsChars(pairs[1..]);
        var tail := JoinArgs(pairs[1..]);
        assert JoinArgs(pairs) == head + ", " + tail;
        forall k | 0 <= k < |JoinArgs(pairs)|
          ensures JoinArgs(pairs)[k] != ')' && NotBrace(JoinArgs(pairs)[k])
        {
          if k >= |head| + 2 {
            assert JoinArgs(pairs)[k] == tail[k - |head| - 2];
          } else if k < |head| {
            assert JoinArgs(pairs)[k] == head[k];
          }
        }
      } else {
        assert JoinArgs(pairs) == head;
      }
    }
  }

  /** The keyword pattern reads a written `key=value` piece back when a comma or the end follows it. */
  lemma KeywordAtText(s: string, off: nat, key: string, value: string)
    requires IsPlainPair((key, value)) && HasAt(s, off, key + "=" + value)
    requires var c := off + |key| + 1 + |value|; c == |s| || s[c] == ','
    ensures KeywordAt(s, off) == Some((key, value, off + |key| + 1 + |value|))
  {
    var j := off + |key|;
    var c := j + 1 + |value|;
    assert ValueAfter(s, j) == Some((value, c)) by {
      KeywordPieceRuns(s, off, key, value);
      ValueAfterIs(s, j, c);
    }
    assert && IsWordChar(s[off]) && s[off..j] == key && s[j] == '='
           && RunEnd(s, off, IsWordChar) == j && RunEnd(s, j, IsSpace) == j by {
      KeywordPieceRuns(s, off, key, value);
      assert s[off] == key[0];
    }
    KeywordAtIs(s, off, j, j, value, c);
  }

  /** The runs the keyword pattern goes through over a written `key=value` piece. */
  lemma KeywordPieceRuns(s: string, off: nat, key: string, value: string)
    requires IsPlainPair((key, value)) && HasAt(s, off, key + "=" + value)
    requires var c := off + |key| + 1 + |value|; c == |s| || s[c] == ','
    ensures var j := off + |key|; var c := j + 1 + |value|;
      && s[off..j] == key && s[j] == '=' && s[j + 1..c] == value
      && RunEnd(s, off, IsWordChar) == j && RunEnd(s, j, IsSpace) == j
      && RunEnd(s, j + 1, NotComma) == c && RunEnd(s, j + 1, IsSpace) == j + 1
  {
    var j := off + |key|;
    var c := j + 1 + |value|;
    HasAtSplit(s, off, key + "=", value);
    HasAtSplit(s, off, key, "=");
    assert s[j] == s[j..j + 1][0];
    assert s[j + 1] == value[0] by {
      HasAtChars(s, j + 1, value);
    }
    RunEndOver(s, off, key, IsWordChar);
    RunEndIs(s, j, IsSpace, j);
    RunEndOver(s, j + 1, value, NotComma);
    RunEndIs(s, j + 1, IsSpace, j + 1);
  }

  /** Written argument text: its first piece, then the end or `", "` and the rest. */
  lemma JoinArgsShape(s: string, off: nat, pairs: seq<(string, string)>)
    requires off <= |s| && s[off..] == JoinArgs(pairs) && pairs != []
    ensures var c := off + |pairs[0].0| + 1 + |pairs[0].1|;
      && HasAt(s, off, pairs[0].0 + "=" + pairs[0].1)
      && (|pairs| == 1 ==> c == |s|)
      && (|pairs| > 1 ==> c + 2 <= |s| && s[c] == ',' && s[c + 1] == ' ' && s[c + 2..] == JoinArgs(pairs[1..]))
  {
    var head := pairs[0].0 + "=" + pairs[0].1;
    var c := off + |head|;
    if |pairs| == 1 {
      assert s[off..] == head + "";
      SuffixSplit(s, off, head, "");
    } else {
      var tail := JoinArgs(pairs[1..]);
      assert s[off..] == head + (", " + tail);
      SuffixSplit(s, off, head, ", " + tail);
      SuffixSplit(s, c, ", ", tail);
      HasAtChars(s, c, ", ");
    }
  }

  /** The keyword pattern at the start of written argument text reads its first piece. */
  lemma JoinArgsFirstMatch(s: string, off: nat, pairs: seq<(string, string)>) returns (c: nat)
    requires off <= |s| && s[off..] == JoinArgs(pairs) && pairs != []
    requires AllPlain(pairs)
    ensures KeywordAt(s, off) == Some((pairs[0].0, pairs[0].1, c))
    ensures |pairs| == 1 ==> c == |s|
    ensures |pairs| > 1 ==> c + 2 <= |s| && s[c] == ',' && s[c + 1] == ' ' && s[c + 2..] == JoinArgs(pairs[1..])
  {
    var key, value := pairs[0].0, pairs[0].1;
    assert IsPlainPair(pairs[0]);
    c := off + |key| + 1 + |value|;
    JoinArgsShape(s, off, pairs);
    KeywordAtText(s, off, key, value);
  }

  /** The first written piece is the first keyword match; matching goes on where the next piece starts. */
  lemma KeywordMatchesHead(s: string, off: nat, pairs: seq<(string, string)>) returns (next: nat)
    requires off <= |s| && s[off..] == JoinArgs(pairs) && pairs != []
    requires AllPlain(pairs)
    ensures off < next <= |s| && s[next..] == JoinArgs(pairs[1..]) && AllPlain(pairs[1..])
    ensures KeywordMatches(s, off) == [pairs[0]] + KeywordMatches(s, next)
  {
    var c := JoinArgsFirstMatch(s, off, pairs);
    next := if |pairs| > 1 then c + 2 else c;
    assert KeywordMatches(s, c) == KeywordMatches(s, next) by {
      if |pairs| > 1 {
        KeywordMatchesAfterComma(s, c);
      }
    }
    KeywordMatchesCons(s, off, pairs[0], c, next);
    assert AllPlain(pairs[1..]) by {
      assert forall k :: 0 <= k < |pairs| - 1 ==> pairs[1..][k] == pairs[k + 1];
    }
  }

  /** The keyword matches over written argument text are exactly its pairs, in order. */
  lemma {:induction false} KeywordMatchesText(s: string, off: nat, pairs: seq<(string, string)>)
    requires off <= |s| && s[off..] == JoinArgs(pairs)
    requires AllPlain(pairs)
    ensures KeywordMatches(s, off) == pairs
    decreases |pairs|, 1
  {
    if pairs == [] {
      assert off == |s|;
      KeywordMatchesAtEnd(s);
    } else {
      KeywordMatchesPieces(s, off, pairs);
    }
  }

  /** The non-empty case: the first piece, then the rest by induction. */
  lemma {:induction false} KeywordMatchesPieces(s: string, off: nat, pairs: seq<(string, string)>)
    requires off <= |s| && s[off..] == JoinArgs(pairs) && pairs != []
    requires AllPlain(pairs)
    ensures KeywordMatches(s, off) == pairs
    decreases |pairs|, 0
  {
    var next := KeywordMatchesHead(s, off, pairs);
    KeywordMatchesText(s, next, pairs[1..]);
    assert pairs == [pairs[0]] + pairs[1..];
  }

  /** The greedy dotted name from `i` stops at `j` when `s[i..j]` is a dotted name and nothing can extend it. */
  lemma DottedNameEndIs(s: string, i: nat, j: nat)
    requires i < j <= |s| && IsDottedName(s[i..j])
    requires j == |s| || (!IsWordChar(s[j]) && s[j] != '.')
    ensures DottedNameEnd(s, i) == j
  {
    assert s[i] == s[i..j][0];
    var e := DottedNameEnd(s, i);
    if e < j {
      DottedNameInner(s, i, j, e);
      assert false;
    } else if e > j {
      DottedNameInner(s, i, e, j);
      assert false;
    }
  }

  /** The characters of `name(argsText)`. */
  lemma CallTextChars(name: string, argsText: string)
    ensures var s := name + "(" + argsText + ")";
      && |s| == |name| + |argsText| + 2
      && (forall k :: 0 <= k < |name| ==> s[k] == name[k])
      && s[|name|] == '(' && s[|s| - 1] == ')'
      && forall k :: |name| < k < |s| - 1 ==> s[k] == argsText[k - |name| - 1]
  {
  }

  /** `name(argsText)` holds no `{`, so the JSON pattern finds nothing in it. */
  lemma CallTextNoJson(name: string, argsText: string)
    requires IsDottedName(name)
    requires forall k :: 0 <= k < |argsText| ==> NotBrace(argsText[k])
    ensures SearchJson(name + "(" + argsText + ")").None?
  {
    var s := name + "(" + argsText + ")";
    var n := |name|;
    DottedNameChars(name);
    CallTextChars(name, argsText);
    forall k | 0 <= k < |s|
      ensures s[k] != '{'
    {
      if k < n {
        assert s[k] == name[k];
      } else if n < k < |s| - 1 {
        assert s[k] == argsText[k - n - 1];
      }
    }
  }

  /** The call pattern reads `name(argsText)` back from its first character. */
  lemma CallAtText(name: string, argsText: string)
    requires IsDottedName(name)
    requires forall k :: 0 <= k < |argsText| ==> argsText[k] != ')'
    requires argsText != [] ==> !IsSpace(argsText[0])
    ensures SearchCall(name + "(" + argsText + ")") == Some((0, (name, argsText)))
  {
    var s := name + "(" + argsText + ")";
    var n := |name|;
    CallTextChars(name, argsText);
    assert s[0..n] == name;
    DottedNameEndIs(s, 0, n);
    RunEndIs(s, n, IsSpace, n);
    RunEndIs(s, n + 1, IsSpace, n + 1);
    RunEndIs(s, n + 1, NotCloseParen, |s| - 1);
    assert s[n + 1..|s| - 1] == argsText;
    assert CallAt(s, 0) == Some((name, argsText));
  }

  /**
   * Round trip of the call syntax: `name(k1=v1, k2=v2, ...)` parses back to
   * `name` and the argument map built from the pairs in order, so every key is
   * present with the coerced value it was last given.
   */
  lemma ParseCallText(name: string, pairs: seq<(string, string)>, decode: Decoder)
    requires IsDottedName(name)
    requires AllPlain(pairs)
    ensures Parse(CallText(name, pairs), decode) == Some(Call(name, Assign(map[], pairs)))
  {
    var argsText := JoinArgs(pairs);
    JoinArgsChars(pairs);
    CallTextNoJson(name, argsText);
    CallAtText(name, argsText);
    KeywordMatchesText(argsText, 0, pairs);
  }

  /** Pieces without `=` give no arguments: `f(1, 2)` parses with an empty map. */
  lemma PositionalOnly(argsText: string)
    requires forall k :: 0 <= k < |argsText| ==> argsText[k] != '='
    ensures KeywordArguments(argsText) == map[]
  {
    forall i | 0 <= i < |argsText|
      ensures KeywordAt(argsText, i).None?
    {
      if i < |argsText| && IsWordChar(argsText[i]) {
        var k := RunEnd(argsText, RunEnd(argsText, i, IsWordChar), IsSpace);
        assert !(k < |argsText| && argsText[k] == '=');
      }
    }
    assert SearchKeyword(argsText, 0).None?;
  }
}
