/**
 * Strings as the judging scripts see them. The character classes are the
 * ASCII part of those of Python's `re` module: `\w` (letters, digits, `_`),
 * `\d` (digits) and `\s` (the characters `str.isspace` accepts below 128).
 * `Lower` and `Upper` change ASCII letters only.
 */
module Text {
  import opened Options

  predicate IsDigit(c: char) { '0' <= c <= '9' }

  predicate IsLetter(c: char) { 'a' <= c <= 'z' || 'A' <= c <= 'Z' }

  /** `\w` */
  predicate IsWordChar(c: char) { IsLetter(c) || IsDigit(c) || c == '_' }

  /** `\s`, and what `str.strip()` removes: space, \t \n \v \f \r and \x1c-\x1f. */
  predicate IsSpace(c: char) { c == ' ' || 9 <= c as int <= 13 || 28 <= c as int <= 31 }

  predicate NotSpace(c: char) { !IsSpace(c) }

  function LowerChar(c: char): char { if 'A' <= c <= 'Z' then (c as int + 32) as char else c }

  function UpperChar(c: char): char { if 'a' <= c <= 'z' then (c as int - 32) as char else c }

  /** `s.lower()` */
  function Lower(s: string): string { seq(|s|, i requires 0 <= i < |s| => LowerChar(s[i])) }

  /** `s.upper()` */
  function Upper(s: string): string { seq(|s|, i requires 0 <= i < |s| => UpperChar(s[i])) }

  lemma LowerConcat(a: string, b: string)
    ensures Lower(a + b) == Lower(a) + Lower(b)
  {
    assert forall i :: 0 <= i < |a + b| ==> Lower(a + b)[i] == (Lower(a) + Lower(b))[i];
  }

  lemma LowerIdempotent(s: string)
    ensures Lower(Lower(s)) == Lower(s)
  {
  }

  /** `t in s` on strings. */
  predicate Contains(s: string, t: string) { exists i :: 0 <= i <= |s| && t <= s[i..] }

  /** A suffix made of two parts: the first occurs where the suffix starts, the second is what follows it. */
  lemma SuffixSplit(s: string, i: nat, a: string, b: string)
    requires i <= |s| && s[i..] == a + b
    ensures HasAt(s, i, a) && s[i + |a|..] == b
  {
    assert s[i..i + |a|] == s[i..][..|a|];
    assert s[i + |a|..] == s[i..][|a|..];
  }

  /** Text added around a string never removes an occurrence from it. */
  lemma ContainsExtend(p: string, s: string, q: string, t: string)
    requires Contains(s, t)
    ensures Contains(p + s + q, t)
  {
    var i :| 0 <= i <= |s| && t <= s[i..];
    assert (p + s + q)[|p| + i..] == s[i..] + q;
  }

  /** An occurrence survives lower-casing when the searched text is already lower case. */
  lemma ContainsLower(s: string, t: string)
    requires Contains(s, t) && Lower(t) == t
    ensures Contains(Lower(s), t)
  {
    var i :| 0 <= i <= |s| && t <= s[i..];
    assert forall k :: 0 <= k < |t| ==> Lower(s)[i + k] == LowerChar(t[k]) == Lower(t)[k];
    assert t <= Lower(s)[i..];
  }

  /** Lower-casing both strings keeps an occurrence. */
  lemma ContainsLowered(s: string, t: string)
    requires Contains(s, t)
    ensures Contains(Lower(s), Lower(t))
  {
    var i :| 0 <= i <= |s| && t <= s[i..];
    forall k | 0 <= k < |t|
      ensures Lower(s)[i + k] == Lower(t)[k]
    {
      assert s[i..][k] == s[i + k];
    }
    assert Lower(t) <= Lower(s)[i..];
  }

  /** `s.endswith(t)` */
  predicate EndsWith(s: string, t: string) { |t| <= |s| && s[|s| - |t|..] == t }

  /** `s[i:].startswith(lit)` */
  predicate HasAt(s: string, i: nat, lit: string) { i + |lit| <= |s| && s[i..i + |lit|] == lit }

  /** The characters of an occurrence. */
  lemma HasAtChars(s: string, i: nat, lit: string)
    requires HasAt(s, i, lit)
    ensures forall k :: 0 <= k < |lit| ==> s[i + k] == lit[k]
  {
    forall k | 0 <= k < |lit|
      ensures s[i + k] == lit[k]
    {
      assert s[i..i + |lit|][k] == s[i + k];
    }
  }

  /** Every character occurs where it stands. */
  lemma HasAtOne(s: string, i: nat)
    requires i < |s|
    ensures HasAt(s, i, [s[i]])
  {
  }

  /** Every piece of an occurrence occurs at its place. */
  lemma HasAtPart(s: string, i: nat, lit: string, a: nat, b: nat)
    requires HasAt(s, i, lit) && a <= b <= |lit|
    ensures HasAt(s, i + a, lit[a..b])
  {
    HasAtChars(s, i, lit);
    forall k | 0 <= k < b - a
      ensures s[i + a..i + b][k] == lit[a..b][k]
    {
      assert s[i + a..i + b][k] == s[i + (a + k)] == lit[a + k];
    }
  }

  /** An occurrence of `a + b` is an occurrence of `a` followed by one of `b`. */
  lemma HasAtSplit(s: string, i: nat, a: string, b: string)
    requires HasAt(s, i, a + b)
    ensures HasAt(s, i, a) && HasAt(s, i + |a|, b)
  {
    assert s[i..i + |a|] == s[i..i + |a + b|][..|a|];
    assert s[i + |a|..i + |a| + |b|] == s[i..i + |a + b|][|a|..];
  }

  /** `lit` occurs at `i` ignoring case (`lit` is given in lower case). */
  predicate HasAtIgnoreCase(s: string, i: nat, lit: string) { i + |lit| <= |s| && Lower(s[i..i + |lit|]) == lit }

  /** The end of the longest run of characters satisfying `p` that starts at `i`. */
  function RunEnd(s: string, i: nat, p: char -> bool): (j: nat)
    requires i <= |s|
    ensures i <= j <= |s|
    ensures forall k :: i <= k < j ==> p(s[k])
    ensures j == |s| || !p(s[j])
    decreases |s| - i
  {
    if i < |s| && p(s[i]) then RunEnd(s, i + 1, p) else i
  }

  /** The run from `i` ends at `j` when everything before `j` satisfies `p` and `s[j]` does not. */
  lemma RunEndIs(s: string, i: nat, p: char -> bool, j: nat)
    requires i <= j <= |s|
    requires forall k :: i <= k < j ==> p(s[k])
    requires j == |s| || !p(s[j])
    ensures RunEnd(s, i, p) == j
  {
  }

  /** The run from `i` over an occurrence of `lit` whose characters all satisfy `p` ends where `lit` does, unless `p` goes on. */
  lemma RunEndOver(s: string, i: nat, lit: string, p: char -> bool)
    requires HasAt(s, i, lit) && forall k :: 0 <= k < |lit| ==> p(lit[k])
    requires i + |lit| == |s| || !p(s[i + |lit|])
    ensures RunEnd(s, i, p) == i + |lit|
  {
    HasAtChars(s, i, lit);
    assert forall k :: i <= k < i + |lit| ==> p(s[k]) by {
      forall k | i <= k < i + |lit|
        ensures p(s[k])
      {
        assert s[i + (k - i)] == lit[k - i];
      }
    }
    RunEndIs(s, i, p, i + |lit|);
  }

  /** The run in a slice of `s` starting at `i` ends where the run in `s` does, or at the slice's end. */
  lemma RunEndSlice(s: string, i: nat, e: nat, p: char -> bool)
    requires i <= e <= |s|
    ensures RunEnd(s[i..e], 0, p) == (if RunEnd(s, i, p) <= e then RunEnd(s, i, p) else e) - i
  {
    var j := RunEnd(s, i, p);
    var t := s[i..e];
    var m := if j <= e then j else e;
    forall k | 0 <= k < m - i
      ensures p(t[k])
    {
      assert t[k] == s[i + k];
    }
    if m - i < |t| {
      assert t[m - i] == s[m];
    }
    RunEndIs(t, 0, p, m - i);
  }

  /** The start of the longest run of characters satisfying `p` that ends at `j`, not going below `lo`. */
  function RunStart(s: string, lo: nat, j: nat, p: char -> bool): (i: nat)
    requires lo <= j <= |s|
    ensures lo <= i <= j
    ensures forall k :: i <= k < j ==> p(s[k])
    ensures i == lo || !p(s[i - 1])
    decreases j - lo
  {
    if lo < j && p(s[j - 1]) then RunStart(s, lo, j - 1, p) else j
  }

  /** `s.strip(chars)`: the leading and trailing characters satisfying `drop` removed. */
  function Strip(s: string, drop: char -> bool): (r: string)
    ensures |r| <= |s|
    ensures r != [] ==> !drop(r[0]) && !drop(r[|r| - 1])
  {
    var a := RunEnd(s, 0, drop);
    s[a..RunStart(s, a, |s|, drop)]
  }

  /**
   * What stripping keeps: a stretch of `s` that neither begins nor ends with a
   * droppable character, with only droppable characters before and after it.
   */
  lemma StripMeaning(s: string, drop: char -> bool)
    ensures var r := Strip(s, drop);
      && (r != [] ==> !drop(r[0]) && !drop(r[|r| - 1]))
      && exists a :: 0 <= a <= |s| && r <= s[a..]
                     && (forall k :: 0 <= k < a ==> drop(s[k]))
                     && (forall k :: a + |r| <= k < |s| ==> drop(s[k]))
  {
    var a := RunEnd(s, 0, drop);
    assert s[a..RunStart(s, a, |s|, drop)] <= s[a..];
  }

  /** Stripping leaves a string alone when neither end can be dropped. */
  lemma StripUnchanged(s: string, drop: char -> bool)
    requires s != [] ==> !drop(s[0]) && !drop(s[|s| - 1])
    ensures Strip(s, drop) == s
  {
  }

  /** `s.split()`: the maximal runs of non-space characters from `i` on, in order. */
  function Words(s: string, i: nat): (ws: seq<string>)
    requires i <= |s|
    ensures forall w :: w in ws ==> w != [] && forall k :: 0 <= k < |w| ==> !IsSpace(w[k])
    decreases |s| - i
  {
    var a := RunEnd(s, i, IsSpace);
    if a == |s| then [] else
    var b := RunEnd(s, a, NotSpace);
    [s[a..b]] + Words(s, b)
  }

  /** Every word `split()` gives stands in the text with a blank or an end of the text on either side. */
  lemma {:induction false} WordsStandAlone(s: string, i: nat, w: string)
    requires i <= |s| && w in Words(s, i)
    ensures exists a :: i <= a && HasAt(s, a, w) && (a == i || IsSpace(s[a - 1]))
                        && (a + |w| == |s| || IsSpace(s[a + |w|]))
    decreases |s| - i
  {
    var a := RunEnd(s, i, IsSpace);
    var b := RunEnd(s, a, NotSpace);
    assert Words(s, i) == [s[a..b]] + Words(s, b);
    if w == s[a..b] {
      assert HasAt(s, a, w);
    } else {
      assert w in Words(s, b);
      WordsStandAlone(s, b, w);
      var c :| b <= c && HasAt(s, c, w) && (c == b || IsSpace(s[c - 1]))
               && (c + |w| == |s| || IsSpace(s[c + |w|]));
      assert s[c] == s[c..c + |w|][0] == w[0];
      assert IsSpace(s[c - 1]);
    }
  }

  /** The characters of `t` that are not blanks, in order. */
  function NonBlank(t: string): string
  {
    if t == [] then [] else (if IsSpace(t[0]) then [] else [t[0]]) + NonBlank(t[1..])
  }

  /** The strings of `ws` written one after another. */
  function Concat(ws: seq<string>): string
  {
    if ws == [] then [] else ws[0] + Concat(ws[1..])
  }

  /** Dropping blanks from two texts in turn drops them from the texts joined. */
  lemma {:induction false} NonBlankAppend(x: string, y: string)
    ensures NonBlank(x + y) == NonBlank(x) + NonBlank(y)
  {
    if x == [] {
      assert x + y == y;
    } else {
      assert (x + y)[0] == x[0] && (x + y)[1..] == x[1..] + y;
      NonBlankAppend(x[1..], y);
    }
  }

  /** Blanks alone leave nothing, and a run without blanks is kept whole. */
  lemma {:induction false} NonBlankRuns(x: string)
    ensures (forall k :: 0 <= k < |x| ==> IsSpace(x[k])) ==> NonBlank(x) == []
    ensures (forall k :: 0 <= k < |x| ==> !IsSpace(x[k])) ==> NonBlank(x) == x
  {
    if x != [] {
      NonBlankRuns(x[1..]);
    }
  }

  /** Dropping blanks from a text that starts with the run `s[i..j]` of `p`-characters. */
  lemma NonBlankSkip(s: string, i: nat, j: nat, p: char -> bool)
    requires i <= j <= |s| && forall k :: i <= k < j ==> p(s[k])
    ensures (forall c :: p(c) ==> IsSpace(c)) ==> NonBlank(s[i..]) == NonBlank(s[j..])
    ensures (forall c :: p(c) ==> !IsSpace(c)) ==> NonBlank(s[i..]) == s[i..j] + NonBlank(s[j..])
  {
    var run := s[i..j];
    assert s[i..] == run + s[j..];
    NonBlankAppend(run, s[j..]);
    NonBlankRuns(run);
  }

  /** The words `split()` gives are the non-blank characters of the text, in order, and nothing else. */
  lemma {:induction false} WordsCover(s: string, i: nat)
    requires i <= |s|
    ensures Concat(Words(s, i)) == NonBlank(s[i..])
    decreases |s| - i
  {
    var a := RunEnd(s, i, IsSpace);
    NonBlankSkip(s, i, a, IsSpace);
    if a < |s| {
      var b := RunEnd(s, a, NotSpace);
      NonBlankSkip(s, a, b, NotSpace);
      WordsCover(s, b);
      assert Words(s, i) == [s[a..b]] + Words(s, b);
    }
  }

  /** A word character at index `i` (out of range counts as a non-word character). */
  predicate WordAt(s: string, i: int) { 0 <= i < |s| && IsWordChar(s[i]) }

  /** `\b` at position `i`. */
  predicate Boundary(s: string, i: int) { WordAt(s, i - 1) != WordAt(s, i) }

  /**
   * `re.search`: the leftmost position in [from, n) at which `at` finds a match,
   * with what it found there.
   */
  function Leftmost<T>(n: nat, from: nat, at: nat -> Option<T>): (r: Option<(nat, T)>)
    ensures r.Some? ==> from <= r.value.0 < n && at(r.value.0) == Some(r.value.1)
    ensures r.Some? ==> forall k :: from <= k < r.value.0 ==> at(k).None?
    ensures r.None? ==> forall k :: from <= k < n ==> at(k).None?
    decreases n - from
  {
    if from >= n then None
    else match at(from)
      case Some(x) => Some((from, x))
      case None => Leftmost(n, from + 1, at)
  }

  /** Match spans (start, end) that come in order and never overlap: each ends before any later one starts. */
  predicate InOrder(sp: seq<(nat, nat)>)
  {
    forall k, l :: 0 <= k < l < |sp| ==> sp[k].1 <= sp[l].0
  }

  /** A span put in front of spans in order that all start after it ends keeps them in order. */
  lemma InOrderCons(x: (nat, nat), rest: seq<(nat, nat)>)
    requires InOrder(rest) && forall l :: 0 <= l < |rest| ==> x.1 <= rest[l].0
    ensures InOrder([x] + rest)
  {
    var sp := [x] + rest;
    forall k, l | 0 <= k < l < |sp|
      ensures sp[k].1 <= sp[l].0
    {
      assert sp[l] == rest[l - 1];
      if k > 0 {
        assert sp[k] == rest[k - 1];
      }
    }
  }

  /** `\b([lo-hi])\b` at position `i`: a single character of the range standing alone. */
  function IsolatedAt(s: string, lo: char, hi: char, i: nat): Option<char>
  {
    if i < |s| && lo <= s[i] <= hi && Boundary(s, i) && Boundary(s, i + 1) then Some(s[i]) else None
  }

  /** `re.search(r'\b([lo-hi])\b', s).group(1)` */
  function FirstIsolated(s: string, lo: char, hi: char): (r: Option<char>)
    ensures r.Some? ==> lo <= r.value <= hi
    ensures r.Some? ==> exists i :: 0 <= i < |s| && s[i] == r.value && IsolatedAt(s, lo, hi, i) == r
                          && forall j :: 0 <= j < i ==> IsolatedAt(s, lo, hi, j).None?
    ensures r.None? <==> forall i :: 0 <= i < |s| ==> IsolatedAt(s, lo, hi, i).None?
  {
    var at := i => IsolatedAt(s, lo, hi, i);
    assert forall i :: at(i) == IsolatedAt(s, lo, hi, i);
    match Leftmost(|s|, 0, at)
    case None => None
    case Some(m) => Some(m.1)
  }
}
