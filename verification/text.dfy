/** String helpers shared by the model: JavaScript's whitespace class, `trim`,
    `replace(/\s+/g, " ")`, `split`, `join`, ASCII case mapping and searching.
    Strings are `seq<char>` of Unicode scalar values. */
module Text {
  import opened Wrappers

  /** The characters JavaScript's `\s` and `String.prototype.trim` treat as
      white space: WhiteSpace plus LineTerminator of ECMA-262. */
  predicate IsSpace(c: char) {
    c == '\t' || c == '\n' || c == '\U{B}' || c == '\U{C}' || c == '\r' || c == ' '
    || c == '\U{A0}' || c == '\U{1680}' || ('\U{2000}' <= c <= '\U{200A}')
    || c == '\U{2028}' || c == '\U{2029}' || c == '\U{202F}' || c == '\U{205F}'
    || c == '\U{3000}' || c == '\U{FEFF}'
  }

  /** LineTerminator of ECMA-262: where `^`, `$` and `.` stop in a regular expression. */
  predicate IsLineTerminator(c: char) {
    c == '\n' || c == '\r' || c == '\U{2028}' || c == '\U{2029}'
  }

  predicate IsAsciiUpper(c: char) { 'A' <= c <= 'Z' }
  predicate IsAsciiLower(c: char) { 'a' <= c <= 'z' }
  predicate IsAsciiLetter(c: char) { IsAsciiUpper(c) || IsAsciiLower(c) }
  predicate IsDigit(c: char) { '0' <= c <= '9' }
  /** `.`, `!` or `?`: the characters that end a sentence. */
  predicate IsSentenceEnd(c: char) { c == '.' || c == '!' || c == '?' }

  /** `\w` of a regular expression without the `u` flag. */
  predicate IsWordChar(c: char) { IsAsciiLetter(c) || IsDigit(c) || c == '_' }

  function LowerChar(c: char): (r: char)
    ensures !IsAsciiUpper(r)
    ensures IsAsciiUpper(c) || r == c
  {
    if IsAsciiUpper(c) then (c as int + 32) as char else c
  }

  function UpperChar(c: char): (r: char)
    ensures !IsAsciiLower(r)
    ensures IsAsciiLower(c) || r == c
  {
    if IsAsciiLower(c) then (c as int - 32) as char else c
  }

  /** ASCII `toLowerCase`; other characters are left as they are. */
  function Lower(s: string): (r: string)
    ensures |r| == |s|
    ensures forall i :: 0 <= i < |s| ==> r[i] == LowerChar(s[i])
  {
    seq(|s|, i requires 0 <= i < |s| => LowerChar(s[i]))
  }

  /** ASCII `toUpperCase`; other characters are left as they are. */
  function Upper(s: string): (r: string)
    ensures |r| == |s|
    ensures forall i :: 0 <= i < |s| ==> r[i] == UpperChar(s[i])
  {
    seq(|s|, i requires 0 <= i < |s| => UpperChar(s[i]))
  }

  predicate AllSpace(s: string) {
    forall i :: 0 <= i < |s| ==> IsSpace(s[i])
  }

  /** `trimStart`: drops the leading run of white space. */
  function TrimStart(s: string): (r: string)
    ensures |r| <= |s| && r == s[|s| - |r|..]
    ensures r == [] || !IsSpace(r[0])
    ensures AllSpace(s[..|s| - |r|])
    decreases |s|
  {
    if |s| > 0 && IsSpace(s[0]) then TrimStart(s[1..]) else s
  }

  /** `trimEnd`: drops the trailing run of white space. */
  function TrimEnd(s: string): (r: string)
    ensures |r| <= |s| && r == s[..|r|]
    ensures r == [] || !IsSpace(r[|r| - 1])
    ensures AllSpace(s[|r|..])
    decreases |s|
  {
    if |s| > 0 && IsSpace(s[|s| - 1]) then
      var init := s[..|s| - 1];
      var r := TrimEnd(init);
      assert init[..|r|] == s[..|r|];
      assert s[|r|..] == init[|r|..] + [s[|s| - 1]];
      r
    else s
  }

  /** `trim`. */
  function Trim(s: string): (r: string)
    ensures |r| <= |s|
    ensures r == [] || (!IsSpace(r[0]) && !IsSpace(r[|r| - 1]))
  {
    TrimEnd(TrimStart(s))
  }

  /** `trim` returns a contiguous piece of its input. */
  lemma TrimSlice(s: string)
    ensures var k := |s| - |TrimStart(s)|; k + |Trim(s)| <= |s| && Trim(s) == s[k..k + |Trim(s)|]
  {
  }

  lemma TrimEmptyIffAllSpace(s: string)
    ensures Trim(s) == [] <==> AllSpace(s)
  {
    var t := TrimStart(s);
    assert s == s[..|s| - |t|] + t;
    if Trim(s) == [] {
      assert AllSpace(t[|TrimEnd(t)|..]);
    }
  }

  lemma TrimOfTrimmed(s: string)
    requires s == [] || (!IsSpace(s[0]) && !IsSpace(s[|s| - 1]))
    ensures Trim(s) == s
  {
  }

  /** Every run of white space is a single ' '. */
  predicate SingleSpaced(s: string) {
    forall i :: 0 <= i < |s| && IsSpace(s[i]) ==> s[i] == ' ' && (i + 1 < |s| ==> !IsSpace(s[i + 1]))
  }

  /** No white space at either end (what `trim` leaves). */
  predicate NoEdgeSpace(s: string) {
    s == [] || (!IsSpace(s[0]) && !IsSpace(s[|s| - 1]))
  }

  /** Output shape of `replace(/\s+/g, " ").trim()`. */
  predicate Clean(s: string) {
    SingleSpaced(s) && NoEdgeSpace(s)
  }

  lemma SingleSpacedSlice(s: string, a: nat, b: nat)
    requires a <= b <= |s| && SingleSpaced(s)
    ensures SingleSpaced(s[a..b])
  {
    var t := s[a..b];
    forall i | 0 <= i < |t| && IsSpace(t[i])
      ensures t[i] == ' ' && (i + 1 < |t| ==> !IsSpace(t[i + 1]))
    {
      assert t[i] == s[a + i];
      if i + 1 < |t| {
        assert t[i + 1] == s[a + i + 1];
      }
    }
  }

  /** `replace(/\s+/g, " ")`: each maximal run of white space becomes one ' '. */
  function Collapse(s: string): (r: string)
    ensures SingleSpaced(r)
    ensures |r| <= |s|
    ensures r == [] <==> s == []
    ensures |s| > 0 && !IsSpace(s[0]) ==> r[0] == s[0]
    decreases |s|
  {
    if s == [] then []
    else if IsSpace(s[0]) then
      var rest := TrimStart(s);
      [' '] + Collapse(rest)
    else
      [s[0]] + Collapse(s[1..])
  }

  lemma {:induction false} CollapseLast(s: string)
    requires |s| > 0 && !IsSpace(s[|s| - 1])
    ensures !IsSpace(Collapse(s)[|Collapse(s)| - 1])
    decreases |s|
  {
    if IsSpace(s[0]) {
      var rest := TrimStart(s);
      assert rest != [] && rest[|rest| - 1] == s[|s| - 1];
      CollapseLast(rest);
      var c := Collapse(rest);
      assert Collapse(s) == [' '] + c;
      assert Collapse(s)[|Collapse(s)| - 1] == c[|c| - 1];
    } else if |s| > 1 {
      var rest := s[1..];
      assert rest[|rest| - 1] == s[|s| - 1];
      CollapseLast(rest);
      var c := Collapse(rest);
      assert Collapse(s) == [s[0]] + c;
      assert Collapse(s)[|Collapse(s)| - 1] == c[|c| - 1];
    } else {
      assert Collapse(s) == [s[0]] + Collapse(s[1..]);
      assert s[1..] == [];
    }
  }

  /** Text without white space is left as it is. */
  lemma {:induction false} CollapseNoSpace(s: string)
    requires forall i :: 0 <= i < |s| ==> !IsSpace(s[i])
    ensures Collapse(s) == s
    decreases |s|
  {
    if s != [] {
      CollapseNoSpace(s[1..]);
    }
  }

  /** Text that is already single-spaced is left as it is. */
  lemma {:induction false} CollapseSingleSpaced(s: string)
    requires SingleSpaced(s)
    ensures Collapse(s) == s
    decreases |s|
  {
    if s != [] {
      SingleSpacedSlice(s, 1, |s|);
      assert s[1..] == s[1..|s|];
      CollapseSingleSpaced(s[1..]);
      if IsSpace(s[0]) {
        assert TrimStart(s) == s[1..];
      }
    }
  }

  /** `replace(/\s+/g, " ").trim()` is idempotent. */
  lemma SquashOfClean(s: string)
    requires Clean(s)
    ensures Squash(s) == s
  {
    CollapseSingleSpaced(s);
    TrimOfTrimmed(s);
  }

  lemma TrimKeepsSingleSpaced(s: string)
    requires SingleSpaced(s)
    ensures Clean(Trim(s))
  {
    var t := TrimStart(s);
    SingleSpacedSlice(s, |s| - |t|, |s|);
    SingleSpacedSlice(t, 0, |TrimEnd(t)|);
    assert t[0..|TrimEnd(t)|] == TrimEnd(t);
  }

  /** `replace(/\s+/g, " ").trim()`. */
  function Squash(s: string): (r: string)
    ensures Clean(r)
    ensures |r| <= |s|
  {
    TrimKeepsSingleSpaced(Collapse(s));
    Trim(Collapse(s))
  }

  /** `trim().replace(/\s+/g, " ")`, the normalisation the translation chunker uses. */
  function TrimCollapse(s: string): (r: string)
    ensures Clean(r)
    ensures r == [] <==> AllSpace(s)
  {
    var t := Trim(s);
    if t == [] then
      TrimEmptyIffAllSpace(s);
      []
    else
      TrimEmptyIffAllSpace(s);
      CollapseClean(t);
      Collapse(t)
  }

  /** Collapsing trimmed text keeps it trimmed. */
  lemma CollapseClean(t: string)
    requires t != [] && !IsSpace(t[0]) && !IsSpace(t[|t| - 1])
    ensures Clean(Collapse(t)) && Collapse(t) != []
  {
    CollapseLast(t);
    var c := Collapse(t);
    assert c[0] == t[0];
  }

  /** The characters of `s` that are not white space, in order: what survives any
      white-space normalisation. */
  function Visible(s: string): (r: string)
    ensures |r| <= |s|
    ensures forall k :: 0 <= k < |r| ==> !IsSpace(r[k])
    decreases |s|
  {
    if s == [] then [] else (if IsSpace(s[0]) then [] else [s[0]]) + Visible(s[1..])
  }

  lemma {:induction false} VisibleAppend(a: string, b: string)
    ensures Visible(a + b) == Visible(a) + Visible(b)
    decreases |a|
  {
    if a != [] {
      var h := if IsSpace(a[0]) then [] else [a[0]];
      assert (a + b)[0] == a[0] && (a + b)[1..] == a[1..] + b;
      assert Visible(a + b) == h + Visible(a[1..] + b);
      VisibleAppend(a[1..], b);
      AppendAssoc(h, Visible(a[1..]), Visible(b));
    } else {
      assert a + b == b;
    }
  }

  lemma {:induction false} VisibleAllSpace(s: string)
    requires AllSpace(s)
    ensures Visible(s) == []
    decreases |s|
  {
    if s != [] {
      VisibleAllSpace(s[1..]);
    }
  }

  /** White space around a string adds no visible character. */
  lemma VisibleSpaced(lead: string, t: string, tail: string)
    requires AllSpace(lead) && AllSpace(tail)
    ensures Visible(lead + t + tail) == Visible(t)
  {
    VisibleAppend(lead + t, tail);
    VisibleAppend(lead, t);
    VisibleAllSpace(lead);
    VisibleAllSpace(tail);
  }

  /** Dropping a leading run of white space keeps the visible characters. */
  lemma VisibleTrimStart(s: string)
    ensures Visible(TrimStart(s)) == Visible(s)
  {
    var t := TrimStart(s);
    var lead := s[..|s| - |t|];
    assert s == lead + t + [];
    VisibleSpaced(lead, t, []);
  }

  /** Dropping a trailing run of white space keeps the visible characters. */
  lemma VisibleTrimEnd(t: string)
    ensures Visible(TrimEnd(t)) == Visible(t)
  {
    var u := TrimEnd(t);
    var tail := t[|u|..];
    assert t == [] + u + tail;
    VisibleSpaced([], u, tail);
  }

  /** `trim` keeps the visible characters. */
  lemma VisibleTrim(s: string)
    ensures Visible(Trim(s)) == Visible(s)
  {
    VisibleTrimStart(s);
    VisibleTrimEnd(TrimStart(s));
  }

  /** `replace(/\s+/g, " ")` keeps the visible characters. */
  lemma {:induction false} VisibleCollapse(s: string)
    ensures Visible(Collapse(s)) == Visible(s)
    decreases |s|
  {
    if s != [] {
      if IsSpace(s[0]) {
        var rest := TrimStart(s);
        assert rest == TrimStart(s[1..]);
        VisibleCollapse(rest);
        VisibleAppend([' '], Collapse(rest));
        VisibleTrimStart(s);
      } else {
        VisibleCollapse(s[1..]);
        VisibleAppend([s[0]], Collapse(s[1..]));
      }
    }
  }

  /** `replace(/\s+/g, " ").trim()` keeps the visible characters. */
  lemma VisibleSquash(s: string)
    ensures Visible(Squash(s)) == Visible(s)
  {
    VisibleCollapse(s);
    VisibleTrim(Collapse(s));
  }

  /** The visible characters of each string, one string after the other. */
  function VisibleAll(xs: seq<string>): string
    decreases |xs|
  {
    if xs == [] then [] else Visible(xs[0]) + VisibleAll(xs[1..])
  }

  /** Joining with a white-space separator adds no visible character. */
  lemma {:induction false} VisibleJoin(xs: seq<string>, sep: string)
    requires AllSpace(sep)
    ensures Visible(Join(xs, sep)) == VisibleAll(xs)
    decreases |xs|
  {
    if |xs| == 1 {
      assert VisibleAll(xs[1..]) == [];
    } else if |xs| > 1 {
      VisibleJoin(xs[1..], sep);
      VisibleAppend(xs[0] + sep, Join(xs[1..], sep));
      VisibleAppend(xs[0], sep);
      VisibleAllSpace(sep);
    }
  }

  /** A string without the separator is one piece. */
  lemma {:induction false} SplitWithout(s: string, sep: char)
    requires sep !in s
    ensures Split(s, sep) == [s]
    decreases |s|
  {
    if s != [] {
      SplitWithout(s[1..], sep);
      assert [s[0]] + s[1..] == s;
    }
  }

  /** `split(sep)` with a one-character separator: `k` separators give `k + 1` pieces. */
  function Split(s: string, sep: char): (r: seq<string>)
    ensures |r| >= 1
    ensures forall i, k :: 0 <= i < |r| && 0 <= k < |r[i]| ==> r[i][k] != sep
    decreases |s|
  {
    if s == [] then [[]]
    else
      var rest := Split(s[1..], sep);
      if s[0] == sep then [[]] + rest
      else [[s[0]] + rest[0]] + rest[1..]
  }

  /** `Array.prototype.join(sep)`. */
  function Join(xs: seq<string>, sep: string): string
    decreases |xs|
  {
    if |xs| == 0 then []
    else if |xs| == 1 then xs[0]
    else xs[0] + sep + Join(xs[1..], sep)
  }

  lemma {:induction false} SplitJoin(s: string, sep: char)
    ensures Join(Split(s, sep), [sep]) == s
    decreases |s|
  {
    if s != [] {
      SplitJoin(s[1..], sep);
      var rest := Split(s[1..], sep);
      var r := Split(s, sep);
      if s[0] == sep {
        assert r[1..] == rest;
      } else if |rest| > 1 {
        assert r[1..] == rest[1..];
        assert Join(rest, [sep]) == rest[0] + [sep] + Join(rest[1..], [sep]);
        assert [s[0]] + rest[0] + [sep] + Join(rest[1..], [sep])
            == [s[0]] + (rest[0] + [sep] + Join(rest[1..], [sep]));
      }
    }
  }

  lemma JoinSnoc(xs: seq<string>, x: string, sep: string)
    requires |xs| > 0
    ensures Join(xs + [x], sep) == Join(xs, sep) + sep + x
    decreases |xs|
  {
    if |xs| == 1 {
      assert xs + [x] == [xs[0], x];
    } else {
      assert (xs + [x])[1..] == xs[1..] + [x];
      JoinSnoc(xs[1..], x, sep);
    }
  }

  /** The non-empty strings, in order (`filter(Boolean)` on strings). */
  function NonEmpty(xs: seq<string>): (r: seq<string>)
    ensures |r| <= |xs|
    ensures forall x :: x in r <==> x in xs && x != []
    ensures (forall k :: 0 <= k < |xs| ==> xs[k] != []) ==> r == xs
    ensures (forall k :: 0 <= k < |xs| ==> xs[k] == []) <==> r == []
    decreases |xs|
  {
    if xs == [] then []
    else
      var rest := NonEmpty(xs[1..]);
      assert forall x :: x in xs <==> x == xs[0] || x in xs[1..];
      if xs[0] == [] then rest else [xs[0]] + rest
  }

  /** Concatenation of a sequence of strings. */
  function Concat(xs: seq<string>): string
    decreases |xs|
  {
    if xs == [] then [] else xs[0] + Concat(xs[1..])
  }

  lemma ConcatAppend(xs: seq<string>, ys: seq<string>)
    ensures Concat(xs + ys) == Concat(xs) + Concat(ys)
    decreases |xs|
  {
    if xs == [] {
      assert xs + ys == ys;
    } else {
      assert (xs + ys)[1..] == xs[1..] + ys;
      ConcatAppend(xs[1..], ys);
    }
  }

  predicate StartsWith(s: string, prefix: string) {
    |prefix| <= |s| && s[..|prefix|] == prefix
  }

  predicate EndsWith(s: string, suffix: string) {
    |suffix| <= |s| && s[|s| - |suffix|..] == suffix
  }

  /** A match of `w` at `i` when letter case is ignored (regular expression `i` flag
      without `u`, which folds ASCII letters only). */
  predicate MatchCIAt(s: string, i: nat, w: string) {
    i + |w| <= |s| && Lower(s[i..i + |w|]) == Lower(w)
  }

  predicate ContainsCI(s: string, w: string)
    decreases |s|
  {
    MatchCIAt(s, 0, w) || (|s| > 0 && ContainsCI(s[1..], w))
  }

  lemma ContainsCIAt(s: string, w: string, i: nat)
    requires MatchCIAt(s, i, w)
    ensures ContainsCI(s, w)
    decreases i
  {
    if i > 0 {
      assert s[1..][i - 1..i - 1 + |w|] == s[i..i + |w|];
      ContainsCIAt(s[1..], w, i - 1);
    }
  }

  predicate Contains(s: string, w: string)
    decreases |s|
  {
    StartsWith(s, w) || (|s| > 0 && Contains(s[1..], w))
  }

  /** `indexOf` of a character: the first position holding `c`. */
  function IndexOf(s: string, c: char): (r: Option<nat>)
    ensures r.None? <==> c !in s
    ensures r.Some? ==> r.value < |s| && s[r.value] == c && c !in s[..r.value]
  {
    IndexWhere(s, x => x == c)
  }

  /** Concatenation is associative. */
  lemma AppendAssoc<T>(a: seq<T>, b: seq<T>, c: seq<T>)
    ensures (a + b) + c == a + (b + c)
  {
  }

  /** The first `c`, found by hand, is the one `IndexOf` finds. */
  lemma IndexOfAt(s: string, c: char, j: nat)
    requires j < |s| && s[j] == c && c !in s[..j]
    ensures IndexOf(s, c) == Some(j)
  {
  }

  function IndexWhere(s: string, p: char -> bool): (r: Option<nat>)
    ensures r.None? <==> forall k :: 0 <= k < |s| ==> !p(s[k])
    ensures r.Some? ==> r.value < |s| && p(s[r.value]) && forall k :: 0 <= k < r.value ==> !p(s[k])
    decreases |s|
  {
    if s == [] then None
    else if p(s[0]) then Some(0)
    else match IndexWhere(s[1..], p)
      case None => None
      case Some(i) => Some(i + 1)
  }

  /** `lastIndexOf`: the last position whose character satisfies `p`. */
  function LastIndexWhere(s: string, p: char -> bool): (r: Option<nat>)
    ensures r.None? <==> forall k :: 0 <= k < |s| ==> !p(s[k])
    ensures r.Some? ==> r.value < |s| && p(s[r.value]) && forall k :: r.value < k < |s| ==> !p(s[k])
    decreases |s|
  {
    if s == [] then None
    else if p(s[|s| - 1]) then Some(|s| - 1)
    else LastIndexWhere(s[..|s| - 1], p)
  }

  function LastIndexOf(s: string, c: char): (r: Option<nat>)
    ensures r.None? <==> c !in s
    ensures r.Some? ==> r.value < |s| && s[r.value] == c && c !in s[r.value + 1..]
  {
    var r := LastIndexWhere(s, x => x == c);
    if r.Some? then
      NotInSuffix(s, c, r.value + 1);
      r
    else r
  }

  lemma NotInSuffix(s: string, c: char, from: nat)
    requires from <= |s| && forall k :: from <= k < |s| ==> s[k] != c
    ensures c !in s[from..]
  {
    assert forall j :: 0 <= j < |s[from..]| ==> s[from..][j] == s[from + j];
  }

  /** Decimal rendering of a natural number, as JavaScript prints integers. */
  function NatToString(n: nat): (r: string)
    ensures |r| >= 1
    ensures forall i :: 0 <= i < |r| ==> IsDigit(r[i])
    decreases n
  {
    var d := ['0' + (n % 10) as char];
    if n < 10 then d else NatToString(n / 10) + d
  }
}
