/** `toSlug`: the URL-safe product key used by the cache, the alias table and the
    product store. */
module Slug {
  import opened Text
  import opened Unicode

  /** `replace(/\+/g, " plus ")`. */
  function ReplacePlus(s: string): (r: string)
    ensures '+' !in r
    ensures '+' !in s ==> r == s
    decreases |s|
  {
    if s == [] then []
    else (if s[0] == '+' then " plus " else [s[0]]) + ReplacePlus(s[1..])
  }

  /** `replace(/[\u0300-\u036f]/g, "")`. */
  function DropMarks(s: string): (r: string)
    ensures forall k :: 0 <= k < |r| ==> !IsCombiningMark(r[k])
    ensures |r| <= |s|
    ensures (forall k :: 0 <= k < |s| ==> !IsCombiningMark(s[k])) ==> r == s
    ensures (forall k :: 0 <= k < |s| ==> IsCombiningMark(s[k])) ==> r == []
    decreases |s|
  {
    if s == [] then []
    else (if IsCombiningMark(s[0]) then [] else [s[0]]) + DropMarks(s[1..])
  }

  /** `+` becomes ` plus ` wherever it occurs: the replacement distributes over
      concatenation. */
  lemma {:induction false} ReplacePlusAppend(a: string, b: string)
    ensures ReplacePlus(a + b) == ReplacePlus(a) + ReplacePlus(b)
    decreases |a|
  {
    if a == [] {
      assert a + b == b;
    } else {
      assert (a + b)[0] == a[0];
      assert (a + b)[1..] == a[1..] + b;
      ReplacePlusAppend(a[1..], b);
    }
  }

  /** Text around a `+` is kept and the `+` itself becomes ` plus `. */
  lemma ReplacePlusAt(a: string, b: string)
    requires '+' !in a
    ensures ReplacePlus(a + "+" + b) == a + " plus " + ReplacePlus(b)
  {
    assert a + "+" + b == a + ("+" + b);
    ReplacePlusAppend(a, "+" + b);
    ReplacePlusAppend("+", b);
    assert ReplacePlus("+") == " plus " + ReplacePlus([]);
  }

  /** Removing marks distributes over concatenation: together with the
      all-marks and no-marks cases, every other character is kept in order. */
  lemma {:induction false} DropMarksAppend(a: string, b: string)
    ensures DropMarks(a + b) == DropMarks(a) + DropMarks(b)
    decreases |a|
  {
    if a == [] {
      assert a + b == b;
    } else {
      var s := a + b;
      var h := if IsCombiningMark(a[0]) then [] else [a[0]];
      assert s[0] == a[0] && s[1..] == a[1..] + b;
      DropMarksAppend(a[1..], b);
      calc {
        DropMarks(s);
        h + DropMarks(a[1..] + b);
        h + (DropMarks(a[1..]) + DropMarks(b));
        { AppendAssoc(h, DropMarks(a[1..]), DropMarks(b)); }
        DropMarks(a) + DropMarks(b);
      }
    }
  }

  /** Drops the leading run of characters that are not letters or numbers. */
  function DropNonWord(s: string, isWord: char -> bool): (r: string)
    ensures |r| <= |s| && r == s[|s| - |r|..]
    ensures r == [] || isWord(r[0])
    decreases |s|
  {
    if s != [] && !isWord(s[0]) then DropNonWord(s[1..], isWord) else s
  }

  /** No two adjacent dashes. */
  predicate NoDoubleDash(s: string) {
    forall i :: 0 <= i < |s| - 1 ==> !(s[i] == '-' && s[i + 1] == '-')
  }

  /** `replace(/[^\p{Letter}\p{Number}]+/gu, "-")`: each maximal run of other
      characters becomes one dash. */
  function RunsToDash(s: string, isWord: char -> bool): (r: string)
    requires !isWord('-')
    ensures forall k :: 0 <= k < |r| ==> r[k] == '-' || isWord(r[k])
    ensures NoDoubleDash(r)
    ensures r == [] <==> s == []
    ensures s != [] && isWord(s[0]) ==> r[0] == s[0]
    ensures s != [] && !isWord(s[0]) ==> r[0] == '-'
    decreases |s|
  {
    if s == [] then []
    else if isWord(s[0]) then [s[0]] + RunsToDash(s[1..], isWord)
    else "-" + RunsToDash(DropNonWord(s, isWord), isWord)
  }

  /** A leading run of letters and numbers is copied. */
  lemma {:induction false} RunsKeepWordPrefix(a: string, t: string, isWord: char -> bool)
    requires !isWord('-')
    requires forall k :: 0 <= k < |a| ==> isWord(a[k])
    ensures RunsToDash(a + t, isWord) == a + RunsToDash(t, isWord)
    decreases |a|
  {
    if a == [] {
      assert a + t == t;
    } else {
      var s := a + t;
      assert s[0] == a[0] && isWord(a[0]);
      assert s[1..] == a[1..] + t;
      RunsKeepWordPrefix(a[1..], t, isWord);
      calc {
        RunsToDash(s, isWord);
        [a[0]] + RunsToDash(a[1..] + t, isWord);
        [a[0]] + (a[1..] + RunsToDash(t, isWord));
        { AppendAssoc([a[0]], a[1..], RunsToDash(t, isWord)); assert [a[0]] + a[1..] == a; }
        a + RunsToDash(t, isWord);
      }
    }
  }

  /** Dropping a whole non-word run stops at the next letter or number. */
  lemma {:induction false} DropWholeRun(m: string, b: string, isWord: char -> bool)
    requires forall k :: 0 <= k < |m| ==> !isWord(m[k])
    requires b == [] || isWord(b[0])
    ensures DropNonWord(m + b, isWord) == b
    decreases |m|
  {
    if m == [] {
      assert m + b == b;
    } else {
      assert (m + b)[0] == m[0];
      assert (m + b)[1..] == m[1..] + b;
      DropWholeRun(m[1..], b, isWord);
    }
  }

  /** A maximal run of other characters between two words becomes exactly one dash. */
  lemma RunBecomesDash(a: string, m: string, b: string, isWord: char -> bool)
    requires !isWord('-')
    requires forall k :: 0 <= k < |a| ==> isWord(a[k])
    requires m != [] && forall k :: 0 <= k < |m| ==> !isWord(m[k])
    requires b == [] || isWord(b[0])
    ensures RunsToDash(a + m + b, isWord) == a + "-" + RunsToDash(b, isWord)
  {
    var rest := RunsToDash(b, isWord);
    assert RunsToDash(m + b, isWord) == "-" + rest by {
      DropWholeRun(m, b, isWord);
      assert (m + b)[0] == m[0];
    }
    calc {
      RunsToDash(a + m + b, isWord);
      { AppendAssoc(a, m, b); }
      RunsToDash(a + (m + b), isWord);
      { RunsKeepWordPrefix(a, m + b, isWord); }
      a + ("-" + rest);
      { AppendAssoc(a, "-", rest); }
      a + "-" + rest;
    }
  }

  function StripLeadingDashes(s: string): (r: string)
    ensures |r| <= |s| && r == s[|s| - |r|..]
    ensures r == [] || r[0] != '-'
    decreases |s|
  {
    if s != [] && s[0] == '-' then StripLeadingDashes(s[1..]) else s
  }

  function StripTrailingDashes(s: string): (r: string)
    ensures |r| <= |s| && r == s[..|r|]
    ensures r == [] || r[|r| - 1] != '-'
    decreases |s|
  {
    if s != [] && s[|s| - 1] == '-' then StripTrailingDashes(s[..|s| - 1]) else s
  }

  /** `replace(/^-+|-+$/g, "")`. */
  function StripDashes(s: string): (r: string)
    ensures r == [] || (r[0] != '-' && r[|r| - 1] != '-')
  {
    StripTrailingDashes(StripLeadingDashes(s))
  }

  /** `replace(/-{2,}/g, "-")`. */
  function SquashDashes(s: string): (r: string)
    ensures NoDoubleDash(r)
    ensures r == [] <==> s == []
    ensures s != [] ==> r[0] == s[0]
    decreases |s|
  {
    if |s| >= 2 && s[0] == '-' && s[1] == '-' then SquashDashes(s[1..])
    else if s == [] then []
    else [s[0]] + SquashDashes(s[1..])
  }

  /** The pipeline up to lower-casing. */
  function Lowered(env: Env, value: string): string {
    ToLower(env, DropMarks(ReplacePlus(env.nfkd(Trim(value)))))
  }

  /** `toSlug`. */
  function ToSlug(env: Env, value: string): (r: string)
    requires Lawful(env)
    ensures forall k :: 0 <= k < |r| ==> r[k] == '-' || env.isLetterOrNumber(r[k])
    ensures r == [] || (r[0] != '-' && r[|r| - 1] != '-')
    ensures NoDoubleDash(r)
  {
    DashFacts(env);
    var dashed := RunsToDash(Lowered(env, value), env.isLetterOrNumber);
    var stripped := StripDashes(dashed);
    StripKeeps(dashed, env.isLetterOrNumber);
    SquashNoOp(stripped);
    SquashDashes(stripped)
  }

  lemma StripKeeps(s: string, isWord: char -> bool)
    requires NoDoubleDash(s) && forall k :: 0 <= k < |s| ==> s[k] == '-' || isWord(s[k])
    ensures NoDoubleDash(StripDashes(s))
    ensures forall k :: 0 <= k < |StripDashes(s)| ==> StripDashes(s)[k] == '-' || isWord(StripDashes(s)[k])
  {
    var a := StripLeadingDashes(s);
    var b := StripTrailingDashes(a);
    var off := |s| - |a|;
    forall i | 0 <= i < |a| ensures a[i] == s[off + i] { }
    forall i | 0 <= i < |b| ensures b[i] == a[i] { }
  }

  /** The final `-{2,}` replacement never fires: the earlier steps already leave no
      double dash. */
  lemma {:induction false} SquashNoOp(s: string)
    requires NoDoubleDash(s)
    ensures SquashDashes(s) == s
    decreases |s|
  {
    if s != [] {
      SquashNoOp(s[1..]);
    }
  }

  /** Blank input gives the empty slug. */
  lemma BlankSlug(env: Env, value: string)
    requires Lawful(env) && AllSpace(value)
    ensures ToSlug(env, value) == []
  {
    TrimEmptyIffAllSpace(value);
  }

  /** The letters and numbers of the lower-cased text survive, in order: removing the
      dashes from the slug gives exactly those characters. */
  function Words(s: string, isWord: char -> bool): (r: string)
    decreases |s|
  {
    if s == [] then [] else (if isWord(s[0]) then [s[0]] else []) + Words(s[1..], isWord)
  }

  function Undash(s: string): (r: string)
    ensures '-' !in r
    decreases |s|
  {
    if s == [] then [] else (if s[0] == '-' then [] else [s[0]]) + Undash(s[1..])
  }

  lemma {:induction false} WordsOfDropped(s: string, isWord: char -> bool)
    ensures Words(DropNonWord(s, isWord), isWord) == Words(s, isWord)
    decreases |s|
  {
    if s != [] && !isWord(s[0]) {
      WordsOfDropped(s[1..], isWord);
    }
  }

  lemma {:induction false} RunsKeepWords(s: string, isWord: char -> bool)
    requires !isWord('-')
    ensures Undash(RunsToDash(s, isWord)) == Words(s, isWord)
    decreases |s|
  {
    if s != [] {
      if isWord(s[0]) {
        RunsKeepWords(s[1..], isWord);
        assert RunsToDash(s, isWord) == [s[0]] + RunsToDash(s[1..], isWord);
        UndashCons(s[0], RunsToDash(s[1..], isWord));
      } else {
        var d := DropNonWord(s, isWord);
        assert d != [] ==> isWord(d[0]);
        assert |d| < |s|;
        RunsKeepWords(d, isWord);
        WordsOfDropped(s, isWord);
        UndashCons('-', RunsToDash(d, isWord));
      }
    }
  }

  lemma UndashCons(c: char, s: string)
    ensures Undash([c] + s) == (if c == '-' then [] else [c]) + Undash(s)
  {
    assert ([c] + s)[1..] == s;
  }

  lemma {:induction false} UndashDashes(n: nat)
    ensures Undash(seq(n, _ => '-')) == []
    decreases n
  {
    if n > 0 {
      assert seq(n, _ => '-')[1..] == seq(n - 1, _ => '-');
      UndashCons('-', seq(n - 1, _ => '-'));
      UndashDashes(n - 1);
    }
  }

  lemma {:induction false} UndashAppend(a: string, b: string)
    ensures Undash(a + b) == Undash(a) + Undash(b)
    decreases |a|
  {
    if a != [] {
      assert (a + b)[1..] == a[1..] + b;
      UndashAppend(a[1..], b);
    } else {
      assert a + b == b;
    }
  }

  /** Stripping dashes off both ends removes no letter or number. */
  lemma StripKeepsUndash(s: string)
    ensures Undash(StripDashes(s)) == Undash(s)
  {
    StripLeadingKeeps(s);
    StripTrailingKeeps(StripLeadingDashes(s));
  }

  lemma {:induction false} StripLeadingKeeps(s: string)
    ensures Undash(StripLeadingDashes(s)) == Undash(s)
    decreases |s|
  {
    if s != [] && s[0] == '-' {
      StripLeadingKeeps(s[1..]);
      UndashCons('-', s[1..]);
      assert s == [s[0]] + s[1..];
    }
  }

  lemma {:induction false} StripTrailingKeeps(s: string)
    ensures Undash(StripTrailingDashes(s)) == Undash(s)
    decreases |s|
  {
    if s != [] && s[|s| - 1] == '-' {
      var init := s[..|s| - 1];
      StripTrailingKeeps(init);
      assert s == init + "-";
      UndashAppend(init, "-");
    }
  }

  /** Every letter and number of the normalised, lower-cased input appears in the
      slug, in order, and nothing else but dashes does. */
  lemma SlugKeepsLetters(env: Env, value: string)
    requires Lawful(env)
    ensures Undash(ToSlug(env, value)) == Words(Lowered(env, value), env.isLetterOrNumber)
  {
    DashFacts(env);
    var dashed := RunsToDash(Lowered(env, value), env.isLetterOrNumber);
    RunsKeepWords(Lowered(env, value), env.isLetterOrNumber);
    StripKeepsUndash(dashed);
    StripKeeps(dashed, env.isLetterOrNumber);
    SquashNoOp(StripDashes(dashed));
  }

  /** Every character is a dash or satisfies `p`. */
  predicate DashOr(s: string, p: char -> bool) {
    forall k :: 0 <= k < |s| ==> s[k] == '-' || p(s[k])
  }

  /** Lower-case output: every character of the slug is its own lower case. */
  lemma SlugIsLowerCase(env: Env, value: string)
    requires Lawful(env)
    ensures forall k :: 0 <= k < |ToSlug(env, value)| ==> env.lower(ToSlug(env, value)[k]) == [ToSlug(env, value)[k]]
  {
    var fixed := c => env.lower(c) == [c];
    DashFacts(env);
    var low := Lowered(env, value);
    LowerFixed(env, DropMarks(ReplacePlus(env.nfkd(Trim(value)))));
    assert DashOr(low, fixed);
    var dashed := RunsToDash(low, env.isLetterOrNumber);
    RunsDashOr(low, env.isLetterOrNumber, fixed);
    StripDashOr(dashed, fixed);
    StripKeeps(dashed, env.isLetterOrNumber);
    SquashNoOp(StripDashes(dashed));
    FixedEverywhere(env, ToSlug(env, value));
  }

  lemma FixedEverywhere(env: Env, s: string)
    requires env.lower('-') == ['-'] && DashOr(s, c => env.lower(c) == [c])
    ensures forall k :: 0 <= k < |s| ==> env.lower(s[k]) == [s[k]]
  {
    forall k | 0 <= k < |s|
      ensures env.lower(s[k]) == [s[k]]
    {
      assert s[k] == '-' || env.lower(s[k]) == [s[k]];
    }
  }

  lemma StripDashOr(s: string, p: char -> bool)
    requires DashOr(s, p)
    ensures DashOr(StripDashes(s), p)
  {
    var a := StripLeadingDashes(s);
    var b := StripTrailingDashes(a);
    forall k | 0 <= k < |b| ensures b[k] == '-' || p(b[k]) {
      assert b[k] == a[k] == s[|s| - |a| + k];
    }
  }

  lemma {:induction false} DropDashOr(s: string, isWord: char -> bool, p: char -> bool)
    requires DashOr(s, p)
    ensures DashOr(DropNonWord(s, isWord), p)
  {
    var d := DropNonWord(s, isWord);
    forall k | 0 <= k < |d| ensures d[k] == '-' || p(d[k]) {
      assert d[k] == s[|s| - |d| + k];
    }
  }

  lemma {:induction false} RunsDashOr(s: string, isWord: char -> bool, p: char -> bool)
    requires !isWord('-') && DashOr(s, p)
    ensures DashOr(RunsToDash(s, isWord), p)
    decreases |s|
  {
    if s != [] {
      var r := RunsToDash(s, isWord);
      if isWord(s[0]) {
        var t := s[1..];
        assert DashOr(t, p) by {
          forall k | 0 <= k < |t| ensures t[k] == '-' || p(t[k]) { assert t[k] == s[k + 1]; }
        }
        RunsDashOr(t, isWord, p);
        assert r == [s[0]] + RunsToDash(t, isWord);
      } else {
        var d := DropNonWord(s, isWord);
        DropDashOr(s, isWord, p);
        RunsDashOr(d, isWord, p);
        assert r == "-" + RunsToDash(d, isWord);
      }
    }
  }

  lemma {:induction false} LowerFixed(env: Env, s: string)
    requires Lawful(env)
    ensures forall c :: c in ToLower(env, s) ==> env.lower(c) == [c]
    decreases |s|
  {
    if s != [] {
      LowerFixed(env, s[1..]);
      forall c | c in env.lower(s[0]) ensures env.lower(c) == [c] {
        var k :| 0 <= k < |env.lower(s[0])| && env.lower(s[0])[k] == c;
      }
    }
  }
}
