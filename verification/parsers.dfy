/** Clean-up of scraped page markdown before it is used as review evidence:
    markdown syntax removed, boilerplate phrases removed, white space normalised,
    and the result cut at a sentence boundary within 2000 characters. */
module Parsers {
  import opened Wrappers
  import opened Text
  import Sources

  const MaxSourceContentChars: nat := 2000

  // ---------------------------------------------------------------------------
  // stripMarkdown: five global replacements, applied in order.

  /** A match of `!\[[^\]]*]\([^)]*\)` at the start of `s`: its length. */
  function ImageLen(s: string): (r: Option<nat>)
    ensures r.Some? ==> 5 <= r.value <= |s|
  {
    if |s| < 2 || s[0] != '!' || s[1] != '[' then None
    else match IndexOf(s[2..], ']')
      case None => None
      case Some(j) =>
        if 3 + j < |s| && s[3 + j] == '(' then
          match IndexOf(s[4 + j..], ')')
          case None => None
          case Some(k) => Some(5 + j + k)
        else None
  }

  /** `replace(/!\[[^\]]*]\([^)]*\)/g, " ")`: images become a space. */
  function ReplaceImages(s: string): (r: string)
    ensures |r| <= |s|
    decreases |s|
  {
    if s == [] then []
    else match ImageLen(s)
      case Some(n) => " " + ReplaceImages(s[n..])
      case None => [s[0]] + ReplaceImages(s[1..])
  }

  /** Text with no `!` holds no image and passes through unchanged, whatever
      follows it. */
  lemma {:induction false} ImagesPlain(a: string, b: string)
    requires '!' !in a
    ensures ReplaceImages(a + b) == a + ReplaceImages(b)
    decreases |a|
  {
    if a == [] {
      assert a + b == b;
    } else {
      var s := a + b;
      assert s[0] == a[0] && s[1..] == a[1..] + b;
      assert ImageLen(s).None?;
      ImagesPlain(a[1..], b);
      calc {
        ReplaceImages(s);
        [s[0]] + ReplaceImages(s[1..]);
        [a[0]] + (a[1..] + ReplaceImages(b));
        { AppendAssoc([a[0]], a[1..], ReplaceImages(b)); assert [a[0]] + a[1..] == a; }
        a + ReplaceImages(b);
      }
    }
  }

  /** An image `![alt](href)` becomes one space, and replacing resumes right
      after it. */
  lemma ImageReplaced(alt: string, href: string, b: string)
    requires ']' !in alt && ')' !in href
    ensures ReplaceImages("![" + alt + "](" + href + ")" + b) == " " + ReplaceImages(b)
  {
    var img := "![" + alt + "](" + href + ")";
    var s := img + b;
    var j, k := |alt|, |href|;
    assert s[0] == '!' && s[1] == '[' && s[3 + j] == '(';
    assert s[2..][j] == ']' && s[2..][..j] == alt;
    IndexOfAt(s[2..], ']', j);
    assert s[4 + j..][k] == ')' && s[4 + j..][..k] == href;
    IndexOfAt(s[4 + j..], ')', k);
    assert s[5 + j + k..] == b;
    ImageAtThen(s, j, k, b);
  }

  /** Where `s` opens with `![`, its first `]` sits at `2 + j` and is followed
      by `(`, and the first `)` after that sits `k` further on, the image
      covers `5 + j + k` characters and becomes one space. */
  lemma ImageAt(s: string, j: nat, k: nat)
    requires 5 + j + k <= |s| && s[0] == '!' && s[1] == '[' && s[3 + j] == '('
    requires IndexOf(s[2..], ']') == Some(j) && IndexOf(s[4 + j..], ')') == Some(k)
    ensures ImageLen(s) == Some(5 + j + k)
  {
  }

  /** The same image, followed by `rest`, becomes one space followed by
      whatever `rest` becomes. */
  lemma ImageAtThen(s: string, j: nat, k: nat, rest: string)
    requires 5 + j + k <= |s| && s[0] == '!' && s[1] == '[' && s[3 + j] == '('
    requires IndexOf(s[2..], ']') == Some(j) && IndexOf(s[4 + j..], ')') == Some(k)
    requires s[5 + j + k..] == rest
    ensures ReplaceImages(s) == " " + ReplaceImages(rest)
  {
    ImageAt(s, j, k);
    ImageStep(s, 5 + j + k, rest);
  }

  /** A match at the start becomes one space. */
  lemma ImageStep(s: string, n: nat, rest: string)
    requires ImageLen(s) == Some(n) && s[n..] == rest
    ensures ReplaceImages(s) == " " + ReplaceImages(rest)
  {
  }

  /** A match of `\[([^\]]+)]\([^)]*\)` at the start of `s`: its length and the
      link text it captures. */
  function LinkMatch(s: string): (r: Option<(nat, string)>)
    ensures r.Some? ==> 1 <= |r.value.1| && |r.value.1| + 4 <= r.value.0 <= |s|
    ensures r.Some? ==> r.value.1 == s[1..1 + |r.value.1|] && ']' !in r.value.1
  {
    if |s| < 1 || s[0] != '[' then None
    else match IndexOf(s[1..], ']')
      case None => None
      case Some(j) =>
        if j >= 1 && 2 + j < |s| && s[2 + j] == '(' then
          match IndexOf(s[3 + j..], ')')
          case None => None
          case Some(k) =>
            assert s[1..][..j] == s[1..1 + j];
            Some((4 + j + k, s[1..1 + j]))
        else None
  }

  /** `replace(/\[([^\]]+)]\([^)]*\)/g, "$1")`: links become their text. */
  function ReplaceLinks(s: string): (r: string)
    ensures |r| <= |s|
    decreases |s|
  {
    if s == [] then []
    else match LinkMatch(s)
      case Some((n, text)) => text + ReplaceLinks(s[n..])
      case None => [s[0]] + ReplaceLinks(s[1..])
  }

  /** Text with no `[` holds no link and passes through unchanged, whatever
      follows it. */
  lemma {:induction false} LinksPlain(a: string, b: string)
    requires '[' !in a
    ensures ReplaceLinks(a + b) == a + ReplaceLinks(b)
    decreases |a|
  {
    if a == [] {
      assert a + b == b;
    } else {
      var s := a + b;
      assert s[0] == a[0] && s[1..] == a[1..] + b;
      assert LinkMatch(s).None?;
      LinksPlain(a[1..], b);
      calc {
        ReplaceLinks(s);
        [s[0]] + ReplaceLinks(s[1..]);
        [a[0]] + (a[1..] + ReplaceLinks(b));
        { AppendAssoc([a[0]], a[1..], ReplaceLinks(b)); assert [a[0]] + a[1..] == a; }
        a + ReplaceLinks(b);
      }
    }
  }

  /** A link `[text](href)` with non-empty text becomes its text, and replacing
      resumes right after it. */
  lemma LinkReplaced(text: string, href: string, b: string)
    requires text != [] && ']' !in text && ')' !in href
    ensures ReplaceLinks("[" + text + "](" + href + ")" + b) == text + ReplaceLinks(b)
  {
    var link := "[" + text + "](" + href + ")";
    var s := link + b;
    var j, k := |text|, |href|;
    assert s[0] == '[' && s[2 + j] == '(';
    assert s[1..][j] == ']' && s[1..][..j] == text;
    IndexOfAt(s[1..], ']', j);
    assert s[1..1 + j] == text;
    assert s[3 + j..][k] == ')' && s[3 + j..][..k] == href;
    IndexOfAt(s[3 + j..], ')', k);
    assert s[4 + j + k..] == b;
    LinkAtThen(s, j, k, b);
  }

  /** A match at the start becomes its captured text. */
  lemma LinkStep(s: string, n: nat, text: string, rest: string)
    requires LinkMatch(s) == Some((n, text)) && s[n..] == rest
    ensures ReplaceLinks(s) == text + ReplaceLinks(rest)
  {
  }

  /** Where `s` opens with `[`, its first `]` sits at `1 + j` with `j` at
      least one and is followed by `(`, and the first `)` after that sits `k`
      further on, the link covers `4 + j + k` characters and becomes its text. */
  lemma LinkAt(s: string, j: nat, k: nat)
    requires 1 <= j && 4 + j + k <= |s| && s[0] == '[' && s[2 + j] == '('
    requires IndexOf(s[1..], ']') == Some(j) && IndexOf(s[3 + j..], ')') == Some(k)
    ensures LinkMatch(s) == Some((4 + j + k, s[1..1 + j]))
  {
    assert s[1..][..j] == s[1..1 + j];
  }

  /** The same link, followed by `rest`, becomes its text followed by whatever
      `rest` becomes. */
  lemma LinkAtThen(s: string, j: nat, k: nat, rest: string)
    requires 1 <= j && 4 + j + k <= |s| && s[0] == '[' && s[2 + j] == '('
    requires IndexOf(s[1..], ']') == Some(j) && IndexOf(s[3 + j..], ')') == Some(k)
    requires s[4 + j + k..] == rest
    ensures ReplaceLinks(s) == s[1..1 + j] + ReplaceLinks(rest)
  {
    LinkAt(s, j, k);
    LinkStep(s, 4 + j + k, s[1..1 + j], rest);
  }

  /** The length of the run of one to three backticks at the start of `s`. */
  function TickRun(s: string): (r: nat)
    requires s != [] && s[0] == '`'
    ensures 1 <= r <= 3 && r <= |s|
    ensures forall k :: 0 <= k < r ==> s[k] == '`'
    ensures r < 3 ==> r == |s| || s[r] != '`'
  {
    if |s| >= 3 && s[1] == '`' && s[2] == '`' then 3
    else if |s| >= 2 && s[1] == '`' then 2
    else 1
  }

  /** `replace(/`{1,3}/g, " ")`: every run of up to three backticks becomes a space. */
  function ReplaceTicks(s: string): (r: string)
    ensures '`' !in r
    ensures |r| <= |s|
    decreases |s|
  {
    if s == [] then []
    else if s[0] == '`' then " " + ReplaceTicks(s[TickRun(s)..])
    else [s[0]] + ReplaceTicks(s[1..])
  }

  predicate IsMarker(c: char) {
    c == '>' || c == '#' || c == '*' || c == '|' || c == '-' || c == '+'
  }

  /** Where `^` matches under the `m` flag: the start, or just after a line terminator. */
  predicate AtLineStart(s: string, i: nat)
    requires i <= |s|
  {
    i == 0 || IsLineTerminator(s[i - 1])
  }

  /** The end of the run of characters satisfying `p` that starts at `i`. */
  function RunEnd(s: string, i: nat, p: char -> bool): (r: nat)
    requires i <= |s|
    ensures i <= r <= |s|
    ensures r == |s| || !p(s[r])
    ensures forall k :: i <= k < r ==> p(s[k])
    decreases |s| - i
  {
    if i == |s| || !p(s[i]) then i else RunEnd(s, i + 1, p)
  }

  /** The pattern `^[>#*|\-+]+\s*` with flags `g` and `m`, replaced by `" "`, on `s`
      from position `i`: a run of heading,
      bullet, quote or table markers at a line start, with the white space after it
      (line breaks included), becomes one space. Line starts are those of the
      original text, as the regular expression sees them. */
  function ReplaceLineMarkers(s: string, i: nat): (r: string)
    requires i <= |s|
    ensures |r| <= |s| - i
    ensures '`' !in s[i..] ==> '`' !in r
    decreases |s| - i
  {
    if i == |s| then []
    else if AtLineStart(s, i) && IsMarker(s[i]) then
      var j := RunEnd(s, i, IsMarker);
      var k := RunEnd(s, j, IsSpace);
      assert s[k..] == s[i..][k - i..];
      " " + ReplaceLineMarkers(s, k)
    else
      assert s[i + 1..] == s[i..][1..];
      [s[i]] + ReplaceLineMarkers(s, i + 1)
  }

  /** Where no line starts with a marker, the text is left as it is. */
  lemma {:induction false} LineMarkersFree(s: string, i: nat)
    requires i <= |s|
    requires forall k :: i <= k < |s| ==> !(AtLineStart(s, k) && IsMarker(s[k]))
    ensures ReplaceLineMarkers(s, i) == s[i..]
    decreases |s| - i
  {
    if i < |s| {
      LineMarkersFree(s, i + 1);
      assert s[i..] == [s[i]] + s[i + 1..];
    }
  }

  /** The end of a run found by hand is the one `RunEnd` finds. */
  lemma RunEndAt(s: string, i: nat, p: char -> bool, j: nat)
    requires i <= j <= |s|
    requires forall k :: i <= k < j ==> p(s[k])
    requires j == |s| || !p(s[j])
    ensures RunEnd(s, i, p) == j
  {
  }

  /** A text opening with a run of markers `m` and white space `w` has that
      opening replaced by one space; the rest `t`, where no line starts with a
      marker, is kept. */
  lemma MarkerLineReplaced(m: string, w: string, t: string)
    requires m != [] && forall k :: 0 <= k < |m| ==> IsMarker(m[k])
    requires forall k :: 0 <= k < |w| ==> IsSpace(w[k])
    requires w + t == [] || !IsMarker((w + t)[0])
    requires t == [] || !IsSpace(t[0])
    requires forall k :: |m + w| <= k < |m + w + t| ==> !(AtLineStart(m + w + t, k) && IsMarker((m + w + t)[k]))
    ensures ReplaceLineMarkers(m + w + t, 0) == " " + t
  {
    var s := m + w + t;
    var i, j := |m|, |m| + |w|;
    assert forall k :: 0 <= k < i ==> IsMarker(s[k]) by {
      forall k | 0 <= k < i ensures IsMarker(s[k]) { assert s[k] == m[k]; }
    }
    assert i == |s| || !IsMarker(s[i]) by {
      if i < |s| { assert s[i] == (w + t)[0]; }
    }
    assert forall k :: i <= k < j ==> IsSpace(s[k]) by {
      forall k | i <= k < j ensures IsSpace(s[k]) { assert s[k] == w[k - i]; }
    }
    assert s[j..] == t;
    MarkerLineAt(s, i, j);
  }

  /** Where `s` opens with markers up to `i` and white space up to `j`, and no
      later line starts with a marker, the opening becomes one space and the
      rest is kept. */
  lemma MarkerLineAt(s: string, i: nat, j: nat)
    requires 0 < i <= j <= |s|
    requires forall k :: 0 <= k < i ==> IsMarker(s[k])
    requires i == |s| || !IsMarker(s[i])
    requires forall k :: i <= k < j ==> IsSpace(s[k])
    requires j == |s| || !IsSpace(s[j])
    requires forall k :: j <= k < |s| ==> !(AtLineStart(s, k) && IsMarker(s[k]))
    ensures ReplaceLineMarkers(s, 0) == " " + s[j..]
  {
    RunEndAt(s, 0, IsMarker, i);
    RunEndAt(s, i, IsSpace, j);
    MarkerStep(s, 0, j);
    LineMarkersFree(s, j);
  }

  /** A marker at a line start, with the white space after it, becomes one
      space and replacing resumes after the white space. */
  lemma MarkerStep(s: string, i: nat, k: nat)
    requires i < |s| && AtLineStart(s, i) && IsMarker(s[i])
    requires k == RunEnd(s, RunEnd(s, i, IsMarker), IsSpace)
    ensures ReplaceLineMarkers(s, i) == " " + ReplaceLineMarkers(s, k)
  {
  }

  /** `replace(/\|/g, " ")`. */
  function ReplacePipes(s: string): (r: string)
    ensures |r| == |s|
    ensures forall k :: 0 <= k < |s| ==> r[k] == (if s[k] == '|' then ' ' else s[k])
  {
    seq(|s|, k requires 0 <= k < |s| => if s[k] == '|' then ' ' else s[k])
  }

  /** `stripMarkdown`. */
  function StripMarkdown(s: string): (r: string)
    ensures |r| <= |s|
    ensures '|' !in r && '`' !in r
  {
    var ticks := ReplaceTicks(ReplaceLinks(ReplaceImages(s)));
    var lines := ReplaceLineMarkers(ticks, 0);
    assert ticks[0..] == ticks;
    var r := ReplacePipes(lines);
    assert forall k :: 0 <= k < |r| ==> r[k] != '|' && r[k] != '`';
    r
  }

  // ---------------------------------------------------------------------------
  // stripBoilerplate: each pattern is a case-insensitive choice of phrases.

  /** `BOILERPLATE_PATTERNS`, each written out as the phrases it matches, in the
      order the regular expression tries them. */
  const BoilerplatePatterns: seq<seq<string>> := [
    ["privacy policy"],
    ["terms of service", "terms and conditions"],
    ["cookies policy", "cookies preferences", "cookie policy", "cookie preferences"],
    ["subscribe to our newsletter", "subscribe to newsletter"],
    ["sign in to continue", "sign in to read more"],
    ["advertisement"],
    ["sponsored"],
    ["related articles", "related posts"]
  ]

  /** The length of the first phrase matching at the start of `s`, ignoring case. */
  function PhraseAt(s: string, phrases: seq<string>): (r: Option<nat>)
    ensures r.Some? ==> exists k :: 0 <= k < |phrases| && r.value == |phrases[k]| && MatchCIAt(s, 0, phrases[k])
    ensures r.None? <==> forall k :: 0 <= k < |phrases| ==> !MatchCIAt(s, 0, phrases[k])
    decreases |phrases|
  {
    if phrases == [] then None
    else if MatchCIAt(s, 0, phrases[0]) then Some(|phrases[0]|)
    else
      var r := PhraseAt(s, phrases[1..]);
      assert forall k :: 1 <= k < |phrases| ==> phrases[1..][k - 1] == phrases[k];
      r
  }

  predicate NonEmptyPhrases(phrases: seq<string>) {
    forall k :: 0 <= k < |phrases| ==> |phrases[k]| >= 1
  }

  /** `replace(pattern, " ")` with the `g` and `i` flags: scanning left to right,
      each match is replaced by one space and the scan resumes after it. */
  function ReplacePhrases(s: string, phrases: seq<string>): (r: string)
    requires NonEmptyPhrases(phrases)
    ensures |r| <= |s|
    decreases |s|
  {
    if s == [] then []
    else match PhraseAt(s, phrases)
      case Some(n) => " " + ReplacePhrases(s[n..], phrases)
      case None => [s[0]] + ReplacePhrases(s[1..], phrases)
  }

  /** No phrase occurs anywhere in `s`, whatever the letter case. */
  predicate FreeOf(s: string, phrases: seq<string>) {
    forall i :: 0 <= i < |s| ==> PhraseAt(s[i..], phrases).None?
  }

  /** Text without any of the phrases passes through a replacement unchanged. */
  lemma {:induction false} ReplaceFreeText(s: string, phrases: seq<string>)
    requires NonEmptyPhrases(phrases) && FreeOf(s, phrases)
    ensures ReplacePhrases(s, phrases) == s
    decreases |s|
  {
    if s != [] {
      assert s[0..] == s;
      assert FreeOf(s[1..], phrases) by {
        forall i | 0 <= i < |s[1..]| ensures PhraseAt(s[1..][i..], phrases).None? {
          assert s[1..][i..] == s[i + 1..];
        }
      }
      ReplaceFreeText(s[1..], phrases);
    }
  }

  /** `stripBoilerplate`: the eight patterns applied one after another. */
  function StripBoilerplate(s: string): (r: string)
    ensures |r| <= |s|
  {
    StripPatterns(s, BoilerplatePatterns)
  }

  predicate AllNonEmpty(patterns: seq<seq<string>>) {
    forall p :: 0 <= p < |patterns| ==> NonEmptyPhrases(patterns[p])
  }

  function StripPatterns(s: string, patterns: seq<seq<string>>): (r: string)
    requires AllNonEmpty(patterns)
    ensures |r| <= |s|
    decreases |patterns|
  {
    if patterns == [] then s
    else StripPatterns(ReplacePhrases(s, patterns[0]), patterns[1..])
  }

  /** Text mentioning none of the boilerplate phrases is left exactly as it is. */
  lemma {:induction false} StripPatternsFree(s: string, patterns: seq<seq<string>>)
    requires AllNonEmpty(patterns)
    requires forall p :: 0 <= p < |patterns| ==> FreeOf(s, patterns[p])
    ensures StripPatterns(s, patterns) == s
    decreases |patterns|
  {
    if patterns != [] {
      ReplaceFreeText(s, patterns[0]);
      StripPatternsFree(s, patterns[1..]);
    }
  }

  lemma StripBoilerplateFree(s: string)
    requires forall p :: 0 <= p < |BoilerplatePatterns| ==> FreeOf(s, BoilerplatePatterns[p])
    ensures StripBoilerplate(s) == s
  {
    StripPatternsFree(s, BoilerplatePatterns);
  }

  /** A phrase at the scan position is replaced whatever its letter case: the
      replacement starts with the single space standing for it, and continues with
      the text after the phrase. */
  lemma PhraseReplaced(s: string, phrases: seq<string>, k: nat)
    requires NonEmptyPhrases(phrases) && k < |phrases| && MatchCIAt(s, 0, phrases[k])
    requires forall q :: 0 <= q < k ==> !MatchCIAt(s, 0, phrases[q])
    ensures ReplacePhrases(s, phrases) == " " + ReplacePhrases(s[|phrases[k]|..], phrases)
    decreases k
  {
    PhraseAtFirst(s, phrases, k);
  }

  lemma {:induction false} PhraseAtFirst(s: string, phrases: seq<string>, k: nat)
    requires k < |phrases| && MatchCIAt(s, 0, phrases[k])
    requires forall q :: 0 <= q < k ==> !MatchCIAt(s, 0, phrases[q])
    ensures PhraseAt(s, phrases) == Some(|phrases[k]|)
    decreases k
  {
    if k > 0 {
      PhraseAtFirst(s, phrases[1..], k - 1);
    }
  }

  /** A phrase is found in any letter case: a text that differs from a phrase only in
      case is replaced by one space. */
  lemma CaseVariantRemoved(w: string, v: string)
    requires |w| >= 1 && |v| == |w| && Lower(v) == Lower(w)
    ensures ReplacePhrases(v, [w]) == " "
  {
    assert v[0..|w|] == v;
    assert PhraseAt(v, [w]) == Some(|w|);
  }

  lemma UpperCaseRemoved(w: string)
    requires |w| >= 1
    ensures ReplacePhrases(Upper(w), [w]) == " "
  {
    LowerOfUpper(w);
    CaseVariantRemoved(w, Upper(w));
  }

  lemma LowerOfUpper(w: string)
    ensures Lower(Upper(w)) == Lower(w)
  {
    assert forall k :: 0 <= k < |w| ==> Lower(Upper(w))[k] == LowerChar(UpperChar(w[k]));
  }

  // ---------------------------------------------------------------------------
  // normalizeWhitespace and truncateAtSentenceBoundary.

  /** The trimmed lines that are not empty. */
  function NonBlankLines(lines: seq<string>): (r: seq<string>)
    ensures forall k :: 0 <= k < |r| ==> r[k] != [] && NoEdgeSpace(r[k])
    decreases |lines|
  {
    if lines == [] then []
    else
      var t := Trim(lines[0]);
      var rest := NonBlankLines(lines[1..]);
      if t == [] then rest else [t] + rest
  }

  /** `normalizeWhitespace`: lines trimmed, blank lines dropped, the rest joined by
      spaces, runs of white space squashed to one space and the ends trimmed. */
  function NormalizeWhitespace(s: string): (r: string)
    ensures Clean(r)
    ensures '\n' !in r
  {
    var r := Squash(Join(NonBlankLines(Split(s, '\n')), " "));
    NoNewlineInClean(r);
    r
  }

  lemma NoNewlineInClean(s: string)
    requires Clean(s)
    ensures '\n' !in s
  {
    if '\n' in s {
      var k :| 0 <= k < |s| && s[k] == '\n';
      assert IsSpace(s[k]);
    }
  }

  /** Trimming the lines and dropping the blank ones keeps every visible character. */
  lemma {:induction false} NonBlankLinesVisible(lines: seq<string>)
    ensures VisibleAll(NonBlankLines(lines)) == VisibleAll(lines)
    decreases |lines|
  {
    if lines != [] {
      var t := Trim(lines[0]);
      var rest := NonBlankLines(lines[1..]);
      NonBlankLinesVisible(lines[1..]);
      VisibleTrim(lines[0]);
      if t != [] {
        assert ([t] + rest)[0] == t && ([t] + rest)[1..] == rest;
      }
    }
  }

  /** `normalizeWhitespace` only touches white space: the characters that are not
      white space all survive, in order, and nothing else is added. */
  lemma NormalizeKeepsVisible(s: string)
    ensures Visible(NormalizeWhitespace(s)) == Visible(s)
  {
    var lines := Split(s, '\n');
    SplitJoin(s, '\n');
    assert AllSpace(['\n']) && AllSpace(" ");
    VisibleJoin(lines, ['\n']);
    NonBlankLinesVisible(lines);
    VisibleJoin(NonBlankLines(lines), " ");
    VisibleSquash(Join(NonBlankLines(lines), " "));
  }

  /** Text that is already trimmed and single-spaced is left as it is. */
  lemma NormalizeOfClean(s: string)
    requires Clean(s)
    ensures NormalizeWhitespace(s) == s
  {
    NoNewlineInClean(s);
    SplitWithout(s, '\n');
    TrimOfTrimmed(s);
    if s != [] {
      assert NonBlankLines([s]) == [s] by {
        assert [s][1..] == [];
      }
    }
    SquashOfClean(s);
  }

  /** `Math.max` of the last positions of `.`, `!` and `?`: the last sentence end. */
  function LastSentenceEnd(s: string): (r: Option<nat>)
    ensures r.None? <==> forall k :: 0 <= k < |s| ==> !IsSentenceEnd(s[k])
    ensures r.Some? ==> r.value < |s| && IsSentenceEnd(s[r.value])
    ensures r.Some? ==> forall k :: r.value < k < |s| ==> !IsSentenceEnd(s[k])
  {
    LastIndexWhere(s, IsSentenceEnd)
  }

  /** `Math.floor(maxChars * 0.6)`; for a whole number of characters the double
      product never falls below the integer `3 * maxChars / 5`. */
  function Threshold(maxChars: nat): (r: nat)
    ensures r <= maxChars
    ensures 5 * r <= 3 * maxChars < 5 * r + 5
  {
    3 * maxChars / 5
  }

  /** `truncateAtSentenceBoundary`. */
  function TruncateAtSentenceBoundary(input: string, maxChars: nat): (r: string)
    ensures |input| <= maxChars ==> r == input
    ensures |input| > maxChars ==> |r| <= maxChars && NoEdgeSpace(r)
    ensures |input| > maxChars ==>
              match LastSentenceEnd(input[..maxChars])
              case Some(cut) => cut >= Threshold(maxChars) ==> r != [] && IsSentenceEnd(r[|r| - 1])
              case None => true
    ensures |input| > maxChars ==>
              match LastSentenceEnd(input[..maxChars])
              case Some(cut) => cut < Threshold(maxChars) ==> r == Trim(input[..maxChars])
              case None => r == Trim(input[..maxChars])
  {
    if |input| <= maxChars then input
    else CutCandidateShape(input[..maxChars]); CutCandidate(input[..maxChars])
  }

  /** The cut of the first `maxChars` characters: up to the last sentence end
      when that lies past the threshold, else all of them; trimmed. */
  function CutCandidate(candidate: string): (r: string)
    ensures |r| <= |candidate|
  {
    Trim(candidate[..CutLength(candidate)])
  }

  /** The cut has no space at either end; it ends on the sentence end it was
      cut after, and is the whole candidate trimmed when there was no late
      enough sentence end. */
  lemma CutCandidateShape(candidate: string)
    ensures NoEdgeSpace(CutCandidate(candidate))
    ensures match LastSentenceEnd(candidate)
            case Some(cut) => cut >= Threshold(|candidate|) ==>
                                CutCandidate(candidate) != [] && IsSentenceEnd(CutCandidate(candidate)[|CutCandidate(candidate)| - 1])
            case None => true
    ensures match LastSentenceEnd(candidate)
            case Some(cut) => cut < Threshold(|candidate|) ==> CutCandidate(candidate) == Trim(candidate)
            case None => CutCandidate(candidate) == Trim(candidate)
  {
    match LastSentenceEnd(candidate)
    case Some(cut) =>
      if cut >= Threshold(|candidate|) {
        CutAfterSentence(candidate, cut);
      } else {
        CutWhole(candidate);
      }
    case None =>
      CutWhole(candidate);
  }

  /** Cut after a sentence end, the trimmed text still ends on it. */
  lemma CutAfterSentence(candidate: string, cut: nat)
    requires cut < |candidate| && IsSentenceEnd(candidate[cut]) && CutLength(candidate) == cut + 1
    ensures CutCandidate(candidate) != [] && IsSentenceEnd(CutCandidate(candidate)[|CutCandidate(candidate)| - 1])
  {
    var kept := candidate[..cut + 1];
    assert kept[|kept| - 1] == candidate[cut];
    TrimEndsOnSentence(kept);
  }

  /** Kept whole, the candidate is only trimmed. */
  lemma CutWhole(candidate: string)
    requires CutLength(candidate) == |candidate|
    ensures CutCandidate(candidate) == Trim(candidate)
  {
    assert candidate[..|candidate|] == candidate;
  }

  /** How much of the candidate is kept before trimming: up to and including
      the last sentence end when that lies at or past the threshold, else all
      of it. */
  function CutLength(candidate: string): (n: nat)
    ensures n <= |candidate|
    ensures match LastSentenceEnd(candidate)
            case Some(cut) => n == (if cut >= Threshold(|candidate|) then cut + 1 else |candidate|)
            case None => n == |candidate|
  {
    match LastSentenceEnd(candidate)
    case Some(cut) => if cut >= Threshold(|candidate|) then cut + 1 else |candidate|
    case None => |candidate|
  }

  /** Text ending on a sentence end still ends on it once trimmed. */
  lemma TrimEndsOnSentence(s: string)
    requires s != [] && IsSentenceEnd(s[|s| - 1])
    ensures Trim(s) != [] && IsSentenceEnd(Trim(s)[|Trim(s)| - 1])
  {
    TrimKeepsLast(s);
  }

  lemma TrimKeepsLast(s: string)
    requires s != [] && !IsSpace(s[|s| - 1])
    ensures Trim(s) != [] && Trim(s)[|Trim(s)| - 1] == s[|s| - 1]
  {
    TrimStartKeepsLast(s);
  }

  lemma {:induction false} TrimStartKeepsLast(s: string)
    requires s != [] && !IsSpace(s[|s| - 1])
    ensures TrimStart(s) != [] && TrimStart(s)[|TrimStart(s)| - 1] == s[|s| - 1]
    decreases |s|
  {
    if IsSpace(s[0]) {
      TrimStartKeepsLast(s[1..]);
    }
  }

  /** `parseReviewMarkdown`: markdown stripped, boilerplate stripped, white space
      normalised, then cut to at most 2000 characters. */
  function ParseReviewMarkdown(markdown: string): (r: string)
    ensures |r| <= MaxSourceContentChars
    ensures Clean(r)
  {
    var normalized := NormalizeWhitespace(StripBoilerplate(StripMarkdown(markdown)));
    var r := TruncateAtSentenceBoundary(normalized, MaxSourceContentChars);
    TruncateKeepsClean(normalized, MaxSourceContentChars);
    r
  }

  /** Text with nothing for the markdown and boilerplate rules to act on: no `!`,
      `[`, backtick or `|`, no marker at the start of a line, and none of the
      boilerplate phrases in any letter case. */
  predicate Plain(s: string) {
    && '!' !in s && '[' !in s && '`' !in s && '|' !in s
    && (forall k :: 0 <= k < |s| ==> !(AtLineStart(s, k) && IsMarker(s[k])))
    && forall p :: 0 <= p < |BoilerplatePatterns| ==> FreeOf(s, BoilerplatePatterns[p])
  }

  /** Text without backticks has no code markers to replace. */
  lemma {:induction false} TicksPlain(s: string)
    requires '`' !in s
    ensures ReplaceTicks(s) == s
    decreases |s|
  {
    if s != [] {
      TicksPlain(s[1..]);
    }
  }

  /** Plain text passes the markdown stripping unchanged. */
  lemma StripMarkdownPlain(s: string)
    requires Plain(s)
    ensures StripMarkdown(s) == s
  {
    ImagesPlain(s, []);
    assert s + [] == s;
    LinksPlain(s, []);
    TicksPlain(s);
    LineMarkersFree(s, 0);
    assert s[0..] == s;
    assert ReplacePipes(s) == s;
  }

  /** Review text that is already plain, trimmed, single-spaced and within the
      2000-character limit is kept exactly as it is. */
  lemma ParsePlainReview(s: string)
    requires Plain(s) && Clean(s) && |s| <= MaxSourceContentChars
    ensures ParseReviewMarkdown(s) == s
  {
    StripMarkdownPlain(s);
    StripBoilerplateFree(s);
    NormalizeOfClean(s);
  }

  /** Cutting clean text keeps it clean: single spaces only, trimmed ends. */
  lemma TruncateKeepsClean(s: string, maxChars: nat)
    requires Clean(s)
    ensures Clean(TruncateAtSentenceBoundary(s, maxChars))
  {
    if |s| > maxChars {
      CutPointTrims(s, maxChars);
      TrimPrefixClean(s, CutPoint(s, maxChars));
    }
  }

  /** Where long text is cut: after the last sentence end when that is late
      enough, at the limit otherwise. */
  function CutPoint(s: string, maxChars: nat): (n: nat)
    requires |s| > maxChars
    ensures n <= maxChars
  {
    CutLength(s[..maxChars])
  }

  /** Cutting long text keeps the trimmed text before the cut. */
  lemma CutPointTrims(s: string, maxChars: nat)
    requires |s| > maxChars
    ensures TruncateAtSentenceBoundary(s, maxChars) == Trim(s[..CutPoint(s, maxChars)])
  {
    var n := CutPoint(s, maxChars);
    assert s[..maxChars][..n] == s[..n];
  }

  /** The cut lies between 60% of the limit and the limit with no sentence end
      from it up to the limit, and either it follows a sentence end at or past
      60% of the limit, or it is the limit and no sentence end lies at or past
      60% of it. */
  lemma CutPointWhere(s: string, maxChars: nat)
    requires |s| > maxChars
    ensures Threshold(maxChars) <= CutPoint(s, maxChars) <= maxChars
    ensures forall k :: CutPoint(s, maxChars) <= k < maxChars ==> !IsSentenceEnd(s[k])
    ensures CutAfterEnd(s, maxChars, CutPoint(s, maxChars)) || CutAtLimit(s, maxChars, CutPoint(s, maxChars))
  {
    var candidate := s[..maxChars];
    var t := Threshold(maxChars);
    match LastSentenceEnd(candidate)
    case Some(cut) =>
      if cut >= t {
        assert CutPoint(s, maxChars) == cut + 1;
        assert CutAfterEnd(s, maxChars, cut + 1) by {
          assert candidate[cut] == s[cut];
        }
        assert forall k :: cut + 1 <= k < maxChars ==> !IsSentenceEnd(s[k]) by {
          forall k | cut + 1 <= k < maxChars ensures !IsSentenceEnd(s[k]) {
            assert candidate[k] == s[k];
          }
        }
      } else {
        assert CutPoint(s, maxChars) == maxChars;
        assert CutAtLimit(s, maxChars, maxChars) by {
          forall k | t <= k < maxChars ensures !IsSentenceEnd(s[k]) {
            assert candidate[k] == s[k];
          }
        }
      }
    case None =>
      assert CutPoint(s, maxChars) == maxChars;
      assert CutAtLimit(s, maxChars, maxChars) by {
        forall k | t <= k < maxChars ensures !IsSentenceEnd(s[k]) {
          assert candidate[k] == s[k];
        }
      }
  }

  /** The cut follows a sentence end at or past 60% of the limit. */
  predicate CutAfterEnd(s: string, maxChars: nat, n: nat)
    requires n <= |s|
  {
    0 < n && IsSentenceEnd(s[n - 1]) && n - 1 >= Threshold(maxChars)
  }

  /** The cut is the limit, and no sentence end lies at or past 60% of it. */
  predicate CutAtLimit(s: string, maxChars: nat, n: nat)
    requires maxChars <= |s|
  {
    n == maxChars && forall k :: Threshold(maxChars) <= k < maxChars ==> !IsSentenceEnd(s[k])
  }

  /** A trimmed prefix of single-spaced text is clean. */
  lemma TrimPrefixClean(s: string, n: nat)
    requires SingleSpaced(s) && n <= |s|
    ensures Clean(Trim(s[..n]))
  {
    SingleSpacedSlice(s, 0, n);
    assert s[0..n] == s[..n];
    TrimKeepsSingleSpaced(s[..n]);
  }

  /** Content as the parser leaves it: clean and at most 2000 characters. */
  predicate CleanContent(s: string) {
    |s| <= MaxSourceContentChars && Clean(s)
  }

  /** `parseScrapedSource`: only the content changes. */
  function ParseScrapedSource(source: Sources.ScrapedSource): (r: Sources.ScrapedSource)
    ensures r.(content := source.content) == source
    ensures CleanContent(r.content)
  {
    source.(content := ParseReviewMarkdown(source.content))
  }
}
