/** The prompt side of review synthesis: each source's content is white-space
    normalised and clipped to a character budget (a floor per source first, then
    the remainder handed out in order up to a per-source cap), the clipped
    sources are rendered as numbered blocks, and the JSON object is cut out of
    the model's reply. */
module SynthesisPrompt {
  import opened Wrappers
  import opened Text
  import Sources

  const MinCharsPerSource: nat := 120
  const MaxCharsPerSource: nat := 900
  const MaxTotalChars: nat := 8000

  function Min(a: int, b: int): int { if a <= b then a else b }

  function Sum(xs: seq<nat>): nat
    decreases |xs|
  {
    if xs == [] then 0 else xs[0] + Sum(xs[1..])
  }

  lemma {:induction false} SumSnoc(xs: seq<nat>, x: nat)
    ensures Sum(xs + [x]) == Sum(xs) + x
    decreases |xs|
  {
    if xs == [] {
      assert xs + [x] == [x];
    } else {
      assert (xs + [x])[1..] == xs[1..] + [x];
      SumSnoc(xs[1..], x);
    }
  }

  /** A sum grows with its terms. */
  lemma {:induction false} SumMonotone(xs: seq<nat>, ys: seq<nat>)
    requires |xs| == |ys| && forall k :: 0 <= k < |xs| ==> xs[k] <= ys[k]
    ensures Sum(xs) <= Sum(ys)
    decreases |xs|
  {
    if xs != [] {
      SumMonotone(xs[1..], ys[1..]);
    }
  }

  /** The most a source of `chars` characters can be given. */
  function Cap(chars: nat): nat { Min(chars, MaxCharsPerSource) }

  /** The floor a source of `chars` characters asks for. */
  function Want(chars: nat): nat { Min(chars, MinCharsPerSource) }

  function Caps(chars: seq<nat>): (r: seq<nat>)
    ensures |r| == |chars| && forall k :: 0 <= k < |chars| ==> r[k] == Cap(chars[k])
  {
    seq(|chars|, k requires 0 <= k < |chars| => Cap(chars[k]))
  }

  function Wants(chars: seq<nat>): (r: seq<nat>)
    ensures |r| == |chars| && forall k :: 0 <= k < |chars| ==> r[k] == Want(chars[k])
  {
    seq(|chars|, k requires 0 <= k < |chars| => Want(chars[k]))
  }

  /** The first pass, as a reference: in order, each source takes its floor or
      whatever is left of `budget`, whichever is smaller. */
  function Floors(chars: seq<nat>, budget: nat): (r: seq<nat>)
    ensures |r| == |chars|
    ensures Sum(r) <= budget
    ensures forall k :: 0 <= k < |chars| ==> r[k] <= Want(chars[k])
    decreases |chars|
  {
    if chars == [] then []
    else
      var f := Min(Want(chars[0]), budget);
      [f] + Floors(chars[1..], budget - f)
  }

  /** While the budget lasts every source gets its whole floor: when the floors
      fit, each is granted in full. */
  lemma {:induction false} FloorsWhenTheyFit(chars: seq<nat>, budget: nat)
    requires Sum(Wants(chars)) <= budget
    ensures Floors(chars, budget) == Wants(chars)
    decreases |chars|
  {
    if chars != [] {
      assert Wants(chars)[1..] == Wants(chars[1..]);
      FloorsWhenTheyFit(chars[1..], budget - Want(chars[0]));
    }
  }

  /** Once a source gets less than its floor the budget is spent: every later
      source gets nothing in the first pass. */
  lemma {:induction false} FloorsExhausted(chars: seq<nat>, budget: nat, k: nat)
    requires k < |chars| && Floors(chars, budget)[k] < Want(chars[k])
    ensures Sum(Floors(chars, budget)) == budget
    ensures forall j :: k < j < |chars| ==> Floors(chars, budget)[j] == 0
    decreases |chars|
  {
    var f := Min(Want(chars[0]), budget);
    var rest := Floors(chars[1..], budget - f);
    assert Floors(chars, budget) == [f] + rest;
    if k == 0 {
      assert budget - f == 0;
      ZeroFloors(chars[1..]);
    } else {
      assert rest[k - 1] == Floors(chars, budget)[k];
      FloorsExhausted(chars[1..], budget - f, k - 1);
    }
  }

  lemma {:induction false} ZeroFloors(chars: seq<nat>)
    ensures Sum(Floors(chars, 0)) == 0
    ensures forall j :: 0 <= j < |chars| ==> Floors(chars, 0)[j] == 0
    decreases |chars|
  {
    if chars != [] {
      ZeroFloors(chars[1..]);
    }
  }

  /** The two passes of `compactSourcesForPrompt` over the normalised lengths:
      `floors` is the first pass, `allowance` the final allowance per source. The
      allowance never exceeds the per-source cap, the total is the whole budget
      unless every source fits at its cap, and the second pass fills sources in
      order: after the first source left short of its cap, the rest keep only
      their floors. */
  method Allocate(chars: seq<nat>) returns (floors: seq<nat>, allowance: seq<nat>)
    ensures floors == Floors(chars, MaxTotalChars)
    ensures |allowance| == |chars|
    ensures forall k :: 0 <= k < |chars| ==> floors[k] <= allowance[k] <= Cap(chars[k])
    ensures Sum(allowance) == Min(MaxTotalChars, Sum(Caps(chars)))
    ensures forall k, j :: 0 <= k < j < |chars| && allowance[k] < Cap(chars[k]) ==> allowance[j] == floors[j]
  {
    floors := Floors(chars, MaxTotalChars);
    var remaining;
    allowance, remaining := SecondPass(chars, floors, MaxTotalChars - Sum(floors));
    if remaining > 0 {
      assert allowance == Caps(chars);
    } else {
      SumMonotone(allowance, Caps(chars));
    }
  }

  /** `Math.min(Math.max(0, hardCap - floor), remainingBudget)`: what one source
      gets on top of its floor. It never overdraws the budget or passes the cap,
      and it stops short of the cap only by spending the whole budget. */
  function Additional(chars: nat, floor: nat, remaining: nat): (a: nat)
    requires floor <= Cap(chars)
    ensures a <= remaining && floor + a <= Cap(chars)
    ensures floor + a < Cap(chars) ==> a == remaining
  {
    var hardCap := Min(chars, MaxCharsPerSource);
    var room := if hardCap - floor >= 0 then hardCap - floor else 0;
    Min(room, remaining)
  }

  /** The second pass: the budget left after the floors goes to the sources in
      order, each up to its cap. */
  method SecondPass(chars: seq<nat>, floors: seq<nat>, budget: nat) returns (allowance: seq<nat>, remaining: nat)
    requires |floors| == |chars| && forall k :: 0 <= k < |chars| ==> floors[k] <= Cap(chars[k])
    ensures |allowance| == |chars|
    ensures forall k :: 0 <= k < |chars| ==> floors[k] <= allowance[k] <= Cap(chars[k])
    ensures Sum(allowance) + remaining == Sum(floors) + budget
    ensures forall k :: 0 <= k < |chars| && allowance[k] < Cap(chars[k]) ==> remaining == 0
    ensures forall k, j :: 0 <= k < j < |chars| && allowance[k] < Cap(chars[k]) ==> allowance[j] == floors[j]
  {
    remaining := budget;
    allowance := [];
    var i := 0;
    while i < |chars|
      invariant 0 <= i <= |chars|
      invariant |allowance| == i
      invariant forall k :: 0 <= k < i ==> floors[k] <= allowance[k] <= Cap(chars[k])
      invariant Sum(allowance) + Sum(floors[i..]) + remaining == Sum(floors) + budget
      invariant forall k :: 0 <= k < i && allowance[k] < Cap(chars[k]) ==> remaining == 0
      invariant forall k, j :: 0 <= k < j < i && allowance[k] < Cap(chars[k]) ==> allowance[j] == floors[j]
    {
      var additional := Additional(chars[i], floors[i], remaining);
      assert floors[i..][1..] == floors[i + 1..];
      SumSnoc(allowance, floors[i] + additional);
      allowance := allowance + [floors[i] + additional];
      remaining := remaining - additional;
      i := i + 1;
    }
    assert floors[i..] == [];
  }

  /** `content.slice(0, n).trim()` of normalised content. */
  function Clip(content: string, n: nat): (r: string)
    requires Clean(content)
    ensures StartsWith(content, r) && |r| <= n
    ensures n >= |content| ==> r == content
    ensures n < |content| ==> |r| < |content|
  {
    var p := content[..Min(n, |content|)];
    assert p == [] || !IsSpace(p[0]);
    assert TrimStart(p) == p;
    if n >= |content| then
      assert p == content;
      TrimOfTrimmed(content);
      Trim(p)
    else
      Trim(p)
  }

  /** `PromptSource`. */
  datatype PromptSource = PromptSource(
    title: string,
    url: string,
    kind: Sources.SourceType,
    content: string,
    originalChars: nat)

  /** Whether the block marks the content as cut short. */
  predicate Truncated(p: PromptSource) {
    |p.content| < p.originalChars
  }

  function Lengths(ps: seq<PromptSource>): (r: seq<nat>)
    ensures |r| == |ps| && forall k :: 0 <= k < |ps| ==> r[k] == |ps[k].content|
  {
    seq(|ps|, k requires 0 <= k < |ps| => |ps[k].content|)
  }

  /** The white-space-normalised length of every source's content. */
  function NormalizedLengths(sources: seq<Sources.NormalizedSource>): (r: seq<nat>)
    ensures |r| == |sources| && forall k :: 0 <= k < |sources| ==> r[k] == |Squash(sources[k].source.content)|
  {
    seq(|sources|, k requires 0 <= k < |sources| => |Squash(sources[k].source.content)|)
  }

  /** `compactSourcesForPrompt`: every source is clipped to its allowance, and
      the allowances are those of the two passes over the normalised lengths:
      each between the source's first-pass floor and its cap, the total the whole
      budget unless every source fits at its cap, filled in source order. So every
      source keeps its title, address and type; its content becomes a prefix of
      its white-space-normalised content, at most the per-source cap long; and
      the clipped contents together stay within the total budget. */
  method CompactSources(sources: seq<Sources.NormalizedSource>) returns (prompt: seq<PromptSource>, allowance: seq<nat>)
    ensures |allowance| == |sources| && prompt == CompactAll(sources, allowance)
    ensures forall k :: 0 <= k < |sources| ==>
              Floors(NormalizedLengths(sources), MaxTotalChars)[k] <= allowance[k] <= Cap(NormalizedLengths(sources)[k])
    ensures Sum(allowance) == Min(MaxTotalChars, Sum(Caps(NormalizedLengths(sources))))
    ensures forall k, j :: 0 <= k < j < |sources| && allowance[k] < Cap(NormalizedLengths(sources)[k]) ==>
              allowance[j] == Floors(NormalizedLengths(sources), MaxTotalChars)[j]
    ensures |prompt| == |sources|
    ensures forall k :: 0 <= k < |sources| ==>
              var s := sources[k].source;
              && prompt[k].title == s.title && prompt[k].url == s.url && prompt[k].kind == s.kind
              && prompt[k].originalChars == |Squash(s.content)|
              && StartsWith(Squash(s.content), prompt[k].content)
              && |prompt[k].content| <= Cap(prompt[k].originalChars)
    ensures Sum(Lengths(prompt)) <= MaxTotalChars
    ensures forall k :: 0 <= k < |sources| && |Squash(sources[k].source.content)| <= MinCharsPerSource && k < MaxTotalChars / MinCharsPerSource ==>
              !Truncated(prompt[k])
  {
    var chars := NormalizedLengths(sources);
    var floors;
    floors, allowance := Allocate(chars);
    prompt := CompactAll(sources, allowance);
    forall k | 0 <= k < |sources| && chars[k] <= MinCharsPerSource && k < MaxTotalChars / MinCharsPerSource
      ensures !Truncated(prompt[k])
    {
      ShortSourceKept(chars, k);
    }
  }

  /** Every source clipped to its allowance. */
  function CompactAll(sources: seq<Sources.NormalizedSource>, allowance: seq<nat>): (r: seq<PromptSource>)
    requires |allowance| == |sources|
    ensures |r| == |sources|
    ensures forall k :: 0 <= k < |sources| ==> r[k] == CompactOne(sources[k].source, allowance[k])
    ensures Sum(Lengths(r)) <= Sum(allowance)
  {
    var r := seq(|sources|, k requires 0 <= k < |sources| => CompactOne(sources[k].source, allowance[k]));
    SumMonotone(Lengths(r), allowance);
    r
  }

  /** One source given an allowance of `n` characters. */
  function CompactOne(s: Sources.ScrapedSource, n: nat): (p: PromptSource)
    ensures p.title == s.title && p.url == s.url && p.kind == s.kind
    ensures p.originalChars == |Squash(s.content)|
    ensures StartsWith(Squash(s.content), p.content) && |p.content| <= n
    ensures n >= p.originalChars ==> !Truncated(p)
  {
    var cleaned := Squash(s.content);
    PromptSource(s.title, s.url, s.kind, Clip(cleaned, n), |cleaned|)
  }

  /** A source no longer than the floor, among the first sixty-six, gets all of
      it: the floors before it use at most 120 characters each. */
  lemma ShortSourceKept(chars: seq<nat>, k: nat)
    requires k < |chars| && chars[k] <= MinCharsPerSource && k < MaxTotalChars / MinCharsPerSource
    ensures Floors(chars, MaxTotalChars)[k] == chars[k]
  {
    FloorPrefixBound(chars, MaxTotalChars, k);
  }

  /** The `k`-th floor is its whole want while the budget left after `k` full
      floors still covers it. */
  lemma {:induction false} FloorPrefixBound(chars: seq<nat>, budget: nat, k: nat)
    requires k < |chars| && (k + 1) * MinCharsPerSource <= budget
    ensures Floors(chars, budget)[k] == Want(chars[k])
    decreases k
  {
    var f := Min(Want(chars[0]), budget);
    if k > 0 {
      assert Floors(chars, budget)[k] == Floors(chars[1..], budget - f)[k - 1];
      FloorPrefixBound(chars[1..], budget - f, k - 1);
    }
  }

  const TruncatedMarker := " …[truncated]"

  /** The context tag tells the model whether a source carries user reviews. */
  function ContextTag(kind: Sources.SourceType): (r: string)
    ensures r == "USER_REVIEWS" <==> kind == Sources.Ecommerce
    ensures r == "USER_REVIEWS" || r == "EXPERT_OR_CONTENT"
  {
    if kind == Sources.Ecommerce then "USER_REVIEWS" else "EXPERT_OR_CONTENT"
  }

  /** The text of the content line: the clipped content, with the marker when it
      is shorter than the normalised original. */
  function ShownContent(p: PromptSource): (r: string)
    ensures StartsWith(r, p.content)
    ensures Truncated(p) <==> |r| > |p.content|
    ensures Truncated(p) ==> EndsWith(r, TruncatedMarker)
  {
    if Truncated(p) then p.content + TruncatedMarker else p.content
  }

  /** One numbered source block: six lines joined by a newline, the source's
      number counting from one. */
  function SourceEntry(index: nat, p: PromptSource): string {
    "Source " + NatToString(index + 1) + ":"
    + "\n- Context: " + ContextTag(p.kind)
    + "\n- Title: " + p.title
    + "\n- URL: " + p.url
    + "\n- Type: " + Sources.TypeName(p.kind)
    + "\n- Content: " + ShownContent(p)
  }

  function Entries(ps: seq<PromptSource>): seq<string> {
    seq(|ps|, k requires 0 <= k < |ps| => SourceEntry(k, ps[k]))
  }

  /** `buildSourceBlock`: the numbered entries separated by a blank line. */
  function SourceBlock(ps: seq<PromptSource>): (r: string)
    ensures ps == [] ==> r == []
    ensures |ps| == 1 ==> r == SourceEntry(0, ps[0])
    ensures |ps| > 1 ==> StartsWith(r, SourceEntry(0, ps[0]) + "\n\n")
  {
    var es := Entries(ps);
    var r := Join(es, "\n\n");
    if |ps| > 1 then
      var head := SourceEntry(0, ps[0]) + "\n\n";
      assert r == head + Join(es[1..], "\n\n");
      assert r[..|head|] == head;
      r
    else r
  }

  /** One more source adds a blank line and its entry, numbered after the others:
      every source appears, in input order, each numbered by its position. */
  lemma SourceBlockSnoc(ps: seq<PromptSource>, q: PromptSource)
    requires ps != []
    ensures SourceBlock(ps + [q]) == SourceBlock(ps) + "\n\n" + SourceEntry(|ps|, q)
  {
    assert Entries(ps + [q]) == Entries(ps) + [SourceEntry(|ps|, q)];
    JoinSnoc(Entries(ps), SourceEntry(|ps|, q), "\n\n");
  }

  const UserPromptHead := "Use the following sources:"

  /** The user message of the first chat call: the product name, a blank line,
      the instruction line, then the source block. */
  function UserPrompt(productName: string, ps: seq<PromptSource>): (r: string)
    ensures r == "Product: " + productName + "\n\n" + UserPromptHead + "\n" + SourceBlock(ps)
  {
    var lines := ["Product: " + productName, "", UserPromptHead, SourceBlock(ps)];
    JoinFourLines("Product: " + productName, UserPromptHead, SourceBlock(ps));
    Join(lines, "\n")
  }

  /** Four lines joined by newlines, the second of them empty. */
  lemma JoinFourLines(a: string, c: string, d: string)
    ensures Join([a, "", c, d], "\n") == a + "\n\n" + c + "\n" + d
  {
    var xs := [a, "", c, d];
    assert xs[1..][1..][1..] == [d];
    assert Join(xs[1..][1..], "\n") == c + "\n" + d;
    assert Join(xs[1..], "\n") == "\n" + (c + "\n" + d);
  }

  /** `extractJsonObject`: the text from the first `{` to the last `}`, provided
      the last `}` comes after the first `{`. */
  function ExtractJsonObject(raw: string): (r: Result<string, string>)
    ensures r.Success? <==> '{' in raw && '}' in raw && IndexOf(raw, '{').value < LastIndexOf(raw, '}').value
    ensures r.Success? ==> |r.value| >= 2 && r.value[0] == '{' && r.value[|r.value| - 1] == '}'
    ensures r.Failure? ==> r.error == NoJsonObject
  {
    match (IndexOf(raw, '{'), LastIndexOf(raw, '}'))
    case (Some(start), Some(end)) =>
      if end <= start then Failure(NoJsonObject) else Success(raw[start..end + 1])
    case _ => Failure(NoJsonObject)
  }

  const NoJsonObject := "Synthesis response did not include a JSON object"

  /** Text around a braced object is dropped when the text before has no `{` and
      the text after has no `}`. */
  lemma ExtractAround(before: string, body: string, after: string)
    requires '{' !in before && '}' !in after
    ensures ExtractJsonObject(before + "{" + body + "}" + after) == Success("{" + body + "}")
  {
    var raw := before + "{" + body + "}" + after;
    var start := |before|;
    var end := |before| + 1 + |body|;
    AroundParts(before, body, after);
    FirstAt(raw, '{', start);
    LastAt(raw, '}', end);
    ExtractAt(raw, start, end);
  }

  lemma AroundParts(before: string, body: string, after: string)
    ensures var raw := before + "{" + body + "}" + after;
            var start := |before|;
            var end := |before| + 1 + |body|;
            && end < |raw| && raw[start] == '{' && raw[..start] == before
            && raw[end] == '}' && raw[end + 1..] == after
            && raw[start..end + 1] == "{" + body + "}"
  {
    var raw := before + "{" + body + "}" + after;
    var start := |before|;
    var end := |before| + 1 + |body|;
    assert raw[..start] == before;
    assert raw[end + 1..] == after;
    assert raw[start..end + 1] == "{" + body + "}";
  }

  lemma ExtractAt(raw: string, start: nat, end: nat)
    requires IndexOf(raw, '{') == Some(start) && LastIndexOf(raw, '}') == Some(end) && start < end < |raw|
    ensures ExtractJsonObject(raw) == Success(raw[start..end + 1])
  {
  }

  /** A position holding `c` with no `c` before it is where `indexOf` stops. */
  lemma FirstAt(s: string, c: char, i: nat)
    requires i < |s| && s[i] == c && c !in s[..i]
    ensures IndexOf(s, c) == Some(i)
  {
    assert forall k :: 0 <= k < i ==> s[..i][k] == s[k];
  }

  /** A position holding `c` with no `c` after it is where `lastIndexOf` stops. */
  lemma LastAt(s: string, c: char, i: nat)
    requires i < |s| && s[i] == c && c !in s[i + 1..]
    ensures LastIndexOf(s, c) == Some(i)
  {
    assert forall k :: i < k < |s| ==> s[i + 1..][k - i - 1] == s[k];
  }
}
