/** The plain-text fallback format: the model answers with `VERDICT:`,
    `CONFIDENCE:`, `BEST_FOR:`, `SUMMARY:` and `TLDR:` lines and `PROS:`,
    `CONS:` and `SOURCES:` bullet lists; the lines are read back into a
    candidate object that goes through the same coercion and schema check as a
    JSON answer (`parseTextFallback`). */
module TextFallback {
  import opened Wrappers
  import opened Text
  import opened Json
  import Unicode
  import Urls
  import opened Sources
  import opened Reviews
  import RS = ReviewShape

  /** `text.split("\n").map(line => line.trim()).filter(Boolean)`. */
  function Lines(text: string): (r: seq<string>)
    ensures RS.ListItems(r)
  {
    RS.TrimEachListItems(Split(text, '\n'));
    NonEmpty(RS.TrimEach(Split(text, '\n')))
  }

  /** The first position holding `true`. */
  function FirstTrue(bs: seq<bool>): (r: Option<nat>)
    ensures r.None? <==> forall k :: 0 <= k < |bs| ==> !bs[k]
    ensures r.Some? ==> r.value < |bs| && bs[r.value] && forall k :: 0 <= k < r.value ==> !bs[k]
    decreases |bs|
  {
    if bs == [] then None
    else if bs[0] then Some(0)
    else match FirstTrue(bs[1..])
      case None => None
      case Some(i) => Some(i + 1)
  }

  /** Whether the upper-case form of a line starts with `prefix`. */
  predicate HasPrefix(env: Unicode.Env, line: string, prefix: string) {
    StartsWith(Unicode.ToUpper(env, line), prefix)
  }

  function PrefixMatches(env: Unicode.Env, lines: seq<string>, prefix: string): (r: seq<bool>)
    ensures |r| == |lines| && forall k :: 0 <= k < |lines| ==> r[k] == HasPrefix(env, lines[k], prefix)
  {
    seq(|lines|, k requires 0 <= k < |lines| => HasPrefix(env, lines[k], prefix))
  }

  /** `getValue(prefix)`: the rest of the first line whose upper-case form starts
      with `prefix`, trimmed; the empty string when no line does. The rest is cut
      from the line itself, so a line that upper-cases longer than it is may
      leave nothing. */
  function GetValue(env: Unicode.Env, lines: seq<string>, prefix: string): (r: string)
    ensures NoEdgeSpace(r)
    ensures (forall k :: 0 <= k < |lines| ==> !HasPrefix(env, lines[k], prefix)) ==> r == []
  {
    match FirstTrue(PrefixMatches(env, lines, prefix))
    case None => []
    case Some(k) =>
      var line := lines[k];
      Trim(if |prefix| <= |line| then line[|prefix|..] else [])
  }

  /** Upper-case ASCII text: a heading the model is asked to write. */
  predicate AsciiHeading(prefix: string) {
    forall k :: 0 <= k < |prefix| ==> prefix[k] <= '\U{7F}' && !IsAsciiLower(prefix[k])
  }

  lemma UpperOfHeading(prefix: string)
    requires AsciiHeading(prefix)
    ensures Upper(prefix) == prefix
  {
  }

  /** A line that starts with an upper-case ASCII heading starts with it after
      upper-casing as well. */
  lemma HeadingLineHasPrefix(env: Unicode.Env, prefix: string, rest: string)
    requires Unicode.Lawful(env) && AsciiHeading(prefix)
    ensures HasPrefix(env, prefix + rest, prefix)
  {
    Unicode.ToUpperAppend(env, prefix, rest);
    Unicode.ToUpperAscii(env, prefix);
    UpperOfHeading(prefix);
    var u := Unicode.ToUpper(env, prefix + rest);
    assert u == prefix + Unicode.ToUpper(env, rest);
    assert u[..|prefix|] == prefix;
  }

  /** Reading a value back: when the first line carrying the heading is the
      heading followed by the value, `getValue` returns the value trimmed. */
  lemma GetValueOfLine(env: Unicode.Env, lines: seq<string>, k: nat, prefix: string, rest: string)
    requires Unicode.Lawful(env) && AsciiHeading(prefix)
    requires k < |lines| && lines[k] == prefix + rest
    requires forall j :: 0 <= j < k ==> !HasPrefix(env, lines[j], prefix)
    ensures GetValue(env, lines, prefix) == Trim(rest)
  {
    HeadingLineHasPrefix(env, prefix, rest);
    var found := FirstTrue(PrefixMatches(env, lines, prefix));
    assert found == Some(k);
    assert lines[k][|prefix|..] == rest;
  }

  /** A character of a heading's name: `[A-Z_]`. */
  predicate IsHeadingChar(c: char) { IsAsciiUpper(c) || c == '_' }

  /** The length of the leading run of heading characters. */
  function HeadingRun(line: string): (r: nat)
    ensures r <= |line|
    ensures forall k :: 0 <= k < r ==> IsHeadingChar(line[k])
    ensures r < |line| ==> !IsHeadingChar(line[r])
    decreases |line|
  {
    if line != [] && IsHeadingChar(line[0]) then 1 + HeadingRun(line[1..]) else 0
  }

  /** Whether the regular expression `^[A-Z_]+:\s*` matches the line: one or
      more heading characters and then a colon (the trailing white-space part
      matches anything). A colon is not a heading character, so the colon must
      follow the whole leading run. */
  predicate IsHeading(line: string) {
    var n := HeadingRun(line);
    1 <= n < |line| && line[n] == ':'
  }

  /** A heading name followed by a colon is a heading, whatever comes after. */
  lemma HeadingOf(name: string, rest: string)
    requires name != [] && forall k :: 0 <= k < |name| ==> IsHeadingChar(name[k])
    ensures IsHeading(name + ":" + rest)
    decreases |name|
  {
    var line := name + ":" + rest;
    if |name| > 1 {
      assert line[1..] == name[1..] + ":" + rest;
      HeadingOf(name[1..], rest);
    } else {
      assert line[1..] == ":" + rest;
    }
  }

  /** Where a bullet list ends: at a heading, or at a line that upper-cases to
      one of the three list headers. */
  predicate IsStop(env: Unicode.Env, line: string) {
    IsHeading(line) || Unicode.ToUpper(env, line) in {"PROS:", "CONS:", "SOURCES:"}
  }

  /** Line `n` ends a list: it is past the last line or a stop line. */
  predicate ListEnd(env: Unicode.Env, lines: seq<string>, n: nat) {
    n == |lines| || (n < |lines| && IsStop(env, lines[n]))
  }

  /** The item of a `- ` line, trimmed; other lines give nothing. */
  function BulletOf(line: string): (r: seq<string>)
    ensures |r| <= 1
    ensures forall k :: 0 <= k < |r| ==> NoEdgeSpace(r[k])
  {
    if StartsWith(line, "- ") then [Trim(line[2..])] else []
  }

  /** The bullets from line `i` up to the next stop line. */
  function CollectFrom(env: Unicode.Env, lines: seq<string>, i: nat): (r: seq<string>)
    ensures forall k :: 0 <= k < |r| ==> NoEdgeSpace(r[k])
    decreases |lines| - i
  {
    if i >= |lines| || IsStop(env, lines[i]) then []
    else BulletOf(lines[i]) + CollectFrom(env, lines, i + 1)
  }

  function SectionMatches(env: Unicode.Env, lines: seq<string>, section: string): (r: seq<bool>)
    ensures |r| == |lines| && forall k :: 0 <= k < |lines| ==> r[k] == (Unicode.ToUpper(env, lines[k]) == section)
  {
    seq(|lines|, k requires 0 <= k < |lines| => Unicode.ToUpper(env, lines[k]) == section)
  }

  /** `collectBullets(section)`: the non-empty items of the `- ` lines after the
      first line that upper-cases to `section`, up to the next stop line. */
  function CollectBullets(env: Unicode.Env, lines: seq<string>, section: string): (r: seq<string>)
    ensures RS.ListItems(r)
    ensures (forall k :: 0 <= k < |lines| ==> Unicode.ToUpper(env, lines[k]) != section) ==> r == []
  {
    match FirstTrue(SectionMatches(env, lines, section))
    case None => []
    case Some(k) =>
      var items := CollectFrom(env, lines, k + 1);
      var r := NonEmpty(items);
      forall j | 0 <= j < |r| ensures r[j] != [] && NoEdgeSpace(r[j]) {
        assert r[j] in items;
      }
      r
  }

  /** The `- item` lines of a list. */
  function Dashed(items: seq<string>): (r: seq<string>)
    ensures |r| == |items| && forall k :: 0 <= k < |items| ==> r[k] == "- " + items[k]
  {
    seq(|items|, k requires 0 <= k < |items| => "- " + items[k])
  }

  /** The upper-case form of '-' is '-', as for every ASCII character. */
  predicate DashUpper(env: Unicode.Env) {
    env.upper('-') == ['-']
  }

  /** A bullet line never ends a list. */
  lemma DashedNotStop(env: Unicode.Env, item: string)
    requires DashUpper(env)
    ensures !IsStop(env, "- " + item)
  {
    var line := "- " + item;
    assert line[0] == '-';
    var u := Unicode.ToUpper(env, line);
    assert u == env.upper('-') + Unicode.ToUpper(env, line[1..]);
    assert u[0] == '-';
  }

  /** The bullets of consecutive `- item` lines that run up to a stop line or the
      end are the items, trimmed. */
  lemma {:induction false} CollectDashed(env: Unicode.Env, lines: seq<string>, i: nat, items: seq<string>, end: nat)
    requires DashUpper(env) && end == i + |items| && end <= |lines| && ListEnd(env, lines, end)
    requires forall j {:trigger lines[j]} :: i <= j < end ==> lines[j] == "- " + items[j - i]
    ensures CollectFrom(env, lines, i) == RS.TrimEach(items)
    decreases |items|
  {
    if items == [] {
      CollectFromEnd(env, lines, i);
    } else {
      var rest := items[1..];
      forall j | i + 1 <= j < end ensures lines[j] == "- " + rest[j - (i + 1)] {
        assert rest[j - (i + 1)] == items[j - i];
      }
      CollectDashed(env, lines, i + 1, rest, end);
      CollectCons(env, lines, i, items, end);
    }
  }

  lemma CollectCons(env: Unicode.Env, lines: seq<string>, i: nat, items: seq<string>, end: nat)
    requires DashUpper(env) && items != [] && end == i + |items| && end <= |lines|
    requires forall j {:trigger lines[j]} :: i <= j < end ==> lines[j] == "- " + items[j - i]
    requires CollectFrom(env, lines, i + 1) == RS.TrimEach(items[1..])
    ensures CollectFrom(env, lines, i) == RS.TrimEach(items)
  {
    assert lines[i] == "- " + items[0];
    DashedStep(env, lines, i, items[0]);
    TrimEachCons(items);
  }

  /** A bullet line contributes its trimmed item and the list goes on. */
  lemma DashedStep(env: Unicode.Env, lines: seq<string>, i: nat, item: string)
    requires DashUpper(env) && i < |lines| && lines[i] == "- " + item
    ensures CollectFrom(env, lines, i) == [Trim(item)] + CollectFrom(env, lines, i + 1)
  {
    DashedNotStop(env, item);
    CollectFromStep(env, lines, i);
    BulletOfDashed(item);
  }

  lemma CollectFromEnd(env: Unicode.Env, lines: seq<string>, i: nat)
    requires ListEnd(env, lines, i)
    ensures CollectFrom(env, lines, i) == []
  {
  }

  lemma CollectFromStep(env: Unicode.Env, lines: seq<string>, i: nat)
    requires i < |lines| && !IsStop(env, lines[i])
    ensures CollectFrom(env, lines, i) == BulletOf(lines[i]) + CollectFrom(env, lines, i + 1)
  {
  }

  lemma BulletOfDashed(item: string)
    ensures BulletOf("- " + item) == [Trim(item)]
  {
    assert ("- " + item)[2..] == item;
  }

  lemma TrimEachCons(items: seq<string>)
    requires items != []
    ensures RS.TrimEach(items) == [Trim(items[0])] + RS.TrimEach(items[1..])
  {
  }

  /** Reading a list back: the first line that upper-cases to the section
      header, followed by `- item` lines up to a stop line or the end, gives back
      the items. */
  lemma BulletsOfSection(env: Unicode.Env, lines: seq<string>, k: nat, section: string, items: seq<string>)
    requires Unicode.Lawful(env) && RS.ListItems(items)
    requires k < |lines| && Unicode.ToUpper(env, lines[k]) == section
    requires forall j :: 0 <= j < k ==> Unicode.ToUpper(env, lines[j]) != section
    requires k + 1 + |items| <= |lines| && lines[k + 1..k + 1 + |items|] == Dashed(items)
    requires ListEnd(env, lines, k + 1 + |items|)
    ensures CollectBullets(env, lines, section) == items
  {
    assert CollectFrom(env, lines, k + 1) == items by {
      forall j | k + 1 <= j < k + 1 + |items| ensures lines[j] == "- " + items[j - (k + 1)] {
        assert lines[j] == lines[k + 1..k + 1 + |items|][j - (k + 1)];
      }
      Unicode.DashFacts(env);
      CollectDashed(env, lines, k + 1, items, k + 1 + |items|);
      TrimEachKept(items);
    }
    assert FirstTrue(SectionMatches(env, lines, section)) == Some(k) by {
      FirstTrueAt(SectionMatches(env, lines, section), k);
    }
    CollectBulletsAt(env, lines, section, k);
  }

  lemma CollectBulletsAt(env: Unicode.Env, lines: seq<string>, section: string, k: nat)
    requires FirstTrue(SectionMatches(env, lines, section)) == Some(k)
    ensures CollectBullets(env, lines, section) == NonEmpty(CollectFrom(env, lines, k + 1))
  {
  }

  lemma FirstTrueAt(bs: seq<bool>, k: nat)
    requires k < |bs| && bs[k] && forall j :: 0 <= j < k ==> !bs[j]
    ensures FirstTrue(bs) == Some(k)
  {
  }

  lemma TrimEachKept(items: seq<string>)
    requires RS.ListItems(items)
    ensures RS.TrimEach(items) == items
  {
    forall j | 0 <= j < |items| ensures RS.TrimEach(items)[j] == items[j] {
      TrimOfTrimmed(items[j]);
    }
  }

  /** One `title | url | type` bullet as the object `parseTextFallback` builds:
      it needs at least two parts and an address that parses; an empty title
      becomes "Source", and a type other than "ecommerce" or "youtube" is
      "blog". */
  function SourceBullet(bullet: string, url: Urls.UrlParser): (r: Option<Json>)
    ensures r.Some? <==> |Split(bullet, '|')| >= 2 && url(Trim(Split(bullet, '|')[1])).Some?
  {
    var parts := RS.TrimEach(Split(bullet, '|'));
    if |parts| < 2 then None
    else match url(parts[1])
      case None => None
      case Some(parsed) =>
        var kind := if |parts| >= 3 && (parts[2] == "ecommerce" || parts[2] == "youtube") then parts[2] else "blog";
        var title := if parts[0] == [] then "Source" else parts[0];
        Some(SourceObject(title, parsed.href, kind))
  }

  /** The `{ title, url, type }` object of one source bullet. */
  function SourceObject(title: string, href: string, kind: string): (r: Json)
    ensures Get(r, "title") == Some(JString(title))
    ensures Get(r, "url") == Some(JString(href))
    ensures Get(r, "type") == Some(JString(kind))
  {
    var fs := [("title", JString(title)), ("url", JString(href)), ("type", JString(kind))];
    LookupLast(fs, 0);
    LookupLast(fs, 1);
    LookupLast(fs, 2);
    JObject(fs)
  }

  /** The fields of a usable source bullet: the trimmed first part, or "Source"
      when it is empty; the parsed address; the third part when it names
      "ecommerce" or "youtube", otherwise "blog". */
  lemma SourceBulletFields(bullet: string, url: Urls.UrlParser)
    requires SourceBullet(bullet, url).Some?
    ensures var parts := RS.TrimEach(Split(bullet, '|'));
            var o := SourceBullet(bullet, url).value;
            Get(o, "title") == Some(JString(if parts[0] == [] then "Source" else parts[0])) &&
            Get(o, "url") == Some(JString(url(parts[1]).value.href)) &&
            Get(o, "type") == Some(JString(if |parts| >= 3 && (parts[2] == "ecommerce" || parts[2] == "youtube") then parts[2] else "blog"))
  {
  }

  /** `SourceBullet` over each bullet. */
  function BulletAttempts(bullets: seq<string>, url: Urls.UrlParser): (r: seq<Option<Json>>)
    ensures |r| == |bullets| && forall j :: 0 <= j < |bullets| ==> r[j] == SourceBullet(bullets[j], url)
  {
    seq(|bullets|, j requires 0 <= j < |bullets| => SourceBullet(bullets[j], url))
  }

  /** The usable source bullets as objects, in order. */
  function SourceBullets(bullets: seq<string>, url: Urls.UrlParser): (r: seq<Json>)
    ensures forall j :: 0 <= j < |bullets| && SourceBullet(bullets[j], url).Some? ==> SourceBullet(bullets[j], url).value in r
    ensures forall o :: o in r ==> exists j :: 0 <= j < |bullets| && SourceBullet(bullets[j], url) == Some(o)
  {
    RS.Somes(BulletAttempts(bullets, url))
  }

  /** One bullet gives its object when it is usable and nothing otherwise. */
  lemma SourceBulletsOne(bullet: string, url: Urls.UrlParser)
    ensures SourceBullets([bullet], url) == if SourceBullet(bullet, url).Some? then [SourceBullet(bullet, url).value] else []
  {
    var m := BulletAttempts([bullet], url);
    assert m[1..] == [];
  }

  /** The objects of two runs of bullets are those of the first run followed
      by those of the second. */
  lemma SourceBulletsAppend(a: seq<string>, b: seq<string>, url: Urls.UrlParser)
    ensures SourceBullets(a + b, url) == SourceBullets(a, url) + SourceBullets(b, url)
  {
    BulletAttemptsAppend(a, b, url);
    RS.SomesAppend(BulletAttempts(a, url), BulletAttempts(b, url));
  }

  /** Attempting the bullets of two runs is attempting each run. */
  lemma BulletAttemptsAppend(a: seq<string>, b: seq<string>, url: Urls.UrlParser)
    ensures BulletAttempts(a + b, url) == BulletAttempts(a, url) + BulletAttempts(b, url)
  {
    var ma, mb, mab := BulletAttempts(a, url), BulletAttempts(b, url), BulletAttempts(a + b, url);
    forall j | 0 <= j < |a| ensures mab[j] == ma[j] {
      assert (a + b)[j] == a[j];
    }
    forall j | 0 <= j < |b| ensures mab[|a| + j] == mb[j] {
      assert (a + b)[|a| + j] == b[j];
    }
    SpliceEq(mab, ma, mb);
  }

  /** A sequence that agrees with `a` and then with `b`, position by position,
      is `a + b`. */
  lemma SpliceEq<T>(c: seq<T>, a: seq<T>, b: seq<T>)
    requires |c| == |a| + |b|
    requires forall j :: 0 <= j < |a| ==> c[j] == a[j]
    requires forall j :: 0 <= j < |b| ==> c[|a| + j] == b[j]
    ensures c == a + b
  {
    forall j | 0 <= j < |c| ensures c[j] == (a + b)[j] {
      if j >= |a| {
        assert c[|a| + (j - |a|)] == b[j - |a|];
      }
    }
  }


  /** The object handed to `coerceReviewShape`: the heading values (the verdict
      lower-cased), the three bullet lists, the usable source bullets. */
  function Candidate(env: Unicode.Env, text: string, url: Urls.UrlParser): (r: Json)
    ensures Get(r, "verdict") == Some(JString(Unicode.ToLower(env, GetValue(env, Lines(text), "VERDICT:"))))
    ensures Get(r, "pros") == Some(JArray(RS.Strings(CollectBullets(env, Lines(text), "PROS:"))))
    ensures Get(r, "cons") == Some(JArray(RS.Strings(CollectBullets(env, Lines(text), "CONS:"))))
    ensures Get(r, "confidenceScore") == Some(JString(GetValue(env, Lines(text), "CONFIDENCE:")))
    ensures Get(r, "bestFor") == Some(JString(GetValue(env, Lines(text), "BEST_FOR:")))
    ensures Get(r, "summary") == Some(JString(GetValue(env, Lines(text), "SUMMARY:")))
    ensures Get(r, "tldr") == Some(JString(GetValue(env, Lines(text), "TLDR:")))
    ensures Get(r, "sources") == Some(JArray(SourceBullets(CollectBullets(env, Lines(text), "SOURCES:"), url)))
  {
    var lines := Lines(text);
    CandidateFields(
      JString(Unicode.ToLower(env, GetValue(env, lines, "VERDICT:"))),
      JString(GetValue(env, lines, "CONFIDENCE:")),
      JString(GetValue(env, lines, "BEST_FOR:")),
      JString(GetValue(env, lines, "SUMMARY:")),
      JString(GetValue(env, lines, "TLDR:")),
      JArray(RS.Strings(CollectBullets(env, lines, "PROS:"))),
      JArray(RS.Strings(CollectBullets(env, lines, "CONS:"))),
      JArray(SourceBullets(CollectBullets(env, lines, "SOURCES:"), url)))
  }

  /** The candidate's fields, by name. */
  function CandidateFields(verdict: Json, confidence: Json, bestFor: Json, summary: Json, tldr: Json,
                           pros: Json, cons: Json, sources: Json): (r: Json)
    ensures Get(r, "verdict") == Some(verdict)
    ensures Get(r, "pros") == Some(pros)
    ensures Get(r, "cons") == Some(cons)
    ensures Get(r, "sources") == Some(sources)
    ensures Get(r, "confidenceScore") == Some(confidence)
    ensures Get(r, "bestFor") == Some(bestFor)
    ensures Get(r, "summary") == Some(summary)
    ensures Get(r, "tldr") == Some(tldr)
  {
    KeysDistinct();
    var o := FrontFields(verdict, confidence, bestFor, summary);
    With(With(With(With(o, "tldr", tldr), "pros", pros), "cons", cons), "sources", sources)
  }

  /** The first four of the candidate's fields. */
  function FrontFields(verdict: Json, confidence: Json, bestFor: Json, summary: Json): (r: Json)
    ensures r.JObject?
    ensures Get(r, "verdict") == Some(verdict)
    ensures Get(r, "confidenceScore") == Some(confidence)
    ensures Get(r, "bestFor") == Some(bestFor)
    ensures Get(r, "summary") == Some(summary)
  {
    KeysDistinct();
    With(With(With(With(JObject([]), "verdict", verdict), "confidenceScore", confidence), "bestFor", bestFor), "summary", summary)
  }

  /** The candidate's field names differ from one another. */
  lemma KeysDistinct()
    ensures "verdict" != "confidenceScore" && "verdict" != "bestFor" && "verdict" != "summary" && "verdict" != "tldr"
    ensures "verdict" != "pros" && "verdict" != "cons" && "verdict" != "sources"
    ensures "confidenceScore" != "bestFor" && "confidenceScore" != "summary" && "confidenceScore" != "tldr"
    ensures "confidenceScore" != "pros" && "confidenceScore" != "cons" && "confidenceScore" != "sources"
    ensures "bestFor" != "summary" && "bestFor" != "tldr" && "bestFor" != "pros" && "bestFor" != "cons" && "bestFor" != "sources"
    ensures "summary" != "tldr" && "summary" != "pros" && "summary" != "cons" && "summary" != "sources"
    ensures "tldr" != "pros" && "tldr" != "cons" && "tldr" != "sources"
    ensures "pros" != "cons" && "pros" != "sources" && "cons" != "sources"
  {
  }

  /** `parseTextFallback`: the candidate read from the text, coerced and checked
      against the schema. A returned review is valid, and its pros and cons are
      the first five bullets of their lists whenever a list has one. */
  function ParseTextFallback(env: Unicode.Env, text: string, fallbacks: seq<NormalizedSource>, parse: string -> Num, url: Urls.UrlParser): (r: Result<Review, seq<string>>)
    ensures r.Success? ==> RS.Valid(r.value, url)
    ensures r.Success? && CollectBullets(env, Lines(text), "PROS:") != [] ==>
              r.value.pros == RS.Take(CollectBullets(env, Lines(text), "PROS:"), RS.MaxListItems)
    ensures r.Success? && CollectBullets(env, Lines(text), "CONS:") != [] ==>
              r.value.cons == RS.Take(CollectBullets(env, Lines(text), "CONS:"), RS.MaxListItems)
  {
    var c := Candidate(env, text, url);
    RS.StringArrayKept(CollectBullets(env, Lines(text), "PROS:"));
    RS.StringArrayKept(CollectBullets(env, Lines(text), "CONS:"));
    RS.CoerceReviewShape(c, fallbacks, parse, url)
  }

  /** The review's sources are the usable `SOURCES:` bullets, coerced; when no
      bullet is usable, the fallback sources take their place. */
  lemma TextSources(env: Unicode.Env, text: string, fallbacks: seq<NormalizedSource>, parse: string -> Num, url: Urls.UrlParser)
    ensures RS.Shape(Candidate(env, text, url), fallbacks, parse, url).sources ==
              RS.CoerceSources(Some(JArray(SourceBullets(CollectBullets(env, Lines(text), "SOURCES:"), url))), fallbacks, url)
  {
  }

  /** The verdict written on the first `VERDICT:` line is the review's verdict. */
  lemma TextVerdict(env: Unicode.Env, text: string, fallbacks: seq<NormalizedSource>, parse: string -> Num, url: Urls.UrlParser, d: Verdict)
    requires Unicode.ToLower(env, GetValue(env, Lines(text), "VERDICT:")) == VerdictName(d)
    ensures RS.Shape(Candidate(env, text, url), fallbacks, parse, url).verdict == d
  {
  }
}
