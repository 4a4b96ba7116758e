/** Turning whatever the language model returned into a review: each field is
    coerced with a default (`coerceReviewShape`), citations are matched against
    the input sources by address (`coerceSources`), and the result must pass
    the review schema or synthesis fails with the paths of the offending
    fields. */
module ReviewShape {
  import opened Wrappers
  import opened Text
  import opened Json
  import Urls
  import opened Sources
  import opened Reviews

  function Min(a: int, b: int): int { if a <= b then a else b }
  function Max(a: int, b: int): int { if a >= b then a else b }

  /** `xs.slice(0, n)`. */
  function Take<T>(xs: seq<T>, n: nat): (r: seq<T>)
    ensures |r| == Min(n, |xs|) && r == xs[..|r|]
  {
    xs[..Min(n, |xs|)]
  }

  /** `coerceString`: a string with something besides white space, trimmed. */
  function CoerceString(v: Option<Json>): (r: Option<string>)
    ensures r.Some? <==> AsString(v).Some? && !AllSpace(AsString(v).value)
    ensures r.Some? ==> r.value != [] && NoEdgeSpace(r.value) && r.value == Trim(AsString(v).value)
  {
    match AsString(v)
    case None => None
    case Some(s) =>
      TrimEmptyIffAllSpace(s);
      if Trim(s) == [] then None else Some(Trim(s))
  }

  /** Trimmed text is passed through unchanged. */
  lemma CoerceStringKeeps(s: string)
    requires s != [] && NoEdgeSpace(s)
    ensures CoerceString(Some(JString(s))) == Some(s)
  {
    TrimOfTrimmed(s);
  }

  /** The separators of `split(/[,\n]/g)`. */
  predicate IsItemSeparator(c: char) { c == ',' || c == '\n' }

  /** `split(/[,\n]/g)`: `k` separators give `k + 1` pieces. */
  function SplitItems(s: string): (r: seq<string>)
    ensures |r| >= 1
    ensures forall i, k :: 0 <= i < |r| && 0 <= k < |r[i]| ==> !IsItemSeparator(r[i][k])
    decreases |s|
  {
    if s == [] then [[]]
    else
      var rest := SplitItems(s[1..]);
      if IsItemSeparator(s[0]) then [[]] + rest
      else [[s[0]] + rest[0]] + rest[1..]
  }

  /** Text without a separator is one piece. */
  lemma {:induction false} SplitItemsWhole(s: string)
    requires forall k :: 0 <= k < |s| ==> !IsItemSeparator(s[k])
    ensures SplitItems(s) == [s]
    decreases |s|
  {
    if s != [] {
      SplitItemsWhole(s[1..]);
      assert [s[0]] + s[1..] == s;
    }
  }

  function TrimEach(xs: seq<string>): (r: seq<string>)
    ensures |r| == |xs| && forall k :: 0 <= k < |xs| ==> r[k] == Trim(xs[k])
  {
    seq(|xs|, k requires 0 <= k < |xs| => Trim(xs[k]))
  }

  /** What `map(item => typeof item === "string" ? item.trim() : "")` makes of
      array items. */
  function ItemTexts(items: seq<Json>): (r: seq<string>)
    ensures |r| == |items|
    ensures forall k :: 0 <= k < |items| ==> r[k] == (if items[k].JString? then Trim(items[k].s) else [])
  {
    seq(|items|, k requires 0 <= k < |items| => if items[k].JString? then Trim(items[k].s) else [])
  }

  const MaxListItems: nat := 5

  /** Trimmed non-empty strings: the shape every coerced list has. */
  predicate ListItems(xs: seq<string>) {
    forall k :: 0 <= k < |xs| ==> xs[k] != [] && NoEdgeSpace(xs[k])
  }

  lemma TrimEachListItems(xs: seq<string>)
    ensures ListItems(NonEmpty(TrimEach(xs)))
  {
    var t := TrimEach(xs);
    forall k | 0 <= k < |NonEmpty(t)|
      ensures NonEmpty(t)[k] != [] && NoEdgeSpace(NonEmpty(t)[k])
    {
      assert NonEmpty(t)[k] in t;
    }
  }

  /** The array branch of `coerceStringArray`: the trimmed string items that are
      not empty, at most five of them. */
  function ArrayItems(items: seq<Json>): (r: seq<string>)
    ensures |r| <= MaxListItems && ListItems(r)
    ensures forall k :: 0 <= k < |r| ==> r[k] in ItemTexts(items)
  {
    var texts := ItemTexts(items);
    var kept := NonEmpty(texts);
    var r := Take(kept, MaxListItems);
    forall k | 0 <= k < |r| ensures r[k] != [] && NoEdgeSpace(r[k]) && r[k] in texts {
      assert r[k] == kept[k] && kept[k] in kept;
    }
    r
  }

  /** A trimmed piece of `s` holds no character `s` does not. */
  lemma TrimPieceChars(piece: string, i: nat)
    requires i < |Trim(piece)|
    ensures Trim(piece)[i] in piece
  {
    TrimSlice(piece);
    var off := |piece| - |TrimStart(piece)|;
    assert Trim(piece)[i] == piece[off + i];
  }

  /** The string branch of `coerceStringArray`: the trimmed non-empty pieces
      between commas and newlines, at most five of them. */
  function TextItems(s: string): (r: seq<string>)
    ensures |r| <= MaxListItems && ListItems(r)
    ensures forall k, i :: 0 <= k < |r| && 0 <= i < |r[k]| ==> !IsItemSeparator(r[k][i])
  {
    var pieces := SplitItems(s);
    var kept := NonEmpty(TrimEach(pieces));
    TrimEachListItems(pieces);
    var r := Take(kept, MaxListItems);
    forall k, i | 0 <= k < |r| && 0 <= i < |r[k]| ensures !IsItemSeparator(r[k][i]) {
      assert r[k] == kept[k] && kept[k] in kept;
      assert r[k] in TrimEach(pieces);
      var j :| 0 <= j < |pieces| && TrimEach(pieces)[j] == r[k];
      TrimPieceChars(pieces[j], i);
    }
    r
  }

  /** `coerceStringArray`: at most five trimmed non-empty strings. An array keeps
      its string items (others count as empty), a string is split at commas and
      newlines, anything else gives the empty list. */
  function CoerceStringArray(v: Option<Json>): (r: seq<string>)
    ensures |r| <= MaxListItems && ListItems(r)
    ensures v.None? || !(v.value.JArray? || v.value.JString?) ==> r == []
    ensures v.Some? && v.value.JArray? ==> forall k :: 0 <= k < |r| ==> r[k] in ItemTexts(v.value.items)
    ensures v.Some? && v.value.JString? ==>
              forall k, i :: 0 <= k < |r| && 0 <= i < |r[k]| ==> !IsItemSeparator(r[k][i])
  {
    if v.Some? && v.value.JArray? then ArrayItems(v.value.items)
    else if v.Some? && v.value.JString? then TextItems(v.value.s)
    else []
  }

  function Strings(xs: seq<string>): (r: seq<Json>)
    ensures |r| == |xs| && forall k :: 0 <= k < |xs| ==> r[k] == JString(xs[k])
  {
    seq(|xs|, k requires 0 <= k < |xs| => JString(xs[k]))
  }

  /** Trimmed strings read back from their JSON encoding unchanged. */
  lemma TextsOfStrings(xs: seq<string>)
    requires ListItems(xs)
    ensures ItemTexts(Strings(xs)) == xs
  {
    var texts := ItemTexts(Strings(xs));
    forall k | 0 <= k < |xs| ensures texts[k] == xs[k] {
      TrimOfTrimmed(xs[k]);
    }
  }

  /** A list of trimmed non-empty strings survives coercion as its first five
      items, so a short one survives as it is. */
  lemma StringArrayKept(xs: seq<string>)
    requires ListItems(xs)
    ensures CoerceStringArray(Some(JArray(Strings(xs)))) == Take(xs, MaxListItems)
    ensures |xs| <= MaxListItems ==> CoerceStringArray(Some(JArray(Strings(xs)))) == xs
  {
    TextsOfStrings(xs);
    assert NonEmpty(xs) == xs;
    assert ArrayItems(Strings(xs)) == Take(NonEmpty(ItemTexts(Strings(xs))), MaxListItems);
  }

  /** Text with no separator, after trimming, is a one-item list. */
  lemma StringItemKept(s: string)
    requires s != [] && NoEdgeSpace(s) && forall k :: 0 <= k < |s| ==> !IsItemSeparator(s[k])
    ensures CoerceStringArray(Some(JString(s))) == [s]
  {
    SplitItemsWhole(s);
    TrimOfTrimmed(s);
    assert TrimEach([s]) == [s];
  }

  const DefaultConfidence: real := 0.6

  /** `coerceConfidenceScore`: `Number(value)` when it is not already a number;
      non-finite values become 0.6 and finite ones are clamped to [0, 1]. */
  function CoerceConfidence(v: Option<Json>, parse: string -> Num): (r: real)
    ensures 0.0 <= r <= 1.0
    ensures ToNumber(v, parse).NonFinite? ==> r == DefaultConfidence
    ensures var n := ToNumber(v, parse); n.Finite? && 0.0 <= n.x <= 1.0 ==> r == n.x
    ensures var n := ToNumber(v, parse); n.Finite? && n.x < 0.0 ==> r == 0.0
    ensures var n := ToNumber(v, parse); n.Finite? && n.x > 1.0 ==> r == 1.0
  {
    match ToNumber(v, parse)
    case NonFinite => DefaultConfidence
    case Finite(x) =>
      var upper := if x <= 1.0 then x else 1.0;
      if upper >= 0.0 then upper else 0.0
  }

  /** `coerceVerdict`: one of the three names, or "wait". */
  function CoerceVerdict(v: Option<Json>): (r: Verdict)
    ensures forall d :: v == Some(JString(VerdictName(d))) ==> r == d
    ensures AsString(v).None? || AsString(v).value !in {"buy", "skip", "wait"} ==> r == Wait
  {
    match AsString(v)
    case Some(s) =>
      if s == "buy" then Buy else if s == "skip" then Skip else Wait
    case None => Wait
  }

  /** `ensureLength`: the trimmed value (or the fallback when it is blank) if it is
      long enough; otherwise the value and the fallback joined by a space, trimmed,
      and cut to the larger of the minimum and the fallback's length. A long
      enough value comes back trimmed, a short one never yields more than that
      bound, and a trimmed fallback that meets the minimum makes the result meet
      it too. */
  function EnsureLength(value: string, min: nat, fallback: string): (r: string)
    ensures Trim(value) != [] && |Trim(value)| >= min ==> r == Trim(value)
    ensures |Trim(value)| < min ==> |r| <= Max(min, |fallback|)
    ensures NoEdgeSpace(fallback) && |fallback| >= min ==> |r| >= min
  {
    var trimmed := Trim(value);
    if trimmed != [] && |trimmed| >= min then trimmed
    else Lengthen(trimmed, min, fallback)
  }

  /** The short branch of `ensureLength`, from an already trimmed value: the
      fallback when the value is blank and the fallback is long enough, and
      otherwise the padded join, cut to the larger of the two lengths. */
  function Lengthen(trimmed: string, min: nat, fallback: string): (r: string)
    requires NoEdgeSpace(trimmed) && (trimmed == [] || |trimmed| < min)
    ensures trimmed != [] ==> |r| <= Max(min, |fallback|)
    ensures NoEdgeSpace(fallback) && |fallback| >= min ==> |r| >= min
  {
    var bound := Max(min, |fallback|);
    if trimmed == [] then
      (if |fallback| >= min then fallback else Pad(fallback, fallback, bound))
    else Pad(trimmed, fallback, bound)
  }

  /** `` `${base} ${fallback}`.trim().slice(0, bound) ``. With trimmed non-empty
      parts nothing is trimmed away, so the result reaches the fallback's length
      when the bound allows it. */
  function Pad(base: string, fallback: string, bound: nat): (r: string)
    ensures |r| <= bound
    ensures base != [] && NoEdgeSpace(base) && fallback != [] && NoEdgeSpace(fallback) && |fallback| <= bound ==>
              |r| >= |fallback|
  {
    var joined := base + " " + fallback;
    if base != [] && NoEdgeSpace(base) && fallback != [] && NoEdgeSpace(fallback) then
      JoinedKeepsFallback(base, fallback);
      Take(Trim(joined), bound)
    else
      Take(Trim(joined), bound)
  }

  /** Joining trimmed text and a trimmed non-empty fallback with a space is left
      as it is by `trim`. */
  lemma JoinedKeepsFallback(base: string, fallback: string)
    requires base != [] && NoEdgeSpace(base) && fallback != [] && NoEdgeSpace(fallback)
    ensures Trim(base + " " + fallback) == base + " " + fallback
  {
    var joined := base + " " + fallback;
    assert joined[0] == base[0] && joined[|joined| - 1] == fallback[|fallback| - 1];
    TrimOfTrimmed(joined);
  }

  const SummaryMin: nat := 100
  const SummaryMax: nat := 2000
  const TldrMin: nat := 30
  const TldrMax: nat := 500
  // The longer texts are written in pieces; each is one line of text.
  const SummaryFallback := "This review is synthesized from " + "multiple public sources and "
                           + "highlights practical trade-offs " + "for buyers."
  const TldrFallback := "Solid option overall, but " + "compare pricing and your usage " + "before buying."
  const DefaultPro := "Balanced performance for typical users"
  const DefaultCon := "Some trade-offs depend on budget " + "and use-case"
  const DefaultBestFor := "General buyers"

  /** Both fallbacks are trimmed and long enough for their field, and short
      enough that a padded value stays within the field's maximum. */
  lemma FallbacksFit()
    ensures NoEdgeSpace(SummaryFallback) && SummaryMin <= |SummaryFallback| <= SummaryMax
    ensures NoEdgeSpace(TldrFallback) && TldrMin <= |TldrFallback| <= TldrMax
    ensures DefaultPro != [] && NoEdgeSpace(DefaultPro)
    ensures DefaultCon != [] && NoEdgeSpace(DefaultCon)
    ensures DefaultBestFor != []
  {
    assert |SummaryFallback| == 103 && SummaryFallback[0] == 'T' && SummaryFallback[102] == '.';
    assert |TldrFallback| == 71 && TldrFallback[0] == 'S' && TldrFallback[70] == '.';
    assert DefaultPro[0] == 'B' && DefaultPro[37] == 's';
    assert DefaultCon[0] == 'S' && DefaultCon[44] == 'e';
  }

  /** `normalizeUrlKey`: the address without its trailing slashes. */
  function UrlKey(s: string): (r: string)
    ensures StartsWith(s, r)
    ensures r == [] || r[|r| - 1] != '/'
    ensures forall k :: |r| <= k < |s| ==> s[k] == '/'
    decreases |s|
  {
    if |s| > 0 && s[|s| - 1] == '/' then UrlKey(s[..|s| - 1]) else s
  }

  /** Adding trailing slashes does not change the key. */
  lemma {:induction false} UrlKeySlashes(s: string, n: nat)
    ensures UrlKey(s + seq(n, _ => '/')) == UrlKey(s)
    decreases n
  {
    if n > 0 {
      var t := s + seq(n, _ => '/');
      assert t[..|t| - 1] == s + seq(n - 1, _ => '/');
      UrlKeySlashes(s, n - 1);
    } else {
      assert s + seq(n, _ => '/') == s;
    }
  }

  /** The keys of the input sources, in order. */
  function SourceKeys(fallbacks: seq<NormalizedSource>): (r: seq<string>)
    ensures |r| == |fallbacks| && forall k :: 0 <= k < |fallbacks| ==> r[k] == UrlKey(fallbacks[k].source.url)
  {
    seq(|fallbacks|, k requires 0 <= k < |fallbacks| => UrlKey(fallbacks[k].source.url))
  }

  /** The last position holding `x`. */
  function LastIndex(xs: seq<string>, x: string): (r: Option<nat>)
    ensures r.None? <==> x !in xs
    ensures r.Some? ==> r.value < |xs| && xs[r.value] == x && x !in xs[r.value + 1..]
    decreases |xs|
  {
    if xs == [] then None
    else if xs[|xs| - 1] == x then
      assert xs[|xs|..] == [];
      Some(|xs| - 1)
    else
      var init := xs[..|xs| - 1];
      assert xs == init + [xs[|xs| - 1]];
      var r := LastIndex(init, x);
      if r.Some? then
        assert xs[r.value + 1..] == init[r.value + 1..] + [xs[|xs| - 1]];
        r
      else r
  }

  /** The position of the input source with this key in `fallbackByUrl`: a `Map`
      built from entries keeps the last entry of a repeated key. */
  function FallbackIndex(fallbacks: seq<NormalizedSource>, key: string): (r: Option<nat>)
    ensures r.None? <==> key !in SourceKeys(fallbacks)
    ensures r.Some? ==> r.value < |fallbacks| && UrlKey(fallbacks[r.value].source.url) == key
    ensures r.Some? ==> key !in SourceKeys(fallbacks)[r.value + 1..]
  {
    LastIndex(SourceKeys(fallbacks), key)
  }

  /** The type of the input source with this key, if any. */
  function FallbackKind(fallbacks: seq<NormalizedSource>, key: string): (r: Option<SourceType>)
    ensures r.None? <==> FallbackIndex(fallbacks, key).None?
    ensures r.Some? ==> r.value == fallbacks[FallbackIndex(fallbacks, key).value].source.kind
  {
    match FallbackIndex(fallbacks, key)
    case None => None
    case Some(i) => Some(fallbacks[i].source.kind)
  }

  /** The type named by the model, when it is one of the three. */
  function DeclaredKind(item: Json): (r: Option<SourceType>)
    ensures r.Some? <==> AsString(Get(item, "type")).Some? && AsString(Get(item, "type")).value in {"blog", "ecommerce", "youtube"}
    ensures r.Some? ==> Get(item, "type") == Some(JString(TypeName(r.value)))
  {
    match AsString(Get(item, "type"))
    case None => None
    case Some(s) => TypeOfName(s)
  }

  /** One cited source from the model: it needs a title and an address that
      parses; its address is the parsed form; its type is the input source's when
      the address matches one, else the declared type, else "blog". */
  function CoerceSourceItem(item: Json, fallbacks: seq<NormalizedSource>, url: Urls.UrlParser): (r: Option<Cited>)
    ensures r.Some? <==> CoerceString(Get(item, "title")).Some? && CoerceString(Get(item, "url")).Some?
                         && url(CoerceString(Get(item, "url")).value).Some?
    ensures r.Some? ==> r.value.title == CoerceString(Get(item, "title")).value
                        && r.value.url == url(CoerceString(Get(item, "url")).value).value.href
    ensures r.Some? && FallbackKind(fallbacks, UrlKey(r.value.url)).Some? ==>
              r.value.kind == FallbackKind(fallbacks, UrlKey(r.value.url)).value
    ensures r.Some? && FallbackKind(fallbacks, UrlKey(r.value.url)).None? ==>
              r.value.kind == DeclaredKind(item).GetOr(Blog)
  {
    var title := CoerceString(Get(item, "title"));
    var raw := CoerceString(Get(item, "url"));
    if title.None? || raw.None? then None
    else match url(raw.value)
      case None => None
      case Some(parsed) =>
        var kind := match FallbackKind(fallbacks, UrlKey(parsed.href))
          case Some(k) => k
          case None => DeclaredKind(item).GetOr(Blog);
        Some(Cited(title.value, parsed.href, kind))
  }

  /** The present values, in order (`filter(Boolean)` after a `map` to `null`). */
  function Somes<T(!new)>(xs: seq<Option<T>>): (r: seq<T>)
    ensures |r| <= |xs|
    ensures forall x :: x in r <==> Some(x) in xs
    decreases |xs|
  {
    if xs == [] then []
    else
      var rest := Somes(xs[1..]);
      assert forall o :: o in xs <==> o == xs[0] || o in xs[1..];
      if xs[0].Some? then [xs[0].value] + rest else rest
  }

  /** `Somes` keeps order: the present values of a concatenation are those of
      each part, one after the other. */
  lemma {:induction false} SomesAppend<T(!new)>(a: seq<Option<T>>, b: seq<Option<T>>)
    ensures Somes(a + b) == Somes(a) + Somes(b)
    decreases |a|
  {
    if a == [] {
      assert a + b == b;
    } else {
      assert (a + b)[0] == a[0];
      assert (a + b)[1..] == a[1..] + b;
      SomesAppend(a[1..], b);
    }
  }

  /** `CoerceSourceItem` over the items of the model's array. */
  function CoercedItems(items: seq<Json>, fallbacks: seq<NormalizedSource>, url: Urls.UrlParser): (r: seq<Option<Cited>>)
    ensures |r| == |items| && forall j :: 0 <= j < |items| ==> r[j] == CoerceSourceItem(items[j], fallbacks, url)
  {
    seq(|items|, j requires 0 <= j < |items| => CoerceSourceItem(items[j], fallbacks, url))
  }

  /** The citations the model's `sources` array yields: exactly the usable items. */
  function ModelCitations(v: Option<Json>, fallbacks: seq<NormalizedSource>, url: Urls.UrlParser): (r: seq<Cited>)
    ensures v.None? || !v.value.JArray? ==> r == []
    ensures v.Some? && v.value.JArray? ==>
              forall c :: c in r <==> Some(c) in CoercedItems(v.value.items, fallbacks, url)
  {
    if v.Some? && v.value.JArray? then Somes(CoercedItems(v.value.items, fallbacks, url)) else []
  }

  /** An input source as a citation. */
  function AsCited(s: NormalizedSource): Cited {
    Cited(s.source.title, s.source.url, s.source.kind)
  }

  /** `coerceSources`: the model's usable citations, or, when it gave none, the
      first five input sources. */
  function CoerceSources(v: Option<Json>, fallbacks: seq<NormalizedSource>, url: Urls.UrlParser): (r: seq<Cited>)
    ensures ModelCitations(v, fallbacks, url) != [] ==> r == ModelCitations(v, fallbacks, url)
    ensures ModelCitations(v, fallbacks, url) == [] ==>
              |r| == Min(MaxListItems, |fallbacks|) && forall k :: 0 <= k < |r| ==> r[k] == AsCited(fallbacks[k])
    ensures r == [] <==> ModelCitations(v, fallbacks, url) == [] && fallbacks == []
  {
    var fromValue := ModelCitations(v, fallbacks, url);
    if fromValue != [] then fromValue
    else
      var firsts := Take(fallbacks, MaxListItems);
      seq(|firsts|, k requires 0 <= k < |firsts| => AsCited(firsts[k]))
  }

  /** Every usable citation of the model is kept, whether or not its address
      matches an input source. */
  lemma ModelCitationKept(items: seq<Json>, j: nat, fallbacks: seq<NormalizedSource>, url: Urls.UrlParser)
    requires j < |items| && CoerceSourceItem(items[j], fallbacks, url).Some?
    ensures CoerceSourceItem(items[j], fallbacks, url).value in CoerceSources(Some(JArray(items)), fallbacks, url)
  {
    var c := CoerceSourceItem(items[j], fallbacks, url).value;
    var ms := ModelCitationsOf(items, fallbacks, url, j);
    assert c in ms;
  }

  /** The model's citations are the usable items, and include item `j`'s. */
  lemma ModelCitationsOf(items: seq<Json>, fallbacks: seq<NormalizedSource>, url: Urls.UrlParser, j: nat)
    returns (ms: seq<Cited>)
    requires j < |items| && CoerceSourceItem(items[j], fallbacks, url).Some?
    ensures ms == CoerceSources(Some(JArray(items)), fallbacks, url)
    ensures CoerceSourceItem(items[j], fallbacks, url).value in ms
  {
    var coerced := CoercedItems(items, fallbacks, url);
    SomeKept(coerced, j);
    ms := Somes(coerced);
  }

  lemma SomeKept<T(!new)>(xs: seq<Option<T>>, j: nat)
    requires j < |xs| && xs[j].Some?
    ensures xs[j].value in Somes(xs) && Somes(xs) != []
  {
    assert xs[j] in xs;
  }

  /** A citation whose address matches an input source carries that source's
      type, whatever type the model declared. */
  lemma MatchedCitationTakesInputType(item: Json, fallbacks: seq<NormalizedSource>, url: Urls.UrlParser, k: nat)
    requires k < |fallbacks| && CoerceSourceItem(item, fallbacks, url).Some?
    requires UrlKey(CoerceSourceItem(item, fallbacks, url).value.url) == UrlKey(fallbacks[k].source.url)
    requires forall j :: k < j < |fallbacks| ==> UrlKey(fallbacks[j].source.url) != UrlKey(fallbacks[k].source.url)
    ensures CoerceSourceItem(item, fallbacks, url).value.kind == fallbacks[k].source.kind
  {
    LastMatchFound(fallbacks, k);

  }

  lemma LastMatchFound(fallbacks: seq<NormalizedSource>, k: nat)
    requires k < |fallbacks|
    requires forall j :: k < j < |fallbacks| ==> UrlKey(fallbacks[j].source.url) != UrlKey(fallbacks[k].source.url)
    ensures FallbackIndex(fallbacks, UrlKey(fallbacks[k].source.url)) == Some(k)
  {
    var key := UrlKey(fallbacks[k].source.url);
    var keys := SourceKeys(fallbacks);
    LastIndexAt(keys, key, k);
  }

  lemma LastIndexAt(xs: seq<string>, x: string, k: nat)
    requires k < |xs| && xs[k] == x
    requires forall j :: k < j < |xs| ==> xs[j] != x
    ensures LastIndex(xs, x) == Some(k)
  {
    var r := LastIndex(xs, x).value;
    assert forall j :: r < j < |xs| ==> xs[j] == xs[r + 1..][j - r - 1];
  }

  /** The review schema, stated field by field: one to five non-empty pros and
      cons, a non-empty best-for line, a summary of 100 to 2000 characters, a
      TL;DR of 30 to 500, a confidence in [0, 1], and at least one citation, each
      with a non-empty title and an address that parses. */
  predicate Valid(rv: Review, url: Urls.UrlParser) {
    && 1 <= |rv.pros| <= MaxListItems && (forall k :: 0 <= k < |rv.pros| ==> rv.pros[k] != [])
    && 1 <= |rv.cons| <= MaxListItems && (forall k :: 0 <= k < |rv.cons| ==> rv.cons[k] != [])
    && rv.bestFor != []
    && SummaryMin <= |rv.summary| <= SummaryMax
    && TldrMin <= |rv.tldr| <= TldrMax
    && 0.0 <= rv.confidence <= 1.0
    && |rv.sources| >= 1
    && CitationsValid(rv.sources, url)
  }

  predicate CitationsValid(cs: seq<Cited>, url: Urls.UrlParser) {
    forall k :: 0 <= k < |cs| ==> cs[k].title != [] && url(cs[k].url).Some?
  }

  /** Issue paths `field.k` of the empty items, numbered from `from`. */
  function ItemIssues(name: string, xs: seq<string>, from: nat): (r: seq<string>)
    ensures r == [] <==> forall k :: 0 <= k < |xs| ==> xs[k] != []
    decreases |xs|
  {
    if xs == [] then []
    else
      var rest := ItemIssues(name, xs[1..], from + 1);
      assert (forall k :: 0 <= k < |xs| ==> xs[k] != []) <==> xs[0] != [] && forall k :: 0 <= k < |xs[1..]| ==> xs[1..][k] != [] by {
        if xs[0] != [] && forall k :: 0 <= k < |xs[1..]| ==> xs[1..][k] != [] {
          forall k | 0 <= k < |xs| ensures xs[k] != [] {
            if k > 0 { assert xs[k] == xs[1..][k - 1]; }
          }
        }
      }
      (if xs[0] == [] then [name + "." + NatToString(from)] else []) + rest
  }

  /** Issue paths of a list field: the field itself when its length is out of
      range, then one per empty item. */
  function ListIssues(name: string, xs: seq<string>): (r: seq<string>)
    ensures r == [] <==> 1 <= |xs| <= MaxListItems && forall k :: 0 <= k < |xs| ==> xs[k] != []
  {
    (if 1 <= |xs| <= MaxListItems then [] else [name]) + ItemIssues(name, xs, 0)
  }

  /** Issue paths of citations numbered from `from`: `sources.k.title` and
      `sources.k.url`. */
  function CitationIssues(cs: seq<Cited>, from: nat, url: Urls.UrlParser): (r: seq<string>)
    ensures r == [] <==> CitationsValid(cs, url)
    decreases |cs|
  {
    if cs == [] then []
    else
      var prefix := "sources." + NatToString(from) + ".";
      var own := (if cs[0].title == [] then [prefix + "title"] else [])
                 + (if url(cs[0].url).None? then [prefix + "url"] else []);
      var rest := CitationIssues(cs[1..], from + 1, url);
      assert CitationsValid(cs, url) <==> own == [] && CitationsValid(cs[1..], url) by {
        if own == [] && CitationsValid(cs[1..], url) {
          forall k | 0 <= k < |cs| ensures cs[k].title != [] && url(cs[k].url).Some? {
            if k > 0 { assert cs[k] == cs[1..][k - 1]; }
          }
        }
        if CitationsValid(cs, url) {
          forall k | 0 <= k < |cs[1..]| ensures cs[1..][k].title != [] && url(cs[1..][k].url).Some? {
            assert cs[1..][k] == cs[k + 1];
          }
        }
      }
      own + rest
  }

  /** The paths `safeParse` reports, in the schema's field order. */
  function Issues(rv: Review, url: Urls.UrlParser): seq<string> {
    ListIssues("pros", rv.pros)
    + ListIssues("cons", rv.cons)
    + (if rv.bestFor != [] then [] else ["bestFor"])
    + (if SummaryMin <= |rv.summary| <= SummaryMax then [] else ["summary"])
    + (if TldrMin <= |rv.tldr| <= TldrMax then [] else ["tldr"])
    + (if 0.0 <= rv.confidence <= 1.0 then [] else ["confidenceScore"])
    + (if |rv.sources| >= 1 then [] else ["sources"])
    + CitationIssues(rv.sources, 0, url)
  }

  /** The schema reports no issue exactly when the review is valid. */
  lemma IssuesEmptyIffValid(rv: Review, url: Urls.UrlParser)
    ensures Issues(rv, url) == [] <==> Valid(rv, url)
  {
    assert Issues(rv, url) == [] <==>
      && ListIssues("pros", rv.pros) == []
      && ListIssues("cons", rv.cons) == []
      && rv.bestFor != []
      && SummaryMin <= |rv.summary| <= SummaryMax
      && TldrMin <= |rv.tldr| <= TldrMax
      && 0.0 <= rv.confidence <= 1.0
      && |rv.sources| >= 1
      && CitationIssues(rv.sources, 0, url) == [];
  }

  /** The summary field: the model's trimmed summary, padded from the fallback
      when shorter than 100 characters. It is never too short, and it is too long
      exactly when the model's own summary is. */
  function SummaryOf(value: Json): (r: string)
    ensures |r| >= SummaryMin
    ensures |r| > SummaryMax <==> |CoerceString(Get(value, "summary")).GetOr([])| > SummaryMax
  {
    var raw := CoerceString(Get(value, "summary")).GetOr([]);
    FallbacksFit();
    EnsureLengthBounds(raw, SummaryMin, SummaryMax, SummaryFallback);
    EnsureLength(raw, SummaryMin, SummaryFallback)
  }

  /** The TL;DR field, read from `tldr` or else `tl_dr`: never too short, and too
      long exactly when the model's own text is. */
  function TldrOf(value: Json): (r: string)
    ensures |r| >= TldrMin
    ensures |r| > TldrMax <==> |CoerceString(Coalesce(Get(value, "tldr"), Get(value, "tl_dr"))).GetOr([])| > TldrMax
  {
    var raw := CoerceString(Coalesce(Get(value, "tldr"), Get(value, "tl_dr"))).GetOr([]);
    FallbacksFit();
    EnsureLengthBounds(raw, TldrMin, TldrMax, TldrFallback);
    EnsureLength(raw, TldrMin, TldrFallback)
  }

  /** With trimmed text and a trimmed fallback inside the bounds, the result meets
      the minimum and exceeds the maximum exactly when the text does. */
  lemma EnsureLengthBounds(raw: string, min: nat, max: nat, fallback: string)
    requires NoEdgeSpace(raw) && NoEdgeSpace(fallback) && min <= |fallback| <= max
    ensures |EnsureLength(raw, min, fallback)| >= min
    ensures |EnsureLength(raw, min, fallback)| > max <==> |raw| > max
  {
    if |raw| >= min && raw != [] {
      LongEnoughKept(raw, min, fallback);
    } else if raw == [] {
      assert EnsureLength(raw, min, fallback) == fallback;
    } else {
      PaddedToFallback(raw, min, fallback);
    }
  }

  lemma LongEnoughKept(raw: string, min: nat, fallback: string)
    requires raw != [] && NoEdgeSpace(raw) && |raw| >= min
    ensures EnsureLength(raw, min, fallback) == raw
  {
    TrimOfTrimmed(raw);
  }

  lemma PaddedToFallback(raw: string, min: nat, fallback: string)
    requires raw != [] && NoEdgeSpace(raw) && NoEdgeSpace(fallback) && |raw| < min <= |fallback|
    ensures |EnsureLength(raw, min, fallback)| == |fallback|
  {
    TrimOfTrimmed(raw);
    var r := Pad(raw, fallback, |fallback|);
    assert |r| == |fallback|;
    assert EnsureLength(raw, min, fallback) == r;
  }

  /** A coerced list, or the one-item default when nothing usable was given. */
  function ListOr(v: Option<Json>, default: string): (r: seq<string>)
    requires default != [] && NoEdgeSpace(default)
    ensures 1 <= |r| <= MaxListItems && ListItems(r)
    ensures CoerceStringArray(v) != [] ==> r == CoerceStringArray(v)
  {
    var xs := CoerceStringArray(v);
    if xs != [] then xs else [default]
  }

  /** The object `coerceReviewShape` builds before validating it. A candidate
      that is not an object reads as `{}`; `tldr`, `bestFor` and the confidence
      fall back to their snake-case keys when the camel-case one is `null` or
      missing. */
  function Shape(value: Json, fallbacks: seq<NormalizedSource>, parse: string -> Num, url: Urls.UrlParser): (r: Review)
    ensures 1 <= |r.pros| <= MaxListItems && ListItems(r.pros)
    ensures 1 <= |r.cons| <= MaxListItems && ListItems(r.cons)
    ensures r.bestFor != []
    ensures |r.summary| >= SummaryMin && |r.tldr| >= TldrMin
    ensures 0.0 <= r.confidence <= 1.0
    ensures |r.summary| > SummaryMax <==> |CoerceString(Get(value, "summary")).GetOr([])| > SummaryMax
    ensures |r.tldr| > TldrMax <==> |CoerceString(Coalesce(Get(value, "tldr"), Get(value, "tl_dr"))).GetOr([])| > TldrMax
    ensures r.sources == CoerceSources(Get(value, "sources"), fallbacks, url)
  {
    FallbacksFit();
    Review(
      CoerceVerdict(Get(value, "verdict")),
      ListOr(Get(value, "pros"), DefaultPro),
      ListOr(Get(value, "cons"), DefaultCon),
      CoerceString(Coalesce(Get(value, "bestFor"), Get(value, "best_for"))).GetOr(DefaultBestFor),
      SummaryOf(value),
      TldrOf(value),
      CoerceConfidence(Coalesce(Get(value, "confidenceScore"), Get(value, "confidence_score")), parse),
      CoerceSources(Get(value, "sources"), fallbacks, url))
  }

  /** Coercion always satisfies the list, best-for, lower-bound and confidence
      rules, so a shaped review is valid exactly when its summary and TL;DR are
      not too long and its citations are usable. */
  lemma ShapeValidIff(value: Json, fallbacks: seq<NormalizedSource>, parse: string -> Num, url: Urls.UrlParser)
    ensures var r := Shape(value, fallbacks, parse, url);
            Valid(r, url) <==> |r.summary| <= SummaryMax && |r.tldr| <= TldrMax && r.sources != [] && CitationsValid(r.sources, url)
  {
    ValidIffBounds(Shape(value, fallbacks, parse, url), url);
  }

  /** For a review meeting the rules coercion always meets, validity is down to
      the upper bounds and the citations. */
  lemma ValidIffBounds(r: Review, url: Urls.UrlParser)
    requires 1 <= |r.pros| <= MaxListItems && ListItems(r.pros)
    requires 1 <= |r.cons| <= MaxListItems && ListItems(r.cons)
    requires r.bestFor != [] && |r.summary| >= SummaryMin && |r.tldr| >= TldrMin
    requires 0.0 <= r.confidence <= 1.0
    ensures Valid(r, url) <==> |r.summary| <= SummaryMax && |r.tldr| <= TldrMax && r.sources != [] && CitationsValid(r.sources, url)
  {
  }

  /** `safeParse` against the schema: the review itself when it is valid, else
      the issue paths, of which there is at least one. */
  function Validate(rv: Review, url: Urls.UrlParser): (r: Result<Review, seq<string>>)
    ensures r.Success? <==> Valid(rv, url)
    ensures r.Success? ==> r.value == rv
    ensures r.Failure? ==> r.error != [] && r.error == Issues(rv, url)
  {
    IssuesEmptyIffValid(rv, url);
    var issues := Issues(rv, url);
    if issues == [] then Success(rv) else Failure(issues)
  }

  /** `coerceReviewShape`: the shaped review when it passes the schema, else the
      issue paths. A returned review is always valid. */
  function CoerceReviewShape(value: Json, fallbacks: seq<NormalizedSource>, parse: string -> Num, url: Urls.UrlParser): (r: Result<Review, seq<string>>)
    ensures r.Success? <==> Valid(Shape(value, fallbacks, parse, url), url)
    ensures r.Success? ==> r.value == Shape(value, fallbacks, parse, url) && Valid(r.value, url)
    ensures r.Failure? ==> r.error != [] && r.error == Issues(Shape(value, fallbacks, parse, url), url)
  {
    Validate(Shape(value, fallbacks, parse, url), url)
  }

  /** The parser accepts its own output: re-parsing a parsed address succeeds. */
  ghost predicate StableUrls(url: Urls.UrlParser) {
    forall s :: url(s).Some? ==> url(url(s).value.href).Some?
  }

  /** With such a parser, the citations the model supplies never fail the
      schema: each has a title and an address that parses. */
  lemma ModelCitationsValid(v: Option<Json>, fallbacks: seq<NormalizedSource>, url: Urls.UrlParser)
    requires StableUrls(url)
    ensures CitationsValid(ModelCitations(v, fallbacks, url), url)
  {
    var cs := ModelCitations(v, fallbacks, url);
    forall k | 0 <= k < |cs| ensures cs[k].title != [] && url(cs[k].url).Some? {
      assert cs[k] in cs;
      var j :| 0 <= j < |v.value.items| && CoerceSourceItem(v.value.items[j], fallbacks, url) == Some(cs[k]);
      var raw := CoerceString(Get(v.value.items[j], "url")).value;
      assert url(raw).Some?;
    }
  }
}
