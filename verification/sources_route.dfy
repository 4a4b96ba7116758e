/** The sources endpoint: a product given by name or by slug is searched for,
    its sources scraped and normalised to English, and the name, slug and sources
    are returned. */
module SourcesRoute {
  import opened Wrappers
  import opened Text
  import opened Json
  import Unicode
  import Sources
  import Scraper
  import NormalizeSources
  import Translate

  const MissingProduct := "productSlug or product is required"
  const TrimNotAFunction := "TypeError: trim is not a function"
  const NullBody := "TypeError: Cannot read properties of null"

  /** The words of a slug: its non-empty dash-separated pieces. */
  function Words(slug: string): (r: seq<string>)
    ensures forall k :: 0 <= k < |r| ==> r[k] != [] && '-' !in r[k]
  {
    var pieces := Split(slug, '-');
    var r := NonEmpty(pieces);
    forall k | 0 <= k < |r|
      ensures r[k] != [] && '-' !in r[k]
    {
      assert r[k] in pieces;
      var i :| 0 <= i < |pieces| && pieces[i] == r[k];
    }
    r
  }

  /** `part.charAt(0).toUpperCase() + part.slice(1)`. */
  function Capitalize(env: Unicode.Env, part: string): (r: string)
    ensures part == [] ==> r == []
    ensures Unicode.Lawful(env) && part != [] ==> |r| >= |part| && r[|r| - |part| + 1..] == part[1..]
    ensures Unicode.Lawful(env) && part != [] && part[0] <= '\U{7F}' ==> r == [UpperChar(part[0])] + part[1..]
  {
    if part == [] then [] else env.upper(part[0]) + part[1..]
  }

  function Capitalized(env: Unicode.Env, parts: seq<string>): (r: seq<string>)
    ensures |r| == |parts|
    ensures forall k :: 0 <= k < |parts| ==> r[k] == Capitalize(env, parts[k])
  {
    seq(|parts|, k requires 0 <= k < |parts| => Capitalize(env, parts[k]))
  }

  /** `slugToProductName`: the words of the slug, each with its first character
      upper-cased, separated by single spaces. */
  function SlugToProductName(env: Unicode.Env, slug: string): (r: string)
    ensures Words(slug) == [] ==> r == []
  {
    Join(Capitalized(env, Words(slug)), " ")
  }

  /** `replace(/\s+/g, "-")`: every run of white space becomes one dash. */
  function DashRuns(s: string): (r: string)
    ensures |r| <= |s|
    ensures forall k :: 0 <= k < |r| ==> !IsSpace(r[k])
    ensures r == [] <==> s == []
    decreases |s|
  {
    if s == [] then []
    else if IsSpace(s[0]) then "-" + DashRuns(TrimStart(s[1..]))
    else [s[0]] + DashRuns(s[1..])
  }

  /** `toLowerCase().replace(/\s+/g, "-")`: the slug derived from a product name. */
  function DerivedSlug(env: Unicode.Env, name: string): (r: string)
    ensures forall k :: 0 <= k < |r| ==> !IsSpace(r[k])
    ensures Unicode.Lawful(env) ==> (r == [] <==> name == [])
  {
    var lower := Unicode.ToLower(env, name);
    assert Unicode.Lawful(env) && name != [] ==> lower != [] by {
      if Unicode.Lawful(env) && name != [] {
        assert lower == env.lower(name[0]) + Unicode.ToLower(env, name[1..]);
      }
    }
    DashRuns(lower)
  }

  /** `value?.trim()` on a string field read before any check: absent and `null`
      give `undefined`, and any other non-string throws. */
  function TrimmedField(body: Json, key: string): (r: Result<Option<string>, string>)
    ensures r.Failure? <==> Get(body, key).Some? && Get(body, key).value != JNull && !Get(body, key).value.JString?
    ensures r == Success(None) <==> Get(body, key) == None || Get(body, key) == Some(JNull)
    ensures AsString(Get(body, key)).Some? ==> r == Success(Some(Trim(AsString(Get(body, key)).value)))
  {
    match Get(body, key)
    case None => Success(None)
    case Some(JNull) => Success(None)
    case Some(JString(s)) => Success(Some(Trim(s)))
    case Some(_) => Failure(TrimNotAFunction)
  }

  /** `!value` for an optional string. */
  predicate Blank(v: Option<string>) {
    v.None? || v.value == []
  }

  /** The request body's trimmed slug and product. A body that does not parse
      reads as `{}`; a `null` body throws at the first property read. */
  function ReadFields(body: Option<Json>): (r: Result<(Option<string>, Option<string>), string>)
    ensures body == Some(JNull) ==> r == Failure(NullBody)
    ensures body == None ==> r == Success((None, None))
    ensures body.Some? && body.value != JNull ==>
              (r.Success? <==> TrimmedField(body.value, "productSlug").Success? && TrimmedField(body.value, "product").Success?)
    ensures r.Success? ==> body.Some? ==> r.value == (TrimmedField(body.value, "productSlug").value, TrimmedField(body.value, "product").value)
  {
    match body
    case None => Success((None, None))
    case Some(JNull) => Failure(NullBody)
    case Some(b) =>
      match TrimmedField(b, "productSlug")
      case Failure(e) => Failure(e)
      case Success(slug) =>
        match TrimmedField(b, "product")
        case Failure(e) => Failure(e)
        case Success(product) => Success((slug, product))
  }

  /** The product name and slug the endpoint answers with. */
  datatype Resolved = Resolved(product: string, productSlug: string)

  /** The name and slug as the route computes them: `rawProduct ?? ...` and
      `rawSlug ?? ...` keep a present but blank value. */
  function ResolveAsWritten(env: Unicode.Env, rawSlug: Option<string>, rawProduct: Option<string>): (r: Resolved)
    ensures rawProduct.Some? ==> r.product == rawProduct.value
    ensures rawSlug.Some? ==> r.productSlug == rawSlug.value
  {
    var name := if rawProduct.Some? then rawProduct.value else SlugToProductName(env, rawSlug.GetOr([]));
    Resolved(name, if rawSlug.Some? then rawSlug.value else DerivedSlug(env, name))
  }

  /** The name and slug with a blank value treated as missing: a blank product is
      named from the slug and a blank slug derived from the name. */
  function Resolve(env: Unicode.Env, rawSlug: Option<string>, rawProduct: Option<string>): (r: Resolved)
    ensures !Blank(rawProduct) ==> r.product == rawProduct.value
    ensures Blank(rawProduct) ==> r.product == SlugToProductName(env, rawSlug.GetOr([]))
    ensures !Blank(rawSlug) ==> r.productSlug == rawSlug.value
    ensures Blank(rawSlug) ==> r.productSlug == DerivedSlug(env, r.product)
  {
    var name := if !Blank(rawProduct) then rawProduct.value else SlugToProductName(env, rawSlug.GetOr([]));
    Resolved(name, if !Blank(rawSlug) then rawSlug.value else DerivedSlug(env, name))
  }

  /** Where a request ends: a 400 with its error, a 200 with the product, its
      slug and its normalised sources, or an exception (a 500). */
  datatype Response =
    | BadRequest(error: string)
    | Found(product: string, productSlug: string, sources: seq<Sources.NormalizedSource>, sourceCount: nat)
    | Thrown(message: string)

  /** The handler around a name-and-slug rule: read, validate, scrape, normalise. */
  function Respond(body: Option<Json>, client: Scraper.Client, remote: Translate.Remote,
                   resolve: (Option<string>, Option<string>) -> Resolved): (r: Response)
    ensures r.Thrown? <==> ReadFields(body).Failure?
    ensures r.BadRequest? <==> ReadFields(body).Success? && Blank(ReadFields(body).value.0) && Blank(ReadFields(body).value.1)
    ensures r.BadRequest? ==> r.error == MissingProduct
    ensures r.Found? ==>
              var fields := ReadFields(body).value;
              r.product == resolve(fields.0, fields.1).product && r.productSlug == resolve(fields.0, fields.1).productSlug
    ensures r.Found? ==>
              r.sources == NormalizeSources.NormalizeAll(Scraper.ScrapeAllSources(r.product, client), remote)
              && r.sourceCount == |r.sources|
  {
    match ReadFields(body)
    case Failure(e) => Thrown(e)
    case Success((slug, product)) =>
      if Blank(slug) && Blank(product) then BadRequest(MissingProduct)
      else
        var resolved := resolve(slug, product);
        var normalized := NormalizeSources.NormalizeAll(Scraper.ScrapeAllSources(resolved.product, client), remote);
        Found(resolved.product, resolved.productSlug, normalized, |normalized|)
  }

  /** `POST` as written. */
  function PostAsWritten(env: Unicode.Env, body: Option<Json>, client: Scraper.Client, remote: Translate.Remote): (r: Response)
    ensures r.Thrown? <==> ReadFields(body).Failure?
    ensures r.BadRequest? <==> ReadFields(body).Success? && Blank(ReadFields(body).value.0) && Blank(ReadFields(body).value.1)
    ensures r.Found? ==>
              var fields := ReadFields(body).value;
              (fields.1.Some? ==> r.product == fields.1.value)
              && (fields.1.None? ==> r.product == SlugToProductName(env, fields.0.GetOr([])))
              && (fields.0.Some? ==> r.productSlug == fields.0.value)
    ensures r.Found? ==>
              r.sources == NormalizeSources.NormalizeAll(Scraper.ScrapeAllSources(r.product, client), remote)
              && r.sourceCount == |r.sources|
  {
    Respond(body, client, remote, (slug, product) => ResolveAsWritten(env, slug, product))
  }

  /** `POST` with blank fields treated as missing. */
  function Post(env: Unicode.Env, body: Option<Json>, client: Scraper.Client, remote: Translate.Remote): (r: Response)
    ensures r.Thrown? <==> ReadFields(body).Failure?
    ensures r.BadRequest? <==> ReadFields(body).Success? && Blank(ReadFields(body).value.0) && Blank(ReadFields(body).value.1)
    ensures r.Found? ==>
              r.sources == NormalizeSources.NormalizeAll(Scraper.ScrapeAllSources(r.product, client), remote)
              && r.sourceCount == |r.sources|
    ensures r.Found? ==>
              var fields := ReadFields(body).value;
              (!Blank(fields.1) ==> r.product == fields.1.value)
              && (Blank(fields.1) ==> r.product == SlugToProductName(env, fields.0.GetOr([])))
              && (!Blank(fields.0) ==> r.productSlug == fields.0.value)
    ensures Unicode.Lawful(env) && r.Found? ==>
              r.productSlug != [] && (r.product == [] ==> Words(ReadFields(body).value.0.GetOr([])) == [])
  {
    var r := Respond(body, client, remote, (slug, product) => Resolve(env, slug, product));
    if r.Found? && Unicode.Lawful(env) then
      NameBlankIffNoWords(env, ReadFields(body).value.0.GetOr([]));
      r
    else r
  }

  /** The name made from a slug is empty exactly when the slug has no words. */
  lemma NameBlankIffNoWords(env: Unicode.Env, slug: string)
    requires Unicode.Lawful(env)
    ensures SlugToProductName(env, slug) == [] <==> Words(slug) == []
  {
    var words := Words(slug);
    if words != [] {
      var caps := Capitalized(env, words);
      assert caps[0] == Capitalize(env, words[0]);
      assert |caps[0]| >= 1;
      JoinStartsWithFirst(caps, " ");
    }
  }

  lemma JoinStartsWithFirst(xs: seq<string>, sep: string)
    requires |xs| >= 1
    ensures |Join(xs, sep)| >= |xs[0]| && Join(xs, sep)[..|xs[0]|] == xs[0]
  {
    if |xs| > 1 {
      assert Join(xs, sep) == xs[0] + (sep + Join(xs[1..], sep));
    }
  }

  /** A slug word: lower-case ASCII letters and digits. */
  predicate Word(w: string) {
    w != [] && forall k :: 0 <= k < |w| ==> IsAsciiLower(w[k]) || IsDigit(w[k])
  }

  /** A canonical slug: words separated by single dashes, no dash at either end. */
  predicate CanonicalSlug(slug: string) {
    var pieces := Split(slug, '-');
    forall k :: 0 <= k < |pieces| ==> Word(pieces[k])
  }

  /** Naming a canonical slug and deriving the slug back from the name gives the
      slug again: "redmi-note-15" is named "Redmi Note 15", which is slugged
      "redmi-note-15". */
  lemma CanonicalSlugRoundTrip(env: Unicode.Env, slug: string)
    requires Unicode.Lawful(env) && CanonicalSlug(slug)
    ensures DerivedSlug(env, SlugToProductName(env, slug)) == slug
  {
    var pieces := Split(slug, '-');
    assert Words(slug) == pieces;
    LowerOfCapitalized(env, pieces);
    DashesForSpaces(pieces);
    SplitJoin(slug, '-');
  }

  lemma {:induction false} ToLowerAppend(env: Unicode.Env, a: string, b: string)
    ensures Unicode.ToLower(env, a + b) == Unicode.ToLower(env, a) + Unicode.ToLower(env, b)
    decreases |a|
  {
    if a == [] {
      assert a + b == b;
    } else {
      assert (a + b)[0] == a[0] && (a + b)[1..] == a[1..] + b;
      ToLowerAppend(env, a[1..], b);
    }
  }

  lemma LowerOfCapitalize(env: Unicode.Env, w: string)
    requires Unicode.Lawful(env) && Word(w)
    ensures Unicode.ToLower(env, Capitalize(env, w)) == w
  {
    var c := Capitalize(env, w);
    assert c == [UpperChar(w[0])] + w[1..];
    Unicode.ToLowerAscii(env, c);
    assert Lower(c) == w;
  }

  lemma {:induction false} LowerOfCapitalized(env: Unicode.Env, ws: seq<string>)
    requires Unicode.Lawful(env) && forall k :: 0 <= k < |ws| ==> Word(ws[k])
    ensures Unicode.ToLower(env, Join(Capitalized(env, ws), " ")) == Join(ws, " ")
    decreases |ws|
  {
    var caps := Capitalized(env, ws);
    if |ws| == 1 {
      LowerOfCapitalize(env, ws[0]);
    } else if |ws| > 1 {
      assert caps[1..] == Capitalized(env, ws[1..]);
      LowerOfCapitalize(env, ws[0]);
      LowerOfCapitalized(env, ws[1..]);
      assert Unicode.ToLower(env, " ") == " " by {
        assert Unicode.ToLower(env, " ") == env.lower(' ') + Unicode.ToLower(env, []);
      }
      ToLowerAppend(env, caps[0] + " ", Join(caps[1..], " "));
      ToLowerAppend(env, caps[0], " ");
    }
  }

  lemma {:induction false} DashRunsKeepsPrefix(p: string, s: string)
    requires forall k :: 0 <= k < |p| ==> !IsSpace(p[k])
    ensures DashRuns(p + s) == p + DashRuns(s)
    decreases |p|
  {
    if p == [] {
      assert p + s == s;
    } else {
      assert (p + s)[0] == p[0] && (p + s)[1..] == p[1..] + s;
      DashRunsKeepsPrefix(p[1..], s);
    }
  }

  lemma DashRunsAfterSpace(s: string)
    requires s == [] || !IsSpace(s[0])
    ensures DashRuns(" " + s) == "-" + DashRuns(s)
  {
    assert (" " + s)[1..] == s;
  }

  lemma WordHasNoSpace(w: string)
    requires Word(w)
    ensures forall k :: 0 <= k < |w| ==> !IsSpace(w[k])
  {
  }

  lemma {:induction false} DashesForSpaces(ws: seq<string>)
    requires forall k :: 0 <= k < |ws| ==> Word(ws[k])
    ensures DashRuns(Join(ws, " ")) == Join(ws, "-")
    decreases |ws|
  {
    if |ws| >= 1 {
      WordHasNoSpace(ws[0]);
    }
    if |ws| == 1 {
      DashRunsKeepsPrefix(ws[0], []);
      assert ws[0] + [] == ws[0];
    } else if |ws| > 1 {
      var rest := Join(ws[1..], " ");
      JoinStartsWithFirst(ws[1..], " ");
      WordHasNoSpace(ws[1]);
      assert rest[0] == ws[1][0];
      DashRunsAfterSpace(rest);
      DashesForSpaces(ws[1..]);
      JoinCons(ws, " ");
      DashRunsKeepsPrefix(ws[0], " " + rest);
      JoinCons(ws, "-");
    }
  }

  lemma JoinCons(xs: seq<string>, sep: string)
    requires |xs| > 1
    ensures Join(xs, sep) == xs[0] + (sep + Join(xs[1..], sep))
  {
  }

  /** A body with both fields given as strings. */
  function BothFields(slug: string, product: string): Json {
    JObject([("productSlug", JString(slug)), ("product", JString(product))])
  }

  lemma ReadBothFields(slug: string, product: string)
    ensures ReadFields(Some(BothFields(slug, product))) == Success((Some(Trim(slug)), Some(Trim(product))))
  {
    assert |"productSlug"| != |"product"|;
    LookupPair("productSlug", "product", JString(slug), JString(product));
  }

  /** Both keys of a two-field object are found, each with its own value. */
  lemma LookupPair(a: string, b: string, x: Json, y: Json)
    requires a != b
    ensures Lookup([(a, x), (b, y)], a) == Some(x) && Lookup([(a, x), (b, y)], b) == Some(y)
  {
    assert [(a, x), (b, y)][..1] == [(a, x)];
  }

  lemma BlankTrim(s: string)
    requires AllSpace(s)
    ensures Trim(s) == []
  {
    TrimEmptyIffAllSpace(s);
  }

  /** A slug whose first character is not a dash has a word. */
  lemma FirstWord(slug: string)
    requires slug != [] && slug[0] != '-'
    ensures Words(slug) != []
  {
    var rest := Split(slug[1..], '-');
    assert Split(slug, '-')[0] == [slug[0]] + rest[0];
  }

  /** A product given as white space is kept as written, so the route searches for
      an empty name although the slug (say "redmi-note-15") names the product;
      treating the blank product as missing names it from the slug. */
  lemma BlankProductKeptAsWritten(env: Unicode.Env, client: Scraper.Client, remote: Translate.Remote,
                                  slug: string, product: string)
    requires Unicode.Lawful(env)
    requires slug != [] && slug[0] != '-' && NoEdgeSpace(slug) && AllSpace(product)
    ensures PostAsWritten(env, Some(BothFields(slug, product)), client, remote).Found?
    ensures PostAsWritten(env, Some(BothFields(slug, product)), client, remote).product == []
    ensures Post(env, Some(BothFields(slug, product)), client, remote).Found?
    ensures Post(env, Some(BothFields(slug, product)), client, remote).product != []
  {
    var body := Some(BothFields(slug, product));
    ReadBothFields(slug, product);
    BlankTrim(product);
    TrimOfTrimmed(slug);
    assert ReadFields(body) == Success((Some(slug), Some([])));
    FirstWord(slug);
    NameBlankIffNoWords(env, slug);
  }

  /** Likewise a slug given as white space is echoed as an empty slug; treating it
      as missing derives the slug from the product name. */
  lemma BlankSlugKeptAsWritten(env: Unicode.Env, client: Scraper.Client, remote: Translate.Remote,
                               slug: string, product: string)
    requires Unicode.Lawful(env)
    requires AllSpace(slug) && product != [] && NoEdgeSpace(product)
    ensures PostAsWritten(env, Some(BothFields(slug, product)), client, remote).Found?
    ensures PostAsWritten(env, Some(BothFields(slug, product)), client, remote).productSlug == []
    ensures Post(env, Some(BothFields(slug, product)), client, remote).Found?
    ensures Post(env, Some(BothFields(slug, product)), client, remote).productSlug != []
  {
    var body := Some(BothFields(slug, product));
    ReadBothFields(slug, product);
    BlankTrim(slug);
    TrimOfTrimmed(product);
    assert ReadFields(body) == Success((Some([]), Some(product)));
  }
}
