/** Intent and product extraction from a query, and canonical-slug resolution. The
    chat reply, `JSON.parse` and the two lookups are parameters. */
module Entity {
  import opened Wrappers
  import opened Text
  import Json
  import Unicode
  import Slug

  datatype Intent = ProductReview | Unsupported

  /** `ExtractedEntity`. */
  datatype Extracted = Extracted(
    intent: Intent,
    brand: Option<string>,
    model: Option<string>,
    variant: Option<string>,
    slug: Option<string>,
    productName: Option<string>)

  /** The extractor's reply after schema validation; an absent field and `null`
      are both `None`. */
  datatype Raw = Raw(intent: Intent, brand: Option<string>, model: Option<string>, variant: Option<string>)

  /** `extractJson`: the text from the first '{' to the last '}', both included. */
  function ExtractJson(value: string): (r: Result<string, string>)
    ensures r.Success? <==> '{' in value && '}' in value
                            && LastIndexOf(value, '}').value > IndexOf(value, '{').value
    ensures r.Success? ==> var start := IndexOf(value, '{').value;
                          r.value == value[start..LastIndexOf(value, '}').value + 1]
                          && r.value[0] == '{' && r.value[|r.value| - 1] == '}'
                          && '{' !in value[..start]
  {
    match (IndexOf(value, '{'), LastIndexOf(value, '}'))
    case (Some(start), Some(end)) =>
      if end <= start then Failure("Entity extractor did not return JSON")
      else Success(value[start..end + 1])
    case _ => Failure("Entity extractor did not return JSON")
  }

  /** An object wrapped in text without braces is recovered exactly. */
  lemma ExtractJsonWrapped(before: string, body: string, after: string)
    requires '{' !in before && '}' !in after
    requires |body| >= 2 && body[0] == '{' && body[|body| - 1] == '}'
    ensures ExtractJson(before + body + after) == Success(body)
  {
    var v := before + body + after;
    var start := IndexOf(v, '{');
    var end := LastIndexOf(v, '}');
    assert v[|before|] == '{';
    assert '{' !in v[..|before|] by { assert v[..|before|] == before; }
    assert start == Some(|before|);
    assert v[|before| + |body| - 1] == '}';
    assert v[|before| + |body|..] == after;
    assert end == Some(|before| + |body| - 1) by {
      LastIndexAfter(v, '}', |before| + |body| - 1);
    }
    assert v[|before|..|before| + |body|] == body;
  }

  lemma LastIndexAfter(s: string, c: char, i: nat)
    requires i < |s| && s[i] == c && c !in s[i + 1..]
    ensures LastIndexOf(s, c) == Some(i)
  {
  }

  /** `value?.trim() || null`. */
  function TrimOrNull(value: Option<string>): (r: Option<string>)
    ensures r.Some? <==> value.Some? && Trim(value.value) != []
    ensures r.Some? ==> r.value == Trim(value.value) && NoEdgeSpace(r.value)
  {
    match value
    case None => None
    case Some(v) => if Trim(v) == [] then None else Some(Trim(v))
  }

  /** The present parts, in order (see also `PresentAppend`). */
  function Present(parts: seq<Option<string>>): (r: seq<string>)
    ensures |r| <= |parts|
    ensures r == [] <==> forall k :: 0 <= k < |parts| ==> parts[k].None?
    ensures forall k :: 0 <= k < |r| ==> exists j :: 0 <= j < |parts| && parts[j] == Some(r[k])
    decreases |parts|
  {
    if parts == [] then []
    else
      var rest := Present(parts[1..]);
      assert forall k :: 1 <= k < |parts| ==> parts[k] == parts[1..][k - 1];
      assert forall j :: 0 <= j < |parts| - 1 ==> parts[1..][j] == parts[j + 1];
      match parts[0]
      case None => rest
      case Some(p) => [p] + rest
  }

  /** Filtering distributes over concatenation, so the kept parts stay in order. */
  lemma {:induction false} PresentAppend(a: seq<Option<string>>, b: seq<Option<string>>)
    ensures Present(a + b) == Present(a) + Present(b)
    decreases |a|
  {
    if a == [] {
      assert a + b == b;
    } else {
      assert (a + b)[0] == a[0];
      assert (a + b)[1..] == a[1..] + b;
      PresentAppend(a[1..], b);
    }
  }

  /** When every part is present, all their values are kept, in order. */
  lemma {:induction false} PresentAll(parts: seq<Option<string>>)
    requires forall k :: 0 <= k < |parts| ==> parts[k].Some?
    ensures |Present(parts)| == |parts|
    ensures forall k :: 0 <= k < |parts| ==> Present(parts)[k] == parts[k].value
    decreases |parts|
  {
    if parts != [] {
      PresentAll(parts[1..]);
    }
  }

  /** `[brand, model, variant].filter(Boolean).join(" ").trim()`. */
  function ProductName(brand: Option<string>, model: Option<string>, variant: Option<string>): (r: string)
    ensures r == [] || (!IsSpace(r[0]) && !IsSpace(r[|r| - 1]))
    ensures brand.None? && model.None? && variant.None? ==> r == []
  {
    Trim(Join(Present([brand, model, variant]), " "))
  }

  /** `extractIntentAndEntity` after the reply has been validated. */
  function Postprocess(env: Unicode.Env, query: string, raw: Raw): (r: Extracted)
    requires Unicode.Lawful(env)
    ensures raw.intent == Unsupported ==> r == Extracted(Unsupported, None, None, None, None, None)
    ensures raw.intent == ProductReview ==>
              r.intent == ProductReview && r.brand == TrimOrNull(raw.brand) && r.model == TrimOrNull(raw.model)
              && r.variant == TrimOrNull(raw.variant)
    ensures raw.intent == ProductReview ==>
              (r.productName.None? <==> r.brand.None? && r.model.None? && r.variant.None?)
    ensures r.productName.Some? ==> r.productName.value != [] && r.slug == NonEmpty(Slug.ToSlug(env, r.productName.value))
    ensures raw.intent == ProductReview && r.productName.None? ==> r.slug == NonEmpty(Slug.ToSlug(env, query))
    ensures r.slug != Some([])
  {
    if raw.intent == Unsupported then Extracted(Unsupported, None, None, None, None, None)
    else
      TrimOrNullPart(raw.brand);
      TrimOrNullPart(raw.model);
      TrimOrNullPart(raw.variant);
      ProductEntity(env, query, TrimOrNull(raw.brand), TrimOrNull(raw.model), TrimOrNull(raw.variant))
  }

  /** The product-review case, from the trimmed parts. */
  function ProductEntity(env: Unicode.Env, query: string, brand: Option<string>, model: Option<string>,
                         variant: Option<string>): (r: Extracted)
    requires Unicode.Lawful(env)
    requires Part(brand) && Part(model) && Part(variant)
    ensures r.intent == ProductReview && r.brand == brand && r.model == model && r.variant == variant
    ensures r.productName.None? <==> brand.None? && model.None? && variant.None?
    ensures r.productName.Some? ==> r.productName.value != [] && r.slug == NonEmpty(Slug.ToSlug(env, r.productName.value))
    ensures r.productName.None? ==> r.slug == NonEmpty(Slug.ToSlug(env, query))
    ensures r.slug != Some([])
  {
    var name := ProductName(brand, model, variant);
    NameNonEmpty(brand, model, variant);
    var slug := if name != [] then Slug.ToSlug(env, name) else Slug.ToSlug(env, query);
    Extracted(ProductReview, brand, model, variant, NonEmpty(slug), NonEmpty(name))
  }

  /** The product name of the result is the present parts joined with single
      spaces, or null when no part is present. */
  lemma ProductEntityName(env: Unicode.Env, query: string, brand: Option<string>, model: Option<string>,
                          variant: Option<string>)
    requires Unicode.Lawful(env)
    requires Part(brand) && Part(model) && Part(variant)
    ensures ProductEntity(env, query, brand, model, variant).productName == NonEmpty(Join(Present([brand, model, variant]), " "))
  {
    NameIsJoin(brand, model, variant);
  }

  /** Postprocessing a product review names the product by its trimmed parts
      joined with single spaces, or not at all when every part is blank. */
  lemma PostprocessName(env: Unicode.Env, query: string, raw: Raw)
    requires Unicode.Lawful(env) && raw.intent == ProductReview
    ensures var r := Postprocess(env, query, raw);
            r.productName == NonEmpty(Join(Present([TrimOrNull(raw.brand), TrimOrNull(raw.model), TrimOrNull(raw.variant)]), " "))
  {
    TrimOrNullPart(raw.brand);
    TrimOrNullPart(raw.model);
    TrimOrNullPart(raw.variant);
    ProductEntityName(env, query, TrimOrNull(raw.brand), TrimOrNull(raw.model), TrimOrNull(raw.variant));
  }

  /** What `TrimOrNull` produces: absent, or trimmed and non-empty. */
  predicate Part(p: Option<string>) {
    p.Some? ==> p.value != [] && NoEdgeSpace(p.value)
  }

  lemma TrimOrNullPart(value: Option<string>)
    ensures Part(TrimOrNull(value))
  {
  }

  /** `value || null` on a string. */
  function NonEmpty(value: string): (r: Option<string>)
    ensures r.None? <==> value == []
    ensures r.Some? ==> r.value == value
  {
    if value == [] then None else Some(value)
  }

  /** The name is empty exactly when no part is present. */
  lemma NameNonEmpty(brand: Option<string>, model: Option<string>, variant: Option<string>)
    requires Part(brand) && Part(model) && Part(variant)
    ensures ProductName(brand, model, variant) == [] <==> brand.None? && model.None? && variant.None?
  {
    var opts := [brand, model, variant];
    var parts := Present(opts);
    assert opts[0] == brand && opts[1] == model && opts[2] == variant;
    if parts != [] {
      var j := Join(parts, " ");
      assert Part(Some(parts[0]));
      JoinStart(parts);
      assert !IsSpace(j[0]);
      TrimEmptyIffAllSpace(j);
    }
  }

  lemma JoinStart(parts: seq<string>)
    requires parts != [] && parts[0] != []
    ensures Join(parts, " ") != [] && Join(parts, " ")[0] == parts[0][0]
  {
    if |parts| > 1 {
      assert Join(parts, " ") == parts[0] + " " + Join(parts[1..], " ");
    }
  }

  /** The name of the entity is its parts joined by single spaces: the final trim
      removes nothing. */
  lemma NameIsJoin(brand: Option<string>, model: Option<string>, variant: Option<string>)
    requires Part(brand) && Part(model) && Part(variant)
    ensures ProductName(brand, model, variant) == Join(Present([brand, model, variant]), " ")
  {
    var parts := Present([brand, model, variant]);
    JoinEdges(parts);
    TrimOfTrimmed(Join(parts, " "));
  }

  lemma {:induction false} JoinEdges(parts: seq<string>)
    requires forall k :: 0 <= k < |parts| ==> parts[k] != [] && NoEdgeSpace(parts[k])
    ensures NoEdgeSpace(Join(parts, " "))
    ensures parts != [] ==> Join(parts, " ")[|Join(parts, " ")| - 1] == parts[|parts| - 1][|parts[|parts| - 1]| - 1]
    decreases |parts|
  {
    if |parts| > 1 {
      JoinEdges(parts[1..]);
      var rest := Join(parts[1..], " ");
      assert Join(parts, " ") == parts[0] + " " + rest;
    }
  }

  /** The validated reply: `intent` must be one of the two values and each of
      brand, model and variant a string, `null` or absent (the schema check). */
  function Validate(v: Json.Json): (r: Result<Raw, string>)
    ensures r.Success? <==>
              && v.JObject?
              && KnownIntent(Json.Get(v, "intent")).Some?
              && OptionalString(Json.Get(v, "brand")).Success?
              && OptionalString(Json.Get(v, "model")).Success?
              && OptionalString(Json.Get(v, "variant")).Success?
    ensures r.Success? ==>
              && Some(r.value.intent) == KnownIntent(Json.Get(v, "intent"))
              && r.value.brand == OptionalString(Json.Get(v, "brand")).value
              && r.value.model == OptionalString(Json.Get(v, "model")).value
              && r.value.variant == OptionalString(Json.Get(v, "variant")).value
  {
    if !v.JObject? then Failure("schema")
    else
      var intent := Json.Get(v, "intent");
      var brand := OptionalString(Json.Get(v, "brand"));
      var model := OptionalString(Json.Get(v, "model"));
      var variant := OptionalString(Json.Get(v, "variant"));
      if brand.Failure? || model.Failure? || variant.Failure? then Failure("schema")
      else if intent == Some(Json.JString("product_review")) then
        Success(Raw(ProductReview, brand.value, model.value, variant.value))
      else if intent == Some(Json.JString("unsupported")) then
        Success(Raw(Unsupported, brand.value, model.value, variant.value))
      else Failure("schema")
  }

  /** `z.enum(["product_review", "unsupported"])`: the intent a value names, if any. */
  function KnownIntent(v: Option<Json.Json>): (r: Option<Intent>)
    ensures r == Some(ProductReview) <==> v == Some(Json.JString("product_review"))
    ensures r == Some(Unsupported) <==> v == Some(Json.JString("unsupported"))
  {
    if v == Some(Json.JString("product_review")) then Some(ProductReview)
    else if v == Some(Json.JString("unsupported")) then Some(Unsupported)
    else None
  }

  /** `z.string().nullable().optional()`. */
  function OptionalString(v: Option<Json.Json>): (r: Result<Option<string>, string>)
    ensures r.Success? <==> v.None? || v.value == Json.JNull || v.value.JString?
    ensures r.Success? && r.value.Some? ==> v == Some(Json.JString(r.value.value))
  {
    match v
    case None => Success(None)
    case Some(j) =>
      if j == Json.JNull then Success(None)
      else if j.JString? then Success(Some(j.s))
      else Failure("schema")
  }

  /** `extractIntentAndEntity`: chat reply, brace extraction, `JSON.parse`,
      validation, then post-processing; any failure propagates. */
  function ExtractIntentAndEntity(env: Unicode.Env, query: string, reply: Result<string, string>,
                                  parse: string -> Option<Json.Json>): (r: Result<Extracted, string>)
    requires Unicode.Lawful(env)
    ensures r.Success? <==>
              && reply.Success?
              && ExtractJson(reply.value).Success?
              && parse(ExtractJson(reply.value).value).Some?
              && Validate(parse(ExtractJson(reply.value).value).value).Success?
    ensures r.Success? ==>
              r.value == Postprocess(env, query, Validate(parse(ExtractJson(reply.value).value).value).value)
    ensures r.Success? ==> r.value.slug != Some([])
  {
    match reply
    case Failure(e) => Failure(e)
    case Success(content) =>
      match ExtractJson(content)
      case Failure(e) => Failure(e)
      case Success(text) =>
        match parse(text)
        case None => Failure("invalid JSON")
        case Some(v) =>
          match Validate(v)
          case Failure(e) => Failure(e)
          case Success(raw) => Success(Postprocess(env, query, raw))
  }

  /** `resolveCanonicalSlug`. `alias` is the `product:alias:` lookup, whose failure
      is a miss; `store` is the product-table lookup by slug, whose failure
      propagates. An empty alias value is falsy and also a miss. */
  function ResolveCanonicalSlug(env: Unicode.Env, transcript: string, extractedSlug: string,
                                alias: string -> Result<Option<string>, string>,
                                store: string -> Result<Option<string>, string>): (r: Result<string, string>)
    requires Unicode.Lawful(env)
    ensures AliasHit(alias(AliasKeyOf(env, transcript))) ==>
              r == Success(alias(AliasKeyOf(env, transcript)).value.value)
    ensures !AliasHit(alias(AliasKeyOf(env, transcript))) ==>
              match store(extractedSlug)
              case Failure(e) => r == Failure(e)
              case Success(None) => r == Success(extractedSlug)
              case Success(Some(s)) => r == Success(s)
  {
    var found := alias(AliasKeyOf(env, transcript));
    if AliasHit(found) then Success(found.value.value)
    else
      match store(extractedSlug)
      case Failure(e) => Failure(e)
      case Success(None) => Success(extractedSlug)
      case Success(Some(s)) => Success(s)
  }

  /** The alias key the seed script writes for a transcript. */
  function AliasKeyOf(env: Unicode.Env, transcript: string): (k: string)
    requires Unicode.Lawful(env)
    ensures |k| >= 14 && k[..14] == "product:alias:"
    ensures k[14..] == Slug.ToSlug(env, transcript)
  {
    "product:alias:" + Slug.ToSlug(env, transcript)
  }

  predicate AliasHit(found: Result<Option<string>, string>) {
    found.Success? && found.value.Some? && found.value.value != []
  }

  /** On an alias hit the product table is never consulted: any two tables give the
      same answer. */
  lemma AliasHitSkipsStore(env: Unicode.Env, transcript: string, extractedSlug: string,
                           alias: string -> Result<Option<string>, string>,
                           store: string -> Result<Option<string>, string>,
                           other: string -> Result<Option<string>, string>)
    requires Unicode.Lawful(env)
    requires AliasHit(alias(AliasKeyOf(env, transcript)))
    ensures ResolveCanonicalSlug(env, transcript, extractedSlug, alias, store)
            == ResolveCanonicalSlug(env, transcript, extractedSlug, alias, other)
  {
  }

  /** A failing alias lookup behaves exactly like an empty alias map. */
  lemma AliasErrorIsMiss(env: Unicode.Env, transcript: string, extractedSlug: string,
                         alias: string -> Result<Option<string>, string>,
                         store: string -> Result<Option<string>, string>)
    requires Unicode.Lawful(env)
    requires alias(AliasKeyOf(env, transcript)).Failure?
    ensures ResolveCanonicalSlug(env, transcript, extractedSlug, alias, store)
            == ResolveCanonicalSlug(env, transcript, extractedSlug, _ => Success(None), store)
  {
  }
}
