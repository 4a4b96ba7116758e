/** The fail-open review cache over the key-value store: English reviews by slug,
    localized reviews by slug and language, and product-name aliases. Every read
    that fails is a miss and every write that fails is dropped, leaving the store as
    it was. `fault` says whether the store call failed. */
module ReviewCache {
  import opened Wrappers
  import Unicode

  const ReviewTtlDays: nat := 30
  const LocalizedTtlDays: nat := 30
  const AliasTtlDays: nat := 30
  const SecondsPerDay: nat := 86400

  /** What a key holds: a review (`R`), a localized review (`L`) or a slug. */
  datatype Value<R, L> = ReviewValue(review: R) | LocalizedValue(localized: L) | SlugValue(slug: string)

  /** A stored value and the expiry, in seconds, it was written with. */
  datatype Stored<R, L> = Stored(value: Value<R, L>, ttl: nat)

  type Store<R, L> = map<string, Stored<R, L>>

  /** `daysTtl`. */
  function DaysTtl(days: nat): (r: nat)
    ensures r == days * 24 * 60 * 60
  {
    days * SecondsPerDay
  }

  function ReviewKey(slug: string): (k: string)
    ensures |k| == |slug| + 7 && k[..7] == "review:" && k[7..] == slug
  {
    "review:" + slug
  }

  function LocalizedKey(slug: string, lang: string): (k: string)
    ensures |k| == |slug| + |lang| + 11 && k[..10] == "localized:"
    ensures k[10..10 + |slug|] == slug && k[10 + |slug|] == ':' && k[11 + |slug|..] == lang
  {
    "localized:" + slug + ":" + lang
  }

  /** Aliases are stored under their lower-cased form. */
  function AliasKey(env: Unicode.Env, alias: string): (k: string)
    ensures |k| >= 6 && k[..6] == "alias:" && k[6..] == Unicode.ToLower(env, alias)
  {
    "alias:" + Unicode.ToLower(env, alias)
  }

  /** `getCachedReview`. */
  function GetReview<R, L>(store: Store<R, L>, slug: string, fault: bool): (r: Option<R>)
    ensures fault ==> r.None?
    ensures r.Some? <==> !fault && ReviewKey(slug) in store && store[ReviewKey(slug)].value.ReviewValue?
    ensures r.Some? ==> store[ReviewKey(slug)].value == ReviewValue(r.value)
  {
    var k := ReviewKey(slug);
    if fault || k !in store || !store[k].value.ReviewValue? then None
    else Some(store[k].value.review)
  }

  /** `setCachedReview`: written with a 30-day expiry; dropped on failure. */
  function SetReview<R, L>(store: Store<R, L>, slug: string, data: R, fault: bool): (s: Store<R, L>)
    ensures fault ==> s == store
    ensures !fault ==> ReviewKey(slug) in s && s[ReviewKey(slug)] == Stored(ReviewValue(data), 2592000)
    ensures forall k :: k != ReviewKey(slug) ==> (k in s <==> k in store) && (k in s ==> s[k] == store[k])
  {
    if fault then store else store[ReviewKey(slug) := Stored(ReviewValue(data), DaysTtl(ReviewTtlDays))]
  }

  /** `getCachedLocalized`. */
  function GetLocalized<R, L>(store: Store<R, L>, slug: string, lang: string, fault: bool): (r: Option<L>)
    ensures fault ==> r.None?
    ensures r.Some? <==> !fault && LocalizedKey(slug, lang) in store
                         && store[LocalizedKey(slug, lang)].value.LocalizedValue?
    ensures r.Some? ==> store[LocalizedKey(slug, lang)].value == LocalizedValue(r.value)
  {
    var k := LocalizedKey(slug, lang);
    if fault || k !in store || !store[k].value.LocalizedValue? then None
    else Some(store[k].value.localized)
  }

  /** `setCachedLocalized`: written with a 30-day expiry; dropped on failure. */
  function SetLocalized<R, L>(store: Store<R, L>, slug: string, lang: string, data: L, fault: bool): (s: Store<R, L>)
    ensures fault ==> s == store
    ensures !fault ==> LocalizedKey(slug, lang) in s
                       && s[LocalizedKey(slug, lang)] == Stored(LocalizedValue(data), 2592000)
    ensures forall k :: k != LocalizedKey(slug, lang) ==> (k in s <==> k in store) && (k in s ==> s[k] == store[k])
  {
    if fault then store
    else store[LocalizedKey(slug, lang) := Stored(LocalizedValue(data), DaysTtl(LocalizedTtlDays))]
  }

  /** `getAlias`. */
  function GetAlias<R, L>(env: Unicode.Env, store: Store<R, L>, alias: string, fault: bool): (r: Option<string>)
    ensures fault ==> r.None?
    ensures r.Some? <==> !fault && AliasKey(env, alias) in store && store[AliasKey(env, alias)].value.SlugValue?
    ensures r.Some? ==> store[AliasKey(env, alias)].value == SlugValue(r.value)
  {
    var k := AliasKey(env, alias);
    if fault || k !in store || !store[k].value.SlugValue? then None
    else Some(store[k].value.slug)
  }

  /** `setAlias`: written with a 30-day expiry; dropped on failure. */
  function SetAlias<R, L>(env: Unicode.Env, store: Store<R, L>, alias: string, slug: string, fault: bool): (s: Store<R, L>)
    ensures fault ==> s == store
    ensures !fault ==> AliasKey(env, alias) in s && s[AliasKey(env, alias)] == Stored(SlugValue(slug), 2592000)
    ensures forall k :: k != AliasKey(env, alias) ==> (k in s <==> k in store) && (k in s ==> s[k] == store[k])
  {
    if fault then store else store[AliasKey(env, alias) := Stored(SlugValue(slug), DaysTtl(AliasTtlDays))]
  }

  /** A successful write is read back by a later successful read. */
  lemma ReviewRoundTrip<R, L>(store: Store<R, L>, slug: string, data: R)
    ensures GetReview(SetReview(store, slug, data, false), slug, false) == Some(data)
  {
  }

  lemma LocalizedRoundTrip<R, L>(store: Store<R, L>, slug: string, lang: string, data: L)
    ensures GetLocalized(SetLocalized(store, slug, lang, data, false), slug, lang, false) == Some(data)
  {
  }

  /** An alias written in one letter case is found under any spelling with the same
      lower-case form. */
  lemma AliasRoundTrip<R, L>(env: Unicode.Env, store: Store<R, L>, alias: string, other: string, slug: string)
    requires Unicode.ToLower(env, other) == Unicode.ToLower(env, alias)
    ensures GetAlias(env, SetAlias(env, store, alias, slug, false), other, false) == Some(slug)
  {
    assert AliasKey(env, other) == AliasKey(env, alias);
  }

  /** Writing one review leaves every other slug's review as it was. */
  lemma ReviewOthersUnaffected<R, L>(store: Store<R, L>, slug: string, other: string, data: R, fault: bool)
    requires other != slug
    ensures GetReview(SetReview(store, slug, data, fault), other, false) == GetReview(store, other, false)
  {
    assert ReviewKey(other)[7..] != ReviewKey(slug)[7..];
  }

  /** Slugs never contain ':', so a localized key names one (slug, language) pair. */
  lemma LocalizedKeyInjective(slug: string, lang: string, slug2: string, lang2: string)
    requires ':' !in slug && ':' !in slug2
    requires LocalizedKey(slug, lang) == LocalizedKey(slug2, lang2)
    ensures slug == slug2 && lang == lang2
  {
    var k := LocalizedKey(slug, lang);
    assert slug == k[10..10 + |slug|] == slug2;
  }

  /** Writing a localized review leaves every other (slug, language) entry alone. */
  lemma LocalizedOthersUnaffected<R, L>(store: Store<R, L>, slug: string, lang: string, slug2: string, lang2: string, data: L)
    requires ':' !in slug && ':' !in slug2
    requires slug != slug2 || lang != lang2
    ensures GetLocalized(SetLocalized(store, slug, lang, data, false), slug2, lang2, false)
            == GetLocalized(store, slug2, lang2, false)
  {
    if LocalizedKey(slug, lang) == LocalizedKey(slug2, lang2) {
      LocalizedKeyInjective(slug, lang, slug2, lang2);
    }
  }

  /** The three key spaces never meet: each starts with a different letter. */
  lemma KeySpacesDisjoint(env: Unicode.Env, slug: string, slug2: string, lang: string, alias: string)
    ensures ReviewKey(slug) != LocalizedKey(slug2, lang)
    ensures ReviewKey(slug) != AliasKey(env, alias)
    ensures LocalizedKey(slug2, lang) != AliasKey(env, alias)
  {
    assert ReviewKey(slug)[0] == 'r';
    assert LocalizedKey(slug2, lang)[0] == 'l';
    assert AliasKey(env, alias)[0] == 'a';
  }

  /** A failed read is a miss whatever the store holds. */
  lemma FailedReadsMiss<R, L>(env: Unicode.Env, store: Store<R, L>, slug: string, lang: string, alias: string)
    ensures GetReview(store, slug, true).None?
    ensures GetLocalized(store, slug, lang, true).None?
    ensures GetAlias(env, store, alias, true).None?
  {
  }
}
