/** The product catalogue seed: each phone's canonical slug and product row, and
    the aliases written to the `product:alias:` key space that entity resolution
    reads. The store and the alias map are written one phone at a time, so a
    later phone overwrites an earlier one with the same slug or alias. */
module Seed {
  import opened Wrappers
  import opened Text
  import Unicode
  import Slug
  import Entity

  datatype PhoneSeed = PhoneSeed(brand: string, model: string, priceRange: string)

  const TopTrendingCount: nat := 10
  const AliasPrefix := "product:alias:"

  predicate Distinct(xs: seq<string>) {
    forall i, j :: 0 <= i < j < |xs| ==> xs[i] != xs[j]
  }

  /** `Array.from(set)` after adding `xs` to an empty `Set`: each value once, at
      its first position. */
  function Dedup(xs: seq<string>): (r: seq<string>)
    ensures forall x :: x in r <==> x in xs
    ensures Distinct(r)
    decreases |xs|
  {
    if xs == [] then []
    else
      var init := xs[..|xs| - 1];
      var last := xs[|xs| - 1];
      assert xs == init + [last];
      var d := Dedup(init);
      if last in d then d else d + [last]
  }

  lemma {:induction false} NonEmptyKeepsDistinct(xs: seq<string>)
    requires Distinct(xs)
    ensures Distinct(NonEmpty(xs))
    decreases |xs|
  {
    if xs != [] {
      var tail := xs[1..];
      assert Distinct(tail) by {
        forall i, j | 0 <= i < j < |tail|
          ensures tail[i] != tail[j]
        {
          assert tail[i] == xs[i + 1] && tail[j] == xs[j + 1];
        }
      }
      NonEmptyKeepsDistinct(tail);
      assert xs[0] !in tail by {
        forall j | 0 <= j < |tail|
          ensures tail[j] != xs[0]
        {
          assert tail[j] == xs[j + 1];
        }
      }
      var rest := NonEmpty(tail);
      if xs[0] != [] {
        var r := [xs[0]] + rest;
        forall i, j | 0 <= i < j < |r|
          ensures r[i] != r[j]
        {
          if i == 0 {
            assert r[j] == rest[j - 1] && r[j] in rest;
          } else {
            assert r[i] == rest[i - 1] && r[j] == rest[j - 1];
          }
        }
      }
    }
  }

  /** The end of the run of characters satisfying `p` that starts at `i`. */
  function RunEnd(s: string, i: nat, p: char -> bool): (e: nat)
    requires i <= |s|
    ensures i <= e <= |s|
    ensures forall t :: i <= t < e ==> p(s[t])
    ensures e == |s| || !p(s[e])
    decreases |s| - i
  {
    if i < |s| && p(s[i]) then RunEnd(s, i + 1, p) else i
  }

  /** A run of `p` from `i` that stops at `e` is the run `RunEnd` finds. */
  lemma {:induction false} RunEndAt(s: string, i: nat, e: nat, p: char -> bool)
    requires i <= e <= |s|
    requires forall t :: i <= t < e ==> p(s[t])
    requires e == |s| || !p(s[e])
    ensures RunEnd(s, i, p) == e
    decreases e - i
  {
    if i < e {
      RunEndAt(s, i + 1, e, p);
    }
  }

  /** `\b` between `s[i - 1]` and `s[i]`: word characters are ASCII letters,
      digits and '_' (no `u` flag). */
  predicate Boundary(s: string, i: nat)
    requires i <= |s|
  {
    (i > 0 && IsWordChar(s[i - 1])) != (i < |s| && IsWordChar(s[i]))
  }

  predicate AllOf(s: string, a: nat, b: nat, p: char -> bool)
    requires a <= b <= |s|
  {
    forall t :: a <= t < b ==> p(s[t])
  }

  /** A match of `\b([A-Za-z]+)\s*([0-9]{1,3})\b` spanning `s[i..l]`: letters
      `s[i..j]`, white space `s[j..k]`, digits `s[k..l]`. */
  predicate ShortModelAt(s: string, i: nat, j: nat, k: nat, l: nat) {
    i < j <= k < l <= |s| && l - k <= 3
    && Boundary(s, i) && Boundary(s, l)
    && AllOf(s, i, j, IsAsciiLetter) && AllOf(s, j, k, IsSpace) && AllOf(s, k, l, IsDigit)
  }

  ghost predicate NoShortModelAt(s: string, i: nat) {
    forall j, k, l :: !ShortModelAt(s, i, j, k, l)
  }

  /** Each part as long as it can be: the letters, then the white space, then the
      digits from `i`. */
  function LongestParts(s: string, i: nat): (m: (nat, nat, nat))
    requires i <= |s|
    ensures i <= m.0 <= m.1 <= m.2 <= |s|
  {
    var j := RunEnd(s, i, IsAsciiLetter);
    var k := RunEnd(s, j, IsSpace);
    (j, k, RunEnd(s, k, IsDigit))
  }

  /** At most one match starts at `i`, the longest parts: shorter letters leave a
      letter where white space or a digit must come, shorter white space leaves a
      space where a digit must come, and fewer digits leave a digit after the
      match, where `\b` fails. So backtracking never finds another. */
  lemma ShortModelUnique(s: string, i: nat, j: nat, k: nat, l: nat)
    requires ShortModelAt(s, i, j, k, l)
    ensures (j, k, l) == LongestParts(s, i)
  {
    assert !IsAsciiLetter(s[j]) by {
      if k > j {
        assert IsSpace(s[j]);
      } else {
        assert IsDigit(s[j]);
      }
    }
    RunEndAt(s, i, j, IsAsciiLetter);
    assert IsDigit(s[k]);
    RunEndAt(s, j, k, IsSpace);
    assert l < |s| ==> !IsDigit(s[l]) by {
      if l < |s| {
        assert IsDigit(s[l - 1]);
      }
    }
    RunEndAt(s, k, l, IsDigit);
  }

  /** The longest parts from `i` do not form a match; by `NoneAt` no match
      starts at `i` then. */
  predicate LongestFails(s: string, i: nat)
    requires i <= |s|
  {
    var m := LongestParts(s, i);
    !ShortModelAt(s, i, m.0, m.1, m.2)
  }

  /** The leftmost match at or after `from`, as (start, end of letters, start of
      digits, end). */
  function ShortModelMatch(s: string, from: nat): (r: Option<(nat, nat, nat, nat)>)
    requires from <= |s|
    ensures r.Some? ==> from <= r.value.0 && ShortModelAt(s, r.value.0, r.value.1, r.value.2, r.value.3)
    ensures r.Some? ==> forall i :: from <= i < r.value.0 ==> LongestFails(s, i)
    ensures r.None? ==> forall i :: from <= i <= |s| ==> LongestFails(s, i)
    decreases |s| - from
  {
    var m := LongestParts(s, from);
    if ShortModelAt(s, from, m.0, m.1, m.2) then Some((from, m.0, m.1, m.2))
    else if from == |s| then None
    else ShortModelMatch(s, from + 1)
  }

  /** When the longest parts from `i` do not match, nothing starting at `i` does. */
  lemma NoneAt(s: string, i: nat)
    requires i <= |s| && LongestFails(s, i)
    ensures NoShortModelAt(s, i)
  {
    forall j, k, l | ShortModelAt(s, i, j, k, l)
      ensures false
    {
      ShortModelUnique(s, i, j, k, l);
    }
  }

  /** The search finds the leftmost match: nothing matches before the one it
      returns, and nothing matches at all when it returns none. */
  lemma ShortModelLeftmost(s: string, from: nat)
    requires from <= |s|
    ensures var r := ShortModelMatch(s, from);
      r.Some? ==> forall i :: from <= i < r.value.0 ==> NoShortModelAt(s, i)
    ensures ShortModelMatch(s, from).None? ==> forall i :: from <= i <= |s| ==> NoShortModelAt(s, i)
  {
    var r := ShortModelMatch(s, from);
    var end := if r.Some? then r.value.0 else |s| + 1;
    forall i | from <= i < end
      ensures NoShortModelAt(s, i)
    {
      NoneAt(s, i);
    }
  }

  /** `/Galaxy\s+([A-Z])\s*([0-9]{1,3})/i` tried at `p`: the letter and the
      digits. The white-space runs cannot give anything back (a letter or a digit
      must follow them), and nothing follows the digits, so the first, greedy
      attempt is the match. With the `i` flag and no `u` flag only ASCII letters
      fold. */
  function GalaxyAt(s: string, p: nat): (r: Option<(char, string)>)
    requires p <= |s|
    ensures r.Some? ==> IsAsciiLetter(r.value.0) && 1 <= |r.value.1| <= 3
    ensures r.Some? ==> forall t :: 0 <= t < |r.value.1| ==> IsDigit(r.value.1[t])
  {
    if p + 6 <= |s| && Lower(s[p..p + 6]) == "galaxy" then
      var q := RunEnd(s, p + 6, IsSpace);
      if p + 6 < q < |s| && IsAsciiLetter(s[q]) then
        var d := RunEnd(s, q + 1, IsSpace);
        if d < |s| && IsDigit(s[d]) then
          var e := RunEnd(s, d, IsDigit);
          var digits := s[d..if e - d > 3 then d + 3 else e];
          assert forall t :: 0 <= t < |digits| ==> digits[t] == s[d + t];
          Some((s[q], digits))
        else None
      else None
    else None
  }

  /** The leftmost match at or after `from`. */
  function GalaxyMatch(s: string, from: nat): (r: Option<(char, string)>)
    requires from <= |s|
    ensures GalaxyAt(s, from).Some? ==> r == GalaxyAt(s, from)
    ensures r.Some? ==> IsAsciiLetter(r.value.0) && 1 <= |r.value.1| <= 3
    ensures (forall p :: from <= p <= |s| ==> GalaxyAt(s, p).None?) ==> r.None?
    decreases |s| - from
  {
    match GalaxyAt(s, from)
    case Some(m) => Some(m)
    case None => if from == |s| then None else GalaxyMatch(s, from + 1)
  }

  /** The values `buildAliases` adds to its set, in order: the full and model
      slugs when non-empty, the short model's two slugs and the compact Galaxy
      slug when those patterns match. */
  function Candidates(env: Unicode.Env, phone: PhoneSeed): (r: seq<string>)
    requires Unicode.Lawful(env)
    ensures |r| <= 5
    ensures var full := Slug.ToSlug(env, phone.brand + " " + phone.model); full != [] ==> r != [] && r[0] == full
    ensures var model := Slug.ToSlug(env, phone.model); model != [] ==> model in r
  {
    var m := phone.model;
    var full := Slug.ToSlug(env, phone.brand + " " + m);
    var model := Slug.ToSlug(env, m);
    var head := NonEmptyPair(full, model);
    head + ShortSlugs(env, m) + GalaxySlugs(env, m)
  }

  /** The full and model slugs, each when non-empty. */
  function NonEmptyPair(full: string, model: string): (r: seq<string>)
    ensures |r| <= 2
    ensures full != [] ==> r != [] && r[0] == full
    ensures model != [] ==> model in r
    ensures forall a :: a in r ==> a != [] && (a == full || a == model)
  {
    (if full != [] then [full] else []) + (if model != [] then [model] else [])
  }

  /** The short model's two slugs, when the model has one. */
  function ShortSlugs(env: Unicode.Env, m: string): (r: seq<string>)
    requires Unicode.Lawful(env)
    ensures |r| <= 2
    ensures ShortModelMatch(m, 0).None? ==> r == []
  {
    match ShortModelMatch(m, 0)
    case None => []
    case Some(x) => [Slug.ToSlug(env, m[x.0..x.1] + " " + m[x.2..x.3]), Slug.ToSlug(env, m[x.2..x.3])]
  }

  /** The compact Galaxy slug, when the model names one. */
  function GalaxySlugs(env: Unicode.Env, m: string): (r: seq<string>)
    requires Unicode.Lawful(env)
    ensures |r| <= 1
    ensures GalaxyMatch(m, 0).None? ==> r == []
  {
    match GalaxyMatch(m, 0)
    case None => []
    case Some(g) => [Slug.ToSlug(env, [g.0] + g.1)]
  }

  /** `buildAliases`: the candidates without repeats and without the empty string. */
  function BuildAliases(env: Unicode.Env, phone: PhoneSeed): (r: seq<string>)
    requires Unicode.Lawful(env)
    ensures Distinct(r)
    ensures forall a :: a in r <==> a in Candidates(env, phone) && a != []
    ensures var full := Slug.ToSlug(env, phone.brand + " " + phone.model); full != [] ==> full in r
    ensures var model := Slug.ToSlug(env, phone.model); model != [] ==> model in r
  {
    var c := Candidates(env, phone);
    var full := Slug.ToSlug(env, phone.brand + " " + phone.model);
    var model := Slug.ToSlug(env, phone.model);
    assert full != [] ==> full in c;
    assert model != [] ==> model in c;
    NonEmptyKeepsDistinct(Dedup(c));
    NonEmpty(Dedup(c))
  }

  lemma ShortModelMatchOf(s: string, letters: string, digits: string, rest: string)
    requires s == letters + " " + digits + rest
    requires letters != [] && forall t :: 0 <= t < |letters| ==> IsAsciiLetter(letters[t])
    requires 1 <= |digits| <= 3 && forall t :: 0 <= t < |digits| ==> IsDigit(digits[t])
    requires rest == [] || !IsWordChar(rest[0])
    ensures ShortModelMatch(s, 0).Some?
    ensures var x := ShortModelMatch(s, 0).value; s[x.0..x.1] == letters && s[x.2..x.3] == digits
  {
    var j, k, l := |letters|, |letters| + 1, |letters| + 1 + |digits|;
    assert s[0..j] == letters && s[j] == ' ' && s[k..l] == digits;
    assert AllOf(s, 0, j, IsAsciiLetter) by {
      forall t | 0 <= t < j
        ensures IsAsciiLetter(s[t])
      {
        assert s[t] == s[0..j][t];
      }
    }
    assert AllOf(s, k, l, IsDigit) by {
      forall t | k <= t < l
        ensures IsDigit(s[t])
      {
        assert s[t] == s[k..l][t - k];
      }
    }
    assert Boundary(s, l) by {
      assert IsDigit(s[l - 1]);
      if l < |s| {
        assert s[l] == rest[0];
      }
    }
    assert ShortModelAt(s, 0, j, k, l);
    ShortModelUnique(s, 0, j, k, l);
  }

  /** A model "<letters> <1 to 3 digits>", followed by nothing or by a non-word
      character, gets the aliases "<letters>-<digits>" and "<digits>" (slugged). */
  lemma ShortModelAliases(env: Unicode.Env, phone: PhoneSeed, letters: string, digits: string, rest: string)
    requires Unicode.Lawful(env)
    requires phone.model == letters + " " + digits + rest
    requires letters != [] && forall t :: 0 <= t < |letters| ==> IsAsciiLetter(letters[t])
    requires 1 <= |digits| <= 3 && forall t :: 0 <= t < |digits| ==> IsDigit(digits[t])
    requires rest == [] || !IsWordChar(rest[0])
    ensures var a := Slug.ToSlug(env, letters + " " + digits); a != [] ==> a in BuildAliases(env, phone)
    ensures var a := Slug.ToSlug(env, digits); a != [] ==> a in BuildAliases(env, phone)
  {
    ShortModelMatchOf(phone.model, letters, digits, rest);
    assert ShortSlugs(env, phone.model) == [Slug.ToSlug(env, letters + " " + digits), Slug.ToSlug(env, digits)];
    assert Slug.ToSlug(env, letters + " " + digits) in Candidates(env, phone);
    assert Slug.ToSlug(env, digits) in Candidates(env, phone);
  }

  lemma LowerGalaxy(s: string)
    requires s == "Galaxy"
    ensures Lower(s) == "galaxy"
  {
    assert Lower(s)[0] == 'g';
  }

  lemma GalaxyMatchOf(s: string, letter: char, digits: string, rest: string)
    requires s == "Galaxy " + [letter] + digits + rest
    requires IsAsciiLetter(letter)
    requires 1 <= |digits| <= 3 && forall t :: 0 <= t < |digits| ==> IsDigit(digits[t])
    requires rest == [] || !IsDigit(rest[0])
    ensures GalaxyMatch(s, 0) == Some((letter, digits))
  {
    var e := 8 + |digits|;
    assert s[..6] == "Galaxy" && s[6] == ' ' && s[7] == letter;
    LowerGalaxy(s[0..6]);
    assert forall t :: 8 <= t < e ==> s[t] == digits[t - 8];
    assert e < |s| ==> s[e] == rest[0];
    RunEndAt(s, 6, 7, IsSpace);
    RunEndAt(s, 8, 8, IsSpace);
    RunEndAt(s, 8, e, IsDigit);
    assert s[8..e] == digits;
    assert GalaxyAt(s, 0) == Some((letter, digits));
  }

  /** A model "Galaxy <letter><1 to 3 digits>", followed by nothing or by a
      non-digit, gets the compact alias "<letter><digits>" (slugged), e.g. "s24". */
  lemma GalaxyCompactAlias(env: Unicode.Env, phone: PhoneSeed, letter: char, digits: string, rest: string)
    requires Unicode.Lawful(env)
    requires phone.model == "Galaxy " + [letter] + digits + rest
    requires IsAsciiLetter(letter)
    requires 1 <= |digits| <= 3 && forall t :: 0 <= t < |digits| ==> IsDigit(digits[t])
    requires rest == [] || !IsDigit(rest[0])
    ensures var a := Slug.ToSlug(env, [letter] + digits); a != [] ==> a in BuildAliases(env, phone)
  {
    GalaxyMatchOf(phone.model, letter, digits, rest);
    assert GalaxySlugs(env, phone.model) == [Slug.ToSlug(env, [letter] + digits)];
    assert Slug.ToSlug(env, [letter] + digits) in Candidates(env, phone);
  }

  datatype ProductRow = ProductRow(brand: string, model: string, slug: string, priceRange: string, isTrending: bool)

  /** The canonical slug of a phone. */
  function SlugOf(env: Unicode.Env, phone: PhoneSeed): string
    requires Unicode.Lawful(env)
  {
    Slug.ToSlug(env, phone.brand + " " + phone.model)
  }

  /** The row upserted for the phone at `index`. */
  function Row(env: Unicode.Env, phone: PhoneSeed, index: nat): (r: ProductRow)
    requires Unicode.Lawful(env)
    ensures r.slug == SlugOf(env, phone)
    ensures r.isTrending <==> index < TopTrendingCount
  {
    ProductRow(phone.brand, phone.model, SlugOf(env, phone), phone.priceRange, index < TopTrendingCount)
  }

  function AliasKey(alias: string): (k: string)
    ensures |k| == |AliasPrefix| + |alias|
    ensures k[..|AliasPrefix|] == AliasPrefix && k[|AliasPrefix|..] == alias
  {
    var k := AliasPrefix + alias;
    assert k[|AliasPrefix|..] == alias;
    k
  }

  function AliasKeys(aliases: seq<string>): set<string> {
    set a | a in aliases :: AliasKey(a)
  }

  /** Writing each alias of one phone, in order. */
  function SetAliases(m: map<string, string>, aliases: seq<string>, slug: string): (r: map<string, string>)
    ensures r.Keys == m.Keys + AliasKeys(aliases)
    ensures forall a :: a in aliases ==> r[AliasKey(a)] == slug
    ensures forall key :: key in m && key !in AliasKeys(aliases) ==> r[key] == m[key]
    ensures forall key :: key in r ==> r[key] == slug || (key in m && r[key] == m[key])
    decreases |aliases|
  {
    if aliases == [] then m
    else
      assert AliasKeys(aliases) == {AliasKey(aliases[0])} + AliasKeys(aliases[1..]) by {
        assert forall a :: a in aliases <==> a == aliases[0] || a in aliases[1..];
      }
      SetAliases(m[AliasKey(aliases[0]) := slug], aliases[1..], slug)
  }

  /** What the seed leaves behind: the product table by slug and the alias map. */
  datatype Seeded = Seeded(products: map<string, ProductRow>, aliases: map<string, string>)

  /** One phone's writes: its row, then its aliases pointing at its slug. */
  datatype Entry = Entry(row: ProductRow, aliases: seq<string>)

  function Entries(env: Unicode.Env, phones: seq<PhoneSeed>): (r: seq<Entry>)
    requires Unicode.Lawful(env)
    ensures |r| == |phones|
    ensures forall i :: 0 <= i < |phones| ==> r[i] == Entry(Row(env, phones[i], i), BuildAliases(env, phones[i]))
  {
    seq(|phones|, i requires 0 <= i < |phones| => Entry(Row(env, phones[i], i), BuildAliases(env, phones[i])))
  }

  /** The writes of `entries` in order; a later write of a slug or an alias
      replaces an earlier one (`ON CONFLICT ... DO UPDATE`, `SET`). */
  function Apply(entries: seq<Entry>): (r: Seeded)
    ensures forall slug :: slug in r.products ==> r.products[slug].slug == slug
    ensures forall key :: key in r.aliases ==> r.aliases[key] in r.products
    ensures forall i :: 0 <= i < |entries| ==> entries[i].row.slug in r.products
    decreases |entries|
  {
    if entries == [] then Seeded(map[], map[])
    else
      var n := |entries| - 1;
      var before := Apply(entries[..n]);
      var e := entries[n];
      assert forall i :: 0 <= i < n ==> entries[..n][i] == entries[i];
      Seeded(before.products[e.row.slug := e.row], SetAliases(before.aliases, e.aliases, e.row.slug))
  }

  /** `main`: every phone in order upserts its row and writes its aliases. */
  function Seed(env: Unicode.Env, phones: seq<PhoneSeed>): (r: Seeded)
    requires Unicode.Lawful(env)
    ensures forall slug :: slug in r.products ==> r.products[slug].slug == slug
    ensures forall key :: key in r.aliases ==> r.aliases[key] in r.products
    ensures forall i :: 0 <= i < |phones| ==> SlugOf(env, phones[i]) in r.products
  {
    var entries := Entries(env, phones);
    assert forall i :: 0 <= i < |phones| ==> entries[i].row.slug == SlugOf(env, phones[i]);
    Apply(entries)
  }

  lemma {:induction false} ApplyRow(entries: seq<Entry>, i: nat)
    requires i < |entries|
    requires forall j :: i < j < |entries| ==> entries[j].row.slug != entries[i].row.slug
    ensures Apply(entries).products[entries[i].row.slug] == entries[i].row
    decreases |entries|
  {
    var n := |entries| - 1;
    var before := Apply(entries[..n]);
    var e := entries[n];
    assert Apply(entries).products == before.products[e.row.slug := e.row];
    if i < n {
      assert entries[..n][i] == entries[i];
      assert forall j :: i < j < n ==> entries[..n][j] == entries[j];
      ApplyRow(entries[..n], i);
      assert e.row.slug != entries[i].row.slug;
    }
  }

  lemma {:induction false} ApplyAlias(entries: seq<Entry>, i: nat, alias: string)
    requires i < |entries|
    requires alias in entries[i].aliases
    requires forall j :: i < j < |entries| ==> alias !in entries[j].aliases
    ensures AliasKey(alias) in Apply(entries).aliases
    ensures Apply(entries).aliases[AliasKey(alias)] == entries[i].row.slug
    decreases |entries|
  {
    var n := |entries| - 1;
    var before := Apply(entries[..n]);
    var e := entries[n];
    assert Apply(entries).aliases == SetAliases(before.aliases, e.aliases, e.row.slug);
    if i < n {
      assert entries[..n][i] == entries[i];
      assert forall j :: i < j < n ==> entries[..n][j] == entries[j];
      ApplyAlias(entries[..n], i, alias);
      KeyNotWritten(e.aliases, alias);
      AliasKept(before.aliases, e.aliases, e.row.slug, AliasKey(alias));
    } else {
      AliasWritten(before.aliases, e.aliases, e.row.slug, alias);
    }
  }

  lemma AliasWritten(m: map<string, string>, aliases: seq<string>, slug: string, alias: string)
    requires alias in aliases
    ensures AliasKey(alias) in SetAliases(m, aliases, slug)
    ensures SetAliases(m, aliases, slug)[AliasKey(alias)] == slug
  {
    assert AliasKey(alias) in AliasKeys(aliases);
  }

  lemma AliasKept(m: map<string, string>, aliases: seq<string>, slug: string, key: string)
    requires key in m && key !in AliasKeys(aliases)
    ensures key in SetAliases(m, aliases, slug)
    ensures SetAliases(m, aliases, slug)[key] == m[key]
  {
  }

  lemma KeyNotWritten(aliases: seq<string>, alias: string)
    requires alias !in aliases
    ensures AliasKey(alias) !in AliasKeys(aliases)
  {
    forall a | a in aliases
      ensures AliasKey(a) != AliasKey(alias)
    {
      assert AliasKey(a)[|AliasPrefix|..] == a;
    }
  }

  /** A phone whose slug no later phone shares keeps its own row, with its own
      trending flag. */
  lemma SeedRow(env: Unicode.Env, phones: seq<PhoneSeed>, i: nat)
    requires Unicode.Lawful(env) && i < |phones|
    requires forall j :: i < j < |phones| ==> SlugOf(env, phones[j]) != SlugOf(env, phones[i])
    ensures Seed(env, phones).products[SlugOf(env, phones[i])] == Row(env, phones[i], i)
  {
    var entries := Entries(env, phones);
    assert forall j :: 0 <= j < |phones| ==> entries[j].row.slug == SlugOf(env, phones[j]);
    ApplyRow(entries, i);
  }

  /** An alias no later phone writes points at its phone's slug. */
  lemma SeedAlias(env: Unicode.Env, phones: seq<PhoneSeed>, i: nat, alias: string)
    requires Unicode.Lawful(env) && i < |phones|
    requires alias in BuildAliases(env, phones[i])
    requires forall j :: i < j < |phones| ==> alias !in BuildAliases(env, phones[j])
    ensures AliasKey(alias) in Seed(env, phones).aliases
    ensures Seed(env, phones).aliases[AliasKey(alias)] == SlugOf(env, phones[i])
  {
    var entries := Entries(env, phones);
    assert forall j :: 0 <= j < |phones| ==> entries[j].aliases == BuildAliases(env, phones[j]);
    ApplyAlias(entries, i, alias);
  }

  predicate DistinctSlugs(env: Unicode.Env, phones: seq<PhoneSeed>)
    requires Unicode.Lawful(env)
  {
    forall i, j :: 0 <= i < j < |phones| ==> SlugOf(env, phones[i]) != SlugOf(env, phones[j])
  }

  /** With distinct slugs, exactly the first ten phones are trending. */
  lemma TrendingIsFirstTen(env: Unicode.Env, phones: seq<PhoneSeed>)
    requires Unicode.Lawful(env) && DistinctSlugs(env, phones)
    ensures forall i :: 0 <= i < |phones| ==>
              (Seed(env, phones).products[SlugOf(env, phones[i])].isTrending <==> i < TopTrendingCount)
  {
    forall i | 0 <= i < |phones|
      ensures Seed(env, phones).products[SlugOf(env, phones[i])].isTrending <==> i < TopTrendingCount
    {
      SeedRow(env, phones, i);
    }
  }

  /** The alias lookup entity resolution makes against the seeded map. */
  function AliasLookup(seeded: Seeded): string -> Result<Option<string>, string> {
    key => Success(if key in seeded.aliases then Some(seeded.aliases[key]) else None)
  }

  /** A transcript whose slug is a seeded alias of one phone, written by no later
      phone, resolves to that phone's slug without consulting the product table. */
  lemma SeededAliasResolves(env: Unicode.Env, phones: seq<PhoneSeed>, i: nat, transcript: string,
                            extractedSlug: string, store: string -> Result<Option<string>, string>)
    requires Unicode.Lawful(env) && i < |phones|
    requires Slug.ToSlug(env, transcript) in BuildAliases(env, phones[i])
    requires forall j :: i < j < |phones| ==> Slug.ToSlug(env, transcript) !in BuildAliases(env, phones[j])
    requires SlugOf(env, phones[i]) != []
    ensures Entity.ResolveCanonicalSlug(env, transcript, extractedSlug, AliasLookup(Seed(env, phones)), store)
            == Success(SlugOf(env, phones[i]))
  {
    var alias := Slug.ToSlug(env, transcript);
    var seeded := Seed(env, phones);
    SeedAlias(env, phones, i, alias);
    var key := Entity.AliasKeyOf(env, transcript);
    assert key == AliasKey(alias);
    var found := AliasLookup(seeded)(key);
    assert found == Success(Some(SlugOf(env, phones[i])));
    assert Entity.AliasHit(found);
  }
}
