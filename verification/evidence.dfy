/** The user-review evidence gate: what the scraped sources say about e-commerce
    coverage, and the optional strict policy read from the environment. */
module ReviewEvidence {
  import opened Wrappers
  import opened Text
  import Urls

  const UserReviewDomains: seq<string> := ["amazon.in", "flipkart.com", "myntra.com", "ajio.com"]

  /** The alternatives of the case-insensitive review-signal pattern. */
  const SignalWords: seq<string> := [
    "customer review", "customer reviews", "verified purchase", "ratings", "rating",
    "value for money", "fit", "size", "delivery", "quality", "refund", "return"]

  const DefaultThreshold: nat := 2

  /** A source as the gate sees it; `kind` and `content` may be absent. */
  datatype SourceLike = SourceLike(url: string, kind: Option<string>, content: Option<string>)

  datatype Evidence = Evidence(
    totalSources: nat,
    ecommerceSourceCount: nat,
    ecommerceDomains: seq<string>,
    reviewSignalCount: nat,
    hasUserReviewEvidence: bool)

  datatype Policy = Policy(enabled: bool, minEcommerceSources: int, minReviewSignals: int)

  /** `getHost`: the lower-cased host name, or nothing when the address does not
      parse. */
  function GetHost(url: string, parse: Urls.UrlParser): (r: Option<string>)
    ensures r.None? <==> parse(url).None?
    ensures r.Some? ==> r.value == Lower(parse(url).value.hostname)
  {
    match parse(url)
    case None => None
    case Some(u) => Some(Lower(u.hostname))
  }

  predicate IsEcommerce(s: SourceLike) {
    s.kind == Some("ecommerce")
  }

  /** The sources typed "ecommerce", in input order. */
  function EcommerceOf(sources: seq<SourceLike>): (r: seq<SourceLike>)
    ensures |r| <= |sources|
    ensures forall x :: x in r <==> x in sources && IsEcommerce(x)
    ensures (forall k :: 0 <= k < |sources| ==> IsEcommerce(sources[k])) ==> r == sources
    decreases |sources|
  {
    if sources == [] then []
    else
      var rest := EcommerceOf(sources[1..]);
      assert forall x :: x in sources <==> x == sources[0] || x in sources[1..];
      if IsEcommerce(sources[0]) then [sources[0]] + rest else rest
  }

  /** The e-commerce filter distributes over concatenation: together with the
      all-kept and `NoEcommerce` cases, every e-commerce source is kept once, in
      order. */
  lemma {:induction false} EcommerceAppend(a: seq<SourceLike>, b: seq<SourceLike>)
    ensures EcommerceOf(a + b) == EcommerceOf(a) + EcommerceOf(b)
    decreases |a|
  {
    if a == [] {
      assert a + b == b;
    } else {
      assert (a + b)[0] == a[0];
      assert (a + b)[1..] == a[1..] + b;
      EcommerceAppend(a[1..], b);
    }
  }

  /** The review-signal pattern matches somewhere in `text`. */
  predicate HasSignal(text: string) {
    exists i :: 0 <= i < |SignalWords| && ContainsCI(text, SignalWords[i])
  }

  function SignalText(s: SourceLike): string {
    s.content.GetOr("")
  }

  /** The sources whose content matches the review-signal pattern. */
  function WithSignal(sources: seq<SourceLike>): (r: seq<SourceLike>)
    ensures |r| <= |sources|
    ensures forall x :: x in r <==> x in sources && HasSignal(SignalText(x))
    ensures (forall k :: 0 <= k < |sources| ==> HasSignal(SignalText(sources[k]))) ==> r == sources
    ensures (forall k :: 0 <= k < |sources| ==> !HasSignal(SignalText(sources[k]))) ==> r == []
    decreases |sources|
  {
    if sources == [] then []
    else
      var rest := WithSignal(sources[1..]);
      assert forall x :: x in sources <==> x == sources[0] || x in sources[1..];
      if HasSignal(SignalText(sources[0])) then [sources[0]] + rest else rest
  }

  /** The signal filter distributes over concatenation, so every matching source
      is kept once, in order. */
  lemma {:induction false} SignalAppend(a: seq<SourceLike>, b: seq<SourceLike>)
    ensures WithSignal(a + b) == WithSignal(a) + WithSignal(b)
    decreases |a|
  {
    if a == [] {
      assert a + b == b;
    } else {
      assert (a + b)[0] == a[0];
      assert (a + b)[1..] == a[1..] + b;
      SignalAppend(a[1..], b);
    }
  }

  /** The host contains one of the four user-review domains. */
  predicate IsReviewHost(host: string) {
    exists i :: 0 <= i < |UserReviewDomains| && Contains(host, UserReviewDomains[i])
  }

  /** The parsable review hosts of the e-commerce sources, in order, repeats
      included: the filter, map and two host filters of `collectReviewEvidence`
      in one pass. */
  function ShopReviewHosts(sources: seq<SourceLike>, parse: Urls.UrlParser): (r: seq<string>)
    ensures forall h :: h in r <==>
              IsReviewHost(h) && exists k :: 0 <= k < |sources| && IsEcommerce(sources[k])
                                             && GetHost(sources[k].url, parse) == Some(h)
    decreases |sources|
  {
    if sources == [] then []
    else
      var rest := ShopReviewHosts(sources[1..], parse);
      assert forall k :: 1 <= k < |sources| ==> sources[k] == sources[1..][k - 1];
      assert forall k :: 0 <= k < |sources| - 1 ==> sources[1..][k] == sources[k + 1];
      ShopReviewHost(sources[0], parse) + rest
  }

  /** The review host of one source, when it is a shop whose host is a
      review host. */
  function ShopReviewHost(source: SourceLike, parse: Urls.UrlParser): (r: seq<string>)
    ensures forall h :: h in r <==> IsReviewHost(h) && IsEcommerce(source) && GetHost(source.url, parse) == Some(h)
  {
    if !IsEcommerce(source) then []
    else
      match GetHost(source.url, parse)
      case None => []
      case Some(h) => if IsReviewHost(h) then [h] else []
  }

  predicate Distinct(xs: seq<string>) {
    forall i, j :: 0 <= i < j < |xs| ==> xs[i] != xs[j]
  }

  /** `Array.from(new Set(xs))`: first occurrences, in order. */
  function Dedup(xs: seq<string>): (r: seq<string>)
    ensures Distinct(r)
    ensures forall x :: x in r <==> x in xs
    ensures |r| <= |xs|
    decreases |xs|
  {
    if xs == [] then []
    else
      var init := Dedup(xs[..|xs| - 1]);
      var x := xs[|xs| - 1];
      assert forall y :: y in xs <==> y in xs[..|xs| - 1] || y == x;
      if x in init then init else init + [x]
  }

  /** The position of the first `x` in `xs`. */
  function FirstAt(xs: seq<string>, x: string): (i: nat)
    requires x in xs
    ensures i < |xs| && xs[i] == x && x !in xs[..i]
    decreases |xs|
  {
    if xs[0] == x then 0
    else
      var i := FirstAt(xs[1..], x) + 1;
      assert xs[..i] == [xs[0]] + xs[1..][..i - 1];
      i
  }

  /** A value that occurs in `a` is first found at the same place in `a + b`. */
  lemma {:induction false} FirstAtPrefix(a: seq<string>, b: seq<string>, x: string)
    requires x in a
    ensures FirstAt(a + b, x) == FirstAt(a, x)
    decreases |a|
  {
    assert (a + b)[0] == a[0];
    if a[0] != x {
      assert (a + b)[1..] == a[1..] + b;
      FirstAtPrefix(a[1..], b, x);
    }
  }

  /** `Dedup` keeps first occurrences in order: of two kept values, the one whose
      first occurrence in the input comes earlier comes earlier. */
  lemma {:induction false} DedupFirstOrder(xs: seq<string>)
    ensures forall i, j :: 0 <= i < j < |Dedup(xs)| ==> FirstAt(xs, Dedup(xs)[i]) < FirstAt(xs, Dedup(xs)[j])
    decreases |xs|
  {
    if xs != [] {
      var init := xs[..|xs| - 1];
      var x := xs[|xs| - 1];
      assert xs == init + [x];
      var d := Dedup(init);
      DedupFirstOrder(init);
      forall y | y in d
        ensures FirstAt(xs, y) == FirstAt(init, y)
      {
        FirstAtPrefix(init, [x], y);
      }
      if x !in d {
        assert FirstAt(xs, x) == |init|;
      }
    }
  }

  /** `collectReviewEvidence`. */
  function Collect(sources: seq<SourceLike>, parse: Urls.UrlParser): (r: Evidence)
    ensures r.totalSources == |sources|
    ensures r.ecommerceSourceCount == |EcommerceOf(sources)|
    ensures r.reviewSignalCount == |WithSignal(EcommerceOf(sources))|
    ensures r.reviewSignalCount <= r.ecommerceSourceCount <= r.totalSources
    ensures Distinct(r.ecommerceDomains)
    ensures forall h :: h in r.ecommerceDomains <==>
              IsReviewHost(h) && exists k :: 0 <= k < |sources| && IsEcommerce(sources[k])
                                             && GetHost(sources[k].url, parse) == Some(h)
    ensures r.hasUserReviewEvidence <==> |r.ecommerceDomains| > 0 && r.reviewSignalCount > 0
  {
    var shops := EcommerceOf(sources);
    var domains := Dedup(ShopReviewHosts(sources, parse));
    var signals := |WithSignal(shops)|;
    Evidence(|sources|, |shops|, domains, signals, |domains| > 0 && signals > 0)
  }

  /** `hasEnoughUserReviewEvidence`. */
  function HasEnough(e: Evidence, p: Policy): (r: bool)
    ensures !p.enabled ==> r
    ensures p.enabled ==> (r <==> e.ecommerceSourceCount >= p.minEcommerceSources
                                   && e.reviewSignalCount >= p.minReviewSignals)
  {
    !p.enabled || (e.ecommerceSourceCount >= p.minEcommerceSources && e.reviewSignalCount >= p.minReviewSignals)
  }

  /** More e-commerce sources and more signal hits never turn a pass into a fail. */
  lemma HasEnoughMonotone(e: Evidence, f: Evidence, p: Policy)
    requires HasEnough(e, p)
    requires f.ecommerceSourceCount >= e.ecommerceSourceCount && f.reviewSignalCount >= e.reviewSignalCount
    ensures HasEnough(f, p)
  {
  }

  /** `parseBooleanEnv`: an absent or empty value is false; otherwise the trimmed,
      lower-cased value must be "true". */
  function ParseBooleanEnv(value: Option<string>): (r: bool)
    ensures r <==> value.Some? && value.value != [] && Lower(Trim(value.value)) == "true"
  {
    match value
    case None => false
    case Some(v) => v != [] && Lower(Trim(v)) == "true"
  }

  /** Surrounding white space and letter case do not matter. */
  lemma BooleanEnvAccepts(pad: string, word: string)
    requires AllSpace(pad) && Lower(word) == "true"
    ensures ParseBooleanEnv(Some(pad + word + pad))
  {
    var v := pad + word + pad;
    assert |word| == 4 && LowerChar(word[0]) == 't' && LowerChar(word[3]) == 'e';
    assert v == pad + (word + pad);
    assert TrimStart(v) == word + pad by { TrimStartOver(pad, word + pad); }
    assert Trim(v) == word by { TrimEndOver(word, pad); }
  }

  lemma TrimStartOver(pad: string, t: string)
    requires AllSpace(pad) && t != [] && !IsSpace(t[0])
    ensures TrimStart(pad + t) == t
    decreases |pad|
  {
    if pad != [] {
      assert (pad + t)[1..] == pad[1..] + t;
      TrimStartOver(pad[1..], t);
    }
  }

  lemma TrimEndOver(t: string, pad: string)
    requires AllSpace(pad) && t != [] && !IsSpace(t[|t| - 1])
    ensures TrimEnd(t + pad) == t
    decreases |pad|
  {
    if pad != [] {
      assert (t + pad)[..|t + pad| - 1] == t + pad[..|pad| - 1];
      TrimEndOver(t, pad[..|pad| - 1]);
    }
  }

  /** `Number.parseInt(s, 10)`: NaN, or a whole number. */
  datatype ParsedInt = NaN | Int(value: int)

  /** The longest prefix of decimal digits. */
  function LeadingDigits(s: string): (r: string)
    ensures |r| <= |s| && r == s[..|r|]
    ensures forall k :: 0 <= k < |r| ==> IsDigit(r[k])
    ensures |r| < |s| ==> !IsDigit(s[|r|])
    decreases |s|
  {
    if s != [] && IsDigit(s[0]) then [s[0]] + LeadingDigits(s[1..]) else []
  }

  /** The value of a string of decimal digits. */
  function DigitsValue(d: string): (r: nat)
    requires forall k :: 0 <= k < |d| ==> IsDigit(d[k])
    decreases |d|
  {
    if d == [] then 0
    else
      assert IsDigit(d[|d| - 1]);
      DigitsValue(d[..|d| - 1]) * 10 + (d[|d| - 1] as int - '0' as int)
  }

  /** `Number.parseInt(s, 10)`: leading white space skipped, an optional sign, then
      the longest run of digits; no digits is NaN. */
  function ParseInt(s: string): (r: ParsedInt)
    ensures r.NaN? <==> LeadingDigits(SignFree(TrimStart(s))) == []
  {
    var t := TrimStart(s);
    var body := SignFree(t);
    var digits := LeadingDigits(body);
    if digits == [] then NaN
    else if t[0] == '-' then Int(0 - DigitsValue(digits) as int)
    else Int(DigitsValue(digits))
  }

  /** The text after an optional leading sign. */
  function SignFree(t: string): (r: string)
    ensures |r| <= |t|
    ensures t != [] && (t[0] == '-' || t[0] == '+') ==> r == t[1..]
    ensures t == [] || (t[0] != '-' && t[0] != '+') ==> r == t
  {
    if t != [] && (t[0] == '-' || t[0] == '+') then t[1..] else t
  }

  lemma {:induction false} DigitsOfNat(n: nat)
    ensures LeadingDigits(NatToString(n)) == NatToString(n)
    ensures DigitsValue(NatToString(n)) == n
    decreases n
  {
    var s := NatToString(n);
    LeadingAllDigits(s);
    if n >= 10 {
      DigitsOfNat(n / 10);
      assert s[..|s| - 1] == NatToString(n / 10);
    }
  }

  lemma {:induction false} LeadingAllDigits(s: string)
    requires forall k :: 0 <= k < |s| ==> IsDigit(s[k])
    ensures LeadingDigits(s) == s
    decreases |s|
  {
    if s != [] {
      LeadingAllDigits(s[1..]);
    }
  }

  /** `parseInt` reads back the decimal form of any natural number. */
  lemma ParseIntOfDecimal(n: nat)
    ensures ParseInt(NatToString(n)) == Int(n)
  {
    var s := NatToString(n);
    DigitsOfNat(n);
    assert !IsSpace(s[0]) && !(s[0] == '-' || s[0] == '+');
    assert TrimStart(s) == s;
  }

  /** `parsePositiveIntEnv`: the parsed value when it is at least 1, else the
      fallback. */
  function ParsePositiveIntEnv(value: Option<string>, fallback: int): (r: int)
    ensures r == fallback || r >= 1
    ensures r != fallback ==> ParseInt(value.GetOr("")) == Int(r)
    ensures ParseInt(value.GetOr("")).Int? && ParseInt(value.GetOr("")).value >= 1 ==>
              r == ParseInt(value.GetOr("")).value
  {
    match ParseInt(value.GetOr(""))
    case NaN => fallback
    case Int(v) => if v < 1 then fallback else v
  }

  /** A positive decimal setting is read as written; zero falls back. */
  lemma PositiveIntEnvOfDecimal(n: nat, fallback: int)
    ensures n >= 1 ==> ParsePositiveIntEnv(Some(NatToString(n)), fallback) == n
    ensures n == 0 ==> ParsePositiveIntEnv(Some(NatToString(n)), fallback) == fallback
  {
    ParseIntOfDecimal(n);
  }

  /** The environment: the value of a variable, if set. */
  type Env = string -> Option<string>

  /** `getStrictEvidencePolicy`. */
  function PolicyOf(env: Env): (p: Policy)
    ensures p.enabled == ParseBooleanEnv(env("STRICT_REVIEW_EVIDENCE_MODE"))
    ensures p.minEcommerceSources >= 1 && p.minReviewSignals >= 1
    ensures env("STRICT_REVIEW_MIN_ECOMMERCE_SOURCES").None? ==> p.minEcommerceSources == DefaultThreshold
    ensures env("STRICT_REVIEW_MIN_SIGNAL_HITS").None? ==> p.minReviewSignals == DefaultThreshold
  {
    Policy(
      ParseBooleanEnv(env("STRICT_REVIEW_EVIDENCE_MODE")),
      ParsePositiveIntEnv(env("STRICT_REVIEW_MIN_ECOMMERCE_SOURCES"), DefaultThreshold),
      ParsePositiveIntEnv(env("STRICT_REVIEW_MIN_SIGNAL_HITS"), DefaultThreshold))
  }

  /** Under an enabled policy read from the environment, a corpus without any
      e-commerce source never has enough evidence. */
  lemma StrictNeedsEcommerce(env: Env, sources: seq<SourceLike>, parse: Urls.UrlParser)
    requires PolicyOf(env).enabled
    requires forall k :: 0 <= k < |sources| ==> !IsEcommerce(sources[k])
    ensures !HasEnough(Collect(sources, parse), PolicyOf(env))
  {
    NoEcommerce(sources);
  }

  lemma {:induction false} NoEcommerce(sources: seq<SourceLike>)
    requires forall k :: 0 <= k < |sources| ==> !IsEcommerce(sources[k])
    ensures EcommerceOf(sources) == []
    decreases |sources|
  {
    if sources != [] {
      assert forall k :: 0 <= k < |sources| - 1 ==> sources[1..][k] == sources[k + 1];
      NoEcommerce(sources[1..]);
    }
  }
}
