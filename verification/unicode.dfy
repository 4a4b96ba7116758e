/** The Unicode services the code takes from the JavaScript runtime: NFKD
    normalisation, `toLowerCase`, and the `\p{Letter}` / `\p{Number}` classes.
    They are parameters of the model; `Lawful` lists the facts about them the
    proofs use, each of which the real tables satisfy. */
module Unicode {
  import Text

  datatype Env = Env(
    nfkd: string -> string,
    /** Lowercase mapping of one character (one character can become several). */
    lower: char -> string,
    /** Uppercase mapping of one character (one character can become several). */
    upper: char -> string,
    /** `\p{Letter}` or `\p{Number}`. */
    isLetterOrNumber: char -> bool)

  /** `toLowerCase`, character by character. */
  function ToLower(env: Env, s: string): (r: string)
    ensures s == [] ==> r == []
    decreases |s|
  {
    if s == [] then [] else env.lower(s[0]) + ToLower(env, s[1..])
  }

  /** `toUpperCase`, character by character. */
  function ToUpper(env: Env, s: string): (r: string)
    ensures s == [] ==> r == []
    decreases |s|
  {
    if s == [] then [] else env.upper(s[0]) + ToUpper(env, s[1..])
  }

  predicate IsCombiningMark(c: char) {
    '\U{0300}' <= c <= '\U{036F}'
  }

  /** Facts about the Unicode tables used by the proofs:
      - NFKD of the empty string is empty;
      - ASCII characters lowercase and uppercase as ASCII does, and no character
        case-maps to nothing;
      - lowercasing is idempotent on the characters it produces;
      - ASCII letters and digits are letters or numbers, other ASCII characters and
        combining diacritical marks are not. */
  predicate Lawful(env: Env) {
    && env.nfkd([]) == []
    && (forall c: char :: c <= '\U{7F}' ==> env.lower(c) == [Text.LowerChar(c)])
    && (forall c: char :: c <= '\U{7F}' ==> env.upper(c) == [Text.UpperChar(c)])
    && (forall c: char :: env.lower(c) != [] && env.upper(c) != [])
    && (forall c: char, k :: 0 <= k < |env.lower(c)| ==> IsOwnLower(env, env.lower(c)[k]))
    && (forall c: char :: c <= '\U{7F}' ==> (env.isLetterOrNumber(c) <==> Text.IsAsciiLetter(c) || Text.IsDigit(c)))
    && (forall c: char :: IsCombiningMark(c) ==> !env.isLetterOrNumber(c))
  }

  /** A dash is neither a letter nor a number, and is its own lower and upper case. */
  lemma DashFacts(env: Env)
    requires Lawful(env)
    ensures !env.isLetterOrNumber('-') && env.lower('-') == ['-'] && env.upper('-') == ['-']
  {
    assert '-' <= '\U{7F}';
    assert env.lower('-') == [Text.LowerChar('-')];
    assert env.upper('-') == [Text.UpperChar('-')];
  }

  /** `c` is its own lower-case form. */
  predicate IsOwnLower(env: Env, c: char) {
    env.lower(c) == [c]
  }

  lemma {:induction false} ToLowerAscii(env: Env, s: string)
    requires Lawful(env) && forall k :: 0 <= k < |s| ==> s[k] <= '\U{7F}'
    ensures ToLower(env, s) == Text.Lower(s)
    decreases |s|
  {
    if s != [] {
      assert s[0] <= '\U{7F}';
      var head := env.lower(s[0]);
      assert head == [Text.LowerChar(s[0])];
      ToLowerAscii(env, s[1..]);
      assert ToLower(env, s) == head + ToLower(env, s[1..]);
      assert Text.Lower(s) == [Text.LowerChar(s[0])] + Text.Lower(s[1..]);
    }
  }

  lemma {:induction false} ToUpperAscii(env: Env, s: string)
    requires Lawful(env) && forall k :: 0 <= k < |s| ==> s[k] <= '\U{7F}'
    ensures ToUpper(env, s) == Text.Upper(s)
    decreases |s|
  {
    if s != [] {
      assert s[0] <= '\U{7F}';
      var head := env.upper(s[0]);
      assert head == [Text.UpperChar(s[0])];
      ToUpperAscii(env, s[1..]);
      assert ToUpper(env, s) == head + ToUpper(env, s[1..]);
      assert Text.Upper(s) == [Text.UpperChar(s[0])] + Text.Upper(s[1..]);
    }
  }

  /** Case mapping goes character by character, so it distributes over `+`. */
  lemma {:induction false} ToUpperAppend(env: Env, a: string, b: string)
    ensures ToUpper(env, a + b) == ToUpper(env, a) + ToUpper(env, b)
    decreases |a|
  {
    if a == [] {
      assert a + b == b;
    } else {
      assert (a + b)[0] == a[0];
      assert (a + b)[1..] == a[1..] + b;
      ToUpperAppend(env, a[1..], b);
    }
  }

  /** No character upper-cases to nothing, so the upper-case form is at least as long. */
  lemma {:induction false} ToUpperLength(env: Env, s: string)
    requires Lawful(env)
    ensures |ToUpper(env, s)| >= |s|
    decreases |s|
  {
    if s != [] {
      ToUpperLength(env, s[1..]);
    }
  }
}
