/** `parseChoices`: a comma-separated list of 1-based numbers, each resolved
    against an ordered catalog of option labels. */
module Choices {
  import opened Wrappers

  // ---------------------------------------------------------------------------
  // Splitting on ',' with `getline(ss, token, ',')`
  // ---------------------------------------------------------------------------

  /** One call of `getline(ss, token, ',')` on a non-empty remaining stream `s`:
      the characters up to the first ',' (which is consumed), or all of `s`. */
  function NextToken(s: string): (r: (string, string))
    requires s != []
    ensures ',' !in r.0
    ensures |r.1| < |s|
  {
    if s[0] == ',' then ([], s[1..])
    else if |s| == 1 then (s, [])
    else
      var (t, rest) := NextToken(s[1..]);
      ([s[0]] + t, rest)
  }

  /** The token is everything before the first ',', and the rest of the stream
      everything after it; without a ',' the whole stream is the token. */
  lemma {:induction false} NextTokenSplits(s: string)
    requires s != []
    ensures ',' in s ==> s == NextToken(s).0 + [','] + NextToken(s).1
    ensures ',' !in s ==> NextToken(s) == (s, [])
  {
    if s[0] != ',' && |s| > 1 {
      NextTokenSplits(s[1..]);
      assert s == [s[0]] + s[1..];
    }
  }

  /** The tokens the `while (getline(...))` loop sees: `getline` fails only on
      an exhausted stream, so a trailing ',' adds no token and ",," gives two
      empty tokens. */
  function Tokens(s: string): seq<string>
    decreases |s|
  {
    if s == [] then [] else
      var (t, rest) := NextToken(s);
      [t] + Tokens(rest)
  }

  /** No token holds a ',', every token uses up at least one character of the
      input, and only the empty input has no token at all. */
  lemma {:induction false} TokensShape(s: string)
    ensures forall k :: 0 <= k < |Tokens(s)| ==> ',' !in Tokens(s)[k]
    ensures |Tokens(s)| <= |s|
    ensures s != [] <==> Tokens(s) != []
    decreases |s|
  {
    if s != [] {
      TokensShape(NextToken(s).1);
    }
  }

  /** A comma-free prefix followed by ',' is exactly what `getline` extracts. */
  lemma {:induction false} NextTokenSplit(x: string, y: string)
    requires ',' !in x
    ensures NextToken(x + [','] + y) == (x, y)
  {
    var s := x + [','] + y;
    if x == [] {
      assert s[1..] == y;
    } else {
      assert s[1..] == x[1..] + [','] + y;
      NextTokenSplit(x[1..], y);
      assert x == [x[0]] + x[1..];
    }
  }

  /** Joins tokens with ',' in between (the inverse of `Tokens`). */
  function Join(ts: seq<string>): string
  {
    if ts == [] then []
    else if |ts| == 1 then ts[0]
    else ts[0] + [','] + Join(ts[1..])
  }

  /** Splitting undoes joining, provided no token holds a ',' and the last token
      is not empty (an empty last token would be a trailing ',' that `getline`
      does not report). */
  lemma {:induction false} TokensOfJoin(ts: seq<string>)
    requires forall k :: 0 <= k < |ts| ==> ',' !in ts[k]
    requires ts == [] || ts[|ts| - 1] != []
    ensures Tokens(Join(ts)) == ts
  {
    if |ts| == 1 {
      NextTokenSplits(ts[0]);
      assert Tokens(ts[0]) == [ts[0]] + Tokens([]);
    } else if |ts| > 1 {
      NextTokenSplit(ts[0], Join(ts[1..]));
      TokensOfJoin(ts[1..]);
    }
  }

  /** A trailing ',' after a last non-empty token yields no extra token. */
  lemma {:induction false} TrailingCommaIgnored(s: string)
    requires s != [] && s[|s| - 1] != ','
    ensures Tokens(s + [',']) == Tokens(s)
    decreases |s|
  {
    NextTokenSplits(s);
    if ',' in s {
      var (t, rest) := NextToken(s);
      NextTokenSplit(t, rest + [',']);
      assert s + [','] == t + [','] + (rest + [',']);
      assert rest != [] && rest[|rest| - 1] == s[|s| - 1];
      TrailingCommaIgnored(rest);
    } else {
      NextTokenSplit(s, []);
      assert s + [','] + [] == s + [','];
      assert Tokens(s) == [s] + Tokens([]);
    }
  }

  // ---------------------------------------------------------------------------
  // `stoi` (base 10, 32-bit int)
  // ---------------------------------------------------------------------------

  const IntMin: int := -0x8000_0000
  const IntMax: int := 0x7fff_ffff

  /** `isspace` in the C locale. */
  predicate IsSpace(c: char)
  {
    c == ' ' || c == '\t' || c == '\n' || c == '\U{0B}' || c == '\U{0C}' || c == '\r'
  }

  predicate IsDigit(c: char) { '0' <= c <= '9' }

  function DigitValue(c: char): nat
    requires IsDigit(c)
  {
    c as int - '0' as int
  }

  /** Drops leading white space. */
  function SkipSpace(s: string): (r: string)
    ensures |r| <= |s|
    ensures r == [] || !IsSpace(r[0])
  {
    if s != [] && IsSpace(s[0]) then SkipSpace(s[1..]) else s
  }

  /** What `SkipSpace` keeps is what follows the longest run of white space at
      the front of the input. */
  lemma {:induction false} SkipSpaceSuffix(s: string)
    ensures var r := SkipSpace(s);
      && r == s[|s| - |r|..]
      && forall i :: 0 <= i < |s| - |r| ==> IsSpace(s[i])
  {
    if s != [] && IsSpace(s[0]) {
      SkipSpaceSuffix(s[1..]);
    }
  }

  /** The longest prefix of `s` made of decimal digits. */
  function DigitPrefix(s: string): (r: string)
    ensures |r| <= |s|
    ensures forall i :: 0 <= i < |r| ==> IsDigit(r[i])
    ensures |r| < |s| ==> !IsDigit(s[|r|])
  {
    if s != [] && IsDigit(s[0]) then [s[0]] + DigitPrefix(s[1..]) else []
  }

  /** The digits `stoi` reads are the input's own first characters. */
  lemma {:induction false} DigitPrefixIsPrefix(s: string)
    ensures DigitPrefix(s) == s[..|DigitPrefix(s)|]
  {
    if s != [] && IsDigit(s[0]) {
      DigitPrefixIsPrefix(s[1..]);
    }
  }

  /** The number a string of decimal digits denotes. */
  function DigitsValue(d: string): nat
    requires forall i :: 0 <= i < |d| ==> IsDigit(d[i])
  {
    if d == [] then 0 else 10 * DigitsValue(d[..|d| - 1]) + DigitValue(d[|d| - 1])
  }

  /** The text after an optional leading sign. */
  function Unsigned(t: string): string
  {
    if t != [] && (t[0] == '-' || t[0] == '+') then t[1..] else t
  }

  /** The leading integer of `t` (sign, then digits), unbounded; None when no
      digit follows the optional sign. */
  function LeadingInteger(t: string): Option<int>
  {
    var digits := DigitPrefix(Unsigned(t));
    if digits == [] then None
    else
      var magnitude: int := DigitsValue(digits);
      Some(if t[0] == '-' then -magnitude else magnitude)
  }

  /** `stoi(token)`: skip white space, read an optional sign and at least one
      digit, ignore whatever follows. None stands for the `invalid_argument`
      (no digits) and `out_of_range` (outside `int`) exceptions. */
  function Stoi(token: string): Option<int>
  {
    match LeadingInteger(SkipSpace(token))
    case None => None
    case Some(v) => if IntMin <= v <= IntMax then Some(v) else None
  }

  /** A leading integer needs a digit right after the optional sign, and it is
      negative only after a '-'. */
  lemma LeadingIntegerShape(t: string)
    ensures LeadingInteger(t).None? <==> Unsigned(t) == [] || !IsDigit(Unsigned(t)[0])
    ensures LeadingInteger(t).Some? && LeadingInteger(t).value < 0 ==> t[0] == '-'
  {
  }

  /** `stoi` succeeds only on a token whose first character after the white
      space and the optional sign is a digit, and only with a value that fits
      in `int`. */
  lemma StoiShape(token: string)
    ensures Stoi(token).Some? ==> IntMin <= Stoi(token).value <= IntMax
    ensures Stoi(token).Some? ==> var u := Unsigned(SkipSpace(token)); u != [] && IsDigit(u[0])
  {
    LeadingIntegerShape(SkipSpace(token));
  }

  /** A token without any digit never parses (`"abc"`, `""`, `" "`). */
  lemma NoDigitNoNumber(token: string)
    requires forall i :: 0 <= i < |token| ==> !IsDigit(token[i])
    ensures Stoi(token).None?
  {
    var t := SkipSpace(token);
    var u := Unsigned(t);
    SkipSpaceSuffix(token);
    if u != [] {
      assert u[0] == t[|t| - |u|] == token[|token| - |u|];
    }
  }

  /** The decimal spelling of a natural number, most significant digit first. */
  function Decimal(n: nat): (r: string)
    ensures r != [] && forall i :: 0 <= i < |r| ==> IsDigit(r[i])
  {
    if n < 10 then [('0' as int + n) as char]
    else Decimal(n / 10) + [('0' as int + n % 10) as char]
  }

  lemma {:induction false} DecimalValue(n: nat)
    ensures DigitsValue(Decimal(n)) == n
  {
    if n >= 10 {
      var d := Decimal(n);
      assert d[..|d| - 1] == Decimal(n / 10);
      DecimalValue(n / 10);
    }
  }

  lemma {:induction false} DigitPrefixOf(d: string, rest: string)
    requires forall i :: 0 <= i < |d| ==> IsDigit(d[i])
    requires rest == [] || !IsDigit(rest[0])
    ensures DigitPrefix(d + rest) == d
  {
    if d != [] {
      assert (d + rest)[1..] == d[1..] + rest;
      DigitPrefixOf(d[1..], rest);
    }
  }

  /** `stoi` reads back any non-negative `int` written in decimal, whatever
      non-digit text follows it. */
  lemma StoiDecimal(n: nat, rest: string)
    requires n <= IntMax
    requires rest == [] || !IsDigit(rest[0])
    ensures Stoi(Decimal(n) + rest) == Some(n)
  {
    var s := Decimal(n) + rest;
    assert IsDigit(s[0]);
    assert SkipSpace(s) == s;
    assert Unsigned(s) == s;
    DigitPrefixOf(Decimal(n), rest);
    DecimalValue(n);
    assert LeadingInteger(s) == Some(n);
  }

  // ---------------------------------------------------------------------------
  // `parseChoices`
  // ---------------------------------------------------------------------------

  /** The option a single token selects: `options[n - 1]` when `stoi` yields an
      `n` in `[1, |options|]`, nothing otherwise. */
  function Pick(token: string, options: seq<string>): (r: seq<string>)
    ensures |r| <= 1
    ensures r != [] <==> Stoi(token).Some? && 1 <= Stoi(token).value <= |options|
    ensures r != [] ==> r[0] == options[Stoi(token).value - 1]
  {
    match Stoi(token)
    case Some(n) => if 1 <= n <= |options| then [options[n - 1]] else []
    case None => []
  }

  /** The selections of a list of tokens, in token order, duplicates kept. */
  function Picks(tokens: seq<string>, options: seq<string>): (r: seq<string>)
    ensures |r| <= |tokens|
    ensures forall i :: 0 <= i < |r| ==> r[i] in options
  {
    if tokens == [] then []
    else Picks(tokens[..|tokens| - 1], options) + Pick(tokens[|tokens| - 1], options)
  }

  /** What `parseChoices(input, options)` returns. */
  function SelectedOptions(input: string, options: seq<string>): seq<string>
  {
    Picks(Tokens(input), options)
  }

  /** `parseChoices` returns options only, never more than the input has
      tokens, and nothing for empty input. */
  lemma SelectedOptionsShape(input: string, options: seq<string>)
    ensures |SelectedOptions(input, options)| <= |Tokens(input)| <= |input|
    ensures forall i :: 0 <= i < |SelectedOptions(input, options)| ==> SelectedOptions(input, options)[i] in options
    ensures input == [] ==> SelectedOptions(input, options) == []
  {
    TokensShape(input);
  }

  /** Selections of consecutive token lists are concatenated: the result keeps
      token order and every token contributes independently. */
  lemma {:induction false} PicksAppend(a: seq<string>, b: seq<string>, options: seq<string>)
    ensures Picks(a + b, options) == Picks(a, options) + Picks(b, options)
    decreases |b|
  {
    if b == [] {
      assert a + b == a;
    } else {
      var b' := b[..|b| - 1];
      assert (a + b)[..|a + b| - 1] == a + b';
      assert (a + b)[|a + b| - 1] == b[|b| - 1];
      PicksAppend(a, b', options);
    }
  }

  lemma PicksSingle(t: string, options: seq<string>)
    ensures Picks([t], options) == Pick(t, options)
  {
    assert [t][..0] == [];
  }

  /** Dropping a token that selects nothing (non-numeric, `<= 0`, beyond the
      catalog or outside `int`) does not change the result. */
  lemma DroppedToken(a: seq<string>, t: string, b: seq<string>, options: seq<string>)
    requires Stoi(t).None? || !(1 <= Stoi(t).value <= |options|)
    ensures Picks(a + [t] + b, options) == Picks(a + b, options)
  {
    PicksAppend(a + [t], b, options);
    PicksAppend(a, [t], options);
    PicksAppend(a, b, options);
    PicksSingle(t, options);
    assert Picks(a + [t], options) == Picks(a, options);
  }

  /** One more token appends its selection. */
  lemma PicksSnoc(consumed: seq<string>, token: string, options: seq<string>)
    ensures Picks(consumed + [token], options) == Picks(consumed, options) + Pick(token, options)
  {
    assert (consumed + [token])[..|consumed|] == consumed;
  }

  /** `parseChoices` as the source runs it: one `getline` per iteration, one
      `push_back` per token that selects an option. */
  method ParseChoices(input: string, options: seq<string>) returns (result: seq<string>)
    ensures result == SelectedOptions(input, options)
  {
    result := [];
    var stream := input;
    ghost var consumed: seq<string> := [];
    while stream != []
      invariant Tokens(input) == consumed + Tokens(stream)
      invariant result == Picks(consumed, options)
      decreases |stream|
    {
      var (token, rest) := NextToken(stream);
      assert Tokens(stream) == [token] + Tokens(rest);
      assert consumed + [token] + Tokens(rest) == consumed + ([token] + Tokens(rest));
      PicksSnoc(consumed, token, options);
      consumed := consumed + [token];
      var choice := Stoi(token);
      if choice.Some? && 1 <= choice.value <= |options| {
        result := result + [options[choice.value - 1]];
      }
      stream := rest;
    }
    assert consumed == Tokens(input);
  }
}
