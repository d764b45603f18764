/** Searching in strings, as `std::string::find` and `strstr` do. */
module Text {
  import opened Options

  predicate Occurs(s: string, pat: string, i: nat) {
    i + |pat| <= |s| && s[i..i + |pat|] == pat
  }

  // The first occurrence of `pat` in `s` at or after `start`.
  function FindFrom(s: string, pat: string, start: nat): (r: Option<nat>)
    requires start <= |s|
    ensures r.Some? ==> start <= r.value && Occurs(s, pat, r.value)
    ensures r.Some? ==> forall j | start <= j < r.value :: !Occurs(s, pat, j)
    ensures r.None? ==> forall j | start <= j :: !Occurs(s, pat, j)
    decreases |s| - start
  {
    if Occurs(s, pat, start) then Some(start)
    else if start == |s| then None
    else FindFrom(s, pat, start + 1)
  }

  function Find(s: string, pat: string): (r: Option<nat>)
    ensures r.Some? ==> Occurs(s, pat, r.value) && forall j | 0 <= j < r.value :: !Occurs(s, pat, j)
    ensures r.None? ==> forall j: nat :: !Occurs(s, pat, j)
  {
    FindFrom(s, pat, 0)
  }

  // The first occurrence is what the search finds.
  lemma FindIs(s: string, pat: string, i: nat)
    requires Occurs(s, pat, i) && forall j | 0 <= j < i :: !Occurs(s, pat, j)
    ensures Find(s, pat) == Some(i)
  {}

  lemma FindNothing(s: string, pat: string)
    requires forall j: nat :: !Occurs(s, pat, j)
    ensures Find(s, pat) == None
  {}

  lemma OccursChar(s: string, c: char, i: nat)
    ensures Occurs(s, [c], i) <==> i < |s| && s[i] == c
  {}

  lemma TwoChars(s: string, a: char, b: char, i: nat)
    ensures Occurs(s, [a, b], i) <==> i + 1 < |s| && s[i] == a && s[i + 1] == b
  {
    if i + 1 < |s| { assert s[i..i + 2] == [s[i], s[i + 1]]; }
  }

  // ----- C strings -----

  const NUL: char := '\0'

  // What a `char *` to the start of `s` denotes.
  function CString(s: string): string
    decreases |s|
  {
    if s == [] || s[0] == NUL then [] else [s[0]] + CString(s[1..])
  }

  predicate NoNul(s: string) {
    NUL !in s
  }

  function Nuls(n: nat): string {
    seq(n, _ => NUL)
  }

  lemma {:induction false} CStringOfText(s: string, rest: string)
    requires NoNul(s)
    ensures CString(s) == s
    ensures CString(s + [NUL] + rest) == s
    decreases |s|
  {
    if s != [] {
      assert (s + [NUL] + rest)[1..] == s[1..] + [NUL] + rest;
      CStringOfText(s[1..], rest);
    }
  }

  lemma {:induction false} CStringShort(s: string)
    ensures |CString(s)| <= |s| && NoNul(CString(s))
    decreases |s|
  {
    if s != [] && s[0] != NUL { CStringShort(s[1..]); }
  }

  // ----- decimal numbers -----

  predicate Digit(c: char) {
    '0' <= c <= '9'
  }

  // The number read so far continued with the leading digits of `s`.
  function Digits(s: string, value: nat): nat
    decreases |s|
  {
    if s != "" && Digit(s[0]) then Digits(s[1..], 10 * value + (s[0] - '0') as nat) else value
  }

  predicate AllDigits(s: string) {
    forall i | 0 <= i < |s| :: Digit(s[i])
  }

  function Power10(k: nat): nat {
    if k == 0 then 1 else 10 * Power10(k - 1)
  }

  /** The number a decimal numeral denotes: every digit times the power of ten of its place. */
  function Positional(s: string): nat
    requires AllDigits(s)
    decreases |s|
  {
    if s == "" then 0 else
    assert Digit(s[0]) && forall i | 0 <= i < |s| - 1 :: s[1..][i] == s[i + 1];
    (s[0] - '0') as nat * Power10(|s| - 1) + Positional(s[1..])
  }

  // Reading digits one by one gives that number, and stops behind the last digit.
  lemma {:induction false} DigitsArePositional(s: string, rest: string, value: nat)
    requires AllDigits(s) && (rest == "" || !Digit(rest[0]))
    ensures Digits(s + rest, value) == value * Power10(|s|) + Positional(s)
    decreases |s|
  {
    if s == "" {
      assert s + rest == rest;
    } else {
      var d := (s[0] - '0') as nat;
      assert Digit(s[0]) && forall i | 0 <= i < |s| - 1 :: s[1..][i] == s[i + 1];
      assert (s + rest)[1..] == s[1..] + rest;
      DigitsArePositional(s[1..], rest, 10 * value + d);
      Shifted(value, d, Power10(|s| - 1));
    }
  }

  lemma Shifted(value: nat, d: nat, power: nat)
    ensures (10 * value + d) * power == value * (10 * power) + d * power
  {}

  // The digits at the start of a text.
  function LeadingDigits(s: string): (r: string)
    ensures AllDigits(r) && r <= s && (|r| < |s| ==> !Digit(s[|r|]))
    decreases |s|
  {
    if s != "" && Digit(s[0]) then [s[0]] + LeadingDigits(s[1..]) else ""
  }

  lemma DigitsAreLeading(s: string)
    ensures Digits(s, 0) == Positional(LeadingDigits(s))
  {
    var n := |LeadingDigits(s)|;
    assert s == LeadingDigits(s) + s[n..];
    DigitsArePositional(LeadingDigits(s), s[n..], 0);
  }
}
