/** The textual form of a frequency: `LNUtility::explodeString` (utility.cpp) and the printer and
    parser of `LNFreq` (monitor.cpp). */
module FrequencyText {
  import opened Options
  import opened Text

  // ----- explodeString -----

  // The fragments from offset `start` on.
  function Fragments(str: string, sep: string, start: nat): seq<string>
    requires sep != "" && start <= |str|
    decreases |str| - start
  {
    match FindFrom(str, sep, start)
    case Some(p) => [str[start..p]] + Fragments(str, sep, p + |sep|)
    case None => if start < |str| then [str[start..]] else []
  }

  function Explode(str: string, sep: string): seq<string>
    requires str != "" ==> sep != ""
  {
    if str == "" then [""] else Fragments(str, sep, 0)
  }

  // What is left behind the last separator.
  function Leftover(str: string, sep: string, start: nat): string
    requires sep != "" && start <= |str|
    decreases |str| - start
  {
    match FindFrom(str, sep, start)
    case Some(p) => Leftover(str, sep, p + |sep|)
    case None => str[start..]
  }

  method ExplodeString(str: string, separator: string) returns (result: seq<string>)
    requires str != "" ==> separator != ""
    ensures result == Explode(str, separator)
  {
    if |str| == 0 {
      return [str];
    }
    result := [];
    var fragStart := 0;
    var sepPos := FindFrom(str, separator, 0);
    while sepPos.Some?
      invariant fragStart <= |str| && sepPos == FindFrom(str, separator, fragStart)
      invariant Explode(str, separator) == result + Fragments(str, separator, fragStart)
      decreases |str| - fragStart
    {
      ghost var before, fragment := result, str[fragStart..sepPos.value];
      result := result + [str[fragStart..sepPos.value]];
      fragStart := sepPos.value + |separator|;
      sepPos := FindFrom(str, separator, fragStart);
      ghost var rest := Fragments(str, separator, fragStart);
      assert before + ([fragment] + rest) == result + rest;
    }
    var subs := str[fragStart..];
    if 0 < |subs| {
      result := result + [subs];
    }
  }

  function Join(frags: seq<string>, sep: string): string
    decreases |frags|
  {
    if frags == [] then ""
    else if |frags| == 1 then frags[0]
    else frags[0] + sep + Join(frags[1..], sep)
  }

  lemma {:induction false} FragmentsJoin(str: string, sep: string, start: nat)
    requires sep != "" && start < |str|
    ensures Fragments(str, sep, start) != []
    ensures str[start..] == Join(Fragments(str, sep, start), sep) + if Leftover(str, sep, start) == "" then sep else ""
    decreases |str| - start
  {
    var frags := Fragments(str, sep, start);
    match FindFrom(str, sep, start)
    case None =>
    case Some(p) =>
      var next := p + |sep|;
      assert str[start..] == str[start..p] + sep + str[next..];
      if next < |str| {
        FragmentsJoin(str, sep, next);
        assert frags[1..] == Fragments(str, sep, next);
      } else {
        assert FindFrom(str, sep, next) == None;
        assert Fragments(str, sep, next) == [] && frags == [str[start..p]];
      }
  }

  /** Joining the fragments gives back the string, less one separator at its end when nothing follows
      that. */
  lemma ExplodeJoin(str: string, sep: string)
    requires sep != ""
    ensures str == Join(Explode(str, sep), sep) + if str != "" && Leftover(str, sep, 0) == "" then sep else ""
  {
    if str != "" {
      FragmentsJoin(str, sep, 0);
      assert str[0..] == str;
    }
  }

  /** No fragment contains the separator. */
  lemma {:induction false} FragmentsSeparate(str: string, sep: string, start: nat, i: nat)
    requires sep != "" && start <= |str| && i < |Fragments(str, sep, start)|
    ensures Find(Fragments(str, sep, start)[i], sep) == None
    decreases |str| - start
  {
    match FindFrom(str, sep, start)
    case None =>
      FreeOf(str, sep, start, |str|);
      assert str[start..|str|] == str[start..];
    case Some(p) =>
      if i == 0 { FreeOf(str, sep, start, p); } else { FragmentsSeparate(str, sep, p + |sep|, i - 1); }
  }

  lemma OccursInSlice(str: string, pat: string, i: nat, j: nat, k: nat)
    requires i <= j <= |str|
    ensures Occurs(str[i..j], pat, k) <==> i + k + |pat| <= j && Occurs(str, pat, i + k)
  {
    if i + k + |pat| <= j {
      var n, t := |pat|, str[i..j];
      var u, v := t[k..k + n], str[i + k..i + k + n];
      assert |u| == |v| && forall x | 0 <= x < n :: u[x] == t[k + x] == str[i + (k + x)] == v[x];
      assert u == v;
    }
  }

  lemma FreeOf(str: string, sep: string, i: nat, j: nat)
    requires i <= j <= |str| && sep != "" && forall k | i <= k < j :: !Occurs(str, sep, k)
    ensures Find(str[i..j], sep) == None
  {
    forall k: nat ensures !Occurs(str[i..j], sep, k) {
      OccursInSlice(str, sep, i, j, k);
    }
    FindNothing(str[i..j], sep);
  }

  /** Conversely, two fragments free of a one-byte separator, the second not empty, come back. */
  lemma ExplodeOfPair(a: string, c: char, b: string)
    requires c !in a && c !in b && b != ""
    ensures Explode(a + [c] + b, [c]) == [a, b]
  {
    var s, n := a + [c] + b, |a|;
    forall j | 0 <= j < n ensures !Occurs(s, [c], j) { OccursChar(s, c, j); }
    OccursChar(s, c, n);
    assert FindFrom(s, [c], 0) == Some(n);
    forall j | n + 1 <= j ensures !Occurs(s, [c], j) { OccursChar(s, c, j); }
    assert FindFrom(s, [c], n + 1) == None;
    assert s[0..n] == a && s[n + 1..] == b;
    assert Fragments(s, [c], n + 1) == [b];
  }

  // ----- printing and parsing numbers -----

  const TWO_32: nat := 0x1_0000_0000
  const TWO_64: nat := 0x1_0000_0000_0000_0000

  // What "%d" makes of an unsigned 64-bit argument: its low 32 bits as a signed number.
  function Int32(v: nat): int {
    var low := v % TWO_32;
    if low < TWO_32 / 2 then low else low - TWO_32
  }

  // An int assigned to an unsigned 64-bit variable.
  function Unsigned64(v: int): nat {
    v % TWO_64
  }

  function DecimalNat(n: nat): string
    decreases n
  {
    (if n < 10 then "" else DecimalNat(n / 10)) + [('0' as int + n % 10) as char]
  }

  function Decimal(n: int): string {
    if n < 0 then "-" + DecimalNat(-n) else DecimalNat(n)
  }

  predicate Space(c: char) {
    c == ' ' || '\t' <= c <= '\r'
  }

  function SkipSpace(s: string): string
    decreases |s|
  {
    if s != "" && Space(s[0]) then SkipSpace(s[1..]) else s
  }

  function Atoi(s: string): int {
    var t := SkipSpace(s);
    if t != "" && t[0] == '-' then -(Digits(t[1..], 0) as int)
    else if t != "" && t[0] == '+' then Digits(t[1..], 0)
    else Digits(t, 0)
  }

  // The white space of the C locale.
  predicate White(c: char) {
    c == ' ' || c == '\t' || c == '\n' || c == '\U{0B}' || c == '\U{0C}' || c == '\r'
  }

  lemma {:induction false} SpacesSkipped(spaces: string, t: string)
    requires (forall i | 0 <= i < |spaces| :: White(spaces[i])) && (t == "" || !White(t[0]))
    ensures SkipSpace(spaces + t) == t
    decreases |spaces|
  {
    if spaces == "" {
      assert spaces + t == t;
    } else {
      assert White(spaces[0]) && (spaces + t)[1..] == spaces[1..] + t;
      assert forall i | 0 <= i < |spaces| - 1 :: spaces[1..][i] == spaces[i + 1];
      SpacesSkipped(spaces[1..], t);
    }
  }

  lemma SpacesIgnored(spaces: string, t: string)
    requires (forall i | 0 <= i < |spaces| :: White(spaces[i])) && (t == "" || !White(t[0]))
    ensures Atoi(spaces + t) == Atoi(t)
  {
    SpacesSkipped(spaces, t);
    SpacesSkipped("", t);
    assert "" + t == t;
  }

  // A numeral without a sign, or what is none.
  lemma UnsignedReads(spaces: string, digits: string, rest: string)
    requires (forall i | 0 <= i < |spaces| :: White(spaces[i])) && AllDigits(digits) && (rest == "" || !Digit(rest[0]))
    requires digits == "" && rest != "" ==> !White(rest[0]) && rest[0] != '+' && rest[0] != '-'
    ensures Atoi(spaces + (digits + rest)) == Positional(digits)
  {
    var t := digits + rest;
    assert digits != "" ==> Digit(digits[0]) && t[0] == digits[0];
    assert digits == "" ==> t == rest;
    DigitsArePositional(digits, rest, 0);
    SpacesIgnored(spaces, t);
  }

  lemma SignedReads(spaces: string, sign: char, digits: string, rest: string)
    requires (forall i | 0 <= i < |spaces| :: White(spaces[i])) && AllDigits(digits) && (rest == "" || !Digit(rest[0]))
    requires sign == '+' || sign == '-'
    ensures Atoi(spaces + ([sign] + (digits + rest)))
         == if sign == '-' then -(Positional(digits) as int) else Positional(digits)
  {
    var t := [sign] + (digits + rest);
    assert t[0] == sign && t[1..] == digits + rest;
    DigitsArePositional(digits, rest, 0);
    SpacesIgnored(spaces, t);
  }

  lemma {:induction false} DigitsConcat(a: string, b: string, value: nat)
    requires AllDigits(a)
    ensures Digits(a + b, value) == Digits(b, Digits(a, value))
    decreases |a|
  {
    if a == "" {
      assert a + b == b;
    } else {
      assert (a + b)[1..] == a[1..] + b && Digit(a[0]);
      DigitsConcat(a[1..], b, 10 * value + (a[0] - '0') as nat);
    }
  }

  // The decimal numeral of `n`: digits without a leading zero, after a minus sign if need be.
  ghost predicate NatNumeral(t: string, n: nat) {
    t != "" && AllDigits(t) && (|t| > 1 ==> t[0] != '0') && Positional(t) == n
  }

  ghost predicate Numeral(t: string, n: int) {
    if n < 0 then t != "" && t[0] == '-' && NatNumeral(t[1..], -n) else NatNumeral(t, n)
  }

  lemma {:induction false} DecimalReads(n: nat)
    ensures NatNumeral(DecimalNat(n), n) && (n > 0 ==> DecimalNat(n)[0] != '0')
    decreases n
  {
    var last := [('0' as int + n % 10) as char];
    assert last[1..] == "" && Digit(last[0]) && (last[0] - '0') as nat == n % 10;
    if n >= 10 {
      DecimalReads(n / 10);
      DigitsConcat(DecimalNat(n / 10), last, 0);
      DigitsValue(DecimalNat(n / 10));
    } else {
      assert DecimalNat(n) == last;
    }
    DigitsValue(DecimalNat(n));
  }

  lemma DigitsValue(s: string)
    requires AllDigits(s)
    ensures Digits(s, 0) == Positional(s)
  {
    DigitsArePositional(s, "", 0);
    assert s + "" == s;
  }

  lemma DecimalIsNumeral(n: int)
    ensures Numeral(Decimal(n), n)
  {
    var m := if n < 0 then -n else n;
    DecimalReads(m);
    assert ("-" + DecimalNat(m))[1..] == DecimalNat(m);
  }

  lemma AtoiOfNumeral(t: string, n: int)
    requires Numeral(t, n)
    ensures Atoi(t) == n && t != "" && '/' !in t
  {
    var s := if n < 0 then t[1..] else t;
    assert Digit(s[0]) && forall i | 0 <= i < |s| :: Digit(s[i]);
    if n < 0 { assert t == ['-'] + s; }
    DigitsValue(s);
  }

  // ----- LNFreq::ToString and SetFromString -----

  // The text "%d/%d" stands for: the numerals of both numbers, cut to a signed 32-bit word.
  ghost predicate PrintedForm(text: string, count: nat, period: nat) {
    exists a, b :: text == a + "/" + b && Numeral(a, Int32(count)) && Numeral(b, Int32(period))
  }

  // The parsed count and period, or None when the text has no two parts.
  function Parse(freq: string): Option<(nat, nat)> {
    var params := Explode(freq, "/");
    if |params| < 2 then None else Some((Unsigned64(Atoi(params[0])), Unsigned64(Atoi(params[1]))))
  }

  // A 64-bit value whose upper half repeats the sign of its lower half.
  predicate SignExtended(v: nat) {
    v < TWO_32 / 2 || TWO_64 - TWO_32 / 2 <= v < TWO_64
  }

  lemma Int32RestoresIff(v: nat)
    requires v < TWO_64
    ensures Unsigned64(Int32(v)) == v <==> SignExtended(v)
  {
    var low := v % TWO_32;
    if low < TWO_32 / 2 {
      assert Unsigned64(low) == low;
    } else {
      assert Unsigned64(low - TWO_32) == low - TWO_32 + TWO_64;
    }
  }

  /** The round trip of a frequency: parsing a printed one always succeeds and gives the sign-extended
      lower halves of both numbers, which are the numbers themselves if and only if both are
      sign-extended 32-bit values, as every value below 2^31 is. */
  lemma PrintParseIff(text: string, count: nat, period: nat)
    requires PrintedForm(text, count, period) && count < TWO_64 && period < TWO_64
    ensures Parse(text) == Some((Unsigned64(Int32(count)), Unsigned64(Int32(period))))
    ensures Parse(text) == Some((count, period)) <==> SignExtended(count) && SignExtended(period)
  {
    PrintedParses(text, count, period);
    Int32RestoresIff(count);
    Int32RestoresIff(period);
  }

  lemma PrintedParses(text: string, count: nat, period: nat)
    requires PrintedForm(text, count, period)
    ensures Parse(text) == Some((Unsigned64(Int32(count)), Unsigned64(Int32(period))))
  {
    var a, b :| text == a + "/" + b && Numeral(a, Int32(count)) && Numeral(b, Int32(period));
    AtoiOfNumeral(a, Int32(count));
    AtoiOfNumeral(b, Int32(period));
    ExplodeOfPair(a, '/', b);
  }

  // ----- which texts can be parsed -----

  // The first fragment, and what the rest is cut into.
  lemma FirstFragment(a: string, c: char, rest: string, start: nat, s: string)
    requires start <= |s| && s[start..] == a + [c] + rest && c !in a
    ensures var next := start + |a| + 1;
            next <= |s| && s[next..] == rest && Fragments(s, [c], start) == [a] + Fragments(s, [c], next)
  {
    var n := start + |a|;
    assert forall j | start <= j < |s| :: s[j] == (a + [c] + rest)[j - start];
    forall j | start <= j < n ensures !Occurs(s, [c], j) {
      OccursChar(s, c, j);
      assert s[j] == a[j - start];
    }
    OccursChar(s, c, n);
    assert FindFrom(s, [c], start) == Some(n);
    assert s[start..n] == s[start..][..|a|] == a;
    assert s[n + 1..] == s[start..][|a| + 1..] == rest;
  }

  lemma LastFragment(a: string, c: char, start: nat, s: string)
    requires start <= |s| && s[start..] == a && c !in a
    ensures Fragments(s, [c], start) == if a == "" then [] else [a]
  {
    forall j | start <= j ensures !Occurs(s, [c], j) {
      OccursChar(s, c, j);
      if j < |s| { assert s[j] == a[j - start]; }
    }
    assert FindFrom(s, [c], start) == None;
  }

  /** What a text is parsed to: the two numbers in front of and behind the first slash, whatever stands
      behind a second one. */
  lemma ParseReads(a: string, b: string, rest: string)
    requires '/' !in a && '/' !in b && b + rest != "" && (rest == "" || rest[0] == '/')
    ensures Parse(a + "/" + (b + rest)) == Some((Unsigned64(Atoi(a)), Unsigned64(Atoi(b))))
  {
    var s, n := a + "/" + (b + rest), |a| + 1;
    assert s[0..] == a + ['/'] + (b + rest);
    FirstFragment(a, '/', b + rest, 0, s);
    if rest == "" {
      assert b + rest == b;
      LastFragment(b, '/', n, s);
    } else {
      assert b + rest == b + ['/'] + rest[1..];
      FirstFragment(b, '/', rest[1..], n, s);
    }
  }

  /** A text without a slash, or with nothing behind its only one, is refused. */
  lemma ParseRefuses(a: string)
    requires '/' !in a
    ensures Parse(a) == None && Parse(a + "/") == None
  {
    var s := a + "/";
    assert a[0..] == a && s[0..] == a + ['/'] + "";
    LastFragment(a, '/', 0, a);
    FirstFragment(a, '/', "", 0, s);
    LastFragment("", '/', |a| + 1, s);
  }
}
