/** `LNUtility::replaceString` (utility.cpp): repeated replacement of the leftmost occurrence.

    The loop need not end.  The function that specifies it carries a number of steps and gives None when
    that does not suffice; a call of the program returns when some number does. */
module Replacing {
  import opened Options
  import opened Text

  // The loop always searches from the start, so it also finds what a replacement has created.
  function Replace(search: string, replace: string, subject: string, fuel: nat): Option<string>
    decreases fuel
  {
    match Find(subject, search)
    case None => Some(subject)
    case Some(p) =>
      if fuel == 0 then None
      else Replace(search, replace, Replaced(search, replace, subject, p), fuel - 1)
  }

  // One replacement; the inserted text is a C string.
  function Replaced(search: string, replace: string, subject: string, p: nat): string
    requires Occurs(subject, search, p)
  {
    subject[..p] + CString(replace) + subject[p + |search|..]
  }

  lemma {:induction false} ReplaceMonotone(search: string, replace: string, subject: string, fuel: nat, more: nat)
    requires Replace(search, replace, subject, fuel).Some? && fuel <= more
    ensures Replace(search, replace, subject, more) == Replace(search, replace, subject, fuel)
    decreases fuel
  {
    match Find(subject, search)
    case None =>
    case Some(p) =>
      ReplaceMonotone(search, replace, Replaced(search, replace, subject, p), fuel - 1, more - 1);
  }

  lemma {:induction false} ReplaceLeavesNone(search: string, replace: string, subject: string, fuel: nat)
    requires Replace(search, replace, subject, fuel).Some?
    ensures Find(Replace(search, replace, subject, fuel).value, search) == None
    decreases fuel
  {
    match Find(subject, search)
    case None =>
    case Some(p) => ReplaceLeavesNone(search, replace, Replaced(search, replace, subject, p), fuel - 1);
  }

  function CountChar(s: string, c: char): nat
    decreases |s|
  {
    if s == "" then 0 else (if s[0] == c then 1 else 0) + CountChar(s[1..], c)
  }

  lemma {:induction false} CountCharConcat(a: string, b: string, c: char)
    ensures CountChar(a + b, c) == CountChar(a, c) + CountChar(b, c)
    decreases |a|
  {
    if a == "" {
      assert a + b == b;
    } else {
      assert (a + b)[1..] == a[1..] + b;
      CountCharConcat(a[1..], b, c);
    }
  }

  lemma {:induction false} CountCharBounds(s: string, c: char)
    ensures CountChar(s, c) <= |s| && (CountChar(s, c) > 0 <==> c in s)
    decreases |s|
  {
    if s != "" { CountCharBounds(s[1..], c); }
  }

  // Replacing ends if each replacement lowers a measure of the text.
  lemma {:induction false} MeasureEnds(search: string, replace: string, subject: string, measure: string -> nat,
                                       fuel: nat)
    requires forall s, p | Occurs(s, search, p) :: measure(Replaced(search, replace, s, p)) < measure(s)
    requires fuel >= measure(subject)
    ensures Replace(search, replace, subject, fuel).Some?
    decreases fuel
  {
    match Find(subject, search)
    case None =>
    case Some(p) => MeasureEnds(search, replace, Replaced(search, replace, subject, p), measure, fuel - 1);
  }

  lemma ReplacedCount(search: string, replace: string, subject: string, p: nat, c: char)
    requires Occurs(subject, search, p)
    ensures CountChar(Replaced(search, replace, subject, p), c) + CountChar(search, c)
         == CountChar(subject, c) + CountChar(CString(replace), c)
  {
    var a, b := subject[..p], subject[p + |search|..];
    assert subject == a + search + b;
    CountCharConcat(a, search, c);
    CountCharConcat(a + search, b, c);
    CountCharConcat(a, CString(replace), c);
    CountCharConcat(a + CString(replace), b, c);
  }

  lemma ReplacedLoses(search: string, replace: string, subject: string, p: nat, c: char)
    requires Occurs(subject, search, p) && c in search && c !in CString(replace)
    ensures CountChar(Replaced(search, replace, subject, p), c) < CountChar(subject, c)
  {
    ReplacedCount(search, replace, subject, p, c);
    CountCharBounds(search, c);
    CountCharBounds(CString(replace), c);
  }

  // Each replacement makes the text shorter, or uses up a character it never brings back.
  ghost predicate Shrinks(search: string, replace: string) {
    |CString(replace)| < |search| || exists c :: c in search && c !in CString(replace)
  }

  /** Replacing ends, within as many steps as the subject is long, and leaves no occurrence, when the
      replacement is shorter than the search text or lacks one of its characters. */
  lemma ReplaceEnds(search: string, replace: string, subject: string)
    requires Shrinks(search, replace)
    ensures Replace(search, replace, subject, |subject|).Some?
    ensures Find(Replace(search, replace, subject, |subject|).value, search) == None
  {
    if |CString(replace)| < |search| {
      MeasureEnds(search, replace, subject, s => |s|, |subject|);
    } else {
      var c :| c in search && c !in CString(replace);
      forall s, p | Occurs(s, search, p) ensures CountChar(Replaced(search, replace, s, p), c) < CountChar(s, c) {
        ReplacedLoses(search, replace, s, p, c);
      }
      CountCharBounds(subject, c);
      MeasureEnds(search, replace, subject, s => CountChar(s, c), |subject|);
    }
    ReplaceLeavesNone(search, replace, subject, |subject|);
  }

  lemma StillOccurs(search: string, replace: string, subject: string, p: nat, q: nat)
    requires Occurs(subject, search, p) && Occurs(CString(replace), search, q)
    ensures Find(Replaced(search, replace, subject, p), search).Some?
  {
    var r, next := CString(replace), Replaced(search, replace, subject, p);
    assert next[p + q..p + q + |search|] == r[q..q + |search|];
    assert Occurs(next, search, p + q);
  }

  /** It never ends once the search text occurs, when the replacement contains it (as it does when the
      search text is empty). */
  lemma {:induction false} ReplaceDiverges(search: string, replace: string, subject: string, fuel: nat)
    requires Find(CString(replace), search).Some? && Find(subject, search).Some?
    ensures Replace(search, replace, subject, fuel) == None
    decreases fuel
  {
    if fuel > 0 {
      var p := Find(subject, search).value;
      var next := Replaced(search, replace, subject, p);
      StillOccurs(search, replace, subject, p, Find(CString(replace), search).value);
      ReplaceDiverges(search, replace, next, fuel - 1);
    }
  }

  lemma ReplaceAt(search: string, replace: string, s: string, p: nat, next: string, fuel: nat)
    requires Find(s, search) == Some(p) && next == Replaced(search, replace, s, p) && fuel > 0
    ensures Replace(search, replace, s, fuel) == Replace(search, replace, next, fuel - 1)
  {}

  lemma ReplaceStep(search: string, replace: string, s: string, fuel: nat, p: nat)
    requires Find(s, search) == Some(p) && Replace(search, replace, s, fuel).Some?
    ensures fuel > 0
    ensures Replace(search, replace, s, fuel) == Replace(search, replace, Replaced(search, replace, s, p), fuel - 1)
  {}

  method ReplaceString(search: string, replace: string, subject: string, ghost fuel: nat) returns (result: string)
    requires Replace(search, replace, subject, fuel).Some?
    ensures Some(result) == Replace(search, replace, subject, fuel)
    ensures Find(result, search) == None
  {
    result := subject;
    var pos := Find(result, search);
    ghost var left, goal := fuel, Replace(search, replace, subject, fuel);
    while pos.Some?
      invariant pos == Find(result, search)
      invariant Replace(search, replace, result, left) == goal && goal.Some?
      decreases left
    {
      ReplaceStep(search, replace, result, left, pos.value);
      result := Replaced(search, replace, result, pos.value);
      left := left - 1;
      pos := Find(result, search);
    }
  }

  /** For a search text of one character the condition is exact: the loop ends if and only if the character
      does not occur in the subject or not in the replacement. */
  lemma ReplaceCharEndsIff(c: char, replace: string, subject: string)
    ensures (exists fuel: nat :: Replace([c], replace, subject, fuel).Some?)
       <==> c !in subject || c !in CString(replace)
  {
    if c !in subject {
      forall j: nat ensures !Occurs(subject, [c], j) { OccursChar(subject, c, j); }
      FindNothing(subject, [c]);
      assert Replace([c], replace, subject, 0).Some?;
    } else if c !in CString(replace) {
      assert Shrinks([c], replace) by { assert c in [c]; }
      ReplaceEnds([c], replace, subject);
    } else {
      FoundChar(c, subject);
      FoundChar(c, CString(replace));
      forall fuel: nat ensures Replace([c], replace, subject, fuel) == None {
        ReplaceDiverges([c], replace, subject, fuel);
      }
    }
  }

  lemma FoundChar(c: char, s: string)
    requires c in s
    ensures Find(s, [c]).Some?
  {
    var i: nat :| i < |s| && s[i] == c;
    OccursChar(s, c, i);
  }

  // ----- between the two conditions -----

  function Repeat(c: char, n: nat): (r: string)
    ensures |r| == n
  {
    seq(n, _ => c)
  }

  // Ones, the text `$11`, dollars.
  function Grown(n: nat, m: nat): string {
    Repeat('1', n) + "$11" + Repeat('$', m)
  }

  function HalfGrown(n: nat, m: nat): string {
    Repeat('1', n) + "$$1" + Repeat('$', m)
  }

  lemma FindsArgument(s: string, n: nat)
    requires n + 1 < |s| && s[n] == '$' && s[n + 1] == '1' && forall j | 0 <= j < n :: s[j] != '$' || s[j + 1] != '1'
    ensures Find(s, "$1") == Some(n)
  {
    assert "$1" == ['$', '1'];
    TwoChars(s, '$', '1', n);
    forall j | 0 <= j < n ensures !Occurs(s, "$1", j) { TwoChars(s, '$', '1', j); }
    FindIs(s, "$1", n);
  }

  lemma GrowsFirst(n: nat, m: nat)
    ensures Find(Grown(n, m), "$1") == Some(n)
    ensures Replaced("$1", "11$$", Grown(n, m), n) == HalfGrown(n + 2, m)
  {
    var s := Grown(n, m);
    FindsArgument(s, n);
    CStringOfText("11$$", "");
    assert s[..n] == Repeat('1', n) && s[n + 2..] == "1" + Repeat('$', m);
    assert Repeat('1', n) + "11$$" + ("1" + Repeat('$', m)) == HalfGrown(n + 2, m);
  }

  lemma GrowsAgain(n: nat, m: nat)
    ensures Find(HalfGrown(n, m), "$1") == Some(n + 1)
    ensures Replaced("$1", "11$$", HalfGrown(n, m), n + 1) == Grown(n, m + 2)
  {
    var s := HalfGrown(n, m);
    FindsArgument(s, n + 1);
    CStringOfText("11$$", "");
    assert s[..n + 1] == Repeat('1', n) + "$" && s[n + 3..] == Repeat('$', m);
    assert Repeat('1', n) + "$" + "11$$" + Repeat('$', m) == Grown(n, m + 2);
  }

  lemma GrowsTwice(n: nat, m: nat, fuel: nat)
    ensures fuel < 2 ==> Replace("$1", "11$$", Grown(n, m), fuel) == None
    ensures fuel >= 2 ==>
              Replace("$1", "11$$", Grown(n, m), fuel) == Replace("$1", "11$$", Grown(n + 2, m + 2), fuel - 2)
  {
    var a, b, c := Grown(n, m), HalfGrown(n + 2, m), Grown(n + 2, m + 2);
    GrowsFirst(n, m);
    GrowsAgain(n + 2, m);
    if fuel > 0 { ReplaceAt("$1", "11$$", a, n, b, fuel); }
    if fuel > 1 { ReplaceAt("$1", "11$$", b, n + 3, c, fuel - 1); }
  }

  lemma {:induction false} GrowsForEver(n: nat, m: nat, fuel: nat)
    ensures Replace("$1", "11$$", Grown(n, m), fuel) == None
    decreases fuel
  {
    GrowsTwice(n, m, fuel);
    if fuel >= 2 { GrowsForEver(n + 2, m + 2, fuel - 2); }
  }

  /** Replacing can go on for ever although the replacement does not contain the search text. */
  lemma EndlessWithoutContaining(fuel: nat)
    ensures Find(CString("11$$"), "$1") == None && Replace("$1", "11$$", "$11", fuel) == None
  {
    CStringOfText("11$$", "");
    assert "$1" == ['$', '1'] && "11$$" == ['1', '1', '$', '$'];
    forall j: nat ensures !Occurs("11$$", "$1", j) { TwoChars("11$$", '$', '1', j); }
    FindNothing("11$$", "$1");
    assert Grown(0, 0) == "$11";
    GrowsForEver(0, 0, fuel);
  }

  /** And it can end although neither is the replacement shorter nor does it lack a character. */
  lemma EndsWithoutShrinking()
    ensures !Shrinks("ab", "ba") && Replace("ab", "ba", "ab", 1) == Some("ba")
  {
    CStringOfText("ba", "");
    assert "ab" == ['a', 'b'] && "ba" == ['b', 'a'];
    TwoChars("ab", 'a', 'b', 0);
    FindIs("ab", "ab", 0);
    forall j: nat ensures !Occurs("ba", "ab", j) { TwoChars("ba", 'a', 'b', j); }
    FindNothing("ba", "ab");
    assert Replaced("ab", "ba", "ab", 0) == "ba";
  }
}
