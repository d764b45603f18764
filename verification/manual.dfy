/** What the manual promises of actions (README), against what the rewriting makes of them. */
module Manual {
  import opened Options
  import opened Text
  import opened Replacing
  import opened Rewriting

  predicate StartsEscape(s: string) {
    |s| > 1 && s[0] == '\\' && (s[1] == '\\' || s[1] == '$')
  }

  predicate StartsArgument(s: string) {
    |s| > 1 && s[0] == '$' && ArgChar(s[1])
  }

  /** An action as the manual reads it, from left to right: two backslashes stand for one, a backslash and
      a dollar for a dollar, and an argument for its value. */
  function Documented(s: string, value: string -> string): string
    decreases |s|
  {
    if s == "" then ""
    else if StartsEscape(s) then [s[1]] + Documented(s[2..], value)
    else if StartsArgument(s) then
      var e := RunEnd(s, 1);
      value(s[1..e]) + Documented(s[e..], value)
    else [s[0]] + Documented(s[1..], value)
  }

  // No two backslashes stand in a row.
  ghost predicate NoDouble(s: string) {
    forall i: nat | i + 1 < |s| :: !(s[i] == '\\' && s[i + 1] == '\\')
  }

  lemma DocumentedChar(c: char, x: string, value: string -> string)
    requires c != '\\' && (c == '$' ==> Stops(x))
    ensures Documented([c] + x, value) == [c] + Documented(x, value)
  {
    var s := [c] + x;
    assert s[1..] == x && (|s| > 1 ==> s[1] == x[0]);
  }

  lemma {:induction false} DocumentedPlain(a: string, x: string, value: string -> string)
    requires Clean(a)
    ensures Documented(a + x, value) == a + Documented(x, value)
    decreases |a|
  {
    if a == "" {
      assert a + x == x;
    } else {
      assert a + x == [a[0]] + (a[1..] + x) && a[0] in a && forall c <- a[1..] :: c in a;
      DocumentedChar(a[0], a[1..] + x, value);
      DocumentedPlain(a[1..], x, value);
    }
  }

  lemma ArgCharsClean(name: string)
    requires ArgChars(name)
    ensures Clean(name)
  {
    forall i | 0 <= i < |name| ensures name[i] != '$' && name[i] != '\\' { assert ArgChar(name[i]); }
  }

  lemma DocumentedArgument(name: string, x: string, value: string -> string)
    requires ArgName(name) && Stops(x)
    ensures Documented(Mark(name) + x, value) == value(name) + Documented(x, value)
  {
    var s := Mark(name) + x;
    RunEndsIn("", name, x);
    assert "" + Mark(name) + x == s && s[1] == name[0];
    assert s[1..1 + |name|] == name && s[1 + |name|..] == x;
  }

  // A run of backslashes halves; an odd one in front of a dollar escapes it.
  lemma {:induction false} DocumentedRun(k: nat, r: string, value: string -> string)
    requires Bare(r)
    ensures Documented(Backslashes(k) + r, value) == HalfRun(k, r, value)
    decreases k
  {
    if k == 0 {
      assert Backslashes(k) + r == r && Backslashes(0) + Documented(r, value) == Documented(r, value);
    } else if k == 1 {
      OneBackslash(r, value);
    } else {
      TwoBackslashes(k, r, value);
      DocumentedRun(k - 2, r, value);
      HalfRunStep(k, r, value);
    }
  }

  // What the manual promises of `k` backslashes and the text behind them.
  function HalfRun(k: nat, r: string, value: string -> string): string {
    if !StartsDollar(r) then Backslashes(k - k / 2) + Documented(r, value)
    else if k % 2 == 0 then Backslashes(k / 2) + Documented(r, value)
    else Backslashes(k / 2) + (['$'] + Documented(r[1..], value))
  }

  lemma TwoBackslashes(k: nat, r: string, value: string -> string)
    requires k >= 2
    ensures Documented(Backslashes(k) + r, value) == ['\\'] + Documented(Backslashes(k - 2) + r, value)
  {
    assert (Backslashes(k) + r)[2..] == Backslashes(k - 2) + r;
  }

  lemma HalfRunStep(k: nat, r: string, value: string -> string)
    requires k >= 2
    ensures HalfRun(k, r, value) == ['\\'] + HalfRun(k - 2, r, value)
  {
    var rest := if !StartsDollar(r) || k % 2 == 0 then Documented(r, value) else ['$'] + Documented(r[1..], value);
    var h := if StartsDollar(r) then k / 2 else k - k / 2;
    OneLonger(h - 1, rest);
  }

  lemma OneLonger(k: nat, x: string)
    ensures Backslashes(k + 1) + x == ['\\'] + (Backslashes(k) + x)
  {
    assert Backslashes(k + 1) == ['\\'] + Backslashes(k);
  }

  lemma OneBackslash(r: string, value: string -> string)
    requires Bare(r)
    ensures Documented(Backslashes(1) + r, value) == HalfRun(1, r, value)
  {
    var s := Backslashes(1) + r;
    assert |s| > 1 ==> s[1] == r[0];
    assert s[1..] == r && Backslashes(1) == ['\\'];
    if StartsDollar(r) {
      assert s[2..] == r[1..];
      assert Backslashes(0) + (['$'] + Documented(r[1..], value)) == ['$'] + Documented(r[1..], value);
    }
  }

  // Runs of different length in front of other characters differ.
  lemma RunsDiffer(j: nat, x: string, k: nat, y: string)
    requires Bare(x) && Bare(y) && Backslashes(j) + x == Backslashes(k) + y
    ensures j == k && x == y
  {
    SlashesOfRun(j, x);
    SlashesOfRun(k, y);
    assert (Backslashes(j) + x)[j..] == x && (Backslashes(k) + y)[k..] == y;
  }

  lemma NoDoubleOfRun(k: nat, r: string)
    requires Bare(r)
    ensures NoDouble(Backslashes(k) + r) <==> k <= 1 && NoDouble(r)
  {
    var s := Backslashes(k) + r;
    assert forall i | 0 <= i < |r| :: s[k + i] == r[i];
    if k > 1 {
      assert s[0] == '\\' && s[1] == '\\';
    } else if NoDouble(s) {
      forall i: nat | i + 1 < |r| ensures !(r[i] == '\\' && r[i + 1] == '\\') {
        assert s[k + i] == r[i] && s[k + i + 1] == r[i + 1];
      }
    }
  }

  lemma NoDoubleOfClean(a: string, x: string)
    requires '\\' !in a
    ensures NoDouble(a + x) <==> NoDouble(x)
  {
    var s := a + x;
    assert forall i | 0 <= i < |a| :: s[i] == a[i] && a[i] in a;
    assert forall i | 0 <= i < |x| :: s[|a| + i] == x[i];
    if NoDouble(s) {
      forall i: nat | i + 1 < |x| ensures !(x[i] == '\\' && x[i + 1] == '\\') {
        assert s[|a| + i] == x[i] && s[|a| + i + 1] == x[i + 1];
      }
    }
  }

  // Arguments that stand for themselves.
  lemma MarkReads(x: string)
    requires StartsDollar(x)
    ensures Documented(x, Mark) == ['$'] + Documented(x[1..], Mark)
  {
    if StartsArgument(x) {
      var name, rest := SplitArgument(x);
      assert x[1..] == name + rest;
      MarkReadsArgument(name, rest);
    }
  }

  lemma MarkReadsArgument(name: string, rest: string)
    requires ArgName(name) && Stops(rest)
    ensures Documented(Mark(name) + rest, Mark) == ['$'] + Documented(name + rest, Mark)
  {
    var d := Documented(rest, Mark);
    assert Documented(Mark(name) + rest, Mark) == Mark(name) + d by { DocumentedArgument(name, rest, Mark); }
    assert Documented(name + rest, Mark) == name + d by {
      ArgCharsClean(name);
      DocumentedPlain(name, rest, Mark);
    }
    MarkJoins(name, d);
  }

  lemma MarkJoins(name: string, x: string)
    ensures Mark(name) + x == ['$'] + (name + x)
  {}

  lemma SplitArgument(x: string) returns (name: string, rest: string)
    requires StartsArgument(x)
    ensures x == Mark(name) + rest && ArgName(name) && Stops(rest)
  {
    var e := RunEnd(x, 1);
    name, rest := x[1..e], x[e..];
    forall i | 0 <= i < |name| ensures ArgChar(name[i]) { assert name[i] == x[1 + i]; }
  }

  /** For every text: deleting runs of backslashes before dollars is what the manual promises of escapes
      if and only if no two backslashes stand in a row. */
  lemma {:induction false} DropIsDocumentedIff(s: string)
    ensures Drop(s) == Documented(s, Mark) <==> NoDouble(s)
    decreases |s|
  {
    var k := Slashes(s);
    var r := s[k..];
    RunSplit(s);
    DropRun(k, r);
    DocumentedRun(k, r, Mark);
    NoDoubleOfRun(k, r);
    if r == "" {
      EqualRuns(k, k - k / 2);
    } else {
      var x := r[1..];
      assert r == [r[0]] + x;
      DropIsDocumentedIff(x);
      NoDoubleOfClean([r[0]], x);
      RunIsDocumentedIff(k, r);
    }
  }

  lemma EqualRuns(j: nat, k: nat)
    ensures Backslashes(j) + "" == Backslashes(k) + "" <==> j == k
  {
    assert |Backslashes(j) + ""| == j && |Backslashes(k) + ""| == k;
  }

  lemma RunIsDocumentedIff(k: nat, r: string)
    requires r != "" && Bare(r)
    ensures (if StartsDollar(r) then "" else Backslashes(k)) + Drop(r)
         == HalfRun(k, r, Mark)
        <==> k <= 1 && Drop(r[1..]) == Documented(r[1..], Mark)
  {
    var c, x := r[0], r[1..];
    assert r == [c] + x;
    DropChar(c, x);
    if c == '$' {
      MarkReads(r);
      SameIff(0, k / 2, c, Drop(x), Documented(x, Mark));
      assert "" + Drop(r) == Backslashes(0) + Drop(r);
    } else {
      DocumentedChar(c, x, Mark);
      SameIff(k, k - k / 2, c, Drop(x), Documented(x, Mark));
    }
  }

  lemma SameIff(j: nat, k: nat, c: char, x: string, y: string)
    requires c != '\\'
    ensures Backslashes(j) + ([c] + x) == Backslashes(k) + ([c] + y) <==> j == k && x == y
  {
    if Backslashes(j) + ([c] + x) == Backslashes(k) + ([c] + y) {
      RunsDiffer(j, [c] + x, k, [c] + y);
      assert ([c] + x)[1..] == x && ([c] + y)[1..] == y;
    }
  }

  /** An action in which the loop of run finds no argument: every run of backslashes before a dollar is
      deleted, which is what the manual promises if and only if no two backslashes stand in a row. */
  lemma EscapesDocumentedIff(action: string, line: string, matches: seq<string>, fuel: nat)
    requires FirstMatch(action, 0) == None && fuel >= |action|
    ensures Preprocess(action, line, matches, fuel) == Some(Drop(action))
    ensures Preprocess(action, line, matches, fuel) == Some(Documented(action, Mark)) <==> NoDouble(action)
  {
    UnescapeDrops(action, fuel);
    DropIsDocumentedIff(action);
  }

  /** Two backslashes before an argument: the manual promises a backslash and the value, the code drops both
      backslashes and substitutes nothing. */
  lemma DoubledBackslash(a: string, name: string, line: string, matches: seq<string>, fuel: nat)
    requires Clean(a) && ArgName(name) && fuel >= |a| + |name| + 3
    ensures Preprocess(a + (Backslashes(2) + Mark(name)), line, matches, fuel) == Some(a + Mark(name))
    ensures forall value: string -> string ::
              Documented(a + (Backslashes(2) + Mark(name)), value) == a + (Backslashes(1) + value(name))
  {
    var s := a + (Backslashes(2) + Mark(name));
    ArgCharsClean(name);
    NoMatchBehindSlash(a, name);
    EscapesDocumentedIff(s, line, matches, fuel);
    MarkIs(name);
    RunBehindDrops(a, 2, Mark(name));
    forall value: string -> string ensures Documented(s, value) == a + (Backslashes(1) + value(name)) {
      DoubledDocumented(a, name, value);
    }
  }

  lemma MarkIs(name: string)
    requires ArgChars(name)
    ensures '\\' !in Mark(name) && StartsDollar(Mark(name)) && Mark(name)[1..] == name
  {
    ArgCharsClean(name);
  }

  lemma NoMatchBehindSlash(a: string, name: string)
    requires Clean(a) && Clean(name)
    ensures FirstMatch(a + (Backslashes(2) + Mark(name)), 0) == None
  {
    var s, n := a + (Backslashes(2) + Mark(name)), |a|;
    assert forall i | 0 <= i < n :: s[i] == a[i] && a[i] in a;
    assert s[n] == '\\' && s[n + 1] == '\\';
    assert forall i | 0 <= i < |name| :: s[n + 3 + i] == name[i] && name[i] in name;
  }

  lemma RunBehindDrops(a: string, k: nat, m: string)
    requires '\\' !in a && '\\' !in m && StartsDollar(m)
    ensures Drop(a + (Backslashes(k) + m)) == a + m
  {
    DropPlain(a, Backslashes(k) + m);
    DropRun(k, m);
    assert "" + Drop(m) == Drop(m);
    DropAll(m);
  }

  lemma DropAll(m: string)
    requires '\\' !in m
    ensures Drop(m) == m
  {
    DropPlain(m, "");
    assert m + "" == m;
  }

  lemma DoubledDocumented(a: string, name: string, value: string -> string)
    requires Clean(a) && ArgName(name)
    ensures Documented(a + (Backslashes(2) + Mark(name)), value) == a + (Backslashes(1) + value(name))
  {
    DocumentedPlain(a, Backslashes(2) + Mark(name), value);
    DocumentedRun(2, Mark(name), value);
    DocumentedArgument(name, "", value);
    assert Mark(name) + "" == Mark(name) && value(name) + "" == value(name);
  }

  // ----- when a template becomes what the manual promises -----

  // Every argument is the first one found in its own spelling, one at the start among them, and none is
  // found in an escaped dollar and what follows it.
  predicate InOrder(ts: seq<Token>, names: seq<string>) {
    && (forall i | 0 <= i < |ts| && (ts[i].Arg? || ts[i].Lead?) :: Taken(names, ts[i].name) == Some(ts[i].name))
    && (forall i | 0 <= i < |ts| && ts[i].Esc? :: Taken(names, ts[i].name) == None)
  }

  predicate TokenInOrder(t: Token, names: seq<string>) {
    && (t.Arg? || t.Lead? ==> Taken(names, t.name) == Some(t.name))
    && (t.Esc? ==> Taken(names, t.name) == None)
  }

  lemma InOrderFirst(ts: seq<Token>, names: seq<string>)
    requires ts != []
    ensures InOrder(ts, names) <==> TokenInOrder(ts[0], names) && InOrder(ts[1..], names)
  {
    if TokenInOrder(ts[0], names) && InOrder(ts[1..], names) {
      forall i | 0 <= i < |ts|
        ensures ts[i].Arg? || ts[i].Lead? ==> Taken(names, ts[i].name) == Some(ts[i].name)
        ensures ts[i].Esc? ==> Taken(names, ts[i].name) == None
      {
        if i > 0 { assert ts[1..][i - 1] == ts[i]; }
      }
    }
  }

  function Values(line: string, matches: seq<string>): string -> string {
    name => Inserted(name, line, matches)
  }

  // What the loop of run makes of the template behind `k` backslashes, and what the manual promises.
  function Made(k: nat, ts: seq<Token>, names: seq<string>, line: string, matches: seq<string>): string {
    Drop(Backslashes(k) + Meaning(ts, names, line, matches))
  }

  function Promised(k: nat, ts: seq<Token>, line: string, matches: seq<string>): string {
    Documented(Backslashes(k) + Render(ts), Values(line, matches))
  }

  // One more token in front of a text; only a character or an escape follows a backslash.
  ghost predicate Stands(k: nat, t: Token, rest: string) {
    && Legal(t) && (t.Arg? || t.Lead? ==> k == 0)
    && (t == Ch('$') || !t.Ch? ==> Stops(rest))
  }

  lemma TokenStands(k: nat, ts: seq<Token>, names: seq<string>)
    requires ts != [] && Linked(ts, names) && (k > 0 ==> !ts[0].Arg? && !ts[0].Lead?)
    ensures Stands(k, ts[0], Render(ts[1..]))
    ensures ts[0] == Ch('\\') && |ts| > 1 ==> !ts[1].Arg? && !ts[1].Lead?
    ensures Linked(ts[1..], names)
  {
    assert Legal(ts[0]);
    if ts[0] == Ch('$') || !ts[0].Ch? { AfterDollar(ts, names); }
    LinkedPart(ts, names, 1, |ts|);
    assert ts[1..|ts|] == ts[1..];
    if |ts| > 1 { assert FollowsAt(ts, 0, names); }
  }

  lemma LongerRun(k: nat, x: string)
    ensures Backslashes(k) + (['\\'] + x) == Backslashes(k + 1) + x
  {}

  // What the manual promises of a token and the backslashes before it, up to the rest of the text.
  function TokenPromised(k: nat, t: Token, value: string -> string): string {
    match t
    case Ch(c) => Backslashes(if c == '$' then k / 2 else k - k / 2) + [c]
    case Esc(name) => Backslashes((k + 1) / 2) + if k % 2 == 0 || name == "" then Mark(name) else value(name)
    case Arg(name) => value(name)
    case Lead(name) => value(name)
  }

  lemma TokenDocumented(k: nat, t: Token, rest: string, value: string -> string)
    requires Stands(k, t, rest) && t != Ch('\\')
    ensures Documented(Backslashes(k) + (Spell(t) + rest), value)
         == TokenPromised(k, t, value) + Documented(rest, value)
  {
    match t
    case Ch(c) => CharDocumented(k, c, rest, value);
    case Esc(name) => EscapeDocumented(k, name, rest, value);
    case Arg(name) =>
      DocumentedArgument(name, rest, value);
      assert Backslashes(0) + (Mark(name) + rest) == Mark(name) + rest;
    case Lead(name) =>
      DocumentedArgument(name, rest, value);
      assert Backslashes(0) + (Mark(name) + rest) == Mark(name) + rest;
  }

  lemma CharDocumented(k: nat, c: char, rest: string, value: string -> string)
    requires c != '\\' && (c == '$' ==> Stops(rest))
    ensures Documented(Backslashes(k) + ([c] + rest), value)
         == Backslashes(if c == '$' then k / 2 else k - k / 2) + [c] + Documented(rest, value)
  {
    var r := [c] + rest;
    DocumentedRun(k, r, value);
    DocumentedChar(c, rest, value);
    assert r[1..] == rest;
    Associates(Backslashes(if c == '$' then k / 2 else k - k / 2), [c], Documented(rest, value));
  }

  lemma Associates(a: string, b: string, c: string)
    ensures a + (b + c) == a + b + c
  {}

  lemma EscapeDocumented(k: nat, name: string, rest: string, value: string -> string)
    requires ArgChars(name) && Stops(rest)
    ensures Documented(Backslashes(k) + (Spell(Esc(name)) + rest), value)
         == TokenPromised(k, Esc(name), value) + Documented(rest, value)
  {
    EscapeRegroup(k, name, rest);
    if k % 2 == 0 {
      OddEscapes(k + 1, name, rest, value);
    } else {
      EvenEscapes(k + 1, name, rest, value);
    }
  }

  lemma EscapeRegroup(k: nat, name: string, rest: string)
    ensures Backslashes(k) + (Spell(Esc(name)) + rest) == Backslashes(k + 1) + (Mark(name) + rest)
  {}

  lemma OddEscapes(k: nat, name: string, rest: string, value: string -> string)
    requires ArgChars(name) && k % 2 == 1
    ensures Documented(Backslashes(k) + (Mark(name) + rest), value)
         == Backslashes(k / 2) + Mark(name) + Documented(rest, value)
  {
    var d := Documented(rest, value);
    DocumentedRun(k, Mark(name) + rest, value);
    assert (Mark(name) + rest)[1..] == name + rest;
    ArgCharsClean(name);
    DocumentedPlain(name, rest, value);
    assert ['$'] + (name + d) == Mark(name) + d;
    Associates(Backslashes(k / 2), Mark(name), d);
  }

  lemma EvenEscapes(k: nat, name: string, rest: string, value: string -> string)
    requires ArgChars(name) && k % 2 == 0 && Stops(rest)
    ensures Documented(Backslashes(k) + (Mark(name) + rest), value)
         == Backslashes(k / 2) + (if name == "" then Mark(name) else value(name)) + Documented(rest, value)
  {
    var d := Documented(rest, value);
    DocumentedRun(k, Mark(name) + rest, value);
    if name == "" {
      assert Mark(name) == ['$'];
      DocumentedChar('$', rest, value);
      Associates(Backslashes(k / 2), Mark(name), d);
    } else {
      DocumentedArgument(name, rest, value);
      Associates(Backslashes(k / 2), value(name), d);
    }
  }

  // What the code makes of it; an escape that is hit keeps its backslashes.
  function TokenMade(k: nat, t: Token, names: seq<string>, line: string, matches: seq<string>): string {
    match t
    case Ch(c) => (if c == '$' then "" else Backslashes(k)) + [c]
    case Esc(name) =>
      if Taken(names, name) == None then Mark(name) else Backslashes(k + 1) + Sense(Arg(name), names, line, matches)
    case Arg(name) => Sense(t, names, line, matches)
    case Lead(name) => Sense(t, names, line, matches)
  }

  // That an escape that is hit leaves some text behind.
  ghost predicate Shows(t: Token, names: seq<string>, line: string, matches: seq<string>) {
    t.Esc? && Taken(names, t.name).Some? ==> Sense(Arg(t.name), names, line, matches) != ""
  }

  lemma TokenDropped(k: nat, t: Token, rest: string, names: seq<string>, line: string, matches: seq<string>)
    requires Legal(t) && t != Ch('\\') && (t.Arg? || t.Lead? ==> k == 0)
    requires CleanArguments(line, matches) && Shows(t, names, line, matches)
    requires t.Arg? ==> Taken(names, t.name).Some?
    ensures Drop(Backslashes(k) + (Sense(t, names, line, matches) + rest))
         == TokenMade(k, t, names, line, matches) + Drop(rest)
  {
    match t
    case Ch(c) =>
      DropRun(k, [c] + rest);
      DropChar(c, rest);
      Associates(if c == '$' then "" else Backslashes(k), [c], Drop(rest));
    case Esc(name) => EscapeDropped(k, name, rest, names, line, matches);
    case Arg(name) => ArgumentDropped(t, rest, names, line, matches);
    case Lead(name) => ArgumentDropped(t, rest, names, line, matches);
  }

  lemma ArgumentDropped(t: Token, rest: string, names: seq<string>, line: string, matches: seq<string>)
    requires (t.Arg? || t.Lead?) && Legal(t) && CleanArguments(line, matches)
    ensures Drop(Backslashes(0) + (Sense(t, names, line, matches) + rest))
         == Sense(t, names, line, matches) + Drop(rest)
  {
    var m := Sense(t, names, line, matches);
    SenseHasNoSlash(t.name, names, line, matches);
    assert Backslashes(0) + (m + rest) == m + rest;
    DropPlain(m, rest);
  }

  lemma EscapeDropped(k: nat, name: string, rest: string, names: seq<string>, line: string, matches: seq<string>)
    requires ArgChars(name) && CleanArguments(line, matches) && Shows(Esc(name), names, line, matches)
    ensures Drop(Backslashes(k) + (Sense(Esc(name), names, line, matches) + rest))
         == TokenMade(k, Esc(name), names, line, matches) + Drop(rest)
  {
    if Taken(names, name) == None {
      EscapeRegroup(k, name, rest);
      MarkIs(name);
      DropRun(k + 1, Mark(name) + rest);
      DropPlain(Mark(name), rest);
    } else {
      TakenClean(name, names, line, matches);
      EscSense(name, names, line, matches);
      KeptDropped(k, Sense(Arg(name), names, line, matches), rest);
    }
  }

  lemma KeptDropped(k: nat, m: string, rest: string)
    requires Clean(m) && m != ""
    ensures Drop(Backslashes(k) + (['\\'] + m + rest)) == Backslashes(k + 1) + m + Drop(rest)
  {
    assert Backslashes(k) + (['\\'] + m + rest) == Backslashes(k + 1) + (m + rest);
    assert (m + rest)[0] == m[0] && m[0] in m;
    DropRun(k + 1, m + rest);
    DropPlain(m, rest);
    Associates(Backslashes(k + 1), m, Drop(rest));
  }

  lemma TakenClean(name: string, names: seq<string>, line: string, matches: seq<string>)
    requires ArgChars(name) && CleanArguments(line, matches) && Taken(names, name).Some?
    ensures Clean(Sense(Arg(name), names, line, matches))
  {
    InsertedClean(Taken(names, name).value, line, matches);
    ArgCharsClean(name);
  }

  lemma MadeStep(k: nat, ts: seq<Token>, names: seq<string>, line: string, matches: seq<string>)
    requires ts != [] && Legal(ts[0]) && (ts[0].Arg? || ts[0].Lead? ==> k == 0)
    requires CleanArguments(line, matches) && Shows(ts[0], names, line, matches)
    requires ts[0].Arg? ==> Taken(names, ts[0].name).Some?
    ensures Made(k, ts, names, line, matches) ==
            if ts[0] == Ch('\\') then Made(k + 1, ts[1..], names, line, matches)
            else TokenMade(k, ts[0], names, line, matches) + Made(0, ts[1..], names, line, matches)
  {
    var rest := Meaning(ts[1..], names, line, matches);
    if ts[0] == Ch('\\') {
      LongerRun(k, rest);
    } else {
      TokenDropped(k, ts[0], rest, names, line, matches);
      assert Backslashes(0) + rest == rest;
    }
  }

  lemma PromisedStep(k: nat, ts: seq<Token>, line: string, matches: seq<string>)
    requires ts != [] && Stands(k, ts[0], Render(ts[1..]))
    ensures Promised(k, ts, line, matches) ==
            if ts[0] == Ch('\\') then Promised(k + 1, ts[1..], line, matches)
            else TokenPromised(k, ts[0], Values(line, matches)) + Promised(0, ts[1..], line, matches)
  {
    var rest := Render(ts[1..]);
    if ts[0] == Ch('\\') {
      LongerRun(k, rest);
    } else {
      TokenDocumented(k, ts[0], rest, Values(line, matches));
      assert Backslashes(0) + rest == rest;
    }
  }

  // Where two backslashes stand in a row.
  lemma NoDoubleStep(k: nat, t: Token, rest: string)
    requires Legal(t) && t != Ch('\\')
    ensures NoDouble(Backslashes(k) + (Spell(t) + rest)) <==> (if t.Esc? then k == 0 else k <= 1) && NoDouble(rest)
  {
    match t
    case Ch(c) =>
      NoDoubleOfRun(k, [c] + rest);
      NoDoubleOfClean([c], rest);
    case Esc(name) =>
      ArgCharsClean(name);
      assert Backslashes(k) + (Spell(t) + rest) == Backslashes(k + 1) + (Mark(name) + rest);
      NoDoubleOfRun(k + 1, Mark(name) + rest);
      NoDoubleOfClean(Mark(name), rest);
    case Arg(name) =>
      ArgCharsClean(name);
      NoDoubleOfRun(k, Mark(name) + rest);
      NoDoubleOfClean(Mark(name), rest);
    case Lead(name) =>
      ArgCharsClean(name);
      NoDoubleOfRun(k, Mark(name) + rest);
      NoDoubleOfClean(Mark(name), rest);
  }

  lemma OwnSense(t: Token, k: nat, names: seq<string>, line: string, matches: seq<string>)
    requires TokenInOrder(t, names) && (if t.Esc? then k == 0 else k <= 1) && t != Ch('\\')
    ensures TokenMade(k, t, names, line, matches) == TokenPromised(k, t, Values(line, matches))
  {
    if t.Arg? || t.Lead? {
      var v := Inserted(t.name, line, matches);
      assert Prefix(t) + v + t.name[|t.name|..] == v;
    } else if t.Esc? {
      assert Backslashes(0) + Mark(t.name) == Mark(t.name);
    } else {
      assert Backslashes(0) + [t.c] == [t.c] == "" + [t.c];
    }
  }

  lemma {:induction false} InOrderKeepsPromise(k: nat, ts: seq<Token>, names: seq<string>, line: string,
                                               matches: seq<string>)
    requires Linked(ts, names) && InOrder(ts, names) && CleanArguments(line, matches)
    requires NoDouble(Backslashes(k) + Render(ts)) && (k > 0 && ts != [] ==> !ts[0].Arg? && !ts[0].Lead?)
    ensures Made(k, ts, names, line, matches) == Promised(k, ts, line, matches)
    decreases |ts|
  {
    if ts == [] {
      NoDoubleOfRun(k, "");
      DropRun(k, "");
      DocumentedRun(k, "", Values(line, matches));
    } else {
      var t, rest := ts[0], ts[1..];
      TokenStands(k, ts, names);
      InOrderFirst(ts, names);
      MadeStep(k, ts, names, line, matches);
      PromisedStep(k, ts, line, matches);
      if t == Ch('\\') {
        LongerRun(k, Render(rest));
        InOrderKeepsPromise(k + 1, rest, names, line, matches);
      } else {
        NoDoubleStep(k, t, Render(rest));
        OwnSense(t, k, names, line, matches);
        assert Backslashes(0) + Render(rest) == Render(rest);
        InOrderKeepsPromise(0, rest, names, line, matches);
      }
    }
  }

  // ----- a blank for every argument tells -----

  lemma BlankValue(name: string)
    ensures Inserted(name, " ", []) == " " == Values(" ", [])(name)
  {
    CStringOfText(" ", "");
  }

  lemma BlankSense(t: Token, names: seq<string>)
    requires (t.Arg? || t.Lead?) && Taken(names, t.name).Some?
    ensures Sense(t, names, " ", []) == [' '] + t.name[|Taken(names, t.name).value|..]
  {
    BlankValue(Taken(names, t.name).value);
    assert "" + " " == " ";
  }

  // Behind what stops an argument the manual promises no argument character either.
  lemma PromisedStops(s: string)
    requires Stops(s)
    ensures Stops(Documented(s, Values(" ", [])))
  {
    if StartsArgument(s) { BlankValue(s[1..RunEnd(s, 1)]); }
  }

  // When the code makes of a token what is promised, and the same of the rest, the token is in order.
  lemma TokenTells(k: nat, t: Token, names: seq<string>, a: string, b: string)
    requires Legal(t) && t != Ch('\\') && (t.Arg? || t.Lead? ==> k == 0) && (t.Arg? ==> Taken(names, t.name).Some?)
    requires t == Ch('$') || !t.Ch? ==> Stops(b)
    requires TokenMade(k, t, names, " ", []) + a == TokenPromised(k, t, Values(" ", [])) + b
    ensures TokenInOrder(t, names) && (if t.Esc? then k == 0 else k <= 1) && a == b
  {
    match t
    case Ch(c) => CharTells(k, c, a, b);
    case Esc(name) =>
      EscapeTells(k, name, names, TokenMade(k, t, names, " ", []), TokenPromised(k, t, Values(" ", [])), a, b);
    case Arg(name) =>
      BlankValue(name);
      ArgumentTells(t, names, Sense(t, names, " ", []), a, b);
    case Lead(name) =>
      BlankValue(name);
      ArgumentTells(t, names, Sense(t, names, " ", []), a, b);
  }

  lemma CharTells(k: nat, c: char, a: string, b: string)
    requires c != '\\'
    requires (if c == '$' then "" else Backslashes(k)) + [c] + a
          == Backslashes(if c == '$' then k / 2 else k - k / 2) + [c] + b
    ensures k <= 1 && a == b
  {
    var j, l := if c == '$' then 0 else k, if c == '$' then k / 2 else k - k / 2;
    assert Backslashes(0) == "";
    Associates(Backslashes(j), [c], a);
    Associates(Backslashes(l), [c], b);
    SameIff(j, l, c, a, b);
  }

  lemma EscapeTells(k: nat, name: string, names: seq<string>, left: string, right: string, a: string, b: string)
    requires ArgChars(name) && left == TokenMade(k, Esc(name), names, " ", [])
    requires right == TokenPromised(k, Esc(name), Values(" ", [])) && left + a == right + b
    ensures Taken(names, name) == None && k == 0 && a == b
  {
    var text := if k % 2 == 0 || name == "" then Mark(name) else " ";
    EscapePromised(k, name, right, text);
    if Taken(names, name).Some? {
      HitEscapeApart(k, name, names, a, (k + 1) / 2, text, b);
    } else {
      MarkTells(name, a, (k + 1) / 2, text, b);
    }
  }

  lemma HitEscapeApart(k: nat, name: string, names: seq<string>, a: string, l: nat, text: string, b: string)
    requires Taken(names, name).Some? && text != "" && Bare(text) && l <= k
    ensures TokenMade(k, Esc(name), names, " ", []) + a != Backslashes(l) + text + b
  {
    BlankSense(Arg(name), names);
    RunsApart(k + 1, Sense(Arg(name), names, " ", []), a, l, text, b);
  }

  lemma EscapePromised(k: nat, name: string, right: string, text: string)
    requires right == TokenPromised(k, Esc(name), Values(" ", []))
    requires text == if k % 2 == 0 || name == "" then Mark(name) else " "
    ensures right == Backslashes((k + 1) / 2) + text && text != "" && Bare(text)
  {
    BlankValue(name);
  }

  lemma MarkTells(name: string, a: string, l: nat, text: string, b: string)
    requires text != "" && Bare(text) && Mark(name) + a == Backslashes(l) + text + b
    ensures l == 0 && (text == Mark(name) ==> a == b)
  {
    assert Mark(name) + a == Backslashes(0) + Mark(name) + a;
    LongerDiffers(0, Mark(name), a, l, text, b);
    SameBehind(Mark(name), a, b);
  }

  lemma RunsApart(j: nat, x: string, a: string, k: nat, y: string, b: string)
    requires x != "" && Bare(x) && y != "" && Bare(y) && j != k
    ensures Backslashes(j) + x + a != Backslashes(k) + y + b
  {
    if Backslashes(j) + x + a == Backslashes(k) + y + b { LongerDiffers(j, x, a, k, y, b); }
  }

  // Equal texts begin with equal runs of backslashes.
  lemma LongerDiffers(j: nat, x: string, a: string, k: nat, y: string, b: string)
    requires x != "" && Bare(x) && y != "" && Bare(y)
    requires Backslashes(j) + x + a == Backslashes(k) + y + b
    ensures j == k && x + a == y + b
  {
    Associates(Backslashes(j), x, a);
    Associates(Backslashes(k), y, b);
    RunsDiffer(j, x + a, k, y + b);
  }

  lemma SameBehind(x: string, a: string, b: string)
    ensures x + a == x + b ==> a == b
  {
    assert (x + a)[|x|..] == a && (x + b)[|x|..] == b;
  }

  lemma ArgumentTells(t: Token, names: seq<string>, left: string, a: string, b: string)
    requires (t.Arg? || t.Lead?) && Legal(t) && Stops(b) && (t.Arg? ==> Taken(names, t.name).Some?)
    requires left == Sense(t, names, " ", []) && left + a == " " + b
    ensures Taken(names, t.name) == Some(t.name) && a == b
  {
    if Taken(names, t.name).Some? {
      var n := Taken(names, t.name).value;
      BlankSense(t, names);
      BlankTells(left, t.name[|n|..], a, b);
      NameTells(n, t.name, a, b);
    } else {
      DollarDiffers(t.name, a, b);
    }
  }

  lemma BlankTells(left: string, rest: string, a: string, b: string)
    requires left == [' '] + rest && left + a == " " + b
    ensures rest + a == b
  {
    assert left + a == " " + (rest + a);
    SameBehind(" ", rest + a, b);
  }

  lemma DollarDiffers(name: string, a: string, b: string)
    ensures Mark(name) + a != " " + b
  {
    assert (Mark(name) + a)[0] == '$' && (" " + b)[0] == ' ';
  }

  lemma NameTells(n: string, name: string, a: string, b: string)
    requires n <= name && ArgChars(name) && Stops(b) && name[|n|..] + a == b
    ensures n == name && a == b
  {
    if |n| < |name| { RestNotStops(n, name, a); }
    assert n == name ==> name[|n|..] + a == a;
  }

  lemma RestNotStops(n: string, name: string, a: string)
    requires n <= name && ArgChars(name) && |n| < |name|
    ensures !Stops(name[|n|..] + a)
  {
    assert (name[|n|..] + a)[0] == name[|n|] && ArgChar(name[|n|]);
  }

  ghost predicate ArgsTaken(ts: seq<Token>, names: seq<string>) {
    forall i | 0 <= i < |ts| && ts[i].Arg? :: Taken(names, ts[i].name).Some?
  }

  lemma BlankShows(t: Token, names: seq<string>)
    ensures Shows(t, names, " ", [])
  {
    if t.Esc? && Taken(names, t.name).Some? { BlankSense(Arg(t.name), names); }
  }

  lemma BlanksClean()
    ensures CleanArguments(" ", [])
  {
    CStringOfText(" ", "");
  }

  lemma {:induction false} BlanksTell(k: nat, ts: seq<Token>, names: seq<string>)
    requires Linked(ts, names) && ArgsTaken(ts, names) && (k > 0 && ts != [] ==> !ts[0].Arg? && !ts[0].Lead?)
    requires Made(k, ts, names, " ", []) == Promised(k, ts, " ", [])
    ensures InOrder(ts, names) && NoDouble(Backslashes(k) + Render(ts))
    decreases |ts|
  {
    if ts == [] {
      DropRun(k, "");
      DocumentedRun(k, "", Values(" ", []));
      EqualRuns(k, k - k / 2);
      NoDoubleOfRun(k, "");
    } else {
      var t, rest := ts[0], ts[1..];
      BlanksClean();
      BlankShows(t, names);
      TokenStands(k, ts, names);
      MadeStep(k, ts, names, " ", []);
      PromisedStep(k, ts, " ", []);
      assert ArgsTaken(rest, names);
      if t == Ch('\\') {
        LongerRun(k, Render(rest));
        BlanksTell(k + 1, rest, names);
      } else {
        assert Backslashes(0) + Render(rest) == Render(rest);
        if Stops(Render(rest)) { PromisedStops(Render(rest)); }
        TokenTells(k, t, names, Made(0, rest, names, " ", []), Promised(0, rest, " ", []));
        BlanksTell(0, rest, names);
        NoDoubleStep(k, t, Render(rest));
      }
      InOrderFirst(ts, names);
    }
  }

  lemma TemplateArgsTaken(ts: seq<Token>)
    requires Template(ts)
    ensures ArgsTaken(ts, Names(ts))
  {
    var names := Names(ts);
    forall i | 0 <= i < |ts| && ts[i].Arg? ensures Taken(names, ts[i].name).Some? {
      NamesIn(ts, i);
      TakenIs(names, ts[i].name);
    }
  }

  // Whatever the values, the rewriting of a template is what the manual promises.
  ghost predicate KeepsPromise(ts: seq<Token>) {
    forall line, matches, fuel: nat | CleanArguments(line, matches)
                                   && fuel > Slots(ts) + |Meaning(ts, Names(ts), line, matches)| ::
      Preprocess(Render(ts), line, matches, fuel) == Some(Documented(Render(ts), Values(line, matches)))
  }

  /** The rewriting of a template is what the manual promises, whatever the values (a space for an unknown
      index), if and only if every argument, also one at the start, is the first one found in its own
      spelling, none is found in an escaped dollar and what follows it, and no two backslashes stand in a
      row. */
  lemma PreprocessDocumentedIff(ts: seq<Token>)
    requires Template(ts)
    ensures KeepsPromise(ts) <==> InOrder(ts, Names(ts)) && NoDouble(Render(ts))
  {
    var names := Names(ts);
    assert Backslashes(0) + Render(ts) == Render(ts);
    if InOrder(ts, names) && NoDouble(Render(ts)) {
      forall line, matches, fuel: nat | CleanArguments(line, matches)
                                     && fuel > Slots(ts) + |Meaning(ts, names, line, matches)|
        ensures Preprocess(Render(ts), line, matches, fuel) == Some(Documented(Render(ts), Values(line, matches)))
      {
        PreprocessMade(ts, line, matches, fuel);
        InOrderKeepsPromise(0, ts, names, line, matches);
      }
    } else {
      BlankPromiseBroken(ts, Slots(ts) + |Meaning(ts, names, " ", [])| + 1);
    }
  }

  lemma PreprocessMade(ts: seq<Token>, line: string, matches: seq<string>, fuel: nat)
    requires Template(ts) && CleanArguments(line, matches)
    requires fuel > Slots(ts) + |Meaning(ts, Names(ts), line, matches)|
    ensures Preprocess(Render(ts), line, matches, fuel) == Some(Made(0, ts, Names(ts), line, matches))
  {
    PreprocessMeans(ts, line, matches, fuel);
    var text := Meaning(ts, Names(ts), line, matches);
    assert Backslashes(0) + text == text;
  }

  lemma BlankPromiseBroken(ts: seq<Token>, fuel: nat)
    requires Template(ts) && !(InOrder(ts, Names(ts)) && NoDouble(Render(ts)))
    requires fuel > Slots(ts) + |Meaning(ts, Names(ts), " ", [])|
    ensures CleanArguments(" ", [])
    ensures Preprocess(Render(ts), " ", [], fuel) != Some(Documented(Render(ts), Values(" ", [])))
  {
    BlanksClean();
    PreprocessMade(ts, " ", [], fuel);
    TemplateArgsTaken(ts);
    assert Backslashes(0) + Render(ts) == Render(ts);
    if Made(0, ts, Names(ts), " ", []) == Promised(0, ts, " ", []) { BlanksTell(0, ts, Names(ts)); }
  }

  /** Templates of one-character arguments, none at the start and no escape before an argument character,
      are in order. */
  lemma ShortInOrder(ts: seq<Token>)
    requires Template(ts) && forall i | 0 <= i < |ts| :: !ts[i].Lead? && (ts[i].Esc? ==> ts[i].name == "")
    requires forall n | n in Names(ts) :: |n| == 1
    ensures InOrder(ts, Names(ts))
  {
    NamesLegal(ts);
    forall i | 0 <= i < |ts|
      ensures ts[i].Arg? || ts[i].Lead? ==> Taken(Names(ts), ts[i].name) == Some(ts[i].name)
      ensures ts[i].Esc? ==> Taken(Names(ts), ts[i].name) == None
    {
      if ts[i].Arg? {
        NamesIn(ts, i);
        ShortTaken(Names(ts), ts[i].name);
      } else if ts[i].Esc? {
        NothingTaken(Names(ts));
      }
    }
  }

  lemma {:induction false} ShortTaken(names: seq<string>, n: string)
    requires n in names && forall i | 0 <= i < |names| :: |names[i]| == |n|
    ensures Taken(names, n) == Some(n)
    decreases |names|
  {
    if names[0] != n { ShortTaken(names[1..], n); }
  }

  lemma {:induction false} NothingTaken(names: seq<string>)
    requires forall i | 0 <= i < |names| :: names[i] != ""
    ensures Taken(names, "") == None
    decreases |names|
  {
    if names != [] { NothingTaken(names[1..]); }
  }

  // ----- a single argument -----

  // A template of one argument between two texts.
  function OneArgument(a: string, name: string, rest: string): seq<Token> {
    Chars(a) + [Arg(name)] + Chars(rest)
  }

  lemma {:induction false} CharsRender(s: string)
    ensures Render(Chars(s)) == s && Names(Chars(s)) == [] && Slots(Chars(s)) == 0
    decreases |s|
  {
    if s != "" {
      assert Chars(s)[1..] == Chars(s[1..]);
      CharsRender(s[1..]);
      assert [s[0]] + s[1..] == s;
    }
  }

  lemma OneArgumentIs(a: string, name: string, rest: string)
    ensures Render(OneArgument(a, name, rest)) == a + Mark(name) + rest
    ensures Names(OneArgument(a, name, rest)) == [name] && Slots(OneArgument(a, name, rest)) == 1
  {
    var b := [Arg(name)];
    assert b[1..] == [];
    assert Names(b) == [name] + [] == [name];
    assert Render(b) == Mark(name) + "" == Mark(name);
    CharsRender(a);
    CharsRender(rest);
    RenderConcat(Chars(a), b);
    RenderConcat(Chars(a) + b, Chars(rest));
    NamesConcat(Chars(a), b);
    NamesConcat(Chars(a) + b, Chars(rest));
    SlotsConcat(Chars(a), b);
    SlotsConcat(Chars(a) + b, Chars(rest));
    assert [] + [name] == [name] && [name] + [] == [name];
  }

  lemma OneArgumentFits(a: string, name: string, rest: string)
    requires a != "" && Clean(a) && ArgName(name) && Clean(rest) && Stops(rest)
    ensures Template(OneArgument(a, name, rest))
  {
    var ts, names := OneArgument(a, name, rest), [name];
    OneArgumentIs(a, name, rest);
    forall i | 0 <= i < |ts| ensures Legal(ts[i]) {}
    forall i | 0 <= i < |ts| - 1 ensures FollowsAt(ts, i, names) {
      if i < |a| { assert ts[i] == Ch(a[i]) && a[i] in a; }
      if i > |a| { assert ts[i] == Ch(rest[i - |a| - 1]) && rest[i - |a| - 1] in rest; }
      if i + 1 > |a| { assert ts[i + 1] == Ch(rest[i - |a|]); }
    }
    assert ts[0] == Ch(a[0]);
  }

  lemma OneArgumentMeans(a: string, name: string, rest: string, line: string, matches: seq<string>)
    ensures Meaning(OneArgument(a, name, rest), [name], line, matches) == a + Inserted(name, line, matches) + rest
  {
    var v := Inserted(name, line, matches);
    MeaningMiddle(Chars(a), Arg(name), Chars(rest), [name], line, matches);
    CharsMean(a, [name], line, matches);
    CharsMean(rest, [name], line, matches);
    assert Sense(Arg(name), [name], line, matches) == "" + v + name[|name|..] == v;
  }

  lemma NoSlash(a: string, b: string, c: string)
    requires Clean(a) && Clean(b) && Clean(c)
    ensures Drop(a + b + c) == a + b + c
  {
    var s := a + b + c;
    assert '\\' !in s && s + "" == s;
    DropPlain(s, "");
  }

  /** One argument between two texts: whatever its name, it is replaced by what it stands for, and the texts
      stay as they are. */
  lemma ArgumentReplaced(a: string, name: string, rest: string, line: string, matches: seq<string>, fuel: nat)
    requires a != "" && Clean(a) && ArgName(name) && Clean(rest) && Stops(rest) && CleanArguments(line, matches)
    requires fuel > 1 + |a| + |Inserted(name, line, matches)| + |rest|
    ensures Preprocess(a + Mark(name) + rest, line, matches, fuel)
         == Some(a + Inserted(name, line, matches) + rest)
  {
    var ts, v := OneArgument(a, name, rest), Inserted(name, line, matches);
    OneArgumentIs(a, name, rest);
    OneArgumentFits(a, name, rest);
    OneArgumentMeans(a, name, rest, line, matches);
    PreprocessMeans(ts, line, matches, fuel);
    InsertedClean(name, line, matches);
    NoSlash(a, v, rest);
  }

  /** A numeral of `n` behind the dollar gives the match of index `n`, or a space when there is none. */
  lemma NumberedArgument(a: string, digits: string, rest: string, line: string, matches: seq<string>, n: nat, fuel: nat)
    requires a != "" && Clean(a) && Clean(rest) && Stops(rest) && CleanArguments(line, matches)
    requires digits != "" && AllDigits(digits) && Positional(digits) == n
    requires fuel > 2 + |a| + (if n < |matches| then |CString(matches[n])| else 1) + |rest|
    ensures Preprocess(a + "$" + digits + rest, line, matches, fuel)
         == Some(a + (if n < |matches| then CString(matches[n]) else " ") + rest)
  {
    forall i | 0 <= i < |digits| ensures ArgChar(digits[i]) { assert Digit(digits[i]); }
    assert Digit(digits[0]) && LeadingDigits(digits) == digits;
    assert a + Mark(digits) + rest == a + "$" + digits + rest;
    ArgumentReplaced(a, digits, rest, line, matches, fuel);
  }

  /** And `$@` gives the line. */
  lemma LineArgument(a: string, rest: string, line: string, matches: seq<string>, fuel: nat)
    requires a != "" && Clean(a) && Clean(rest) && Stops(rest) && CleanArguments(line, matches)
    requires fuel > 2 + |a| + |CString(line)| + |rest|
    ensures Preprocess(a + "$@" + rest, line, matches, fuel) == Some(a + CString(line) + rest)
  {
    assert a + Mark("@") + rest == a + "$@" + rest;
    ArgumentReplaced(a, "@", rest, line, matches, fuel);
  }
}
