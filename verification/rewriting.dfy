/** The action templates of `LNActionPreprocessor::run` (monitor.cpp), which rewrites an action until no
    argument is left and then unescapes dollars, by repeated replacement. */
module Rewriting {
  import opened Options
  import opened Text
  import opened Replacing

  // ----- LNActionPreprocessor::run -----

  predicate ArgChar(c: char) {
    '0' <= c <= '9' || c == '@'
  }

  // The regular expression [^\\](\$[0-9@]+) matches at offset i.
  predicate MatchesAt(s: string, i: nat) {
    i + 2 < |s| && s[i] != '\\' && s[i + 1] == '$' && ArgChar(s[i + 2])
  }

  // The leftmost match at or after `start`.
  function FirstMatch(s: string, start: nat): (r: Option<nat>)
    ensures r.Some? ==> start <= r.value && MatchesAt(s, r.value) && forall j | start <= j < r.value :: !MatchesAt(s, j)
    ensures r.None? ==> forall j | start <= j :: !MatchesAt(s, j)
    decreases |s| - start
  {
    if MatchesAt(s, start) then Some(start)
    else if start >= |s| then None
    else FirstMatch(s, start + 1)
  }

  // The end of the run of argument characters at `i`, which the repetition takes greedily.
  function RunEnd(s: string, i: nat): (r: nat)
    requires i <= |s|
    ensures i <= r <= |s|
    ensures forall j | i <= j < r :: ArgChar(s[j])
    ensures r < |s| ==> !ArgChar(s[r])
    decreases |s| - i
  {
    if i < |s| && ArgChar(s[i]) then RunEnd(s, i + 1) else i
  }

  // What stands for the argument whose text after the dollar is `name`.
  function Value(name: string, line: string, matches: seq<string>): string {
    if name == "@" then line
    else if Digits(name, 0) < |matches| then matches[Digits(name, 0)]
    else " "
  }

  // The turn of the loop of run for a match at offset `i`: replace every occurrence of the argument.
  function Rewritten(s: string, i: nat, line: string, matches: seq<string>, fuel: nat): Option<string>
    requires i + 2 <= |s|
  {
    var e := RunEnd(s, i + 2);
    Replace(s[i + 1..e], Value(s[i + 2..e], line, matches), s, fuel)
  }

  // The loop of run: rewrite at the leftmost match, then match again.
  function Expand(s: string, line: string, matches: seq<string>, fuel: nat): Option<string>
    decreases fuel
  {
    match FirstMatch(s, 0)
    case None => Some(s)
    case Some(i) =>
      if fuel == 0 then None else
      match Rewritten(s, i, line, matches, fuel - 1)
      case None => None
      case Some(next) => Expand(next, line, matches, fuel - 1)
  }

  function Preprocess(action: string, line: string, matches: seq<string>, fuel: nat): Option<string> {
    match Expand(action, line, matches, fuel)
    case None => None
    case Some(s) => Replace("\\$", "$", s, fuel)
  }

  lemma ExpandStep(s: string, line: string, matches: seq<string>, fuel: nat, i: nat)
    requires FirstMatch(s, 0) == Some(i) && Expand(s, line, matches, fuel).Some?
    ensures fuel > 0
    ensures var r := Rewritten(s, i, line, matches, fuel - 1);
            r.Some? && Expand(s, line, matches, fuel) == Expand(r.value, line, matches, fuel - 1)
  {}

  method Run(action: string, line: string, matches: seq<string>, ghost fuel: nat) returns (result: string)
    requires Preprocess(action, line, matches, fuel).Some?
    ensures Some(result) == Preprocess(action, line, matches, fuel)
  {
    result := action;
    var m := FirstMatch(result, 0);
    ghost var left, goal := fuel, Expand(action, line, matches, fuel);
    while m.Some?
      invariant m == FirstMatch(result, 0)
      invariant Expand(result, line, matches, left) == goal && goal.Some?
      decreases left
    {
      ExpandStep(result, line, matches, left, m.value);
      left := left - 1;
      result := ReplaceMatch(result, m.value, line, matches, left);
      m := FirstMatch(result, 0);
    }
    result := ReplaceString("\\$", "$", result, fuel);
  }

  method ReplaceMatch(s: string, i: nat, line: string, matches: seq<string>, ghost fuel: nat) returns (result: string)
    requires i + 2 <= |s| && Rewritten(s, i, line, matches, fuel).Some?
    ensures Some(result) == Rewritten(s, i, line, matches, fuel)
  {
    var e := RunEnd(s, i + 2);
    result := ReplaceArgument(s[i + 1..e], s[i + 2..e], s, line, matches, fuel);
  }

  // The body of the loop of run: `mstr` is the argument, `smi` its text after the dollar.
  method ReplaceArgument(mstr: string, smi: string, s: string, line: string, matches: seq<string>, ghost fuel: nat)
      returns (result: string)
    requires Replace(mstr, Value(smi, line, matches), s, fuel).Some?
    ensures Some(result) == Replace(mstr, Value(smi, line, matches), s, fuel)
  {
    if smi == "@" {
      result := ReplaceString(mstr, line, s, fuel);
    } else {
      var mi := Digits(smi, 0);
      if !(mi >= |matches|) {
        result := ReplaceString(mstr, matches[mi], s, fuel);
      } else {
        result := ReplaceString(mstr, " ", s, fuel);
      }
    }
  }

  /** An argument whose value contains the argument itself keeps the loop from ending. */
  lemma SelfReferenceDiverges(action: string, line: string, matches: seq<string>, fuel: nat)
    requires FirstMatch(action, 0).Some?
    requires var i := FirstMatch(action, 0).value; var e := RunEnd(action, i + 2);
             Find(CString(Value(action[i + 2..e], line, matches)), action[i + 1..e]).Some?
    ensures Preprocess(action, line, matches, fuel) == None
  {
    if fuel > 0 {
      var i := FirstMatch(action, 0).value;
      var e := RunEnd(action, i + 2);
      OccursItself(action, i + 1, e);
      ReplaceDiverges(action[i + 1..e], Value(action[i + 2..e], line, matches), action, fuel - 1);
    }
  }

  lemma OccursItself(s: string, i: nat, j: nat)
    requires i <= j <= |s|
    ensures Find(s, s[i..j]).Some?
  {
    assert Occurs(s, s[i..j], i);
  }

  // ----- templates -----

  /** A template: characters, escaped dollars, arguments, and an argument at the very start, which the
      regular expression cannot match for want of a character before its dollar.  The name of an escaped
      dollar is what follows it that could belong to an argument. */
  datatype Token = Ch(c: char) | Esc(name: string) | Arg(name: string) | Lead(name: string)

  // The spelling of an argument.
  function Mark(name: string): string {
    ['$'] + name
  }

  function Spell(t: Token): string {
    match t
    case Ch(c) => [c]
    case Esc(name) => ['\\'] + Mark(name)
    case Arg(name) => Mark(name)
    case Lead(name) => Mark(name)
  }

  function Render(ts: seq<Token>): string
    decreases |ts|
  {
    if ts == [] then "" else Spell(ts[0]) + Render(ts[1..])
  }

  predicate ArgChars(name: string) {
    forall i | 0 <= i < |name| :: ArgChar(name[i])
  }

  predicate ArgName(name: string) {
    name != "" && ArgChars(name)
  }

  predicate Legal(t: Token) {
    match t
    case Ch(c) => true
    case Esc(name) => ArgChars(name)
    case Arg(name) => ArgName(name)
    case Lead(name) => ArgName(name)
  }

  function OwnName(t: Token): seq<string> {
    if t.Arg? then [t.name] else []
  }

  // The arguments the loop meets, from left to right.
  function Names(ts: seq<Token>): seq<string>
    decreases |ts|
  {
    if ts == [] then [] else OwnName(ts[0]) + Names(ts[1..])
  }

  // Whether replacing the spelling of argument `d` changes this token: `$1` is also found in `$10` and
  // in `\$1`.
  predicate Hit(t: Token, d: string) {
    !t.Ch? && d <= t.name
  }

  // The first argument whose spelling is found in that of `n`, if there is one.
  function Taken(names: seq<string>, n: string): (r: Option<string>)
    ensures r.Some? ==> r.value <= n
    decreases |names|
  {
    if names == [] then None else if names[0] <= n then Some(names[0]) else Taken(names[1..], n)
  }

  lemma {:induction false} TakenIs(names: seq<string>, n: string)
    ensures Taken(names, n).None? <==> forall i | 0 <= i < |names| :: !(names[i] <= n)
    decreases |names|
  {
    if names != [] {
      TakenIs(names[1..], n);
      assert forall i | 0 < i < |names| :: names[i] == names[1..][i - 1];
    }
  }

  // How many arguments are met before that one.
  function Turn(names: seq<string>, n: string): nat
    decreases |names|
  {
    if names == [] || names[0] <= n then 0 else 1 + Turn(names[1..], n)
  }

  // What may follow a token.
  predicate Follows(a: Token, b: Token, names: seq<string>) {
    && !b.Lead?
    // a character that would be taken for (more of) an argument never follows an argument or a dollar
    && (a == Ch('$') || !a.Ch? ==> !(b.Ch? && ArgChar(b.c)))
    // no argument follows a bare dollar, a backslash, an escape or the argument at the start
    && (a == Ch('$') || a == Ch('\\') || a.Esc? || a.Lead? ==> !b.Arg?)
    // an argument follows another one only if it is not filled in before that
    && (a.Arg? && b.Arg? ==> Turn(names, a.name) <= Turn(names, b.name))
  }

  predicate FollowsAt(ts: seq<Token>, i: nat, names: seq<string>)
    requires i + 1 < |ts|
  {
    Follows(ts[i], ts[i + 1], names)
  }

  predicate Linked(ts: seq<Token>, names: seq<string>) {
    && (forall i | 0 <= i < |ts| :: Legal(ts[i]))
    && (forall i | 0 <= i < |ts| - 1 :: FollowsAt(ts, i, names))
  }

  predicate Fits(ts: seq<Token>, names: seq<string>) {
    Linked(ts, names) && (ts != [] ==> !ts[0].Arg?)
  }

  predicate Template(ts: seq<Token>) {
    Fits(ts, Names(ts))
  }

  /** The text an argument inserts: for `@` the log line, for a number the match of that index or, when
      there is none, a space. */
  function Inserted(name: string, line: string, matches: seq<string>): string {
    if name == "@" then CString(line) else
    var n := Positional(LeadingDigits(name));
    if n < |matches| then CString(matches[n]) else " "
  }

  lemma ValueIsInserted(name: string, line: string, matches: seq<string>)
    ensures CString(Value(name, line, matches)) == Inserted(name, line, matches)
  {
    CStringOfText(" ", "");
    DigitsAreLeading(name);
  }

  // What stands before the dollar of a token.
  function Prefix(t: Token): string {
    if t.Esc? then ['\\'] else ""
  }

  // What becomes of a token: an argument is taken for the first one found in its spelling, and the rest
  // of its name stays behind that one's value; so are an escaped dollar, behind its backslash, and an
  // argument at the start, which otherwise stay as they are.
  function Sense(t: Token, names: seq<string>, line: string, matches: seq<string>): string {
    if t.Ch? then [t.c] else
    match Taken(names, t.name)
    case Some(taken) => Prefix(t) + Inserted(taken, line, matches) + t.name[|taken|..]
    case None => Spell(t)
  }

  // One-pass substitution with these values.
  function Meaning(ts: seq<Token>, names: seq<string>, line: string, matches: seq<string>): string
    decreases |ts|
  {
    if ts == [] then "" else Sense(ts[0], names, line, matches) + Meaning(ts[1..], names, line, matches)
  }

  ghost predicate Clean(s: string) {
    '$' !in s && '\\' !in s
  }

  function Chars(s: string): (r: seq<Token>)
    ensures |r| == |s|
  {
    seq(|s|, i requires 0 <= i < |s| => Ch(s[i]))
  }

  lemma {:induction false} RenderConcat(a: seq<Token>, b: seq<Token>)
    ensures Render(a + b) == Render(a) + Render(b)
    decreases |a|
  {
    if a == [] {
      assert a + b == b;
    } else {
      assert (a + b)[1..] == a[1..] + b;
      RenderConcat(a[1..], b);
    }
  }

  lemma {:induction false} NamesConcat(a: seq<Token>, b: seq<Token>)
    ensures Names(a + b) == Names(a) + Names(b)
    decreases |a|
  {
    if a == [] {
      assert a + b == b;
    } else {
      assert (a + b)[1..] == a[1..] + b;
      NamesConcat(a[1..], b);
      assert OwnName(a[0]) + (Names(a[1..]) + Names(b)) == Names(a) + Names(b);
    }
  }

  lemma {:induction false} MeaningConcat(a: seq<Token>, b: seq<Token>, names: seq<string>, line: string,
                                         matches: seq<string>)
    ensures Meaning(a + b, names, line, matches) == Meaning(a, names, line, matches) + Meaning(b, names, line, matches)
    decreases |a|
  {
    if a == [] {
      assert a + b == b;
    } else {
      assert (a + b)[1..] == a[1..] + b;
      MeaningConcat(a[1..], b, names, line, matches);
    }
  }

  // Characters stand for themselves and hold no arguments.
  lemma {:induction false} CharsMean(s: string, names: seq<string>, line: string, matches: seq<string>)
    ensures Render(Chars(s)) == s && Names(Chars(s)) == [] && Slots(Chars(s)) == 0
    ensures Meaning(Chars(s), names, line, matches) == s
    decreases |s|
  {
    if s != "" {
      assert Chars(s)[1..] == Chars(s[1..]);
      CharsMean(s[1..], names, line, matches);
    }
  }

  // How many tokens a replacement may change.
  function Slots(ts: seq<Token>): nat
    decreases |ts|
  {
    if ts == [] then 0 else (if ts[0].Ch? then 0 else 1) + Slots(ts[1..])
  }

  lemma {:induction false} SlotsConcat(a: seq<Token>, b: seq<Token>)
    ensures Slots(a + b) == Slots(a) + Slots(b)
    decreases |a|
  {
    if a == [] {
      assert a + b == b;
    } else {
      assert (a + b)[1..] == a[1..] + b;
      SlotsConcat(a[1..], b);
    }
  }

  lemma {:induction false} NamesIn(ts: seq<Token>, i: nat)
    requires i < |ts| && ts[i].Arg?
    ensures ts[i].name in Names(ts)
    decreases |ts|
  {
    if i > 0 { NamesIn(ts[1..], i - 1); }
  }

  // ----- where an argument is found -----

  ghost predicate HasHit(ts: seq<Token>, d: string) {
    exists i :: 0 <= i < |ts| && Hit(ts[i], d)
  }

  lemma HasNotHit(ts: seq<Token>, d: string)
    requires !HasHit(ts, d) && ts != []
    ensures !Hit(ts[0], d) && !HasHit(ts[1..], d)
  {}

  lemma FirstChar(ts: seq<Token>)
    requires ts != []
    ensures Render(ts) != "" && Render(ts)[0] == Spell(ts[0])[0]
  {}

  lemma OccursAfter(a: string, b: string, pat: string, i: nat)
    requires i >= |a|
    ensures Occurs(a + b, pat, i) <==> Occurs(b, pat, i - |a|)
  {
    if i + |pat| <= |a + b| { assert (a + b)[i..i + |pat|] == b[i - |a|..i - |a| + |pat|]; }
  }

  lemma MarkOccurs(s: string, d: string, i: nat)
    requires Occurs(s, Mark(d), i)
    ensures i + |d| < |s| && s[i] == '$' && forall k | i < k <= i + |d| :: s[k] == d[k - i - 1]
  {
    var part := s[i..i + 1 + |d|];
    forall k | i < k <= i + |d| ensures s[k] == d[k - i - 1] { assert s[k] == part[k - i]; }
  }

  // A text at which an argument ends.
  predicate Stops(s: string) {
    s == "" || !ArgChar(s[0])
  }

  // The spelling of an argument occurs only in tokens whose name begins with its name.
  lemma {:induction false} OnlyInHits(ts: seq<Token>, names: seq<string>, d: string, i: nat)
    requires Linked(ts, names) && ArgName(d) && !HasHit(ts, d)
    ensures !Occurs(Render(ts), Mark(d), i)
    decreases |ts|
  {
    if ts != [] {
      HasNotHit(ts, d);
      if i >= |Spell(ts[0])| {
        LinkedPart(ts, names, 1, |ts|);
        assert ts[1..|ts|] == ts[1..];
        OnlyInHits(ts[1..], names, d, i - |Spell(ts[0])|);
        OccursAfter(Spell(ts[0]), Render(ts[1..]), Mark(d), i);
      } else {
        NotSpelledAt(ts, names, d, i);
      }
    }
  }

  lemma AfterDollar(ts: seq<Token>, names: seq<string>)
    requires ts != [] && Linked(ts, names) && (ts[0] == Ch('$') || !ts[0].Ch?)
    ensures Stops(Render(ts[1..]))
  {
    if |ts| > 1 {
      FirstChar(ts[1..]);
      assert FollowsAt(ts, 0, names) && Legal(ts[1]);
    }
  }

  lemma NotSpelledAt(ts: seq<Token>, names: seq<string>, d: string, i: nat)
    requires ts != [] && Linked(ts, names) && !Hit(ts[0], d) && ArgName(d) && i < |Spell(ts[0])|
    ensures !Occurs(Render(ts), Mark(d), i)
  {
    var t, rest := ts[0], Render(ts[1..]);
    assert Legal(t);
    if t == Ch('$') || !t.Ch? { AfterDollar(ts, names); }
    match t
    case Ch(c) => NotAtChar(c, rest, d);
    case Esc(name) => NotInEscape(name, rest, d, i);
    case Arg(name) => NotInName(name, rest, d, i);
    case Lead(name) => NotInName(name, rest, d, i);
  }

  lemma NotAtChar(c: char, rest: string, d: string)
    requires ArgName(d) && (c == '$' ==> Stops(rest))
    ensures !Occurs([c] + rest, Mark(d), 0)
  {
    var s := [c] + rest;
    assert s[0] == c && (rest != "" ==> s[1] == rest[0]);
    if Occurs(s, Mark(d), 0) { MarkOccurs(s, d, 0); }
  }

  lemma NotInEscape(name: string, rest: string, d: string, i: nat)
    requires ArgChars(name) && ArgName(d) && !(d <= name) && i <= |name| + 1 && Stops(rest)
    ensures !Occurs(['\\'] + Mark(name) + rest, Mark(d), i)
  {
    var s := ['\\'] + (Mark(name) + rest);
    assert ['\\'] + Mark(name) + rest == s && s[0] == '\\';
    if i == 0 {
      if Occurs(s, Mark(d), 0) { MarkOccurs(s, d, 0); }
    } else {
      NotInName(name, rest, d, i - 1);
      OccursAfter(['\\'], Mark(name) + rest, Mark(d), i);
    }
  }

  lemma NotInName(name: string, rest: string, d: string, i: nat)
    requires ArgChars(name) && ArgName(d) && !(d <= name) && i <= |name| && Stops(rest)
    ensures !Occurs(Mark(name) + rest, Mark(d), i)
  {
    var s := Mark(name) + rest;
    assert rest != "" ==> s[1 + |name|] == rest[0];
    assert i > 0 ==> s[i] == name[i - 1];
    assert |d| <= |name| ==> s[0..1 + |d|][1..] == name[..|d|] && Mark(d)[1..] == d;
    if Occurs(s, Mark(d), i) { MarkOccurs(s, d, i); }
  }

  lemma LinkedPart(ts: seq<Token>, names: seq<string>, i: nat, j: nat)
    requires Linked(ts, names) && i <= j <= |ts|
    ensures Linked(ts[i..j], names)
  {
    forall k | 0 <= k < j - i - 1 ensures FollowsAt(ts[i..j], k, names) {
      assert FollowsAt(ts, i + k, names);
    }
  }

  lemma LinkedAround(pre: seq<Token>, t: Token, post: seq<Token>, names: seq<string>)
    requires Linked(pre + [t] + post, names)
    ensures Linked(pre, names) && Linked([t] + post, names) && Linked(post, names) && Legal(t)
    ensures pre != [] ==> Follows(pre[|pre| - 1], t, names)
    ensures post != [] ==> Follows(t, post[0], names)
  {
    var ts, n := pre + [t] + post, |pre|;
    Slices(pre, t, post);
    LinkedPart(ts, names, 0, n);
    LinkedPart(ts, names, n, |ts|);
    LinkedPart(ts, names, n + 1, |ts|);
    if n > 0 { LinkedAt(ts, n - 1, names); }
    if post != [] { LinkedAt(ts, n, names); }
  }

  lemma Slices(pre: seq<Token>, t: Token, post: seq<Token>)
    ensures var ts, n := pre + [t] + post, |pre|;
            ts[0..n] == pre && ts[n..|ts|] == [t] + post && ts[n + 1..|ts|] == post && ts[n] == t
  {
    assert pre + [t] + post == pre + ([t] + post);
  }

  lemma LinkedAt(ts: seq<Token>, i: nat, names: seq<string>)
    requires Linked(ts, names) && i + 1 < |ts|
    ensures Follows(ts[i], ts[i + 1], names)
  {
    assert FollowsAt(ts, i, names);
  }

  lemma RenderSplit(pre: seq<Token>, t: Token, post: seq<Token>)
    ensures Render(pre + [t] + post) == Render(pre) + Spell(t) + Render(post)
  {
    RenderMiddle(pre, [t], post);
    assert Render([t]) == Spell(t) by { assert [t][1..] == []; }
  }

  lemma RenderMiddle(pre: seq<Token>, mid: seq<Token>, post: seq<Token>)
    ensures Render(pre + mid + post) == Render(pre) + Render(mid) + Render(post)
  {
    RenderConcat(pre + mid, post);
    RenderConcat(pre, mid);
  }

  // The first token that is hit is where the search for the spelling ends up.
  lemma FoundAtFirst(pre: seq<Token>, t: Token, post: seq<Token>, names: seq<string>, d: string)
    requires Linked(pre + [t] + post, names) && !HasHit(pre, d) && Hit(t, d) && ArgName(d)
    ensures Find(Render(pre + [t] + post), Mark(d)) == Some(|Render(pre) + Prefix(t)|)
  {
    LinkedAround(pre, t, post, names);
    forall j: nat ensures !Occurs(Render(pre) + Prefix(t), Mark(d), j) {
      OnlyInHits(pre, names, d, j);
      NotInPrefix(Render(pre), t, d, j);
    }
    RenderSplit(pre, t, post);
    SpellSplit(t, d);
    Regroup(Render(pre), Prefix(t), Mark(d), t.name[|d|..], Render(post));
    FoundAfter(Render(pre) + Prefix(t), d, t.name[|d|..] + Render(post));
  }

  lemma NotInPrefix(a: string, t: Token, d: string, j: nat)
    requires ArgName(d) && !Occurs(a, Mark(d), j)
    ensures !Occurs(a + Prefix(t), Mark(d), j)
  {
    if t.Esc? {
      NotAcross(a, ['\\'], d, j);
    } else {
      assert a + "" == a;
    }
  }

  lemma MarkSplit(name: string, d: string)
    requires d <= name
    ensures Mark(name) == Mark(d) + name[|d|..]
  {
    assert name == d + name[|d|..];
  }

  lemma SpellSplit(t: Token, d: string)
    requires Hit(t, d)
    ensures Spell(t) == Prefix(t) + Mark(d) + t.name[|d|..]
  {
    MarkSplit(t.name, d);
    assert Prefix(t) + (Mark(d) + t.name[|d|..]) == Prefix(t) + Mark(d) + t.name[|d|..];
    assert "" + Mark(t.name) == Mark(t.name);
  }

  lemma Regroup(a: string, b: string, c: string, d: string, e: string)
    ensures a + (b + c + d) + e == a + b + (c + (d + e))
  {}

  lemma FoundAfter(a: string, d: string, c: string)
    requires ArgName(d) && forall j: nat :: !Occurs(a, Mark(d), j)
    ensures Find(a + (Mark(d) + c), Mark(d)) == Some(|a|)
  {
    var rest := Mark(d) + c;
    assert rest[..|Mark(d)|] == Mark(d);
    OccursAfter(a, rest, Mark(d), |a|);
    forall j | 0 <= j < |a| ensures !Occurs(a + rest, Mark(d), j) { NotAcross(a, rest, d, j); }
    FindIs(a + rest, Mark(d), |a|);
  }

  // No spelling of an argument crosses the start of a text that is no part of an argument.
  lemma NotAcross(a: string, b: string, d: string, j: nat)
    requires ArgName(d) && !Occurs(a, Mark(d), j) && b != "" && !ArgChar(b[0]) && (j < |a| || b[0] != '$')
    requires j < |a| || |b| == 1
    ensures !Occurs(a + b, Mark(d), j)
  {
    assert j + 1 + |d| <= |a| ==> (a + b)[j..j + 1 + |d|] == a[j..j + 1 + |d|];
    assert (a + b)[|a|] == b[0];
    if Occurs(a + b, Mark(d), j) { MarkOccurs(a + b, d, j); }
  }

  ghost predicate NoArgs(ts: seq<Token>) {
    forall i | 0 <= i < |ts| :: !ts[i].Arg?
  }

  // Inside the spelling of a token that is no argument, a dollar is escaped.
  lemma TokenDollars(t: Token, p: nat)
    requires Legal(t) && !t.Arg? && 0 < p < |Spell(t)| && Spell(t)[p] == '$'
    ensures Spell(t)[p - 1] == '\\'
  {}

  // A dollar that is no escape and no argument is followed by nothing an argument could begin with.
  lemma DollarStops(ts: seq<Token>, names: seq<string>, b: string, s: string)
    requires ts != [] && Linked(ts, names) && !ts[0].Arg? && !ts[0].Lead? && Stops(b)
    requires s == Render(ts) + b && s[0] == '$'
    ensures Stops(s[1..])
  {
    FirstChar(ts);
    AfterDollar(ts, names);
    StopsBehind('$', Render(ts[1..]), b);
  }

  lemma StopsBehind(c: char, a: string, b: string)
    requires Stops(a) && Stops(b)
    ensures Stops(([c] + a + b)[1..])
  {
    assert ([c] + a + b)[1..] == a + b;
  }

  lemma RenderRest(ts: seq<Token>, b: string)
    requires ts != []
    ensures Render(ts) + b == Spell(ts[0]) + (Render(ts[1..]) + b)
  {}

  // Without arguments every dollar before an argument character is escaped, save one at the start.
  lemma {:induction false} DollarsIdle(ts: seq<Token>, names: seq<string>, b: string, s: string, p: nat)
    requires NoArgs(ts) && Linked(ts, names) && Stops(b) && s == Render(ts) + b && 0 < p < |Render(ts)|
    requires s[p] == '$' && p + 1 < |s| && ArgChar(s[p + 1])
    ensures s[p - 1] == '\\'
    decreases |ts|
  {
    var t, rest, n := ts[0], ts[1..], |Spell(ts[0])|;
    var c := Render(rest) + b;
    RenderRest(ts, b);
    assert Legal(t) && !t.Arg?;
    if p < n {
      TokenDollars(t, p);
    } else {
      LinkedPart(ts, names, 1, |ts|);
      assert ts[1..|ts|] == rest && rest != [] && FollowsAt(ts, 0, names);
      if p > n {
        DollarsIdle(rest, names, b, c, p - n);
      } else {
        assert s[n + 1] == c[1] && c[1..][0] == c[1];
        DollarStops(rest, names, b, c);
      }
    }
  }

  lemma NoneBefore(pre: seq<Token>, names: seq<string>, a: string, b: string, s: string)
    requires NoArgs(pre) && Linked(pre, names) && Stops(b) && a == Render(pre) != "" && s == a + b
    ensures forall j | 0 <= j < |a| - 1 :: !MatchesAt(s, j)
  {
    forall j | 0 <= j < |a| - 1 ensures !MatchesAt(s, j) {
      if MatchesAt(s, j) { DollarsIdle(pre, names, b, s, j + 1); }
    }
  }

  lemma RunEndIs(s: string, i: nat, e: nat)
    requires i <= e <= |s| && (forall j | i <= j < e :: ArgChar(s[j])) && (e < |s| ==> !ArgChar(s[e]))
    ensures RunEnd(s, i) == e
  {}

  lemma RunEndsAfter(pre: seq<Token>, d: string, post: seq<Token>, names: seq<string>, a: string, b: string)
    requires Linked(pre + [Arg(d)] + post, names) && b == Render(post)
    ensures RunEnd(a + Mark(d) + b, |a| + 1) == |a| + 1 + |d|
  {
    LinkedAround(pre, Arg(d), post, names);
    ArgStops(d, post, names);
    RunEndsIn(a, d, b);
  }

  lemma ArgStops(d: string, post: seq<Token>, names: seq<string>)
    requires Linked([Arg(d)] + post, names)
    ensures Stops(Render(post))
  {
    var tail := [Arg(d)] + post;
    assert tail[1..] == post;
    AfterDollar(tail, names);
  }

  lemma RunEndsIn(a: string, d: string, b: string)
    requires ArgName(d) && Stops(b)
    ensures RunEnd(a + Mark(d) + b, |a| + 1) == |a| + 1 + |d|
  {
    MarkWithin(a, d, b);
    RunEndIs(a + Mark(d) + b, |a| + 1, |a| + 1 + |d|);
  }

  lemma MarkWithin(a: string, d: string, b: string)
    ensures var s, n := a + Mark(d) + b, |a| + 1;
            && |s| == n + |d| + |b| && (b != "" ==> s[n + |d|] == b[0])
            && forall j | n <= j < n + |d| :: s[j] == d[j - n]
  {
    var s, n := a + Mark(d) + b, |a| + 1;
    forall j | n <= j < n + |d| ensures s[j] == d[j - n] { assert s[j] == Mark(d)[j - |a|]; }
  }

  // The regular expression matches at the character before the first argument, and just that.
  lemma MatchedAtFirst(pre: seq<Token>, d: string, post: seq<Token>, names: seq<string>, a: string, b: string)
    requires Fits(pre + [Arg(d)] + post, names) && NoArgs(pre) && a == Render(pre)
    ensures a != "" && FirstMatch(a + Mark(d) + b, 0) == Some(|a| - 1)
  {
    CharBefore(pre, d, post, names);
    LinkedAround(pre, Arg(d), post, names);
    MatchedBehind(pre, names, a, d, b);
  }

  lemma MatchedBehind(pre: seq<Token>, names: seq<string>, a: string, d: string, b: string)
    requires NoArgs(pre) && Linked(pre, names) && ArgName(d) && a == Render(pre) != "" && a[|a| - 1] != '\\'
    ensures FirstMatch(a + Mark(d) + b, 0) == Some(|a| - 1)
  {
    var rest := Mark(d) + b;
    MarkThen(a, d, b);
    NoneBefore(pre, names, a, rest, a + rest);
    FirstMatchAfter(a, d, b);
  }

  lemma FirstMatchAfter(a: string, d: string, b: string)
    requires ArgName(d) && a != "" && a[|a| - 1] != '\\'
    requires forall j | 0 <= j < |a| - 1 :: !MatchesAt(a + (Mark(d) + b), j)
    ensures FirstMatch(a + Mark(d) + b, 0) == Some(|a| - 1)
  {
    MarkThen(a, d, b);
    MatchesBefore(a, d, b);
    FirstMatchIs(a + Mark(d) + b, |a| - 1);
  }

  lemma MarkThen(a: string, d: string, b: string)
    ensures a + Mark(d) + b == a + (Mark(d) + b) && Stops(Mark(d) + b)
  {}

  lemma FirstMatchIs(s: string, i: nat)
    requires MatchesAt(s, i) && forall j | 0 <= j < i :: !MatchesAt(s, j)
    ensures FirstMatch(s, 0) == Some(i)
  {}

  lemma MatchesBefore(a: string, d: string, b: string)
    requires a != "" && a[|a| - 1] != '\\' && ArgName(d)
    ensures MatchesAt(a + Mark(d) + b, |a| - 1)
  {
    assert (a + Mark(d) + b)[|a| + 1] == d[0];
  }

  // Before the first argument stands a character, no backslash and no dollar.
  lemma CharBefore(pre: seq<Token>, d: string, post: seq<Token>, names: seq<string>)
    requires Fits(pre + [Arg(d)] + post, names) && (pre != [] ==> !pre[|pre| - 1].Arg?)
    ensures pre != [] && pre[|pre| - 1].Ch? && pre[|pre| - 1].c != '$' && pre[|pre| - 1].c != '\\'
    ensures Render(pre) != "" && Render(pre)[|Render(pre)| - 1] != '\\'
  {
    LinkedAround(pre, Arg(d), post, names);
    assert (pre + [Arg(d)] + post)[|pre|] == Arg(d);
    LastRendered(pre);
  }

  lemma {:induction false} LastRendered(ts: seq<Token>)
    requires ts != [] && ts[|ts| - 1].Ch?
    ensures Render(ts) != "" && Render(ts)[|Render(ts)| - 1] == ts[|ts| - 1].c
    decreases |ts|
  {
    var rest := ts[1..];
    if rest != [] {
      assert rest[|rest| - 1] == ts[|ts| - 1];
      LastRendered(rest);
      LastOfSum(Spell(ts[0]), Render(rest));
    } else {
      assert Render(ts) == [ts[0].c] + "";
    }
  }

  lemma LastOfSum(a: string, b: string)
    requires b != ""
    ensures (a + b)[|a + b| - 1] == b[|b| - 1]
  {}

  lemma NoMatch(ts: seq<Token>, names: seq<string>)
    requires Linked(ts, names) && NoArgs(ts)
    ensures FirstMatch(Render(ts), 0) == None
  {
    assert Render(ts) + "" == Render(ts);
    forall j: nat ensures !MatchesAt(Render(ts), j) {
      if MatchesAt(Render(ts), j) { DollarsIdle(ts, names, "", Render(ts), j + 1); }
    }
  }

  // ----- filling in one argument -----

  // What the replacement of the spelling of `d` by `v` makes of a token that is hit.
  function Insert(t: Token, d: string, v: string): string
    requires Hit(t, d)
  {
    Prefix(t) + v + t.name[|d|..]
  }

  function Filled(t: Token, d: string, v: string): seq<Token> {
    if Hit(t, d) then Chars(Insert(t, d, v)) else [t]
  }

  function Fill(ts: seq<Token>, d: string, v: string): seq<Token>
    decreases |ts|
  {
    if ts == [] then [] else Filled(ts[0], d, v) + Fill(ts[1..], d, v)
  }

  // The arguments that are left.
  function Without(names: seq<string>, d: string): seq<string>
    decreases |names|
  {
    if names == [] then [] else (if d <= names[0] then [] else [names[0]]) + Without(names[1..], d)
  }

  lemma {:induction false} FillConcat(a: seq<Token>, b: seq<Token>, d: string, v: string)
    ensures Fill(a + b, d, v) == Fill(a, d, v) + Fill(b, d, v)
    decreases |a|
  {
    if a == [] {
      assert a + b == b;
    } else {
      assert (a + b)[1..] == a[1..] + b;
      FillConcat(a[1..], b, d, v);
    }
  }

  lemma {:induction false} FillNothing(ts: seq<Token>, d: string, v: string)
    requires !HasHit(ts, d)
    ensures Fill(ts, d, v) == ts
    decreases |ts|
  {
    if ts != [] {
      HasNotHit(ts, d);
      FillNothing(ts[1..], d, v);
    }
  }

  lemma {:induction false} FillNames(ts: seq<Token>, d: string, v: string)
    ensures Names(Fill(ts, d, v)) == Without(Names(ts), d)
    decreases |ts|
  {
    if ts != [] {
      FillNames(ts[1..], d, v);
      NamesConcat(Filled(ts[0], d, v), Fill(ts[1..], d, v));
      if Hit(ts[0], d) { CharsMean(Insert(ts[0], d, v), [], "", []); }
      assert [ts[0]][1..] == [];
      if ts[0].Arg? {
        assert Names(ts)[1..] == Names(ts[1..]);
      } else {
        assert Names(ts) == Names(ts[1..]);
      }
    }
  }

  // Filling in leaves no more to fill in, and less if an argument is met.
  lemma {:induction false} FillSlots(ts: seq<Token>, d: string, v: string)
    ensures Slots(Fill(ts, d, v)) <= Slots(ts)
    ensures HasHit(ts, d) ==> Slots(Fill(ts, d, v)) < Slots(ts)
    decreases |ts|
  {
    if ts != [] {
      if !Hit(ts[0], d) && HasHit(ts, d) {
        var i :| 0 <= i < |ts| && Hit(ts[i], d);
        assert Hit(ts[1..][i - 1], d);
      }
      FillSlots(ts[1..], d, v);
      SlotsConcat(Filled(ts[0], d, v), Fill(ts[1..], d, v));
      if Hit(ts[0], d) { CharsMean(Insert(ts[0], d, v), [], "", []); }
      assert [ts[0]][1..] == [];
    }
  }

  lemma {:induction false} NoArgsNames(ts: seq<Token>)
    ensures NoArgs(ts) <==> Names(ts) == []
    decreases |ts|
  {
    if ts != [] {
      NoArgsNames(ts[1..]);
      assert NoArgs(ts) <==> !ts[0].Arg? && NoArgs(ts[1..]) by {
        assert forall k | 0 <= k < |ts[1..]| :: ts[1..][k] == ts[k + 1];
      }
    }
  }

  lemma LinkedJoin(a: seq<Token>, b: seq<Token>, names: seq<string>)
    requires Linked(a, names) && Linked(b, names) && (a != [] && b != [] ==> Follows(a[|a| - 1], b[0], names))
    ensures Linked(a + b, names)
  {
    forall i | 0 <= i < |a + b| - 1 ensures FollowsAt(a + b, i, names) {
      if i + 1 < |a| {
        assert FollowsAt(a, i, names);
      } else if i >= |a| {
        assert FollowsAt(b, i - |a|, names);
      }
    }
  }

  // The text inserted for a token: free of dollars, and of backslashes behind its first character.
  lemma InsertIs(t: Token, d: string, v: string, names: seq<string>)
    requires Legal(t) && Hit(t, d) && Clean(v)
    ensures var w := Insert(t, d, v);
            && Linked(Chars(w), names)
            && (t.Esc? ==> w != "" && w[0] == '\\')
            && (forall i | 0 <= i < |w| :: w[i] != '$' && (w[i] == '\\' ==> i == 0 && t.Esc?))
  {
    forall i | |d| <= i < |t.name| ensures t.name[i] != '$' && t.name[i] != '\\' { assert ArgChar(t.name[i]); }
  }

  // What may follow a token that is hit may follow the text inserted for it.
  lemma InsertBefore(t: Token, d: string, v: string, b: Token, names: seq<string>)
    requires Legal(t) && Hit(t, d) && ArgName(d) && Clean(v) && Follows(t, b, names)
    ensures var w := Insert(t, d, v); w != "" ==> Follows(Ch(w[|w| - 1]), b, names)
  {
    InsertIs(t, d, v, names);
  }

  // It may follow what the token follows, when the token is the next to be filled in.
  lemma InsertAfter(a: Token, t: Token, d: string, v: string, names: seq<string>)
    requires Legal(t) && Hit(t, d) && Clean(v) && Follows(a, t, names) && !Hit(a, d) && names != [] && names[0] == d
    ensures var w := Insert(t, d, v); w != "" ==> Follows(a, Ch(w[0]), names)
  {
    InsertIs(t, d, v, names);
  }

  lemma SpliceLinked(pre: seq<Token>, t: Token, post: seq<Token>, names: seq<string>, d: string, v: string)
    requires Linked(pre + [t] + post, names) && Clean(v) && ArgName(d)
    requires names != [] && names[0] == d && Hit(t, d) && !HasHit(pre, d)
    ensures Insert(t, d, v) != "" ==> Linked(pre + Chars(Insert(t, d, v)) + post, names)
  {
    var w := Insert(t, d, v);
    LinkedAround(pre, t, post, names);
    InsertIs(t, d, v, names);
    if w != "" {
      if pre != [] { InsertAfter(pre[|pre| - 1], t, d, v, names); }
      LinkedJoin(pre, Chars(w), names);
      if post != [] { InsertBefore(t, d, v, post[0], names); }
      LinkedJoin(pre + Chars(w), post, names);
    }
  }

  // Nothing but the character before an argument is left to join what follows it.
  lemma SpliceNothing(pre: seq<Token>, t: Token, post: seq<Token>, names: seq<string>, d: string)
    requires Fits(pre + [t] + post, names) && !t.Esc?
    requires names != [] && names[0] == d && Hit(t, d) && !HasHit(pre, d)
    ensures Fits(pre + post, names)
  {
    LinkedAround(pre, t, post, names);
    assert pre != [] ==> pre[0] == (pre + [t] + post)[0] == (pre + post)[0];
    if t.Arg? { CharBefore(pre, t.name, post, names); }
    LinkedJoin(pre, post, names);
  }

  // A clean text in the place of the first token that is hit leaves a template.
  lemma SpliceFits(pre: seq<Token>, t: Token, post: seq<Token>, names: seq<string>, d: string, v: string)
    requires Fits(pre + [t] + post, names) && Clean(v) && ArgName(d)
    requires names != [] && names[0] == d && Hit(t, d) && !HasHit(pre, d)
    ensures Fits(pre + Chars(Insert(t, d, v)) + post, names)
  {
    var w := Insert(t, d, v);
    if w == "" {
      SpliceNothing(pre, t, post, names, d);
      assert pre + Chars(w) + post == pre + post;
    } else {
      SpliceLinked(pre, t, post, names, d, v);
      assert pre != [] ==> pre[0] == (pre + [t] + post)[0];
    }
  }

  lemma {:induction false} FirstHit(ts: seq<Token>, d: string) returns (k: nat)
    requires HasHit(ts, d)
    ensures k < |ts| && Hit(ts[k], d) && !HasHit(ts[..k], d) && ts == ts[..k] + [ts[k]] + ts[k + 1..]
    decreases |ts|
  {
    if Hit(ts[0], d) {
      k := 0;
    } else {
      var rest := ts[1..];
      assert HasHit(rest, d) by {
        var i :| 0 <= i < |ts| && Hit(ts[i], d);
        assert Hit(rest[i - 1], d);
      }
      var l := FirstHit(rest, d);
      k := l + 1;
      assert forall i | 0 < i < k :: ts[..k][i] == rest[..l][i - 1];
    }
  }

  lemma SpliceText(pre: seq<Token>, t: Token, post: seq<Token>, d: string, v: string)
    requires Hit(t, d) && Occurs(Render(pre + [t] + post), Mark(d), |Render(pre) + Prefix(t)|)
    ensures Replaced(Mark(d), v, Render(pre + [t] + post), |Render(pre) + Prefix(t)|)
         == Render(pre + Chars(Insert(t, d, CString(v))) + post)
  {
    var a, p, c, b := Render(pre), Prefix(t), t.name[|d|..], Render(post);
    RenderSplit(pre, t, post);
    SpellSplit(t, d);
    Regroup(a, p, Mark(d), c, b);
    RenderMiddle(pre, Chars(Insert(t, d, CString(v))), post);
    CharsMean(Insert(t, d, CString(v)), [], "", []);
    Regroup(a, p, CString(v), c, b);
    ReplacedMark(a + p, d, c + b, v);
  }

  lemma ReplacedMark(a: string, d: string, c: string, v: string)
    requires Occurs(a + (Mark(d) + c), Mark(d), |a|)
    ensures Replaced(Mark(d), v, a + (Mark(d) + c), |a|) == a + (CString(v) + c)
  {
    var s := a + (Mark(d) + c);
    assert s[..|a|] == a && s[|a| + |Mark(d)|..] == c;
  }

  lemma SpliceFill(pre: seq<Token>, t: Token, post: seq<Token>, d: string, v: string)
    requires Hit(t, d)
    ensures Fill(pre + Chars(Insert(t, d, v)) + post, d, v) == Fill(pre + [t] + post, d, v)
  {
    var cs := Chars(Insert(t, d, v));
    FillMiddle(pre, [t], post, d, v);
    FillMiddle(pre, cs, post, d, v);
    assert Fill([t], d, v) == cs by { assert [t][1..] == []; }
    FillNothing(cs, d, v);
  }

  lemma FillMiddle(pre: seq<Token>, mid: seq<Token>, post: seq<Token>, d: string, v: string)
    ensures Fill(pre + mid + post, d, v) == Fill(pre, d, v) + Fill(mid, d, v) + Fill(post, d, v)
  {
    FillConcat(pre + mid, post, d, v);
    FillConcat(pre, mid, d, v);
  }

  lemma SpliceSlots(pre: seq<Token>, t: Token, post: seq<Token>, w: string)
    requires !t.Ch?
    ensures Slots(pre + Chars(w) + post) + 1 == Slots(pre + [t] + post)
  {
    SlotsConcat(pre + [t], post);
    SlotsConcat(pre, [t]);
    SlotsConcat(pre + Chars(w), post);
    SlotsConcat(pre, Chars(w));
    CharsMean(w, [], "", []);
    assert [t][1..] == [];
  }

  lemma FindsNone(ts: seq<Token>, names: seq<string>, d: string)
    requires Linked(ts, names) && ArgName(d) && !HasHit(ts, d)
    ensures Find(Render(ts), Mark(d)) == None
  {
    forall j: nat ensures !Occurs(Render(ts), Mark(d), j) { OnlyInHits(ts, names, d, j); }
    FindNothing(Render(ts), Mark(d));
  }

  // One replacement fills in the first token that is hit.
  lemma FillFirst(ts: seq<Token>, names: seq<string>, d: string, v: string) returns (next: seq<Token>, p: nat)
    requires Fits(ts, names) && names != [] && names[0] == d && ArgName(d)
    requires HasHit(ts, d) && Clean(CString(v))
    ensures Fits(next, names) && Slots(next) + 1 == Slots(ts)
    ensures Fill(next, d, CString(v)) == Fill(ts, d, CString(v))
    ensures Find(Render(ts), Mark(d)) == Some(p) && Render(next) == Replaced(Mark(d), v, Render(ts), p)
  {
    var k := FirstHit(ts, d);
    var pre, t, post := ts[..k], ts[k], ts[k + 1..];
    next := pre + Chars(Insert(t, d, CString(v))) + post;
    p := |Render(pre) + Prefix(t)|;
    SpliceFits(pre, t, post, names, d, CString(v));
    SpliceSlots(pre, t, post, Insert(t, d, CString(v)));
    SpliceFill(pre, t, post, d, CString(v));
    FoundAtFirst(pre, t, post, names, d);
    SpliceText(pre, t, post, d, v);
  }

  lemma HitCounts(ts: seq<Token>, d: string)
    requires HasHit(ts, d)
    ensures Slots(ts) > 0
  {
    FillSlots(ts, d, "");
  }

  lemma {:induction false} FillFits(ts: seq<Token>, names: seq<string>, d: string, v: string)
    requires Fits(ts, names) && names != [] && names[0] == d && ArgName(d) && Clean(CString(v))
    ensures Fits(Fill(ts, d, CString(v)), names)
    decreases Slots(ts)
  {
    if HasHit(ts, d) {
      HitCounts(ts, d);
      var next, p := FillFirst(ts, names, d, v);
      FillFits(next, names, d, v);
    } else {
      FillNothing(ts, d, CString(v));
    }
  }

  // What holds of `result` as long as tokens are hit, and in the end, holds of all replacements.
  lemma {:induction false} FillAll(result: (string, nat) -> Option<string>, ts: seq<Token>, names: seq<string>,
                                   d: string, v: string, fuel: nat)
    requires Fits(ts, names) && names != [] && names[0] == d && ArgName(d) && Clean(CString(v)) && fuel >= Slots(ts)
    requires forall s, f: nat | Find(s, Mark(d)) == None :: result(s, f) == Some(s)
    requires forall s, f: nat, p: nat | f > 0 && Find(s, Mark(d)) == Some(p) ::
               result(s, f) == result(Replaced(Mark(d), v, s, p), f - 1)
    ensures result(Render(ts), fuel) == Some(Render(Fill(ts, d, CString(v))))
    decreases Slots(ts)
  {
    if HasHit(ts, d) {
      HitCounts(ts, d);
      var next, p := FillFirst(ts, names, d, v);
      FillAll(result, next, names, d, v, fuel - 1);
    } else {
      FillNothing(ts, d, CString(v));
      FindsNone(ts, names, d);
    }
  }

  /** Replacing the spelling of an argument by a clean text fills in every token whose name begins with
      it, and nothing else; `d` is the argument whose turn it is. */
  lemma ReplaceFills(ts: seq<Token>, names: seq<string>, d: string, v: string, fuel: nat)
    requires Fits(ts, names) && names != [] && names[0] == d && ArgName(d)
    requires Clean(CString(v)) && fuel >= Slots(ts)
    ensures Replace(Mark(d), v, Render(ts), fuel) == Some(Render(Fill(ts, d, CString(v))))
  {
    FillAll((s, f: nat) => Replace(Mark(d), v, s, f), ts, names, d, v, fuel);
  }

  // ----- what filling in leaves unchanged -----

  lemma {:induction false} WithoutKeeps(names: seq<string>, d: string)
    ensures forall n | n in Without(names, d) :: n in names && !(d <= n)
    decreases |names|
  {
    if names != [] { WithoutKeeps(names[1..], d); }
  }

  lemma WithoutFirst(names: seq<string>, d: string)
    requires names != []
    ensures if d <= names[0] then Without(names, d) == Without(names[1..], d)
            else Without(names, d) != [] && Without(names, d)[0] == names[0]
                 && Without(names, d)[1..] == Without(names[1..], d)
  {}

  lemma {:induction false} TakenWithout(names: seq<string>, d: string, n: string)
    requires !(d <= n)
    ensures Taken(Without(names, d), n) == Taken(names, n)
    decreases |names|
  {
    if names != [] {
      TakenWithout(names[1..], d, n);
      WithoutFirst(names, d);
    }
  }

  lemma {:induction false} TurnWithout(names: seq<string>, d: string, a: string, b: string)
    requires !(d <= a) && !(d <= b) && Turn(names, a) <= Turn(names, b)
    ensures Turn(Without(names, d), a) <= Turn(Without(names, d), b)
    decreases |names|
  {
    if names != [] {
      WithoutFirst(names, d);
      if !(names[0] <= a) { TurnWithout(names[1..], d, a, b); }
    }
  }

  // Once every argument with that spelling is gone, the order of the others is what matters.
  lemma FitsWithout(ts: seq<Token>, names: seq<string>, d: string)
    requires Fits(ts, names) && Names(ts) == Without(names, d)
    ensures Fits(ts, Names(ts))
  {
    WithoutKeeps(names, d);
    forall i | 0 <= i < |ts| - 1 ensures FollowsAt(ts, i, Names(ts)) {
      assert FollowsAt(ts, i, names);
      if ts[i].Arg? && ts[i + 1].Arg? {
        NamesIn(ts, i);
        NamesIn(ts, i + 1);
        TurnWithout(names, d, ts[i].name, ts[i + 1].name);
      }
    }
  }

  // Filling in the argument whose turn it is does not change what the template stands for.
  lemma {:induction false} FillMeaning(ts: seq<Token>, names: seq<string>, line: string, matches: seq<string>)
    requires names != []
    ensures Meaning(Fill(ts, names[0], Inserted(names[0], line, matches)), Without(names, names[0]), line, matches)
         == Meaning(ts, names, line, matches)
    decreases |ts|
  {
    if ts != [] {
      var d := names[0];
      var v, left := Inserted(d, line, matches), Without(names, d);
      FillMeaning(ts[1..], names, line, matches);
      MeaningConcat(Filled(ts[0], d, v), Fill(ts[1..], d, v), left, line, matches);
      FilledMeaning(ts[0], names, line, matches);
    }
  }

  lemma FilledMeaning(t: Token, names: seq<string>, line: string, matches: seq<string>)
    requires names != []
    ensures Meaning(Filled(t, names[0], Inserted(names[0], line, matches)), Without(names, names[0]), line, matches)
         == Sense(t, names, line, matches)
  {
    var d := names[0];
    if Hit(t, d) {
      CharsMean(Insert(t, d, Inserted(d, line, matches)), Without(names, d), line, matches);
    } else {
      if !t.Ch? { TakenWithout(names, d, t.name); }
      assert [t][1..] == [];
    }
  }

  // ----- the loop of run -----

  // The inserted texts are free of dollars and backslashes.
  ghost predicate CleanArguments(line: string, matches: seq<string>) {
    Clean(CString(line)) && forall i | 0 <= i < |matches| :: Clean(CString(matches[i]))
  }

  lemma InsertedClean(d: string, line: string, matches: seq<string>)
    requires CleanArguments(line, matches)
    ensures Clean(Inserted(d, line, matches))
  {
    CStringOfText(" ", "");
  }

  lemma NamesFirst(pre: seq<Token>, d: string, post: seq<Token>)
    requires NoArgs(pre)
    ensures var names := Names(pre + [Arg(d)] + post); names != [] && names[0] == d
  {
    NamesConcat(pre + [Arg(d)], post);
    NamesConcat(pre, [Arg(d)]);
    NoArgsNames(pre);
    assert [Arg(d)][1..] == [];
  }

  lemma RewrittenBy(s: string, a: string, d: string, b: string, line: string, matches: seq<string>, fuel: nat)
    requires s == a + Mark(d) + b && a != "" && RunEnd(s, |a| + 1) == |a| + 1 + |d|
    ensures Rewritten(s, |a| - 1, line, matches, fuel) == Replace(Mark(d), Value(d, line, matches), s, fuel)
  {
    var e := |a| + 1 + |d|;
    assert s[|a|..e] == Mark(d) && s[|a| + 1..e] == d;
  }

  lemma ExpandBy(s: string, a: string, d: string, b: string, line: string, matches: seq<string>, fuel: nat,
                 next: string)
    requires s == a + Mark(d) + b && a != "" && fuel > 0
    requires FirstMatch(s, 0) == Some(|a| - 1) && RunEnd(s, |a| + 1) == |a| + 1 + |d|
    requires Replace(Mark(d), Value(d, line, matches), s, fuel - 1) == Some(next)
    ensures Expand(s, line, matches, fuel) == Expand(next, line, matches, fuel - 1)
  {
    RewrittenBy(s, a, d, b, line, matches, fuel - 1);
    ExpandAt(s, |a| - 1, line, matches, fuel, next);
  }

  lemma ExpandAt(s: string, i: nat, line: string, matches: seq<string>, fuel: nat, next: string)
    requires FirstMatch(s, 0) == Some(i) && fuel > 0 && Rewritten(s, i, line, matches, fuel - 1) == Some(next)
    ensures Expand(s, line, matches, fuel) == Expand(next, line, matches, fuel - 1)
  {}

  // One turn of the loop replaces the spelling of the first argument.
  lemma ExpandOnce(ts: seq<Token>, d: string, s: string, line: string, matches: seq<string>, fuel: nat, next: string)
    requires Template(ts) && Names(ts) != [] && d == Names(ts)[0] && s == Render(ts)
    requires fuel > 0 && Replace(Mark(d), Value(d, line, matches), s, fuel - 1) == Some(next)
    ensures Expand(s, line, matches, fuel) == Expand(next, line, matches, fuel - 1)
  {
    var pre, post := SplitAtFirst(ts, d);
    RenderSplit(pre, Arg(d), post);
    MatchedAtFirst(pre, d, post, Names(ts), Render(pre), Render(post));
    RunEndsAfter(pre, d, post, Names(ts), Render(pre), Render(post));
    ExpandBy(s, Render(pre), d, Render(post), line, matches, fuel, next);
  }

  lemma SplitAtFirst(ts: seq<Token>, d: string) returns (pre: seq<Token>, post: seq<Token>)
    requires Names(ts) != [] && d == Names(ts)[0]
    ensures NoArgs(pre) && ts == pre + [Arg(d)] + post
  {
    NoArgsNames(ts);
    var k := FirstOfAny(ts);
    pre, post := ts[..k], ts[k + 1..];
    assert ts == pre + [Arg(ts[k].name)] + post;
    NamesFirst(pre, ts[k].name, post);
  }

  lemma FirstIsHit(ts: seq<Token>)
    requires Names(ts) != []
    ensures HasHit(ts, Names(ts)[0])
  {
    var pre, post := SplitAtFirst(ts, Names(ts)[0]);
    assert Hit(ts[|pre|], Names(ts)[0]);
  }

  lemma {:induction false} NamesLegal(ts: seq<Token>)
    requires forall i | 0 <= i < |ts| :: Legal(ts[i])
    ensures forall n | n in Names(ts) :: ArgName(n)
    decreases |ts|
  {
    if ts != [] {
      assert Legal(ts[0]);
      NamesLegal(ts[1..]);
    }
  }

  // The template with the leftmost argument filled in wherever it is found.
  function Turned(ts: seq<Token>, line: string, matches: seq<string>): seq<Token>
  {
    if Names(ts) == [] then ts else Fill(ts, Names(ts)[0], Inserted(Names(ts)[0], line, matches))
  }

  lemma FilledIsTemplate(ts: seq<Token>, d: string, v: string)
    requires Template(ts) && Names(ts) != [] && d == Names(ts)[0] && ArgName(d) && Clean(CString(v))
    ensures Template(Fill(ts, d, CString(v)))
  {
    FillFits(ts, Names(ts), d, v);
    FillNames(ts, d, CString(v));
    FitsWithout(Fill(ts, d, CString(v)), Names(ts), d);
  }

  lemma TurnedIsTemplate(ts: seq<Token>, line: string, matches: seq<string>)
    requires Template(ts) && Names(ts) != [] && CleanArguments(line, matches)
    ensures Template(Turned(ts, line, matches))
  {
    var d := Names(ts)[0];
    NamesLegal(ts);
    InsertedClean(d, line, matches);
    ValueIsInserted(d, line, matches);
    FilledIsTemplate(ts, d, Value(d, line, matches));
  }

  lemma TurnedShrinks(ts: seq<Token>, line: string, matches: seq<string>)
    requires Names(ts) != []
    ensures Slots(Turned(ts, line, matches)) < Slots(ts)
  {
    FirstIsHit(ts);
    FillSlots(ts, Names(ts)[0], Inserted(Names(ts)[0], line, matches));
  }

  lemma TurnedMeans(ts: seq<Token>, line: string, matches: seq<string>)
    requires Names(ts) != []
    ensures var next := Turned(ts, line, matches);
            Meaning(next, Names(next), line, matches) == Meaning(ts, Names(ts), line, matches)
  {
    FillNames(ts, Names(ts)[0], Inserted(Names(ts)[0], line, matches));
    FillMeaning(ts, Names(ts), line, matches);
  }

  lemma TurnedReplaces(ts: seq<Token>, d: string, line: string, matches: seq<string>, fuel: nat)
    requires Template(ts) && Names(ts) != [] && d == Names(ts)[0] && CleanArguments(line, matches) && fuel >= Slots(ts)
    ensures Replace(Mark(d), Value(d, line, matches), Render(ts), fuel) == Some(Render(Turned(ts, line, matches)))
  {
    NamesLegal(ts);
    InsertedClean(d, line, matches);
    ValueIsInserted(d, line, matches);
    FilledByReplacing(ts, d, Value(d, line, matches), Inserted(d, line, matches), fuel);
  }

  lemma FilledByReplacing(ts: seq<Token>, d: string, v: string, text: string, fuel: nat)
    requires Template(ts) && Names(ts) != [] && d == Names(ts)[0] && ArgName(d) && fuel >= Slots(ts)
    requires text == CString(v) && Clean(text)
    ensures Replace(Mark(d), v, Render(ts), fuel) == Some(Render(Fill(ts, d, text)))
  {
    ReplaceFills(ts, Names(ts), d, v, fuel);
  }

  lemma TurnedExpands(ts: seq<Token>, line: string, matches: seq<string>, fuel: nat)
    requires Template(ts) && Names(ts) != [] && CleanArguments(line, matches) && fuel > Slots(ts)
    ensures Expand(Render(ts), line, matches, fuel)
         == Expand(Render(Turned(ts, line, matches)), line, matches, fuel - 1)
  {
    ReplacedExpands(ts, Names(ts)[0], Turned(ts, line, matches), line, matches, fuel);
  }

  lemma ReplacedExpands(ts: seq<Token>, d: string, turned: seq<Token>, line: string, matches: seq<string>, fuel: nat)
    requires Template(ts) && Names(ts) != [] && d == Names(ts)[0] && CleanArguments(line, matches) && fuel > Slots(ts)
    requires turned == Turned(ts, line, matches)
    ensures Expand(Render(ts), line, matches, fuel) == Expand(Render(turned), line, matches, fuel - 1)
  {
    TurnedReplaces(ts, d, line, matches, fuel - 1);
    ExpandOnce(ts, d, Render(ts), line, matches, fuel, Render(turned));
  }

  // At most `n` turns of a loop.
  function Iterated<T>(idle: T -> bool, next: T -> T, x: T, n: nat): T
    decreases n
  {
    if n == 0 || idle(x) then x else Iterated(idle, next, next(x), n - 1)
  }

  // What no turn changes is unchanged in the end.
  lemma {:induction false} IteratedKeeps<T(!new), R>(idle: T -> bool, next: T -> T, value: T -> R, x: T, n: nat)
    requires forall y {:trigger next(y)} | !idle(y) :: value(next(y)) == value(y)
    ensures value(Iterated(idle, next, x, n)) == value(x)
    decreases n
  {
    if n > 0 && !idle(x) { IteratedKeeps(idle, next, value, next(x), n - 1); }
  }

  // A loop that always gets smaller ends, and brings a result on that each turn brings on by one step.
  lemma {:induction false} IteratedEnds<T(!new), R>(idle: T -> bool, next: T -> T, live: T -> bool, size: T -> nat,
                                                    result: (T, nat) -> R, goal: T -> R, x: T, n: nat, fuel: nat)
    requires live(x) && n >= size(x) && fuel > size(x)
    requires forall y {:trigger next(y)} | live(y) && !idle(y) :: live(next(y)) && size(next(y)) < size(y)
    requires forall y, f: nat | live(y) && idle(y) :: result(y, f) == goal(y)
    requires forall y, f: nat {:trigger next(y), result(y, f)} | live(y) && !idle(y) && f > size(y) ::
               result(y, f) == result(next(y), f - 1)
    ensures var full := Iterated(idle, next, x, n); live(full) && idle(full) && result(x, fuel) == goal(full)
    decreases n
  {
    if !idle(x) { IteratedEnds(idle, next, live, size, result, goal, next(x), n - 1, fuel - 1); }
  }

  // The template after at most `n` turns of the loop.
  function AfterTurns(ts: seq<Token>, line: string, matches: seq<string>, n: nat): seq<Token> {
    Iterated(xs => Names(xs) == [], xs => Turned(xs, line, matches), ts, n)
  }

  lemma AfterTurnsMean(ts: seq<Token>, line: string, matches: seq<string>, n: nat)
    ensures var full := AfterTurns(ts, line, matches, n);
            Meaning(full, Names(full), line, matches) == Meaning(ts, Names(ts), line, matches)
  {
    forall xs | Names(xs) != []
      ensures Meaning(Turned(xs, line, matches), Names(Turned(xs, line, matches)), line, matches)
           == Meaning(xs, Names(xs), line, matches)
    {
      TurnedMeans(xs, line, matches);
    }
    IteratedKeeps(xs => Names(xs) == [], xs => Turned(xs, line, matches),
                  xs => Meaning(xs, Names(xs), line, matches), ts, n);
  }

  lemma AfterTurnsExpand(ts: seq<Token>, line: string, matches: seq<string>, n: nat, fuel: nat)
    requires Template(ts) && CleanArguments(line, matches) && n >= Slots(ts) && fuel > Slots(ts)
    ensures var full := AfterTurns(ts, line, matches, n);
            Template(full) && Names(full) == [] && Expand(Render(ts), line, matches, fuel) == Some(Render(full))
  {
    forall xs | Template(xs) && Names(xs) != []
      ensures Template(Turned(xs, line, matches)) && Slots(Turned(xs, line, matches)) < Slots(xs)
    {
      TurnedIsTemplate(xs, line, matches);
      TurnedShrinks(xs, line, matches);
    }
    forall xs, f: nat | Template(xs) && Names(xs) == []
      ensures Expand(Render(xs), line, matches, f) == Some(Render(xs))
    {
      ExpandNothing(xs, line, matches, f);
    }
    forall xs, f: nat | Template(xs) && Names(xs) != [] && f > Slots(xs)
      ensures Expand(Render(xs), line, matches, f) == Expand(Render(Turned(xs, line, matches)), line, matches, f - 1)
    {
      TurnedExpands(xs, line, matches, f);
    }
    IteratedEnds(xs => Names(xs) == [], xs => Turned(xs, line, matches), xs => Template(xs), xs => Slots(xs),
                 (xs, f: nat) => Expand(Render(xs), line, matches, f), xs => Some(Render(xs)), ts, n, fuel);
  }

  lemma ExpandNothing(ts: seq<Token>, line: string, matches: seq<string>, fuel: nat)
    requires Template(ts) && Names(ts) == []
    ensures Expand(Render(ts), line, matches, fuel) == Some(Render(ts))
  {
    NoArgsNames(ts);
    NoMatch(ts, []);
  }

  lemma {:induction false} FirstOfAny(ts: seq<Token>) returns (k: nat)
    requires !NoArgs(ts)
    ensures k < |ts| && ts[k].Arg? && NoArgs(ts[..k])
    decreases |ts|
  {
    if ts[0].Arg? {
      k := 0;
    } else {
      var rest := ts[1..];
      assert !NoArgs(rest) by {
        var i :| 0 <= i < |ts| && ts[i].Arg?;
        assert rest[i - 1].Arg?;
      }
      var l := FirstOfAny(rest);
      k := l + 1;
      assert forall i | 0 < i < k :: ts[..k][i] == rest[..l][i - 1];
    }
  }

  // A template without arguments stands for its own text.
  lemma {:induction false} MeaningOfFull(ts: seq<Token>, line: string, matches: seq<string>)
    requires NoArgs(ts)
    ensures Meaning(ts, [], line, matches) == Render(ts)
    decreases |ts|
  {
    if ts != [] {
      assert NoArgs(ts[1..]) && !ts[0].Arg?;
      MeaningOfFull(ts[1..], line, matches);
    }
  }

  // ----- unescaping -----

  // How many backslashes a text begins with.
  function Slashes(s: string): (k: nat)
    ensures k <= |s| && (forall i | 0 <= i < k :: s[i] == '\\') && (k < |s| ==> s[k] != '\\')
    decreases |s|
  {
    if s != "" && s[0] == '\\' then 1 + Slashes(s[1..]) else 0
  }

  // Every run of backslashes that ends at a dollar deleted.
  function Drop(s: string): string
    decreases |s|
  {
    if s == "" then "" else
    if s[0] != '\\' then [s[0]] + Drop(s[1..]) else
    var k := Slashes(s);
    (if k < |s| && s[k] == '$' then "" else s[..k]) + Drop(s[k..])
  }

  function Backslashes(k: nat): (r: string)
    ensures |r| == k
  {
    seq(k, _ => '\\')
  }

  // A text that begins with no backslash.
  predicate Bare(s: string) {
    s == "" || s[0] != '\\'
  }

  predicate StartsDollar(s: string) {
    s != "" && s[0] == '$'
  }

  lemma SlashesOfRun(k: nat, r: string)
    requires Bare(r)
    ensures Slashes(Backslashes(k) + r) == k
  {
    var s := Backslashes(k) + r;
    assert r != "" ==> s[k] == r[0];
    assert forall i | 0 <= i < k :: s[i] == '\\';
  }

  lemma DropRun(k: nat, r: string)
    requires Bare(r)
    ensures Drop(Backslashes(k) + r) == (if StartsDollar(r) then "" else Backslashes(k)) + Drop(r)
  {
    var s := Backslashes(k) + r;
    if k == 0 {
      assert s == r;
    } else {
      SlashesOfRun(k, r);
      assert s[..k] == Backslashes(k) && s[k..] == r;
    }
  }

  lemma RunSplit(s: string)
    ensures s == Backslashes(Slashes(s)) + s[Slashes(s)..] && Bare(s[Slashes(s)..])
  {}

  // Deleting one backslash in front of a dollar does not change what is left in the end.
  lemma {:induction false} DropEscape(a: string, b: string)
    ensures Drop(a + "\\$" + b) == Drop(a + "$" + b)
    decreases |a|
  {
    var k := Slashes(a);
    var r := a[k..];
    RunSplit(a);
    assert r != "" ==> r == [r[0]] + r[1..];
    if r == "" {
      DropShorterRun(a, k, b);
    } else {
      DropEscape(r[1..], b);
      DropLater(a, k, r[0], r[1..], "\\$", b);
      DropLater(a, k, r[0], r[1..], "$", b);
    }
  }

  lemma DropShorterRun(a: string, k: nat, b: string)
    requires a == Backslashes(k)
    ensures Drop(a + "\\$" + b) == Drop(a + "$" + b)
  {
    assert a + "\\$" + b == Backslashes(k + 1) + ("$" + b) && a + "$" + b == Backslashes(k) + ("$" + b);
    DropRun(k + 1, "$" + b);
    DropRun(k, "$" + b);
  }

  lemma DropLater(a: string, k: nat, c: char, r: string, m: string, b: string)
    requires c != '\\' && a == Backslashes(k) + ([c] + r)
    ensures Drop(a + m + b) == (if c == '$' then "" else Backslashes(k)) + ([c] + Drop(r + m + b))
  {
    var x := r + m + b;
    assert a + m + b == Backslashes(k) + ([c] + x);
    DropRun(k, [c] + x);
    DropChar(c, x);
  }

  lemma DropChar(c: char, x: string)
    requires c != '\\'
    ensures Drop([c] + x) == [c] + Drop(x)
  {
    assert ([c] + x)[1..] == x;
  }

  lemma {:induction false} NothingToDrop(s: string)
    requires forall i | 0 <= i < |s| - 1 :: !(s[i] == '\\' && s[i + 1] == '$')
    ensures Drop(s) == s
    decreases |s|
  {
    var k := Slashes(s);
    var r := s[k..];
    RunSplit(s);
    DropRun(k, r);
    if r != "" {
      var x := r[1..];
      assert forall i | 0 <= i < |x| :: x[i] == s[k + 1 + i];
      NothingToDrop(x);
      assert r == [r[0]] + x && (k > 0 ==> s[k - 1] == '\\' && s[k] == r[0]);
      DropChar(r[0], x);
    }
    assert Backslashes(0) + r == r;
  }

  lemma UnescapeOnce(s: string, p: nat)
    requires Occurs(s, "\\$", p)
    ensures var next := Replaced("\\$", "$", s, p); |next| == |s| - 1 && Drop(next) == Drop(s)
  {
    CStringOfText("$", "");
    assert s == s[..p] + "\\$" + s[p + 2..];
    DropEscape(s[..p], s[p + 2..]);
  }

  // The loop that unescapes, for any text: it rescans from the start, so that a whole run of
  // backslashes disappears.
  lemma {:induction false} UnescapeDrops(s: string, fuel: nat)
    requires fuel >= |s|
    ensures Replace("\\$", "$", s, fuel) == Some(Drop(s))
    decreases fuel
  {
    assert "\\$" == ['\\', '$'];
    match Find(s, "\\$")
    case None =>
      forall i | 0 <= i < |s| - 1 ensures !(s[i] == '\\' && s[i + 1] == '$') { TwoChars(s, '\\', '$', i); }
      NothingToDrop(s);
    case Some(p) =>
      UnescapeOnce(s, p);
      UnescapeDrops(Replaced("\\$", "$", s, p), fuel - 1);
  }

  /** For every template and all clean argument values the rewriting of the action ends.  It equals a
      one-pass substitution in which each argument is taken for the first one found in its spelling, so
      are escaped dollars and an argument at the start, and after which every run of backslashes that ends
      at a dollar is deleted. */
  lemma PreprocessMeans(ts: seq<Token>, line: string, matches: seq<string>, fuel: nat)
    requires Template(ts) && CleanArguments(line, matches)
    requires fuel > Slots(ts) + |Meaning(ts, Names(ts), line, matches)|
    ensures Preprocess(Render(ts), line, matches, fuel) == Some(Drop(Meaning(ts, Names(ts), line, matches)))
  {
    var full := AfterTurns(ts, line, matches, fuel);
    AfterTurnsExpand(ts, line, matches, fuel, fuel);
    AfterTurnsMean(ts, line, matches, fuel);
    NoArgsNames(full);
    MeaningOfFull(full, line, matches);
    UnescapeDrops(Render(full), fuel);
  }

  lemma MeaningMiddle(pre: seq<Token>, t: Token, post: seq<Token>, names: seq<string>, line: string,
                      matches: seq<string>)
    ensures Meaning(pre + [t] + post, names, line, matches)
         == Meaning(pre, names, line, matches) + Sense(t, names, line, matches) + Meaning(post, names, line, matches)
  {
    MeaningConcat(pre + [t], post, names, line, matches);
    MeaningConcat(pre, [t], names, line, matches);
    assert [t][1..] == [];
    assert Meaning([t], names, line, matches) == Sense(t, names, line, matches) + "" == Sense(t, names, line, matches);
  }

  // What becomes of a dollar with its name and, if it is escaped, its backslash.
  function DollarText(t: Token, names: seq<string>, line: string, matches: seq<string>): string
    requires !t.Ch?
  {
    if Taken(names, t.name) == None then Mark(t.name) else Prefix(t) + Sense(Arg(t.name), names, line, matches)
  }

  // The dollar is left alone if and only if no argument is found in it and its name.
  lemma KeepsDollarIff(t: Token, names: seq<string>, line: string, matches: seq<string>)
    requires (t.Esc? || t.Lead?) && Legal(t) && CleanArguments(line, matches)
    ensures DollarText(t, names, line, matches) == Mark(t.name) <==>
              forall i | 0 <= i < |names| :: !(names[i] <= t.name)
  {
    TakenIs(names, t.name);
    if Taken(names, t.name).Some? {
      var n := Taken(names, t.name).value;
      InsertedClean(n, line, matches);
      forall i | |n| <= i < |t.name| ensures t.name[i] != '$' { assert ArgChar(t.name[i]); }
      NoDollar(Prefix(t), Inserted(n, line, matches), t.name[|n|..], t.name);
    }
  }

  lemma NoDollar(a: string, b: string, c: string, name: string)
    requires '$' !in a && '$' !in b && '$' !in c
    ensures a + ("" + b + c) != Mark(name)
  {
    assert '$' !in a + ("" + b + c) && '$' in Mark(name) by { assert Mark(name)[0] == '$'; }
  }

  /** An argument at the start of an action stays as it is if and only if no argument after it is found in
      its spelling; otherwise it is replaced as an argument anywhere else would be. */
  lemma LeadingArgument(d: string, ts: seq<Token>, line: string, matches: seq<string>, fuel: nat)
    requires Template([Lead(d)] + ts) && CleanArguments(line, matches)
    requires fuel > 1 + Slots(ts) + |Meaning([Lead(d)] + ts, Names(ts), line, matches)|
    ensures var names := Names(ts);
            var first := if Taken(names, d) == None then Mark(d) else Sense(Arg(d), names, line, matches);
            && Preprocess(Render([Lead(d)] + ts), line, matches, fuel)
               == Some(first + Drop(Meaning(ts, names, line, matches)))
            && (first == Mark(d) <==> forall i | 0 <= i < |names| :: !(names[i] <= d))
  {
    var all, names := [Lead(d)] + ts, Names(ts);
    assert all[0] == Lead(d) && all[1..] == ts && Legal(all[0]);
    assert Names(all) == names;
    PreprocessMeans(all, line, matches, fuel);
    KeepsDollarIff(Lead(d), names, line, matches);
    var first := DollarText(Lead(d), names, line, matches);
    assert "" + Sense(Arg(d), names, line, matches) == Sense(Arg(d), names, line, matches);
    assert Sense(Lead(d), names, line, matches) == first;
    SenseHasNoSlash(d, names, line, matches);
    DropPlain(first, Meaning(ts, names, line, matches));
  }

  lemma SenseHasNoSlash(d: string, names: seq<string>, line: string, matches: seq<string>)
    requires ArgChars(d) && CleanArguments(line, matches)
    ensures '\\' !in Mark(d) && '\\' !in Sense(Arg(d), names, line, matches)
  {
    forall i | 0 <= i < |d| ensures d[i] != '\\' { assert ArgChar(d[i]); }
    if Taken(names, d).Some? { InsertedClean(Taken(names, d).value, line, matches); }
  }

  lemma {:induction false} DropPlain(a: string, x: string)
    requires '\\' !in a
    ensures Drop(a + x) == a + Drop(x)
    decreases |a|
  {
    if a == "" {
      assert a + x == x;
    } else {
      assert a + x == [a[0]] + (a[1..] + x) && a[0] in a && forall c <- a[1..] :: c in a;
      DropChar(a[0], a[1..] + x);
      DropPlain(a[1..], x);
    }
  }

  /** An escaped dollar gives a dollar if and only if no argument is found in it and what follows it;
      otherwise its backslash stays, and that argument is replaced. */
  lemma EscapedDollar(ts: seq<Token>, pre: seq<Token>, name: string, post: seq<Token>, line: string,
                      matches: seq<string>, fuel: nat)
    requires Template(ts) && ts == pre + [Esc(name)] + post && CleanArguments(line, matches)
    requires fuel > Slots(ts) + |Meaning(ts, Names(ts), line, matches)|
    ensures var names := Names(ts); var text := DollarText(Esc(name), names, line, matches);
            && Preprocess(Render(ts), line, matches, fuel)
               == Some(Drop(Meaning(pre, names, line, matches) + text + Meaning(post, names, line, matches)))
            && (text == Mark(name) <==> forall i | 0 <= i < |names| :: !(names[i] <= name))
  {
    assert ts[|pre|] == Esc(name) && Legal(ts[|pre|]);
    PreprocessMeans(ts, line, matches, fuel);
    MeaningMiddle(pre, Esc(name), post, Names(ts), line, matches);
    EscapeDrops(Meaning(pre, Names(ts), line, matches), name, Meaning(post, Names(ts), line, matches), Names(ts), line,
                matches);
    KeepsDollarIff(Esc(name), Names(ts), line, matches);
  }

  lemma EscapeDrops(a: string, name: string, b: string, names: seq<string>, line: string, matches: seq<string>)
    ensures Drop(a + Sense(Esc(name), names, line, matches) + b)
         == Drop(a + DollarText(Esc(name), names, line, matches) + b)
  {
    if Taken(names, name) == None {
      LoneEscapeDrops(a, name, b);
    } else {
      EscSense(name, names, line, matches);
    }
  }

  lemma EscSense(name: string, names: seq<string>, line: string, matches: seq<string>)
    requires Taken(names, name).Some?
    ensures Sense(Esc(name), names, line, matches) == ['\\'] + Sense(Arg(name), names, line, matches)
  {
    var n := Taken(names, name).value;
    var v, rest := Inserted(n, line, matches), name[|n|..];
    assert ['\\'] + v + rest == ['\\'] + ("" + v + rest);
  }

  lemma LoneEscapeDrops(a: string, name: string, b: string)
    ensures Drop(a + Spell(Esc(name)) + b) == Drop(a + Mark(name) + b)
  {
    assert a + Spell(Esc(name)) + b == a + "\\$" + (name + b);
    assert a + Mark(name) + b == a + "$" + (name + b);
    DropEscape(a, name + b);
  }
}
