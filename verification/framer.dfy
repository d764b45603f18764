/** The stream framer: `LNLogFile::fetchNextLog` (monitor.cpp) and the loop of `processLogFile`
    (main.cpp) that drains it.

    The device is the sequence of results its reads will give: chunks of at most 1023 bytes, where an
    empty chunk (or the end of the sequence) is a read that returns no data.  A C string ends at its
    first NUL; `item` and the hold are `std::string`s. */
module Framer {
  import opened Options
  import opened Text

  const READ_BYTES: nat := 1023
  const MAX_LOG_ITEM_SIZE: nat := 4096

  datatype Outcome = Emitted(item: string) | Discarded(text: string) | EndOfData

  datatype Fetched = Fetched(outcome: Outcome, hold: string, pending: seq<string>)

  // The item in the hold: the separator is overwritten in place, the length of the string is not.
  function FetchHeld(hold: string, pending: seq<string>, sep: string, p: nat): Fetched
    requires p + |sep| <= |hold|
  {
    var rest := hold[p + |sep|..];
    Fetched(Emitted(hold[..p] + Nuls(|sep|) + rest), CString(rest), pending)
  }

  lemma OverwrittenTail(hold: string, sep: string, p: nat)
    requires p + |sep| <= |hold|
    ensures (hold[..p] + Nuls(|sep|) + hold[p + |sep|..])[p + |sep|..] == hold[p + |sep|..]
  {}

  // The loop that reads until an item is complete, the hold is too long or the data ends.
  function FetchRead(hold: string, pending: seq<string>, sep: string): Fetched
    decreases |pending|
  {
    if |hold| > MAX_LOG_ITEM_SIZE then Fetched(Discarded(hold), "", pending)
    else if pending == [] then Fetched(EndOfData, hold, [])
    else if pending[0] == "" then Fetched(EndOfData, hold, pending[1..])
    else
      var buf := CString(pending[0]);
      match Find(buf, sep)
      case Some(p) => Fetched(Emitted(hold + buf[..p]), buf[p + |sep|..], pending[1..])
      case None =>
        if buf == "" then Fetched(Emitted(hold + buf), "", pending[1..])
        else FetchRead(hold + buf, pending[1..], sep)
  }

  function Fetch(hold: string, pending: seq<string>, sep: string): Fetched {
    CStringShort(hold);
    var trash := Find(CString(hold), sep);
    if hold != "" && trash.Some? then FetchHeld(hold, pending, sep, trash.value) else FetchRead(hold, pending, sep)
  }

  /** With an empty separator a held text is handed out again and again, so a drain would not end. */
  lemma EmptySeparatorStalls(hold: string, pending: seq<string>)
    requires NoNul(hold) && hold != ""
    ensures Fetch(hold, pending, "") == Fetched(Emitted(hold), hold, pending)
  {
    CStringOfText(hold, "");
    assert Occurs(hold, "", 0);
    assert hold[..0] + Nuls(0) + hold[0..] == hold;
  }

  // ----- zeros in the data -----

  /** A read that begins with a zero byte ends the item in the hold, which may be empty, and nothing is
      held behind it. */
  lemma ZeroEndsItem(hold: string, zeros: string, pending: seq<string>, sep: string)
    requires NoNul(hold) && |hold| <= 4096 && sep != "" && Find(hold, sep) == None && zeros != "" && zeros[0] == NUL
    ensures Fetch(hold, [zeros] + pending, sep) == Fetched(Emitted(hold), "", pending)
  {
    CStringOfText(hold, "");
    assert forall j: nat :: !Occurs("", sep, j);
    FindNothing("", sep);
    assert hold + "" == hold && ([zeros] + pending)[1..] == pending;
  }

  // The reads as the C library sees them.
  function Seen(pending: seq<string>): seq<string> {
    seq(|pending|, i requires 0 <= i < |pending| => CString(pending[i]))
  }

  lemma {:induction false} ReadSeesCStrings(hold: string, pending: seq<string>, sep: string)
    requires forall i | 0 <= i < |pending| :: pending[i] != "" && pending[i][0] != NUL
    ensures var f, g := FetchRead(hold, pending, sep), FetchRead(hold, Seen(pending), sep);
            g.outcome == f.outcome && g.hold == f.hold && g.pending == Seen(f.pending)
    decreases |pending|
  {
    if pending != [] {
      var buf := CString(pending[0]);
      CStringShort(pending[0]);
      CStringOfText(buf, "");
      assert Seen(pending)[1..] == Seen(pending[1..]) && Seen(pending)[0] == buf;
      ReadSeesCStrings(hold + buf, pending[1..], sep);
    }
  }

  /** What stands behind a zero byte in a read is never seen: a fetch gives what it would give if every
      read ended at its first zero. */
  lemma FetchSeesCStrings(hold: string, pending: seq<string>, sep: string)
    requires forall i | 0 <= i < |pending| :: pending[i] != "" && pending[i][0] != NUL
    ensures var f, g := Fetch(hold, pending, sep), Fetch(hold, Seen(pending), sep);
            g.outcome == f.outcome && g.hold == f.hold && g.pending == Seen(f.pending)
  {
    ReadSeesCStrings(hold, pending, sep);
  }

  // ----- what one fetch keeps -----

  function Concat(chunks: seq<string>): string
    decreases |chunks|
  {
    if chunks == [] then "" else chunks[0] + Concat(chunks[1..])
  }

  ghost predicate Chunks(pending: seq<string>) {
    forall i | 0 <= i < |pending| :: |pending[i]| <= READ_BYTES && NoNul(pending[i])
  }

  // The text an outcome accounts for.
  function Spent(o: Outcome, sep: string): string {
    match o
    case Emitted(item) => CString(item) + sep
    case Discarded(text) => text
    case EndOfData => ""
  }

  ghost predicate Kept(hold: string, pending: seq<string>, sep: string, f: Fetched) {
    && NoNul(f.hold) && |f.hold| <= MAX_LOG_ITEM_SIZE && Chunks(f.pending)
    && hold + Concat(pending) == Spent(f.outcome, sep) + f.hold + Concat(f.pending)
    && (|f.pending| < |pending|
        || (f.pending == pending && (|f.hold| < |hold| || (f.outcome.EndOfData? && pending == []))))
  }

  // Cutting a text at an occurrence of the separator.
  lemma CutAt(before: string, text: string, after: string, sep: string, p: nat)
    requires Occurs(text, sep, p)
    ensures before + (text + after) == before + text[..p] + sep + text[p + |sep|..] + after
  {
    assert text == text[..p] + sep + text[p + |sep|..];
    assert before + (text + after) == before + (text[..p] + sep + text[p + |sep|..]) + after;
  }

  lemma ReadItemKeeps(hold: string, pending: seq<string>, sep: string, p: nat)
    requires NoNul(hold) && Chunks(pending) && |hold| <= MAX_LOG_ITEM_SIZE && sep != ""
    requires pending != [] && pending[0] != "" && Find(pending[0], sep) == Some(p)
    ensures Kept(hold, pending, sep, FetchRead(hold, pending, sep))
  {
    var buf := pending[0];
    CStringOfText(buf, "");
    assert NoNul(hold + buf[..p]);
    CStringOfText(hold + buf[..p], "");
    CutAt(hold, buf, Concat(pending[1..]), sep, p);
  }

  lemma {:induction false} ReadKeeps(hold: string, pending: seq<string>, sep: string)
    requires NoNul(hold) && Chunks(pending) && |hold| <= MAX_LOG_ITEM_SIZE + READ_BYTES && sep != ""
    ensures Kept(hold, pending, sep, FetchRead(hold, pending, sep))
    decreases |pending|
  {
    if |hold| > MAX_LOG_ITEM_SIZE || pending == [] || pending[0] == "" {
    } else {
      var buf := pending[0];
      CStringOfText(buf, "");
      match Find(buf, sep)
      case Some(p) => ReadItemKeeps(hold, pending, sep, p);
      case None =>
        ReadKeeps(hold + buf, pending[1..], sep);
        assert hold + Concat(pending) == hold + buf + Concat(pending[1..]);
    }
  }

  lemma HeldKeeps(hold: string, pending: seq<string>, sep: string, p: nat)
    requires NoNul(hold) && Chunks(pending) && |hold| <= MAX_LOG_ITEM_SIZE && sep != "" && Occurs(hold, sep, p)
    ensures Kept(hold, pending, sep, FetchHeld(hold, pending, sep, p))
  {
    var line, rest := hold[..p], hold[p + |sep|..];
    CStringOfText(rest, "");
    HeldItem(hold, sep, p);
    CutAt("", hold, Concat(pending), sep, p);
    assert "" + (hold + Concat(pending)) == hold + Concat(pending) && "" + line == line;
  }

  lemma HeldItem(hold: string, sep: string, p: nat)
    requires NoNul(hold) && sep != "" && Occurs(hold, sep, p)
    ensures CString(hold[..p] + Nuls(|sep|) + hold[p + |sep|..]) == hold[..p]
  {
    var tail := Nuls(|sep| - 1) + hold[p + |sep|..];
    assert hold[..p] + Nuls(|sep|) + hold[p + |sep|..] == hold[..p] + [NUL] + tail;
    CStringOfText(hold[..p], tail);
  }

  /** One fetch accounts for every byte: what was held and is still to be read is the item and its
      separator, or the discarded text, followed by what is then held and still to be read.  The hold
      is within the limit, and fetching makes progress. */
  lemma FetchKeeps(hold: string, pending: seq<string>, sep: string)
    requires NoNul(hold) && Chunks(pending) && |hold| <= MAX_LOG_ITEM_SIZE && sep != ""
    ensures Kept(hold, pending, sep, Fetch(hold, pending, sep))
  {
    CStringOfText(hold, "");
    match Find(hold, sep)
    case None => ReadKeeps(hold, pending, sep);
    case Some(p) => HeldKeeps(hold, pending, sep, p);
  }

  /** The string handed out is longer than the line exactly when the line came out of the hold: then
      the overwritten separator and everything behind it are part of it. */
  lemma ItemIsLineIff(hold: string, pending: seq<string>, sep: string)
    requires NoNul(hold) && Chunks(pending) && |hold| <= MAX_LOG_ITEM_SIZE && sep != ""
    requires Fetch(hold, pending, sep).outcome.Emitted?
    ensures var item := Fetch(hold, pending, sep).outcome.item;
            item == CString(item) <==> Find(hold, sep).None?
  {
    CStringOfText(hold, "");
    match Find(hold, sep)
    case None => ReadItemIsLine(hold, pending, sep);
    case Some(p) =>
      var item := Fetch(hold, pending, sep).outcome.item;
      assert item[p] == NUL;
      CStringShort(item);
  }

  lemma {:induction false} ReadItemIsLine(hold: string, pending: seq<string>, sep: string)
    requires NoNul(hold) && Chunks(pending) && FetchRead(hold, pending, sep).outcome.Emitted?
    ensures NoNul(FetchRead(hold, pending, sep).outcome.item)
    ensures var item := FetchRead(hold, pending, sep).outcome.item; CString(item) == item
    decreases |pending|
  {
    var buf := pending[0];
    CStringOfText(buf, "");
    match Find(buf, sep)
    case Some(p) => CStringOfText(hold + buf[..p], "");
    case None => ReadItemIsLine(hold + buf, pending[1..], sep);
  }

  // ----- fetching until all data has been read -----

  ghost predicate Ready(hold: string, pending: seq<string>, sep: string) {
    NoNul(hold) && |hold| <= MAX_LOG_ITEM_SIZE && Chunks(pending) && sep != ""
  }

  datatype Watched = Watched(outcomes: seq<Outcome>, hold: string)

  // The outcomes of all fetches until the data ends, over any number of wake-ups.
  ghost function Watch(hold: string, pending: seq<string>, sep: string): Watched
    requires Ready(hold, pending, sep)
    decreases |pending|, |hold|
  {
    FetchKeeps(hold, pending, sep);
    var f := Fetch(hold, pending, sep);
    if f.outcome.EndOfData? && f.pending == [] then Watched([EndOfData], f.hold)
    else
      var rest := Watch(f.hold, f.pending, sep);
      Watched([f.outcome] + rest.outcomes, rest.hold)
  }

  // The text a sequence of outcomes accounts for.
  function SpentAll(os: seq<Outcome>, sep: string): string
    decreases |os|
  {
    if os == [] then "" else Spent(os[0], sep) + SpentAll(os[1..], sep)
  }

  /** Conservation, for any nonempty separator: the bytes of the device after the hold are the items
      each followed by the separator, and the discarded texts, in order, and then the final hold. */
  lemma {:induction false} WatchConserves(hold: string, pending: seq<string>, sep: string)
    requires Ready(hold, pending, sep)
    ensures var w := Watch(hold, pending, sep);
            hold + Concat(pending) == SpentAll(w.outcomes, sep) + w.hold && |w.hold| <= MAX_LOG_ITEM_SIZE
    decreases |pending|, |hold|
  {
    FetchKeeps(hold, pending, sep);
    var f := Fetch(hold, pending, sep);
    if f.outcome.EndOfData? && f.pending == [] {
      assert SpentAll([EndOfData], sep) == "";
    } else {
      WatchConserves(f.hold, f.pending, sep);
      var w := Watch(f.hold, f.pending, sep);
      assert ([f.outcome] + w.outcomes)[1..] == w.outcomes;
      Regroup(Spent(f.outcome, sep), f.hold, Concat(f.pending), SpentAll(w.outcomes, sep), w.hold);
    }
  }

  lemma Regroup(a: string, b: string, c: string, d: string, e: string)
    requires b + c == d + e
    ensures a + b + c == (a + d) + e
  {
    assert a + b + c == a + (b + c);
    assert a + (d + e) == (a + d) + e;
  }

  // ----- the specification: splitting the whole stream at the separator -----

  function Lines(text: string, sep: string): seq<string>
    requires sep != ""
    decreases |text|
  {
    match Find(text, sep)
    case None => []
    case Some(p) => [text[..p]] + Lines(text[p + |sep|..], sep)
  }

  function Tail(text: string, sep: string): string
    requires sep != ""
    decreases |text|
  {
    match Find(text, sep)
    case None => text
    case Some(p) => Tail(text[p + |sep|..], sep)
  }

  // No line, nor the unterminated rest, has more than 4096 bytes.
  ghost predicate ShortLines(text: string, sep: string)
    requires sep != ""
  {
    |Tail(text, sep)| <= 4096 && forall i | 0 <= i < |Lines(text, sep)| :: |Lines(text, sep)[i]| <= 4096
  }

  // `line`, up to the first separator, is the first line of the whole text.
  ghost predicate FirstLine(line: string, sep: string, rest: string) {
    Find(line + sep + rest, sep) == Some(|line|)
  }

  lemma LinesCons(line: string, rest: string, sep: string)
    requires sep != "" && FirstLine(line, sep, rest)
    ensures Lines(line + sep + rest, sep) == [line] + Lines(rest, sep)
    ensures Tail(line + sep + rest, sep) == Tail(rest, sep)
  {
    var text := line + sep + rest;
    assert text[..|line|] == line && text[|line| + |sep|..] == rest;
  }

  lemma ShortAfter(line: string, rest: string, sep: string)
    requires sep != "" && FirstLine(line, sep, rest) && ShortLines(line + sep + rest, sep)
    ensures ShortLines(rest, sep)
  {
    LinesCons(line, rest, sep);
    assert forall i | 0 <= i < |Lines(rest, sep)| :: Lines(rest, sep)[i] == ([line] + Lines(rest, sep))[i + 1];
  }

  // ----- separators and the ends of reads -----

  lemma EmptyFindsNothing(sep: string)
    requires sep != ""
    ensures Find("", sep) == None
  {}

  // No separator in `a + b` begins in `a` and ends in `b`.
  ghost predicate Whole(a: string, b: string, sep: string) {
    forall i | 0 <= i < |a| < i + |sep| :: !Occurs(a + b, sep, i)
  }

  // No read ends inside a separator.
  ghost predicate Uncut(hold: string, pending: seq<string>, sep: string)
    decreases |pending|
  {
    pending == [] ||
    (Whole(hold, Concat(pending), sep) && Uncut(hold + pending[0], pending[1..], sep))
  }

  lemma OccursIn(a: string, b: string, sep: string, i: nat)
    ensures i + |sep| <= |a| ==> (Occurs(a + b, sep, i) <==> Occurs(a, sep, i))
    ensures i >= |a| ==> (Occurs(a + b, sep, i) <==> Occurs(b, sep, i - |a|))
  {
    if i + |sep| <= |a| {
      assert (a + b)[i..i + |sep|] == a[i..i + |sep|];
    } else if i >= |a| && i + |sep| <= |a + b| {
      assert (a + b)[i..i + |sep|] == b[i - |a|..i - |a| + |sep|];
    }
  }

  lemma WholeSuffix(x: string, a: string, b: string, sep: string)
    requires Whole(x + a, b, sep)
    ensures Whole(a, b, sep)
  {
    assert x + a + b == x + (a + b);
    forall i | 0 <= i < |a| < i + |sep| ensures !Occurs(a + b, sep, i) {
      OccursIn(x, a + b, sep, |x| + i);
    }
  }

  lemma {:induction false} UncutSuffix(x: string, hold: string, pending: seq<string>, sep: string)
    requires Uncut(x + hold, pending, sep)
    ensures Uncut(hold, pending, sep)
    decreases |pending|
  {
    if pending != [] {
      WholeSuffix(x, hold, Concat(pending), sep);
      assert x + hold + pending[0] == x + (hold + pending[0]);
      UncutSuffix(x, hold + pending[0], pending[1..], sep);
    }
  }

  lemma UncutTail(text: string, n: nat, pending: seq<string>, sep: string)
    requires Uncut(text, pending, sep) && n <= |text|
    ensures Uncut(text[n..], pending, sep)
  {
    assert text == text[..n] + text[n..];
    UncutSuffix(text[..n], text[n..], pending, sep);
  }

  // A separator is found in two pieces of text as it is found in the whole if it is not cut.
  lemma FindAcross(a: string, b: string, rest: string, sep: string)
    requires sep != "" && Find(a, sep) == None && Whole(a, b + rest, sep)
    ensures match Find(b, sep)
            case None => Find(a + b, sep) == None
            case Some(p) => FirstLine(a + b[..p], sep, b[p + |sep|..] + rest)
  {
    forall i: nat | i < |a| ensures !Occurs(a + (b + rest), sep, i) { OccursIn(a, b + rest, sep, i); }
    match Find(b, sep)
    case None =>
      forall i: nat ensures !Occurs(a + b, sep, i) { NoneAcross(a, b, rest, sep, i); }
      FindNothing(a + b, sep);
    case Some(p) => FoundAcross(a, b, rest, sep, p);
  }

  lemma FoundAcross(a: string, b: string, rest: string, sep: string, p: nat)
    requires forall i: nat | i < |a| :: !Occurs(a + (b + rest), sep, i)
    requires sep != "" && Find(b, sep) == Some(p)
    ensures FirstLine(a + b[..p], sep, b[p + |sep|..] + rest)
  {
    var text := a + (b + rest);
    assert a + b[..p] + sep + (b[p + |sep|..] + rest) == text by { CutAt(a, b, rest, sep, p); }
    forall i | 0 <= i < |a| + p ensures !Occurs(text, sep, i) {
      if i >= |a| { ShiftedOccurs(a, b, rest, sep, i); }
    }
    ShiftedOccurs(a, b, rest, sep, |a| + p);
    FindIs(text, sep, |a| + p);
  }

  lemma ShiftedOccurs(a: string, b: string, rest: string, sep: string, i: nat)
    requires |a| <= i && i + |sep| <= |a| + |b|
    ensures Occurs(a + (b + rest), sep, i) <==> Occurs(b, sep, i - |a|)
  {
    OccursIn(a, b + rest, sep, i);
    OccursIn(b, rest, sep, i - |a|);
  }

  lemma NoneAcross(a: string, b: string, rest: string, sep: string, i: nat)
    requires forall k: nat | k < |a| :: !Occurs(a + (b + rest), sep, k)
    requires Find(b, sep) == None
    ensures !Occurs(a + b, sep, i)
  {
    assert a + b + rest == a + (b + rest);
    if i < |a| { OccursIn(a + b, rest, sep, i); } else { OccursIn(a, b, sep, i); }
  }

  // A separator-free beginning of a text is part of its first line.
  lemma HeldIsShort(held: string, rest: string, sep: string)
    requires sep != "" && Find(held, sep) == None && Whole(held, rest, sep) && ShortLines(held + rest, sep)
    ensures |held| <= MAX_LOG_ITEM_SIZE
  {
    var text := held + rest;
    match Find(text, sep)
    case None =>
    case Some(p) =>
      OccursIn(held, rest, sep, p);
      assert p >= |held|;
      assert Lines(text, sep)[0] == text[..p];
  }

  // What a fetch yields while every line is within the limit: the first line, or a piece of it is held.
  ghost predicate YieldsLine(f: Fetched, sep: string) {
    match f.outcome
    case Emitted(item) => FirstLine(CString(item), sep, f.hold + Concat(f.pending))
    case Discarded(_) => false
    case EndOfData => Find(f.hold, sep) == None
  }

  lemma {:induction false} ReadExact(hold: string, pending: seq<string>, sep: string)
    requires NoNul(hold) && Chunks(pending) && sep != "" && Find(hold, sep) == None
    requires Uncut(hold, pending, sep) && ShortLines(hold + Concat(pending), sep)
    ensures YieldsLine(FetchRead(hold, pending, sep), sep)
    decreases |pending|
  {
    if pending == [] {
      assert hold + Concat(pending) == hold;
    } else {
      HeldIsShort(hold, Concat(pending), sep);
      if pending[0] != "" { ReadChunkExact(hold, pending, sep); }
    }
  }

  lemma {:induction false} ReadChunkExact(hold: string, pending: seq<string>, sep: string)
    requires NoNul(hold) && |hold| <= MAX_LOG_ITEM_SIZE && Chunks(pending) && sep != "" && Find(hold, sep) == None
    requires pending != [] && pending[0] != ""
    requires Uncut(hold, pending, sep) && ShortLines(hold + Concat(pending), sep)
    ensures YieldsLine(FetchRead(hold, pending, sep), sep)
    decreases |pending|, 0
  {
    var buf, rest := pending[0], Concat(pending[1..]);
    FindAcross(hold, buf, rest, sep);
    match Find(buf, sep)
    case Some(p) => ReadItemExact(hold, pending, sep, p);
    case None =>
      CStringOfText(buf, "");
      Associates(hold, buf, rest);
      ReadExact(hold + buf, pending[1..], sep);
  }

  lemma ReadItemExact(hold: string, pending: seq<string>, sep: string, p: nat)
    requires NoNul(hold) && |hold| <= MAX_LOG_ITEM_SIZE && Chunks(pending) && sep != ""
    requires pending != [] && pending[0] != "" && Find(pending[0], sep) == Some(p)
    requires FirstLine(hold + pending[0][..p], sep, pending[0][p + |sep|..] + Concat(pending[1..]))
    ensures YieldsLine(FetchRead(hold, pending, sep), sep)
  {
    ReadItem(hold, pending, sep, p);
    assert NoNul(pending[0]);
    CStringOfText(hold + pending[0][..p], "");
  }

  lemma ReadItem(hold: string, pending: seq<string>, sep: string, p: nat)
    requires |hold| <= MAX_LOG_ITEM_SIZE && Chunks(pending)
    requires pending != [] && pending[0] != "" && Find(pending[0], sep) == Some(p)
    ensures FetchRead(hold, pending, sep)
         == Fetched(Emitted(hold + pending[0][..p]), pending[0][p + |sep|..], pending[1..])
  {
    CStringOfText(pending[0], "");
  }

  lemma FetchExact(hold: string, pending: seq<string>, sep: string)
    requires Ready(hold, pending, sep) && Uncut(hold, pending, sep) && ShortLines(hold + Concat(pending), sep)
    ensures YieldsLine(Fetch(hold, pending, sep), sep)
  {
    CStringOfText(hold, "");
    match Find(hold, sep)
    case None => ReadExact(hold, pending, sep);
    case Some(p) => HeldExact(hold, pending, sep, p);
  }

  lemma HeldExact(hold: string, pending: seq<string>, sep: string, p: nat)
    requires Ready(hold, pending, sep) && Find(hold, sep) == Some(p)
    ensures YieldsLine(FetchHeld(hold, pending, sep, p), sep)
  {
    HeldItem(hold, sep, p);
    CStringOfText(hold[p + |sep|..], "");
    FoundAcross("", hold, Concat(pending), sep, p);
    assert "" + hold[..p] == hold[..p];
  }

  // Fetching leaves reads that cut no separator.
  lemma {:induction false} FetchReadUncut(hold: string, pending: seq<string>, sep: string)
    requires Chunks(pending) && Uncut(hold, pending, sep) && sep != ""
    ensures Uncut(FetchRead(hold, pending, sep).hold, FetchRead(hold, pending, sep).pending, sep)
    decreases |pending|
  {
    if |hold| > MAX_LOG_ITEM_SIZE || pending == [] || pending[0] == "" {
      ReadNothingUncut(hold, pending, sep);
    } else {
      match Find(pending[0], sep)
      case Some(p) =>
        ReadItem(hold, pending, sep, p);
        ReadItemUncut(hold, pending[0], pending[1..], sep, p + |sep|);
      case None =>
        ReadMore(hold, pending, sep);
        FetchReadUncut(hold + pending[0], pending[1..], sep);
    }
  }

  lemma ReadNothingUncut(hold: string, pending: seq<string>, sep: string)
    requires |hold| > MAX_LOG_ITEM_SIZE || pending == [] || pending[0] == ""
    requires Uncut(hold, pending, sep)
    ensures Uncut(FetchRead(hold, pending, sep).hold, FetchRead(hold, pending, sep).pending, sep)
  {
    if |hold| > MAX_LOG_ITEM_SIZE {
      UncutTail(hold, |hold|, pending, sep);
      assert hold[|hold|..] == "";
    } else if pending != [] {
      assert hold + "" == hold;
    }
  }

  lemma ReadMore(hold: string, pending: seq<string>, sep: string)
    requires |hold| <= MAX_LOG_ITEM_SIZE && Chunks(pending)
    requires pending != [] && pending[0] != "" && Find(pending[0], sep) == None
    ensures FetchRead(hold, pending, sep) == FetchRead(hold + pending[0], pending[1..], sep)
  {
    CStringOfText(pending[0], "");
  }

  lemma ReadItemUncut(hold: string, buf: string, rest: seq<string>, sep: string, n: nat)
    requires Uncut(hold + buf, rest, sep) && n <= |buf|
    ensures Uncut(buf[n..], rest, sep)
  {
    assert (hold + buf)[|hold| + n..] == buf[n..];
    UncutTail(hold + buf, |hold| + n, rest, sep);
  }

  lemma HeldUncut(hold: string, pending: seq<string>, sep: string, p: nat)
    requires NoNul(hold) && Uncut(hold, pending, sep) && p + |sep| <= |hold|
    ensures Uncut(FetchHeld(hold, pending, sep, p).hold, pending, sep)
  {
    UncutTail(hold, p + |sep|, pending, sep);
    assert NoNul(hold[p + |sep|..]);
    CStringOfText(hold[p + |sep|..], "");
  }

  lemma FetchUncut(hold: string, pending: seq<string>, sep: string)
    requires Ready(hold, pending, sep) && Uncut(hold, pending, sep)
    ensures Uncut(Fetch(hold, pending, sep).hold, Fetch(hold, pending, sep).pending, sep)
  {
    CStringOfText(hold, "");
    match Find(hold, sep)
    case None => FetchReadUncut(hold, pending, sep);
    case Some(p) => HeldUncut(hold, pending, sep, p);
  }

  // The items of a run, as the C strings that hold the lines.
  function ItemLines(os: seq<Outcome>): seq<string>
    decreases |os|
  {
    if os == [] then []
    else (if os[0].Emitted? then [CString(os[0].item)] else []) + ItemLines(os[1..])
  }

  // A run emits exactly the lines of the text, in order and once each, and holds the rest.
  ghost predicate Exact(w: Watched, text: string, sep: string)
    requires sep != ""
  {
    ItemLines(w.outcomes) == Lines(text, sep) && w.hold == Tail(text, sep)
  }

  // A first line, or nothing, in front of the rest of the text.
  ghost predicate Precedes(o: Outcome, rest: string, text: string, sep: string) {
    match o
    case Emitted(item) => FirstLine(CString(item), sep, rest) && text == CString(item) + sep + rest
    case Discarded(_) => false
    case EndOfData => text == rest
  }

  lemma FetchPrecedes(hold: string, pending: seq<string>, sep: string)
    requires Ready(hold, pending, sep) && Uncut(hold, pending, sep) && ShortLines(hold + Concat(pending), sep)
    ensures var f := Fetch(hold, pending, sep);
            && Precedes(f.outcome, f.hold + Concat(f.pending), hold + Concat(pending), sep)
            && (f.outcome.EndOfData? ==> Find(f.hold, sep) == None)
  {
    FetchKeeps(hold, pending, sep);
    FetchExact(hold, pending, sep);
    var f := Fetch(hold, pending, sep);
    SpentPrecedes(f.outcome, f.hold, Concat(f.pending), hold + Concat(pending), sep);
  }

  lemma SpentPrecedes(o: Outcome, hold: string, unread: string, text: string, sep: string)
    requires text == Spent(o, sep) + hold + unread && !o.Discarded?
    requires o.Emitted? ==> FirstLine(CString(o.item), sep, hold + unread)
    ensures Precedes(o, hold + unread, text, sep)
  {
    Associates(Spent(o, sep), hold, unread);
    assert o.EndOfData? ==> "" + (hold + unread) == hold + unread;
  }

  lemma Associates(a: string, b: string, c: string)
    ensures a + b + c == a + (b + c)
  {}

  lemma OutcomeShort(o: Outcome, rest: string, text: string, sep: string)
    requires sep != "" && Precedes(o, rest, text, sep) && ShortLines(text, sep)
    ensures ShortLines(rest, sep)
  {
    if o.Emitted? { ShortAfter(CString(o.item), rest, sep); }
  }

  lemma OutcomeExact(o: Outcome, w: Watched, rest: string, text: string, sep: string)
    requires sep != "" && Precedes(o, rest, text, sep) && Exact(w, rest, sep)
    ensures Exact(Watched([o] + w.outcomes, w.hold), text, sep)
  {
    assert ([o] + w.outcomes)[1..] == w.outcomes;
    if o.Emitted? { LinesCons(CString(o.item), rest, sep); }
  }

  /** With all lines within the limit, and no read that ends inside a separator, the items do not depend
      on how the stream was cut into reads, nor on where data ran out: they are the lines of the
      stream. */
  lemma {:induction false} WatchExact(hold: string, pending: seq<string>, sep: string)
    requires Ready(hold, pending, sep) && Uncut(hold, pending, sep) && ShortLines(hold + Concat(pending), sep)
    ensures Exact(Watch(hold, pending, sep), hold + Concat(pending), sep)
    decreases |pending|, |hold|
  {
    FetchKeeps(hold, pending, sep);
    FetchPrecedes(hold, pending, sep);
    var f, text := Fetch(hold, pending, sep), hold + Concat(pending);
    var rest := f.hold + Concat(f.pending);
    if f.outcome.EndOfData? && f.pending == [] {
      assert text == f.hold;
      assert ItemLines([EndOfData]) == [];
    } else {
      OutcomeShort(f.outcome, rest, text, sep);
      FetchUncut(hold, pending, sep);
      WatchExact(f.hold, f.pending, sep);
      OutcomeExact(f.outcome, Watch(f.hold, f.pending, sep), rest, text, sep);
    }
  }

  // A separator of one byte cannot be cut.
  lemma {:induction false} OneByteUncut(hold: string, pending: seq<string>, sep: string)
    requires |sep| == 1
    ensures Uncut(hold, pending, sep)
    decreases |pending|
  {
    if pending != [] { OneByteUncut(hold + pending[0], pending[1..], sep); }
  }

  // ----- several lines in one read -----

  function Joined(lines: seq<string>, sep: string): string
    decreases |lines|
  {
    if lines == [] then "" else lines[0] + sep + Joined(lines[1..], sep)
  }

  // The separator behind each line is the first one there.
  ghost predicate Separated(lines: seq<string>, sep: string)
    decreases |lines|
  {
    lines == [] || (FirstLine(lines[0], sep, Joined(lines[1..], sep)) && Separated(lines[1..], sep))
  }

  // What is handed out for lines that are all held.
  function HeldItems(lines: seq<string>, sep: string): seq<Outcome>
    decreases |lines|
  {
    if lines == [] then []
    else [Emitted(lines[0] + Nuls(|sep|) + Joined(lines[1..], sep))] + HeldItems(lines[1..], sep)
  }

  lemma WatchEnd(sep: string)
    requires sep != ""
    ensures Ready("", [], sep) && Watch("", [], sep).outcomes == [EndOfData]
  {
    EmptyFindsNothing(sep);
    assert Fetch("", [], sep) == Fetched(EndOfData, "", []);
  }

  lemma FetchFirstHeld(line: string, rest: string, sep: string)
    requires NoNul(line + sep + rest) && sep != "" && FirstLine(line, sep, rest)
    ensures Fetch(line + sep + rest, [], sep) == Fetched(Emitted(line + Nuls(|sep|) + rest), rest, [])
  {
    var held := line + sep + rest;
    CStringOfText(held, "");
    CStringOfText(rest, "");
    assert held[..|line|] == line && held[|line| + |sep|..] == rest;
  }

  lemma {:induction false} WatchHeld(lines: seq<string>, sep: string)
    requires NoNul(Joined(lines, sep)) && |Joined(lines, sep)| <= MAX_LOG_ITEM_SIZE
    requires sep != "" && Separated(lines, sep)
    ensures Ready(Joined(lines, sep), [], sep)
    ensures Watch(Joined(lines, sep), [], sep).outcomes == HeldItems(lines, sep) + [EndOfData]
    decreases |lines|
  {
    if lines == [] {
      WatchEnd(sep);
    } else {
      var rest := Joined(lines[1..], sep);
      FetchFirstHeld(lines[0], rest, sep);
      WatchHeld(lines[1..], sep);
      WatchStepHeld(Joined(lines, sep), rest, lines[0] + Nuls(|sep|) + rest, sep);
    }
  }

  lemma WatchStepHeld(hold: string, rest: string, item: string, sep: string)
    requires Ready(hold, [], sep) && Ready(rest, [], sep) && Fetch(hold, [], sep) == Fetched(Emitted(item), rest, [])
    ensures Watch(hold, [], sep).outcomes == [Emitted(item)] + Watch(rest, [], sep).outcomes
  {}

  lemma FetchFirstRead(line: string, rest: string, sep: string)
    requires NoNul(line + sep + rest) && sep != "" && FirstLine(line, sep, rest)
    ensures Fetch("", [line + sep + rest], sep) == Fetched(Emitted(line), rest, [])
  {
    var chunk := line + sep + rest;
    CStringOfText(chunk, "");
    assert chunk[..|line|] == line && chunk[|line| + |sep|..] == rest && "" + line == line;
  }

  /** Of several lines in one read, the string handed out for the first is that line; for every other one
      it is the line, the overwritten separator and all lines behind it. */
  lemma ItemsOfOneRead(lines: seq<string>, sep: string)
    requires NoNul(Joined(lines, sep)) && |Joined(lines, sep)| <= READ_BYTES
    requires sep != "" && lines != [] && Separated(lines, sep)
    ensures Ready("", [Joined(lines, sep)], sep)
    ensures Watch("", [Joined(lines, sep)], sep).outcomes
         == [Emitted(lines[0])] + HeldItems(lines[1..], sep) + [EndOfData]
  {
    var rest := Joined(lines[1..], sep);
    FetchFirstRead(lines[0], rest, sep);
    WatchHeld(lines[1..], sep);
    assert [Emitted(lines[0])] + (HeldItems(lines[1..], sep) + [EndOfData])
        == [Emitted(lines[0])] + HeldItems(lines[1..], sep) + [EndOfData];
  }

  /** So the last line of a read is part of every string handed out but the first. */
  lemma {:induction false} LastLineInEveryItem(lines: seq<string>, sep: string, k: nat)
    requires k < |lines|
    ensures |HeldItems(lines, sep)| == |lines| && HeldItems(lines, sep)[k].Emitted?
    ensures Find(HeldItems(lines, sep)[k].item, lines[|lines| - 1]).Some?
    decreases |lines|
  {
    HeldItemsLength(lines, sep);
    var last := lines[|lines| - 1];
    if k > 0 {
      assert lines[1..][|lines| - 2] == last;
      LastLineInEveryItem(lines[1..], sep, k - 1);
    } else {
      var rest := Joined(lines[1..], sep);
      if |lines| == 1 {
        OccursBehind("", last, Nuls(|sep|) + rest);
        assert "" + last + (Nuls(|sep|) + rest) == last + Nuls(|sep|) + rest;
      } else {
        assert lines[1..][|lines| - 2] == last;
        var a, b := LastOfJoined(lines[1..], sep);
        OccursBehind(lines[0] + Nuls(|sep|) + a, last, b);
        assert lines[0] + Nuls(|sep|) + (a + last + b) == lines[0] + Nuls(|sep|) + a + last + b;
      }
    }
  }

  lemma {:induction false} HeldItemsLength(lines: seq<string>, sep: string)
    ensures |HeldItems(lines, sep)| == |lines| && forall k | 0 <= k < |lines| :: HeldItems(lines, sep)[k].Emitted?
    decreases |lines|
  {
    if lines != [] { HeldItemsLength(lines[1..], sep); }
  }

  lemma OccursBehind(a: string, x: string, b: string)
    ensures Find(a + x + b, x).Some?
  {
    assert (a + x + b)[|a|..|a| + |x|] == x;
    assert Occurs(a + x + b, x, |a|);
  }

  lemma {:induction false} LastOfJoined(lines: seq<string>, sep: string) returns (a: string, b: string)
    requires lines != []
    ensures Joined(lines, sep) == a + lines[|lines| - 1] + b
    decreases |lines|
  {
    if |lines| == 1 {
      a, b := "", sep + Joined(lines[1..], sep);
    } else {
      assert lines[1..][|lines| - 2] == lines[|lines| - 1];
      a, b := LastOfJoined(lines[1..], sep);
      var last := lines[|lines| - 1];
      assert lines[0] + sep + (a + last + b) == lines[0] + sep + a + last + b;
      a := lines[0] + sep + a;
    }
  }

  // ----- a separator that is cut by a read -----

  /** When more data follows at once, a separator cut by a read is lost for good: one item holds both
      lines and the separator between them. */
  lemma CutSeparatorIsLost(a: string, x: string, y: string, b: string)
    requires NoNul(a + x) && NoNul(y + b + (x + y)) && x != "" && y != ""
    requires |a + x| <= READ_BYTES && |y + b + (x + y)| <= READ_BYTES
    requires Find(a + x, x + y) == None && Find(y + b + (x + y), x + y) == Some(|y + b|)
    ensures Fetch("", [a + x, y + b + (x + y)], x + y) == Fetched(Emitted(a + (x + y) + b), "", [])
  {
    var sep, first, second := x + y, a + x, y + b + (x + y);
    ReadOn("", first, [second], sep);
    assert "" + first == first;
    ReadItem(first, [second], sep, |y + b|);
    LostPieces(a, x, y, b);
  }

  lemma LostPieces(a: string, x: string, y: string, b: string)
    ensures var second := y + b + (x + y);
            a + x + second[..|y + b|] == a + (x + y) + b && second[|y + b| + |x + y|..] == ""
  {
    assert (y + b + (x + y))[..|y + b|] == y + b;
  }

  lemma ReadOn(hold: string, buf: string, pending: seq<string>, sep: string)
    requires |hold| <= MAX_LOG_ITEM_SIZE && NoNul(buf) && buf != "" && Find(buf, sep) == None
    ensures FetchRead(hold, [buf] + pending, sep) == FetchRead(hold + buf, pending, sep)
  {
    CStringOfText(buf, "");
    assert ([buf] + pending)[1..] == pending;
  }

  /** When the data runs out first, the next fetch finds it in the hold. */
  lemma CutSeparatorIsFoundLater(a: string, x: string, y: string)
    requires NoNul(a + (x + y)) && x != "" && y != "" && |a + (x + y)| <= READ_BYTES
    requires Find(a + x, x + y) == None && Find(y, x + y) == None && Find(a + (x + y), x + y) == Some(|a|)
    ensures Fetch(a + x, [y, ""], x + y) == Fetched(EndOfData, a + (x + y), [])
    ensures Fetch(a + (x + y), [], x + y) == Fetched(Emitted(a + Nuls(|x + y|)), "", [])
  {
    var sep := x + y;
    CStringOfText(a + x, "");
    assert NoNul(y) && a + x + y == a + sep;
    ReadOn(a + x, y, [""], sep);
    assert [y] + [""] == [y, ""] && [""][1..] == [];
    assert a + sep + "" == a + sep && a + Nuls(|sep|) + "" == a + Nuls(|sep|);
    FetchFirstHeld(a, "", sep);
  }

  // Both happen with a carriage return and a newline.
  lemma CutNewlines()
    ensures Fetch("", ["a\r", "\nb\r\n"], "\r\n") == Fetched(Emitted("a\r\nb"), "", [])
    ensures Fetch("a\r", ["\n", ""], "\r\n") == Fetched(EndOfData, "a\r\n", [])
  {
    var sep := "\r\n";
    assert sep == ['\r', '\n'] && "a\r" == ['a', '\r'] && "a\r\n" == ['a', '\r', '\n'];
    assert "\nb\r\n" == ['\n', 'b', '\r', '\n'];
    forall j: nat ensures !Occurs("a\r", sep, j) && !Occurs("\n", sep, j) {
      TwoChars("a\r", '\r', '\n', j);
      TwoChars("\n", '\r', '\n', j);
    }
    FindNothing("a\r", sep);
    FindNothing("\n", sep);
    forall j: nat ensures Occurs("\nb\r\n", sep, j) <==> j == 2 { TwoChars("\nb\r\n", '\r', '\n', j); }
    FindIs("\nb\r\n", sep, 2);
    forall j: nat ensures Occurs("a\r\n", sep, j) <==> j == 1 { TwoChars("a\r\n", '\r', '\n', j); }
    FindIs("a\r\n", sep, 1);
    CutNewlinesBy("a", "\r", "\n", "b");
  }

  lemma CutNewlinesBy(a: string, x: string, y: string, b: string)
    requires a == "a" && x == "\r" && y == "\n" && b == "b"
    requires Find("a\r", "\r\n") == None && Find("\n", "\r\n") == None
    requires Find("\nb\r\n", "\r\n") == Some(2) && Find("a\r\n", "\r\n") == Some(1)
    ensures Fetch("", ["a\r", "\nb\r\n"], "\r\n") == Fetched(Emitted("a\r\nb"), "", [])
    ensures Fetch("a\r", ["\n", ""], "\r\n") == Fetched(EndOfData, "a\r\n", [])
  {
    assert x + y == "\r\n" && a + x == "a\r" && y + b + (x + y) == "\nb\r\n" && a + (x + y) == "a\r\n";
    assert a + (x + y) + b == "a\r\nb";
    CutSeparatorIsLost(a, x, y, b);
    CutSeparatorIsFoundLater(a, x, y);
  }

  // ----- the limits are exact -----

  // The stream delivered one byte at a time.
  function Singles(text: string): (chunks: seq<string>)
    ensures NoNul(text) ==> Chunks(chunks)
    ensures forall i | 0 <= i < |chunks| :: |chunks[i]| == 1
    decreases |text|
  {
    if text == "" then [] else [text[..1]] + Singles(text[1..])
  }

  lemma {:induction false} SinglesConcat(text: string)
    ensures Concat(Singles(text)) == text
    decreases |text|
  {
    if text != "" {
      SinglesConcat(text[1..]);
      assert text == text[..1] + text[1..];
    }
  }

  ghost predicate Bytewise(pending: seq<string>) {
    Chunks(pending) && forall i | 0 <= i < |pending| :: |pending[i]| == 1
  }

  // Read one byte at a time, an item never exceeds the limit and nothing is held behind it.
  lemma {:induction false} BytewiseRead(hold: string, pending: seq<string>, sep: string)
    requires NoNul(hold) && Bytewise(pending) && |sep| == 1 && Find(hold, sep) == None
    ensures var f := FetchRead(hold, pending, sep);
            && Bytewise(f.pending) && Find(f.hold, sep) == None
            && (f.outcome.Emitted? ==> |CString(f.outcome.item)| <= MAX_LOG_ITEM_SIZE)
    decreases |pending|
  {
    EmptyFindsNothing(sep);
    if |hold| <= MAX_LOG_ITEM_SIZE && pending != [] {
      var buf := pending[0];
      CStringOfText(buf, "");
      match Find(buf, sep)
      case Some(p) =>
        CStringOfText(hold, "");
        assert buf[..p] == "" && buf[p + 1..] == "" && hold + "" == hold;
      case None =>
        FindAcross(hold, buf, "", sep);
        BytewiseRead(hold + buf, pending[1..], sep);
    }
  }

  lemma {:induction false} BytewiseWatch(hold: string, pending: seq<string>, sep: string)
    requires Ready(hold, pending, sep) && Bytewise(pending) && |sep| == 1 && Find(hold, sep) == None
    ensures var w := Watch(hold, pending, sep);
            |w.hold| <= MAX_LOG_ITEM_SIZE &&
            forall i | 0 <= i < |ItemLines(w.outcomes)| :: |ItemLines(w.outcomes)[i]| <= MAX_LOG_ITEM_SIZE
    decreases |pending|, |hold|
  {
    FetchKeeps(hold, pending, sep);
    CStringOfText(hold, "");
    BytewiseRead(hold, pending, sep);
    var f := Fetch(hold, pending, sep);
    assert f == FetchRead(hold, pending, sep);
    if f.outcome.EndOfData? && f.pending == [] {
      assert ItemLines([EndOfData]) == [];
    } else {
      var w := Watch(f.hold, f.pending, sep);
      assert ([f.outcome] + w.outcomes)[1..] == w.outcomes;
      BytewiseWatch(f.hold, f.pending, sep);
    }
  }

  // Every way of cutting the stream into reads of at most 1023 bytes gives exactly its lines.
  ghost predicate AllCutsExact(text: string, sep: string)
    requires sep != "" && NoNul(text)
  {
    forall pending | (forall i | 0 <= i < |pending| :: |pending[i]| <= 1023) && Concat(pending) == text ::
      Chunks(pending) && Exact(Watch("", pending, sep), text, sep)
  }

  lemma {:induction false} PiecesHaveNoNul(pending: seq<string>)
    requires NoNul(Concat(pending))
    ensures forall i | 0 <= i < |pending| :: NoNul(pending[i])
    decreases |pending|
  {
    if pending != [] {
      var rest := pending[1..];
      assert Concat(pending) == pending[0] + Concat(rest);
      PiecesHaveNoNul(rest);
      forall i | 0 <= i < |pending| ensures NoNul(pending[i]) {
        if i > 0 { assert pending[i] == rest[i - 1]; }
      }
    }
  }

  /** The size limit is the exact condition: for a separator of one byte, every way of cutting the stream
      into reads gives exactly its lines if and only if no line, and no unterminated rest, is longer
      than 4096 bytes. */
  lemma ChunkIndependenceIff(text: string, sep: string)
    requires NoNul(text) && |sep| == 1
    ensures AllCutsExact(text, sep) <==> ShortLines(text, sep)
  {
    EmptyFindsNothing(sep);
    if ShortLines(text, sep) {
      forall pending | (forall i | 0 <= i < |pending| :: |pending[i]| <= 1023) && Concat(pending) == text
        ensures Chunks(pending) && Exact(Watch("", pending, sep), text, sep)
      {
        PiecesHaveNoNul(pending);
        assert "" + Concat(pending) == text;
        OneByteUncut("", pending, sep);
        WatchExact("", pending, sep);
      }
    } else {
      SinglesConcat(text);
      BytewiseWatch("", Singles(text), sep);
      assert Chunks(Singles(text)) && !Exact(Watch("", Singles(text), sep), text, sep);
    }
  }

  /** And one byte is the exact condition on the separator: streams with short lines are split the same
      way whatever the reads if and only if the separator has one byte. */
  lemma OneByteIff(sep: string)
    requires NoNul(sep) && sep != ""
    ensures (forall text | NoNul(text) && ShortLines(text, sep) :: AllCutsExact(text, sep)) <==> |sep| == 1
  {
    if |sep| == 1 {
      forall text | NoNul(text) && ShortLines(text, sep) ensures AllCutsExact(text, sep) {
        ChunkIndependenceIff(text, sep);
      }
    } else {
      CutSeparatorIsMissed(sep);
    }
  }

  // A separator that is read in pieces is not found.
  lemma CutSeparatorIsMissed(sep: string)
    requires NoNul(sep) && |sep| > 1
    ensures ShortLines(sep, sep) && !AllCutsExact(sep, sep)
  {
    EmptyFindsNothing(sep);
    assert sep == "" + sep + "";
    assert FirstLine("", sep, "") by { assert Occurs(sep, sep, 0); }
    LinesCons("", "", sep);
    SinglesConcat(sep);
    SilentWatch(Singles(sep), sep);
    assert Chunks(Singles(sep)) && !Exact(Watch("", Singles(sep), sep), sep, sep);
  }

  lemma {:induction false} SilentRead(hold: string, pending: seq<string>, sep: string)
    requires Bytewise(pending) && |sep| > 1
    ensures var f := FetchRead(hold, pending, sep);
            && !f.outcome.Emitted? && Bytewise(f.pending)
            && (f.outcome.EndOfData? ==> f.pending == []) && (f.outcome.Discarded? ==> f.hold == "")
    decreases |pending|
  {
    if |hold| <= MAX_LOG_ITEM_SIZE && pending != [] {
      CStringOfText(pending[0], "");
      SilentRead(hold + pending[0], pending[1..], sep);
    }
  }

  lemma {:induction false} SilentWatch(pending: seq<string>, sep: string)
    requires Bytewise(pending) && |sep| > 1
    ensures ItemLines(Watch("", pending, sep).outcomes) == []
    decreases |pending|
  {
    FetchKeeps("", pending, sep);
    SilentRead("", pending, sep);
    var f := FetchRead("", pending, sep);
    assert f == Fetch("", pending, sep);
    if f.outcome.EndOfData? {
      assert ItemLines([EndOfData]) == [];
    } else {
      SilentWatch(f.pending, sep);
      var w := Watch("", f.pending, sep);
      assert ([f.outcome] + w.outcomes)[1..] == w.outcomes;
    }
  }

  // ----- class LNLogFile -----

  class LogFile {
    const sep: string
    const isOpen: bool
    var hold: string
    var pending: seq<string>

    constructor (sep: string, pending: seq<string>)
      ensures this.sep == sep && isOpen && hold == "" && this.pending == pending
    {
      this.sep, this.isOpen, this.hold, this.pending := sep, true, "", pending;
    }

    // One read into the cleared buffer; a result of 0 stands for the end of the data or an error.
    method Read() returns (buf: string, bytesRead: nat)
      modifies this`pending
      ensures old(pending) == [] ==> bytesRead == 0 && pending == []
      ensures old(pending) != [] ==> bytesRead == |old(pending)[0]| && buf == CString(old(pending)[0])
      ensures old(pending) != [] ==> pending == old(pending)[1..]
    {
      if pending == [] {
        buf, bytesRead := "", 0;
      } else {
        buf, bytesRead := CString(pending[0]), |pending[0]|;
        pending := pending[1..];
      }
    }

    method FetchNextLog() returns (ok: bool, item: string, ghost outcome: Outcome)
      modifies this`hold, this`pending
      ensures !isOpen ==> !ok && hold == old(hold) && pending == old(pending)
      ensures isOpen ==> Fetched(outcome, hold, pending) == Fetch(old(hold), old(pending), sep)
      ensures isOpen ==> (ok <==> outcome.Emitted?) && (ok ==> item == outcome.item)
    {
      item, outcome := "", EndOfData;
      if !isOpen {
        return false, item, outcome;
      }
      var trash := Find(CString(hold), sep);
      if |hold| > 0 && trash.Some? {
        var p := trash.value;
        CStringShort(hold);
        OverwrittenTail(hold, sep, p);
        hold := hold[..p] + Nuls(|sep|) + hold[p + |sep|..];
        item := hold;
        hold := CString(hold[p + |sep|..]);
        return true, item, Emitted(item);
      }
      ghost var goal := Fetch(hold, pending, sep);
      ok := false;
      while !ok
        invariant !ok && goal == FetchRead(hold, pending, sep)
        decreases |pending|
      {
        if |hold| > MAX_LOG_ITEM_SIZE {
          outcome := Discarded(hold);
          hold := "";
          return false, item, outcome;
        }
        ghost var unread := pending;
        var buf, bytesRead := Read();
        if bytesRead == 0 {
          return false, item, EndOfData;
        }
        var found := Find(buf, sep);
        if found.Some? {
          item := hold + buf[..found.value];
          hold := buf[found.value + |sep|..];
          return true, item, Emitted(item);
        } else if buf == "" {
          item := hold + buf;
          hold := "";
          return true, item, Emitted(item);
        } else {
          hold := hold + buf;
        }
      }
    }

    /** The drain of processLogFile: it hands out the items of the next stretch of the watch and stops
        at the first fetch that yields none. */
    method Drain() returns (items: seq<string>, ghost last: Outcome)
      requires isOpen ==> Ready(hold, pending, sep)
      modifies this`hold, this`pending
      ensures !isOpen ==> items == [] && hold == old(hold) && pending == old(pending)
      ensures isOpen ==> !last.Emitted? && Ready(hold, pending, sep)
      ensures isOpen ==> (Watch(old(hold), old(pending), sep).outcomes
                          == Emissions(items) + [last] + Remaining(last, hold, pending, sep))
    {
      items, last := [], EndOfData;
      if !isOpen {
        return;
      }
      WatchStep(hold, pending, sep);
      var ok, item, outcome := FetchNextLog();
      while ok
        invariant Ready(hold, pending, sep) && (ok <==> outcome.Emitted?) && (ok ==> item == outcome.item)
        invariant Watch(old(hold), old(pending), sep).outcomes
               == Emissions(items) + [outcome] + Remaining(outcome, hold, pending, sep)
        decreases |pending|, |hold|, ok
      {
        ghost var before, emitted := items, outcome;
        items := items + [item];
        WatchStep(hold, pending, sep);
        EmissionsExtend(before, item);
        ok, item, outcome := FetchNextLog();
        assert Emissions(items) == Emissions(before) + [emitted];
      }
      last := outcome;
    }
  }

  // A fetch and the rest of the watch.
  lemma WatchStep(hold: string, pending: seq<string>, sep: string)
    requires Ready(hold, pending, sep)
    ensures var f := Fetch(hold, pending, sep);
            && Ready(f.hold, f.pending, sep)
            && (|f.pending| < |pending|
                || (f.pending == pending && (|f.hold| < |hold| || (f.hold == hold && !f.outcome.Emitted?))))
            && Watch(hold, pending, sep).outcomes == [f.outcome] + Remaining(f.outcome, f.hold, f.pending, sep)
  {
    FetchKeeps(hold, pending, sep);
  }

  lemma EmissionsExtend(items: seq<string>, item: string)
    ensures Emissions(items + [item]) == Emissions(items) + [Emitted(item)]
  {}

  function Emissions(items: seq<string>): seq<Outcome> {
    seq(|items|, i requires 0 <= i < |items| => Emitted(items[i]))
  }

  // The rest of the watch after a fetch.
  ghost function Remaining(o: Outcome, hold: string, pending: seq<string>, sep: string): seq<Outcome>
    requires Ready(hold, pending, sep)
  {
    if o.EndOfData? && pending == [] then [] else Watch(hold, pending, sep).outcomes
  }
}
