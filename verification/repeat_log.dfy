/** Repeat suppression: `LNLog::log` (debug.cpp) counts a message that repeats the one before within
    the same minute instead of printing it, a run-length code of the log. */
module RepeatLog {
  import opened Crc32
  import FrequencyText
  import opened Options

  datatype Kind = Info | Warning | Error | Fatal | Debug

  // A call of log at second `now`.
  datatype Entry = Entry(kind: Kind, message: seq<Byte>, now: nat)

  // A line of output; `times` is printed with "%d".
  datatype Line = Printed(entry: Entry) | Repeated(times: int)

  // The static variables prev_log_crc, prev_log_count and prev_log_time, and what has been printed.
  datatype LogState = LogState(crc: Word, count: nat, minute: nat, output: seq<Line>)

  const TWO_32: nat := FrequencyText.TWO_32

  function Code(e: Entry): Word {
    Update(0, e.message)
  }

  function Minute(e: Entry): nat {
    e.now / 60
  }

  predicate Suppressed(s: LogState, e: Entry) {
    e.kind != Debug && Code(e) == s.crc && Minute(e) == s.minute
  }

  // The number written out for a pending count.
  function Times(count: nat): int {
    FrequencyText.Int32((count + 1) % TWO_32)
  }

  // The output after a pending count has been written out.
  function Flushed(s: LogState): seq<Line> {
    if s.count > 0 then s.output + [Repeated(Times(s.count))] else s.output
  }

  function LogStep(s: LogState, e: Entry): LogState {
    if Suppressed(s, e) then s.(count := (s.count + 1) % TWO_32)
    else LogState(if e.kind == Debug then s.crc else Code(e), 0, Minute(e), Flushed(s) + [Printed(e)])
  }

  const INITIAL := LogState(0, 0, 0, [])

  function LogAll(es: seq<Entry>): LogState
    decreases |es|
  {
    if es == [] then INITIAL else LogStep(LogAll(es[..|es| - 1]), es[|es| - 1])
  }

  // The codes of all messages that are no debug messages.
  function Codes(es: seq<Entry>): seq<Word>
    decreases |es|
  {
    if es == [] then [] else
    Codes(es[..|es| - 1]) + if es[|es| - 1].kind == Debug then [] else [Code(es[|es| - 1])]
  }

  // ----- reading the output back -----

  function Copies(c: Word, n: int): seq<Word> {
    seq(if n > 0 then n else 0, _ => c)
  }

  // The code of the last message printed that is no debug message.
  function LastCode(output: seq<Line>): Word
    decreases |output|
  {
    if output == [] then 0 else
    match output[|output| - 1]
    case Printed(e) => if e.kind == Debug then LastCode(output[..|output| - 1]) else Code(e)
    case Repeated(_) => LastCode(output[..|output| - 1])
  }

  // A line of a message stands for one occurrence, "repeated N times" for N - 1 further ones of the
  // message before it.
  function Decode(output: seq<Line>): seq<Word>
    decreases |output|
  {
    if output == [] then [] else
    var before := output[..|output| - 1];
    Decode(before) +
      match output[|output| - 1]
      case Printed(e) => if e.kind == Debug then [] else [Code(e)]
      case Repeated(times) => Copies(LastCode(before), times - 1)
  }

  lemma DecodeAppend(output: seq<Line>, line: Line)
    ensures Decode(output + [line]) == Decode(output) +
            match line
            case Printed(e) => if e.kind == Debug then [] else [Code(e)]
            case Repeated(times) => Copies(LastCode(output), times - 1)
    ensures LastCode(output + [line]) ==
            match line
            case Printed(e) => if e.kind == Debug then LastCode(output) else Code(e)
            case Repeated(_) => LastCode(output)
  {
    assert (output + [line])[..|output|] == output;
  }

  // What the output and the pending count stand for.
  function Decoded(s: LogState): seq<Word> {
    Decode(s.output) + Copies(s.crc, s.count)
  }

  // The pending count is flushed as a line that stands for the same occurrences.
  lemma FlushDecodes(s: LogState)
    requires LastCode(s.output) == s.crc && 0 < s.count < TWO_32 / 2 - 1
    ensures var output := s.output + [Repeated(Times(s.count))];
            Decode(output) == Decoded(s) && LastCode(output) == s.crc
  {
    PrintedCount(s.count);
    DecodeAppend(s.output, Repeated(s.count + 1));
  }

  lemma PrintedCount(count: nat)
    requires count < TWO_32 / 2 - 1
    ensures Times(count) == count + 1
  {}

  lemma CountDecodes(s: LogState, e: Entry)
    requires Suppressed(s, e) && s.count < TWO_32 / 2 - 1
    ensures Decoded(LogStep(s, e)) == Decoded(s) + [Code(e)]
  {
    assert Copies(s.crc, s.count + 1) == Copies(s.crc, s.count) + [s.crc];
    assert Decode(s.output) + (Copies(s.crc, s.count) + [s.crc]) == Decoded(s) + [s.crc];
  }

  lemma FlushKeepsDecoded(s: LogState)
    requires LastCode(s.output) == s.crc && s.count < TWO_32 / 2 - 1
    ensures Decode(Flushed(s)) == Decoded(s) && LastCode(Flushed(s)) == s.crc
  {
    if s.count > 0 {
      FlushDecodes(s);
    } else {
      assert Copies(s.crc, 0) == [];
    }
  }

  lemma PrintDecodes(s: LogState, e: Entry)
    requires !Suppressed(s, e) && LastCode(s.output) == s.crc && s.count < TWO_32 / 2 - 1
    ensures Decoded(LogStep(s, e)) == Decoded(s) + if e.kind == Debug then [] else [Code(e)]
    ensures LastCode(LogStep(s, e).output) == LogStep(s, e).crc
  {
    var crc := if e.kind == Debug then s.crc else Code(e);
    assert LogStep(s, e) == LogState(crc, 0, Minute(e), Flushed(s) + [Printed(e)]);
    FlushKeepsDecoded(s);
    PrintedDecodes(Flushed(s), e, crc, Minute(e));
  }

  lemma PrintedDecodes(output: seq<Line>, e: Entry, crc: Word, minute: nat)
    requires crc == if e.kind == Debug then LastCode(output) else Code(e)
    ensures Decoded(LogState(crc, 0, minute, output + [Printed(e)]))
         == Decode(output) + if e.kind == Debug then [] else [Code(e)]
    ensures LastCode(output + [Printed(e)]) == crc
  {
    DecodeAppend(output, Printed(e));
    assert Copies(crc, 0) == [];
  }

  /** Suppression loses nothing: as long as fewer than 2^31 - 1 messages have been logged, the output
      and the pending count stand for the codes of all messages logged, in order. */
  lemma {:induction false} Lossless(es: seq<Entry>)
    requires |es| < TWO_32 / 2 - 1
    ensures var s := LogAll(es); Decoded(s) == Codes(es) && LastCode(s.output) == s.crc && s.count <= |es|
    decreases |es|
  {
    if es != [] {
      var n := |es| - 1;
      Lossless(es[..n]);
      if Suppressed(LogAll(es[..n]), es[n]) {
        CountDecodes(LogAll(es[..n]), es[n]);
      } else {
        PrintDecodes(LogAll(es[..n]), es[n]);
      }
    }
  }

  // ----- what a suppressed message shares with the one printed -----

  // The last line that is a message.
  function LastPrinted(output: seq<Line>): Option<Entry>
    decreases |output|
  {
    if output == [] then None else
    match output[|output| - 1]
    case Printed(e) => Some(e)
    case Repeated(_) => LastPrinted(output[..|output| - 1])
  }

  // The last message that is no debug message, the one a suppressed message repeats.
  function LastMessage(output: seq<Line>): Option<Entry>
    ensures LastCode(output) == if LastMessage(output).Some? then Code(LastMessage(output).value) else 0
    decreases |output|
  {
    if output == [] then None else
    match output[|output| - 1]
    case Printed(e) => if e.kind == Debug then LastMessage(output[..|output| - 1]) else Some(e)
    case Repeated(_) => LastMessage(output[..|output| - 1])
  }

  predicate InMinute(second: nat, k: nat) {
    60 * k <= second < 60 * k + 60
  }

  // Both moments lie between the same two full minutes.
  ghost predicate SameMinute(a: Entry, b: Entry) {
    exists k :: InMinute(a.now, k) && InMinute(b.now, k)
  }

  lemma MinuteIsInterval(a: Entry, b: Entry)
    ensures Minute(a) == Minute(b) <==> SameMinute(a, b)
    ensures Minute(a) == 0 <==> a.now < 60
  {
    assert InMinute(a.now, Minute(a)) && InMinute(b.now, Minute(b));
    if SameMinute(a, b) {
      var k :| InMinute(a.now, k) && InMinute(b.now, k);
      assert Minute(a) == k == Minute(b);
    }
  }

  // The minute of the last line that is a message, and 0 before there is one.
  function LastMinute(output: seq<Line>): nat {
    if LastPrinted(output).Some? then Minute(LastPrinted(output).value) else 0
  }

  lemma LastOfAppended(output: seq<Line>, line: Line)
    ensures LastPrinted(output + [line]) == if line.Printed? then Some(line.entry) else LastPrinted(output)
    ensures LastCode(output + [line])
         == if line.Printed? && line.entry.kind != Debug then Code(line.entry) else LastCode(output)
  {
    assert (output + [line])[..|output|] == output;
  }

  // The static variables are what the output says.
  lemma {:induction false} StateIsOutput(es: seq<Entry>)
    ensures var s := LogAll(es); s.crc == LastCode(s.output) && s.minute == LastMinute(s.output)
    decreases |es|
  {
    if es != [] {
      var n := |es| - 1;
      var s := LogAll(es[..n]);
      StateIsOutput(es[..n]);
      LastOfAppended(s.output, Repeated(Times(s.count)));
      LastOfAppended(Flushed(s), Printed(es[n]));
    }
  }

  /** After any log, a message is suppressed exactly when it is no debug message, has the code of the
      last message printed that is none, and falls into the minute of the last message printed of any
      kind.  Where nothing has been printed, the code 0 and the first minute take their place. */
  lemma SuppressedIff(es: seq<Entry>, e: Entry)
    ensures var output := LogAll(es).output; var last := LastPrinted(output);
            Suppressed(LogAll(es), e) <==>
              && e.kind != Debug && Code(e) == LastCode(output)
              && if last.Some? then SameMinute(e, last.value) else e.now < 60
  {
    StateIsOutput(es);
    var last := LastPrinted(LogAll(es).output);
    MinuteIsInterval(e, if last.Some? then last.value else e);
  }

  /** A suppressed message was printed in another minute than its own exactly when a debug message of
      another minute has been printed after it.  A message that repeats none has the code 0. */
  lemma MovedMinuteIff(es: seq<Entry>, e: Entry)
    requires Suppressed(LogAll(es), e)
    ensures var message, last := LastMessage(LogAll(es).output), LastPrinted(LogAll(es).output);
            if message.None? then Code(e) == 0
            else last.Some? && Code(message.value) == Code(e)
                 && (!SameMinute(message.value, e) <==>
                       last.value.kind == Debug && !SameMinute(last.value, message.value))
  {
    StateIsOutput(es);
    var message, last := LastMessage(LogAll(es).output), LastPrinted(LogAll(es).output);
    LastKinds(LogAll(es).output);
    if message.Some? {
      MinuteIsInterval(message.value, e);
      MinuteIsInterval(last.value, message.value);
    }
  }

  lemma {:induction false} LastKinds(output: seq<Line>)
    ensures LastPrinted(output).None? ==> LastMessage(output).None?
    ensures LastPrinted(output).Some? && LastPrinted(output).value.kind != Debug ==>
              LastMessage(output) == LastPrinted(output)
    decreases |output|
  {
    if output != [] { LastKinds(output[..|output| - 1]); }
  }

  ghost predicate Plain(es: seq<Entry>) {
    forall i | 0 <= i < |es| :: es[i].kind != Debug && es[i].now >= 60
  }

  /** Without debug messages and after the first minute, a message is suppressed exactly when the last
      message printed has the same code and falls into the same minute. */
  lemma PlainSuppressedIff(es: seq<Entry>, e: Entry)
    requires Plain(es + [e])
    ensures var last := LastPrinted(LogAll(es).output);
            Suppressed(LogAll(es), e) <==> last.Some? && Code(last.value) == Code(e) && SameMinute(e, last.value)
  {
    assert (es + [e])[|es|] == e && forall i | 0 <= i < |es| :: (es + [e])[i] == es[i];
    SuppressedIff(es, e);
    PlainOutput(es);
    LastKinds(LogAll(es).output);
  }

  lemma LastOfStep(s: LogState, e: Entry)
    ensures LastPrinted(LogStep(s, e).output) == if Suppressed(s, e) then LastPrinted(s.output) else Some(e)
  {
    LastOfAppended(Flushed(s), Printed(e));
  }

  lemma {:induction false} PlainOutput(es: seq<Entry>)
    requires Plain(es)
    ensures var last := LastPrinted(LogAll(es).output); last.Some? ==> last.value.kind != Debug
    decreases |es|
  {
    if es != [] {
      var n := |es| - 1;
      PlainOutput(es[..n]);
      LastOfStep(LogAll(es[..n]), es[n]);
    }
  }

  /** A debug message between a message and its repetition can move the minute on, so that the
      repetition is suppressed although it was printed in an earlier minute. */
  lemma DebugMovesTheMinute(m: seq<Byte>, d: seq<Byte>)
    requires Code(Entry(Info, m, 60)) != 0
    ensures var es := [Entry(Info, m, 60), Entry(Debug, d, 120)];
            LogAll(es).output == [Printed(es[0]), Printed(es[1])] && Suppressed(LogAll(es), Entry(Info, m, 120))
  {
    var es := [Entry(Info, m, 60), Entry(Debug, d, 120)];
    assert es[..1] == [es[0]] && es[..1][..0] == [];
    assert LogAll(es[..1]) == LogState(Code(es[0]), 0, 1, [Printed(es[0])]);
  }

  // ----- every other message is printed -----

  // The messages written out, in order, and those logged that were not suppressed.
  function Messages(output: seq<Line>): seq<Entry>
    decreases |output|
  {
    if output == [] then [] else
    Messages(output[..|output| - 1]) + match output[|output| - 1] case Printed(e) => [e] case Repeated(_) => []
  }

  function Unsuppressed(es: seq<Entry>): seq<Entry>
    decreases |es|
  {
    if es == [] then [] else
    var n := |es| - 1;
    Unsuppressed(es[..n]) + if Suppressed(LogAll(es[..n]), es[n]) then [] else [es[n]]
  }

  lemma MessagesOfAppended(output: seq<Line>, line: Line)
    ensures Messages(output + [line]) == Messages(output) + if line.Printed? then [line.entry] else []
  {
    assert (output + [line])[..|output|] == output;
  }

  lemma MessagesOfStep(s: LogState, e: Entry)
    ensures Messages(LogStep(s, e).output) == Messages(s.output) + if Suppressed(s, e) then [] else [e]
  {
    MessagesOfAppended(s.output, Repeated(Times(s.count)));
    MessagesOfAppended(Flushed(s), Printed(e));
  }

  /** What is not suppressed, debug messages always among it, is printed as it is and in order. */
  lemma {:induction false} OthersArePrinted(es: seq<Entry>)
    ensures Messages(LogAll(es).output) == Unsuppressed(es)
    decreases |es|
  {
    if es != [] {
      var n := |es| - 1;
      OthersArePrinted(es[..n]);
      MessagesOfStep(LogAll(es[..n]), es[n]);
    }
  }

  // ----- LNLog::log -----

  class Log {
    var prevCrc: Word
    var prevCount: nat
    var prevTime: nat
    var output: seq<Line>

    ghost function State(): LogState
      reads this
    {
      LogState(prevCrc, prevCount, prevTime, output)
    }

    constructor ()
      ensures State() == INITIAL
    {
      prevCrc, prevCount, prevTime, output := 0, 0, 0, [];
    }

    method Write(kind: Kind, message: seq<Byte>, now: nat, crcTable: CrcTable)
      requires crcTable.Valid()
      modifies this, crcTable, crcTable.table
      ensures crcTable.Valid() && State() == LogStep(old(State()), Entry(kind, message, now))
    {
      var crc := 0;
      if kind != Debug {
        crc := crcTable.UpdateCrc(0, message);
      }
      WriteCoded(kind, message, now, crc);
    }

    // The rest of log, with the CRC of the message at hand unless it is a debug message.
    method WriteCoded(kind: Kind, message: seq<Byte>, now: nat, crc: Word)
      requires kind != Debug ==> crc == Code(Entry(kind, message, now))
      modifies this
      ensures State() == LogStep(old(State()), Entry(kind, message, now))
    {
      var minute := now / 60;
      if kind != Debug {
        if crc == prevCrc && minute == prevTime {
          prevCount := (prevCount + 1) % TWO_32;
          return;
        }
        prevCrc := crc;
      }
      prevTime := minute;
      if prevCount != 0 {
        prevCount := (prevCount + 1) % TWO_32;
        output := output + [Repeated(FrequencyText.Int32(prevCount))];
        prevCount := 0;
      }
      output := output + [Printed(Entry(kind, message, now))];
    }
  }
}
