/** What a run of the rate engine has done, read off its steps alone: the matches of an item, when they were
    counted on either side, when the item was purged and its queues were emptied, and the alarms.  The
    functions below know nothing of the queues, the positions of the two threads or the operations on an
    item; the state after every run is proved to be what they say. */
module RateHistory {
  import opened EventQueues
  import opened Options
  import opened RateEngine

  // ----- reading the steps -----

  function Before(steps: seq<Step>): seq<Step>
    requires steps != []
  {
    steps[..|steps| - 1]
  }

  function Last(steps: seq<Step>): Step
    requires steps != []
  {
    steps[|steps| - 1]
  }

  // What the clock shows after these steps.
  function Clock(born: Time, steps: seq<Step>): Time
    decreases |steps|
  {
    if steps == [] then born else
    Clock(born, Before(steps)) + if Last(steps).Tick? then Last(steps).seconds else 0
  }

  // The latest match: its item, its key, when its first half ran, and what it returned.
  datatype Subject = Subject(i: nat, key: Key, at: Time, captures: nat)

  function LatestMatch(born: Time, steps: seq<Step>): Option<Subject>
    decreases |steps|
  {
    if steps == [] then None else
    match Last(steps)
    case CountUp(i, key, captures) => Some(Subject(i, key, Clock(born, Before(steps)), captures))
    case _ => LatestMatch(born, Before(steps))
  }

  predicate IsLatest(born: Time, steps: seq<Step>, i: nat) {
    LatestMatch(born, steps).Some? && LatestMatch(born, steps).value.i == i
  }

  // How many purge steps the running pass has taken.
  function Purges(steps: seq<Step>): nat
    decreases |steps|
  {
    if steps == [] || Last(steps).StartPass? then 0 else
    Purges(Before(steps)) + if Last(steps).Purge? then 1 else 0
  }

  // When the running pass, or the latest one, was started.
  function PassClock(born: Time, steps: seq<Step>): Time
    decreases |steps|
  {
    if steps == [] then born else
    if Last(steps).StartPass? then Clock(born, Before(steps)) else PassClock(born, Before(steps))
  }

  // When the latest test of a down-bound was made.
  function TestClock(born: Time, steps: seq<Step>): Time
    decreases |steps|
  {
    if steps == [] then born else
    if Last(steps).TestDown? then Clock(born, Before(steps)) else TestClock(born, Before(steps))
  }

  // The matches of item `i`: every match that named it, in order, with the time at which it was counted.
  function Matches(born: Time, steps: seq<Step>, i: nat): seq<Match>
    decreases |steps|
  {
    if steps == [] then [] else
    Matches(born, Before(steps), i)
    + match Last(steps)
      case CountUp(j, key, _) => if j == i then [Match(key, Clock(born, Before(steps)))] else []
      case _ => []
  }

  // The second counts of item `i`, those for the down-bound: one for every match, whatever its key.
  function Counts(born: Time, steps: seq<Step>, i: nat): seq<Time>
    decreases |steps|
  {
    if steps == [] then [] else
    Counts(born, Before(steps), i)
    + if Last(steps).CountDown? && IsLatest(born, Before(steps), i) then [Clock(born, Before(steps))] else []
  }

  // The purges of item `i`: the purge steps of each pass go through the items one by one.
  function PurgeTimes(born: Time, steps: seq<Step>, i: nat): seq<Time>
    decreases |steps|
  {
    if steps == [] then [] else
    PurgeTimes(born, Before(steps), i)
    + if Last(steps).Purge? && Purges(Before(steps)) == i then [Clock(born, Before(steps))] else []
  }

  // How many matches of item `i` came before the latest emptying of its up-bound queues, and how many
  // such emptyings there were.
  function UpFrom(born: Time, steps: seq<Step>, i: nat): nat
    decreases |steps|
  {
    if steps == [] then 0 else
    if Last(steps).ResetUp? && IsLatest(born, Before(steps), i) then |Matches(born, Before(steps), i)|
    else UpFrom(born, Before(steps), i)
  }

  function UpResets(born: Time, steps: seq<Step>, i: nat): nat
    decreases |steps|
  {
    if steps == [] then 0 else
    UpResets(born, Before(steps), i)
    + if Last(steps).ResetUp? && IsLatest(born, Before(steps), i) then 1 else 0
  }

  // The latest emptying of the down-bound queue of item `i`: after how many counts it came, when, and how
  // much later than the start of its pass.
  datatype Reset = Reset(from: nat, at: Time, slip: int)

  function DownReset(born: Time, steps: seq<Step>, i: nat): Reset
    decreases |steps|
  {
    if steps == [] then Reset(0, born, 0) else
    var rest := Before(steps);
    if Last(steps).ResetDown? && Purges(rest) == i + 1 then
      Reset(|Counts(born, rest, i)|, Clock(born, rest), Clock(born, rest) - PassClock(born, rest))
    else DownReset(born, rest, i)
  }

  // The down-bound alarms whose queue has been emptied: the item last purged, the pass and the test.
  function Alarms(born: Time, steps: seq<Step>): seq<Alarm>
    decreases |steps|
  {
    if steps == [] then [] else
    var rest := Before(steps);
    Alarms(born, rest) + if Last(steps).ResetDown? && Purges(rest) > 0
                         then [Alarm(Purges(rest) - 1, PassClock(born, rest), TestClock(born, rest))] else []
  }

  // How many of them came before the running pass, or the latest one.
  function AlarmsBeforePass(born: Time, steps: seq<Step>): nat
    decreases |steps|
  {
    if steps == [] then 0 else
    if Last(steps).StartPass? then |Alarms(born, Before(steps))| else AlarmsBeforePass(born, Before(steps))
  }

  // The steps of the reader, which alone decide where it stands but for the outcome of a test.
  predicate OfReader(st: Step) {
    st.CountUp? || st.CountDown? || st.TestUp? || st.ResetUp?
  }

  function ReaderSteps(steps: seq<Step>): seq<Step>
    decreases |steps|
  {
    if steps == [] then [] else
    ReaderSteps(Before(steps)) + if OfReader(Last(steps)) then [Last(steps)] else []
  }

  // ----- what the state holds of it -----

  ghost predicate ItemRecords(c: Config, it: Item, born: Time, steps: seq<Step>, i: nat) {
    && it.hist == Matches(born, steps, i)
    && it.stamps == Counts(born, steps, i)
    && SweepTimes(it.up.sweeps) == PurgeTimes(born, steps, i)
    && it.up.first == born - c.upPeriod
    && it.up.from == UpFrom(born, steps, i)
    && DownReset(born, steps, i) == Reset(it.down.from, it.down.resetAt, it.down.slip)
    && it.down.cutoff == LastOf(PurgeTimes(born, steps, i), born) - c.downPeriod
  }

  function SweepTimes(sweeps: seq<Sweep>): seq<Time> {
    seq(|sweeps|, j requires 0 <= j < |sweeps| => sweeps[j].at)
  }

  function LastOf(times: seq<Time>, otherwise: Time): Time {
    if times == [] then otherwise else times[|times| - 1]
  }

  // The reader stands where its latest step has led it, on behalf of the latest match.
  ghost predicate ReaderRecords(reader: Reader, born: Time, steps: seq<Step>) {
    var own := ReaderSteps(steps);
    if own == [] then reader == Reading else
    var latest := LatestMatch(born, steps);
    latest.Some? &&
    var m := latest.value;
    match own[|own| - 1]
    case CountUp(_, _, _) => reader == Counting(m.i, m.key, m.at, m.captures)
    case CountDown => reader == if m.captures > 0 then Testing(m.i, m.key, m.at) else Reading
    case TestUp => reader == Resetting(m.i) || reader == Reading || reader == Undefined
    case _ => reader == Reading
  }

  // The checker deals with the item last purged, or is about to purge the next one.
  ghost predicate CheckerRecords(n: nat, s: State, born: Time, steps: seq<Step>) {
    var turn := Purges(steps);
    && (s.checker.Purging? ==> s.checker.i == turn)
    && (s.checker.Checking? ==>
          && 0 < turn <= n && s.checker.i == turn - 1
          && s.checker.purgedAt == LastOf(PurgeTimes(born, steps, turn - 1), born))
    && (s.checker.Emptying? ==> 0 < turn <= n && s.checker.i == turn - 1)
  }

  ghost predicate AlarmRecords(s: State, born: Time, steps: seq<Step>) {
    && s.alarms == Alarms(born, steps)
         + (if s.checker.Emptying? then [Alarm(s.checker.i, s.passNow, TestClock(born, steps))] else [])
    && s.earlier == AlarmsBeforePass(born, steps)
  }

  ghost predicate ClockRecords(s: State, born: Time, steps: seq<Step>) {
    s.clock == Clock(born, steps) && s.passNow == PassClock(born, steps) && s.born == born
  }

  ghost predicate ItemsRecords(cs: seq<Config>, s: State, born: Time, steps: seq<Step>)
    requires |s.items| == |cs|
  {
    forall i | 0 <= i < |cs| ::
      && ItemRecords(cs[i], s.items[i], born, steps, i)
      && s.items[i].up.alarms == UpResets(born, steps, i) + (if s.reader == Resetting(i) then 1 else 0)
  }

  ghost predicate Records(cs: seq<Config>, s: State, born: Time, steps: seq<Step>) {
    && |s.items| == |cs|
    && ClockRecords(s, born, steps) && ReaderRecords(s.reader, born, steps)
    && CheckerRecords(|cs|, s, born, steps) && AlarmRecords(s, born, steps)
    && ItemsRecords(cs, s, born, steps)
  }

  // ----- every step -----

  lemma {:induction false} RunLast(cs: seq<Config>, s: State, steps: seq<Step>)
    requires |s.items| == |cs| && steps != [] && Run(cs, s, steps).Some?
    ensures Run(cs, s, Before(steps)).Some? && |Run(cs, s, Before(steps)).value.items| == |cs|
    ensures Run(cs, s, steps) == Next(cs, Run(cs, s, Before(steps)).value, Last(steps))
    decreases |steps|
  {
    if |steps| > 1 {
      var next := Next(cs, s, steps[0]).value;
      RunLast(cs, next, steps[1..]);
      assert Before(steps)[1..] == Before(steps[1..]);
    }
  }

  lemma ClockStep(cs: seq<Config>, s: State, s': State, born: Time, steps: seq<Step>)
    requires |s.items| == |cs| && steps != [] && Next(cs, s, Last(steps)) == Some(s')
    requires ClockRecords(s, born, Before(steps))
    ensures ClockRecords(s', born, steps)
  {}

  lemma ReaderRecordsStep(cs: seq<Config>, s: State, s': State, born: Time, steps: seq<Step>)
    requires |s.items| == |cs| && steps != [] && Next(cs, s, Last(steps)) == Some(s')
    requires s.clock == Clock(born, Before(steps)) && ReaderRecords(s.reader, born, Before(steps))
    ensures ReaderRecords(s'.reader, born, steps)
  {
    var own := ReaderSteps(Before(steps));
    if !OfReader(Last(steps)) {
      assert s'.reader == s.reader && ReaderSteps(steps) == own;
    }
  }

  lemma CheckerRecordsStep(cs: seq<Config>, s: State, s': State, born: Time, steps: seq<Step>)
    requires |s.items| == |cs| && steps != [] && Next(cs, s, Last(steps)) == Some(s')
    requires s.clock == Clock(born, Before(steps)) && CheckerRecords(|cs|, s, born, Before(steps))
    ensures CheckerRecords(|cs|, s', born, steps)
  {}

  lemma AlarmRecordsStep(cs: seq<Config>, s: State, s': State, born: Time, steps: seq<Step>)
    requires |s.items| == |cs| && steps != [] && Next(cs, s, Last(steps)) == Some(s')
    requires ClockRecords(s, born, Before(steps))
    requires CheckerRecords(|cs|, s, born, Before(steps)) && AlarmRecords(s, born, Before(steps))
    ensures AlarmRecords(s', born, steps)
  {
    if !Last(steps).TestDown? && !Last(steps).ResetDown? && !Last(steps).StartPass? {
      QuietStep(cs, s, s', Last(steps));
    }
  }

  lemma QuietStep(cs: seq<Config>, s: State, s': State, st: Step)
    requires |s.items| == |cs| && Next(cs, s, st) == Some(s') && !st.TestDown? && !st.ResetDown? && !st.StartPass?
    ensures s'.alarms == s.alarms && s'.earlier == s.earlier && s'.passNow == s.passNow
    ensures s'.checker.Emptying? <==> s.checker.Emptying?
    ensures s.checker.Emptying? ==> s'.checker == s.checker
  {}

  // The reader acts for the item of the latest match.
  lemma ReaderSubject(reader: Reader, born: Time, steps: seq<Step>)
    requires ReaderRecords(reader, born, steps) && !reader.Reading? && !reader.Undefined?
    ensures LatestMatch(born, steps).Some? && LatestMatch(born, steps).value.i == reader.i
  {}

  // Does the last step do something to item `i`?
  predicate Touches(born: Time, steps: seq<Step>, i: nat)
    requires steps != []
  {
    var rest := Before(steps);
    match Last(steps)
    case CountUp(j, _, _) => j == i
    case CountDown => IsLatest(born, rest, i)
    case ResetUp => IsLatest(born, rest, i)
    case Purge => Purges(rest) == i
    case ResetDown => Purges(rest) == i + 1
    case _ => false
  }

  lemma UntouchedKeeps(c: Config, it: Item, born: Time, steps: seq<Step>, i: nat)
    requires steps != [] && !Touches(born, steps, i) && ItemRecords(c, it, born, Before(steps), i)
    ensures ItemRecords(c, it, born, steps, i)
  {}

  lemma CountUpRecords(c: Config, it: Item, born: Time, steps: seq<Step>, i: nat)
    requires steps != [] && Last(steps).CountUp? && Last(steps).i == i && ItemRecords(c, it, born, Before(steps), i)
    ensures ItemRecords(c, CountUpItem(c, it, Last(steps).key, Clock(born, Before(steps))), born, steps, i)
  {}

  lemma CountDownRecords(c: Config, it: Item, born: Time, steps: seq<Step>, i: nat)
    requires steps != [] && Last(steps).CountDown? && IsLatest(born, Before(steps), i)
    requires ItemRecords(c, it, born, Before(steps), i)
    ensures ItemRecords(c, CountDownItem(c, it, Clock(born, Before(steps))), born, steps, i)
  {}

  lemma ResetUpRecords(c: Config, it: Item, born: Time, steps: seq<Step>, i: nat)
    requires steps != [] && Last(steps).ResetUp? && IsLatest(born, Before(steps), i)
    requires ItemRecords(c, it, born, Before(steps), i)
    ensures ItemRecords(c, ResetUpItem(it), born, steps, i)
  {}

  lemma PurgeRecords(c: Config, it: Item, born: Time, steps: seq<Step>, i: nat)
    requires c.Sane() && steps != [] && Last(steps).Purge? && Purges(Before(steps)) == i
    requires ItemRecords(c, it, born, Before(steps), i)
    ensures ItemRecords(c, PurgeItem(c, it, Clock(born, Before(steps))), born, steps, i)
  {
    var now := Clock(born, Before(steps));
    assert SweepTimes(PurgeUp(c, it.up, now).sweeps) == SweepTimes(it.up.sweeps) + [now];
  }

  lemma ResetDownRecords(c: Config, it: Item, born: Time, steps: seq<Step>, i: nat, slip: nat)
    requires steps != [] && Last(steps).ResetDown? && Purges(Before(steps)) == i + 1
    requires slip == Clock(born, Before(steps)) - PassClock(born, Before(steps))
    requires ItemRecords(c, it, born, Before(steps), i)
    ensures ItemRecords(c, ResetDownItem(it, Clock(born, Before(steps)), slip), born, steps, i)
  {}

  lemma AlarmCountRecords(c: Config, it: Item, born: Time, steps: seq<Step>, i: nat, alarms: nat)
    requires ItemRecords(c, it, born, steps, i)
    ensures ItemRecords(c, it.(up := it.up.(alarms := alarms)), born, steps, i)
  {}

  lemma ReaderItemStep(cs: seq<Config>, s: State, s': State, born: Time, steps: seq<Step>, i: nat)
    requires |s.items| == |s'.items| == |cs| && i < |cs| && steps != [] && Next(cs, s, Last(steps)) == Some(s')
    requires OfReader(Last(steps)) && s.clock == Clock(born, Before(steps))
    requires ReaderRecords(s.reader, born, Before(steps)) && ItemRecords(cs[i], s.items[i], born, Before(steps), i)
    ensures ItemRecords(cs[i], s'.items[i], born, steps, i)
  {
    var c, it := cs[i], s.items[i];
    if !s.reader.Reading? { ReaderSubject(s.reader, born, Before(steps)); }
    if !Touches(born, steps, i) {
      UntouchedKeeps(c, it, born, steps, i);
      AlarmCountRecords(c, it, born, steps, i, it.up.alarms + 1);
    } else {
      match Last(steps)
      case CountUp(_, _, _) => CountUpRecords(c, it, born, steps, i);
      case CountDown => CountDownRecords(c, it, born, steps, i);
      case _ => ResetUpRecords(c, it, born, steps, i);
    }
  }

  lemma CheckerItemStep(cs: seq<Config>, s: State, s': State, born: Time, steps: seq<Step>, i: nat)
    requires |s.items| == |s'.items| == |cs| && i < |cs| && cs[i].Sane()
    requires steps != [] && Next(cs, s, Last(steps)) == Some(s') && !OfReader(Last(steps))
    requires ClockRecords(s, born, Before(steps)) && CheckerRecords(|cs|, s, born, Before(steps))
    requires ItemRecords(cs[i], s.items[i], born, Before(steps), i)
    ensures ItemRecords(cs[i], s'.items[i], born, steps, i)
  {
    var c, it := cs[i], s.items[i];
    if !Touches(born, steps, i) {
      UntouchedKeeps(c, it, born, steps, i);
    } else if Last(steps).Purge? {
      PurgeRecords(c, it, born, steps, i);
    } else {
      ResetDownRecords(c, it, born, steps, i, s.clock - s.passNow);
    }
  }

  lemma UpAlarmsStep(cs: seq<Config>, s: State, s': State, born: Time, steps: seq<Step>, i: nat)
    requires |s.items| == |s'.items| == |cs| && i < |cs| && steps != [] && Next(cs, s, Last(steps)) == Some(s')
    requires ReaderRecords(s.reader, born, Before(steps))
    requires s.items[i].up.alarms
          == UpResets(born, Before(steps), i) + (if s.reader == Resetting(i) then 1 else 0)
    ensures s'.items[i].up.alarms == UpResets(born, steps, i) + (if s'.reader == Resetting(i) then 1 else 0)
  {
    if Last(steps).ResetUp? { ReaderSubject(s.reader, born, Before(steps)); }
  }

  lemma RecordsStep(cs: seq<Config>, s: State, s': State, born: Time, steps: seq<Step>)
    requires AllSane(cs) && |s.items| == |s'.items| == |cs|
    requires steps != [] && Next(cs, s, Last(steps)) == Some(s') && Records(cs, s, born, Before(steps))
    ensures Records(cs, s', born, steps)
  {
    ClockStep(cs, s, s', born, steps);
    ReaderRecordsStep(cs, s, s', born, steps);
    CheckerRecordsStep(cs, s, s', born, steps);
    AlarmRecordsStep(cs, s, s', born, steps);
    forall i | 0 <= i < |cs|
      ensures ItemRecords(cs[i], s'.items[i], born, steps, i)
      ensures s'.items[i].up.alarms == UpResets(born, steps, i) + (if s'.reader == Resetting(i) then 1 else 0)
    {
      if OfReader(Last(steps)) {
        ReaderItemStep(cs, s, s', born, steps, i);
      } else {
        CheckerItemStep(cs, s, s', born, steps, i);
      }
      UpAlarmsStep(cs, s, s', born, steps, i);
    }
  }

  lemma NextSize(cs: seq<Config>, s: State, st: Step)
    requires |s.items| == |cs| && Next(cs, s, st).Some?
    ensures |Next(cs, s, st).value.items| == |cs|
  {}

  lemma StartRecords(cs: seq<Config>, born: Time)
    ensures Records(cs, Start(cs, born), born, [])
  {}

  /** After every run the state holds what the steps say: which matches were counted on either side of every
      item and when, when it was purged and its queues were emptied, all alarms, and where the two threads
      stand. */
  lemma {:induction false} RunHistory(cs: seq<Config>, born: Time, steps: seq<Step>)
    requires AllSane(cs) && Run(cs, Start(cs, born), steps).Some?
    ensures Records(cs, Run(cs, Start(cs, born), steps).value, born, steps)
    decreases |steps|
  {
    if steps == [] {
      StartRecords(cs, born);
    } else {
      RunLast(cs, Start(cs, born), steps);
      RunHistory(cs, born, Before(steps));
      var s := Run(cs, Start(cs, born), Before(steps)).value;
      NextSize(cs, s, Last(steps));
      RecordsStep(cs, s, Next(cs, s, Last(steps)).value, born, steps);
    }
  }

  // ----- matches and their two counts -----

  // The down-bound side has counted every match, in order and not before the match itself nor after the
  // next one; only the match whose second half is still to come is missing.
  ghost predicate EveryMatchCounted(it: Item, halfway: bool) {
    && |it.stamps| + (if halfway then 1 else 0) == |it.hist|
    && (forall j | 0 <= j < |it.stamps| :: it.hist[j].at <= it.stamps[j])
    && forall j | 0 <= j < |it.hist| - 1 :: it.stamps[j] <= it.hist[j + 1].at
  }

  lemma PastHistory(c: Config, it: Item, clock: Time)
    requires ItemInv(c, it, clock)
    ensures forall j | 0 <= j < |it.hist| :: it.hist[j].at <= clock
    ensures forall j | 0 <= j < |it.stamps| :: it.stamps[j] <= clock
  {
    assert forall j | 0 <= j < |it.hist| :: Stamps(it.hist)[j] == it.hist[j].at;
  }

  lemma FirstHalfCounted(c: Config, it: Item, key: Key, clock: Time)
    requires ItemInv(c, it, clock) && EveryMatchCounted(it, false)
    ensures EveryMatchCounted(CountUpItem(c, it, key, clock), true)
  {
    PastHistory(c, it, clock);
  }

  lemma SecondHalfCounted(c: Config, it: Item, clock: Time)
    requires ItemInv(c, it, clock) && EveryMatchCounted(it, true)
    ensures EveryMatchCounted(CountDownItem(c, it, clock), false)
  {
    PastHistory(c, it, clock);
  }

  lemma OtherStepCounted(cs: seq<Config>, s: State, s': State, st: Step, i: nat)
    requires |s.items| == |s'.items| == |cs| && i < |cs| && Next(cs, s, st) == Some(s')
    requires !(st.CountUp? && st.i == i) && !(st.CountDown? && Locked(s, i))
    ensures s'.items[i].hist == s.items[i].hist && s'.items[i].stamps == s.items[i].stamps
    ensures Locked(s', i) <==> Locked(s, i)
  {}

  lemma CountedStep(cs: seq<Config>, s: State, s': State, st: Step, i: nat)
    requires |s.items| == |s'.items| == |cs| && i < |cs| && ItemInv(cs[i], s.items[i], s.clock)
    requires Next(cs, s, st) == Some(s') && EveryMatchCounted(s.items[i], Locked(s, i))
    ensures EveryMatchCounted(s'.items[i], Locked(s', i))
  {
    if st.CountUp? && st.i == i {
      FirstHalfCounted(cs[i], s.items[i], st.key, s.clock);
    } else if st.CountDown? && Locked(s, i) {
      SecondHalfCounted(cs[i], s.items[i], s.clock);
    } else {
      OtherStepCounted(cs, s, s', st, i);
    }
  }

  lemma {:induction false} RunCounts(cs: seq<Config>, born: Time, steps: seq<Step>, i: nat)
    requires AllSane(cs) && i < |cs| && Run(cs, Start(cs, born), steps).Some?
    ensures var s := Run(cs, Start(cs, born), steps).value;
            Inv(cs, s) && EveryMatchCounted(s.items[i], Locked(s, i))
    decreases |steps|
  {
    if steps == [] {
      StartInv(cs, born);
    } else {
      RunLast(cs, Start(cs, born), steps);
      RunCounts(cs, born, Before(steps), i);
      var s := Run(cs, Start(cs, born), Before(steps)).value;
      StepKeepsInv(cs, s, Last(steps));
      CountedStep(cs, s, Next(cs, s, Last(steps)).value, Last(steps), i);
    }
  }

  /** In every reachable state every item has as many counts on the down-bound side as matches, with or
      without usecrc, less one while its latest match holds the lock, and each count came at or after its
      match. */
  lemma EveryMatchIsCounted(cs: seq<Config>, s: State, i: nat)
    requires AllSane(cs) && Reachable(cs, s) && i < |s.items| == |cs|
    ensures EveryMatchCounted(s.items[i], Locked(s, i))
  {
    var born, steps :| Run(cs, Start(cs, born), steps) == Some(s);
    RunCounts(cs, born, steps, i);
  }

  // ----- actions -----

  function Downs(actions: seq<Action>): seq<nat>
    decreases |actions|
  {
    if actions == [] then [] else
    var n := |actions| - 1;
    Downs(actions[..n]) + match actions[n] case DownAction(i) => [i] case _ => []
  }

  function Ups(actions: seq<Action>, i: nat): nat
    decreases |actions|
  {
    if actions == [] then 0 else
    var n := |actions| - 1;
    Ups(actions[..n], i) + if actions[n] == UpAction(i) then 1 else 0
  }

  function ItemsOf(alarms: seq<Alarm>): seq<nat> {
    seq(|alarms|, j requires 0 <= j < |alarms| => alarms[j].i)
  }

  ghost predicate ActionsTied(s: State) {
    Downs(s.actions) == ItemsOf(s.alarms) && forall i | 0 <= i < |s.items| :: Ups(s.actions, i) == s.items[i].up.alarms
  }

  lemma OneMoreAction(actions: seq<Action>, a: Action, i: nat)
    ensures Downs(actions + [a]) == Downs(actions) + match a case DownAction(j) => [j] case _ => []
    ensures Ups(actions + [a], i) == Ups(actions, i) + if a == UpAction(i) then 1 else 0
  {
    assert (actions + [a])[..|actions|] == actions;
  }

  lemma AddsAction(cs: seq<Config>, s: State, s': State, st: Step, i: nat)
    requires |s.items| == |s'.items| == |cs| && i < |cs| && Next(cs, s, st) == Some(s')
    ensures s'.items[i].up.alarms == s.items[i].up.alarms + Ups(s'.actions, i) - Ups(s.actions, i)
  {
    if st.TestUp? { OneMoreAction(s.actions, UpAction(s.reader.i), i); }
    if st.TestDown? { OneMoreAction(s.actions, DownAction(s.checker.i), i); }
  }

  // What a step may add to the alarms and the actions.
  ghost predicate AddsNoAlarm(s: State, s': State) {
    && s'.alarms == s.alarms
    && (s'.actions == s.actions || exists i :: s'.actions == s.actions + [UpAction(i)])
  }

  ghost predicate AddsOneAlarm(s: State, s': State)
    requires s.checker.Checking?
  {
    var i := s.checker.i;
    s'.alarms == s.alarms + [Alarm(i, s.passNow, s.clock)] && s'.actions == s.actions + [DownAction(i)]
  }

  lemma AddsAtMostOne(cs: seq<Config>, s: State, s': State, st: Step)
    requires |s.items| == |cs| && Next(cs, s, st) == Some(s')
    ensures AddsNoAlarm(s, s') || (s.checker.Checking? && AddsOneAlarm(s, s'))
  {}

  lemma AddsAlarm(s: State, s': State)
    requires Downs(s.actions) == ItemsOf(s.alarms)
    requires AddsNoAlarm(s, s') || (s.checker.Checking? && AddsOneAlarm(s, s'))
    ensures Downs(s'.actions) == ItemsOf(s'.alarms)
  {
    if !AddsNoAlarm(s, s') {
      OneMoreAction(s.actions, DownAction(s.checker.i), 0);
    } else if s'.actions != s.actions {
      var i :| s'.actions == s.actions + [UpAction(i)];
      OneMoreAction(s.actions, UpAction(i), 0);
    }
  }

  lemma TiedStep(cs: seq<Config>, s: State, s': State, st: Step)
    requires |s.items| == |s'.items| == |cs| && Next(cs, s, st) == Some(s') && ActionsTied(s)
    ensures ActionsTied(s')
  {
    AddsAtMostOne(cs, s, s', st);
    AddsAlarm(s, s');
    forall i | 0 <= i < |cs| ensures Ups(s'.actions, i) == s'.items[i].up.alarms {
      AddsAction(cs, s, s', st, i);
    }
  }

  lemma {:induction false} RunTies(cs: seq<Config>, born: Time, steps: seq<Step>)
    requires Run(cs, Start(cs, born), steps).Some?
    ensures ActionsTied(Run(cs, Start(cs, born), steps).value)
    decreases |steps|
  {
    if steps != [] {
      RunLast(cs, Start(cs, born), steps);
      RunTies(cs, born, Before(steps));
      var s := Run(cs, Start(cs, born), Before(steps)).value;
      NextSize(cs, s, Last(steps));
      TiedStep(cs, s, Next(cs, s, Last(steps)).value, Last(steps));
    }
  }

  /** The actions queued so far are those of the alarms: for the down-bounds one for each recorded alarm, in
      order, and for each item as many up-bound actions as up-bound alarms. */
  lemma ActionsAreAlarms(cs: seq<Config>, s: State)
    requires Reachable(cs, s)
    ensures Downs(s.actions) == ItemsOf(s.alarms)
    ensures forall i | 0 <= i < |s.items| :: Ups(s.actions, i) == s.items[i].up.alarms
  {
    var born, steps :| Run(cs, Start(cs, born), steps) == Some(s);
    RunTies(cs, born, steps);
  }

  // ----- which steps can be taken -----

  // A match may be of any item, under key 0 without usecrc; with usecrc it has at least the whole match.
  predicate IsMatch(cs: seq<Config>, i: nat, key: Key, captures: nat) {
    i < |cs| && if cs[i].usecrc then captures > 0 else key == 0
  }

  predicate Enabled(cs: seq<Config>, s: State, st: Step) {
    match st
    case Tick(_) => true
    case CountUp(i, key, captures) => s.reader.Reading? && IsMatch(cs, i, key, captures)
    case CountDown => s.reader.Counting?
    case TestUp => s.reader.Testing?
    case ResetUp => s.reader.Resetting?
    case StartPass => s.checker.Sleeping?
    case Purge => s.checker.Purging? && !Locked(s, s.checker.i)
    case TestDown => s.checker.Checking? && !Locked(s, s.checker.i)
    case ResetDown => s.checker.Emptying? && !Locked(s, s.checker.i)
  }

  /** Nothing else holds a thread up: in every reachable state a step can be taken exactly when its thread
      has come to it and, for the checker, no match holds the lock of its item. */
  lemma StepsAsEnabled(cs: seq<Config>, s: State, st: Step)
    requires AllSane(cs) && Reachable(cs, s)
    ensures |s.items| == |cs| && (Next(cs, s, st).Some? <==> Enabled(cs, s, st))
  {
    ReachableInv(cs, s);
  }

  // ----- a pass of the checker -----

  datatype Visit = Purged(i: nat) | Tested(i: nat)

  // What the steps of a pass over `n` items do to which item.
  function Visits(n: nat, steps: seq<Step>): seq<Visit>
    decreases |steps|
  {
    if steps == [] then [] else
    var turn := Purges(Before(steps));
    Visits(n, Before(steps))
    + match Last(steps)
      case Purge => if turn < n then [Purged(turn)] else []
      case TestDown => if turn > 0 then [Tested(turn - 1)] else []
      case _ => []
  }

  // Every item is purged once and tested once, one after the other.
  function OnePass(n: nat): seq<Visit> {
    if n == 0 then [] else OnePass(n - 1) + [Purged(n - 1), Tested(n - 1)]
  }

  // The steps from the start of a pass on, as far as it has come.
  ghost predicate IsPass(cs: seq<Config>, s: State, steps: seq<Step>) {
    && |s.items| == |cs| && s.checker.Sleeping? && Run(cs, s, steps).Some?
    && steps != [] && steps[0] == StartPass && forall k | 1 <= k < |steps| :: steps[k] != StartPass
  }

  // Where the checker stands says how far it has come.
  ghost predicate PassProgress(n: nat, checker: Checker, steps: seq<Step>) {
    var turn, visits := Purges(steps), Visits(n, steps);
    match checker
    case Sleeping => visits == OnePass(n)
    case Purging(i) => i == turn <= n && visits == OnePass(i)
    case Checking(i, _) => i + 1 == turn <= n && visits == OnePass(i) + [Purged(i)]
    case Emptying(i) => i + 1 == turn <= n && visits == OnePass(i + 1)
  }

  lemma TestedExtendsPass(i: nat)
    ensures OnePass(i + 1) == OnePass(i) + [Purged(i)] + [Tested(i)]
  {}

  lemma PassProgressStep(cs: seq<Config>, s: State, s': State, steps: seq<Step>)
    requires |s.items| == |cs| && steps != [] && !Last(steps).StartPass? && Next(cs, s, Last(steps)) == Some(s')
    requires PassProgress(|cs|, s.checker, Before(steps))
    ensures PassProgress(|cs|, s'.checker, steps)
  {
    if Last(steps).TestDown? {
      TestedExtendsPass(s.checker.i);
    } else if !Last(steps).Purge? && !Last(steps).ResetDown? {
      assert s'.checker == s.checker && Visits(|cs|, steps) == Visits(|cs|, Before(steps));
    }
  }

  lemma {:induction false} PassSoFar(cs: seq<Config>, s: State, steps: seq<Step>)
    requires IsPass(cs, s, steps)
    ensures PassProgress(|cs|, Run(cs, s, steps).value.checker, steps)
    decreases |steps|
  {
    RunLast(cs, s, steps);
    if |steps| == 1 {
      assert Before(steps) == [] && Last(steps) == StartPass;
    } else {
      PassSoFar(cs, s, Before(steps));
      PassProgressStep(cs, Run(cs, s, Before(steps)).value, Run(cs, s, steps).value, steps);
    }
  }

  /** Between a `StartPass` and the next return to sleep every item is purged once and then tested once, in
      the order of the items, whatever the reader does meanwhile. */
  lemma PassVisitsEveryItem(cs: seq<Config>, s: State, steps: seq<Step>)
    requires IsPass(cs, s, steps) && Run(cs, s, steps).value.checker.Sleeping?
    ensures Visits(|cs|, steps) == OnePass(|cs|)
  {
    PassSoFar(cs, s, steps);
  }

  // The bound of the item under test is enabled, the checker has been quiet for the item's period, and
  // fewer counts since the item's last reset than its limit lie in the period before its purge.
  ghost predicate Due(cs: seq<Config>, s: State)
    requires |s.items| == |cs|
  {
    s.checker.Checking? && s.checker.i < |cs| &&
    var c, it := cs[s.checker.i], s.items[s.checker.i];
    && it.down.from <= |it.stamps| && c.downCount > 0 && Quiet(s, c.downPeriod)
    && CountFrom(SinceDownReset(it), s.checker.purgedAt - c.downPeriod) < c.downCount
  }

  // The alarms due in a run: the item under test, when its pass was started, and when it was tested.
  ghost function DueAlarms(cs: seq<Config>, s: State, steps: seq<Step>): seq<Alarm>
    requires |s.items| == |cs| && Run(cs, s, steps).Some?
    decreases |steps|
  {
    if steps == [] then [] else
    RunLast(cs, s, steps);
    var t := Run(cs, s, Before(steps)).value;
    DueAlarms(cs, s, Before(steps))
    + if Last(steps).TestDown? && Due(cs, t) then [Alarm(t.checker.i, t.passNow, t.clock)] else []
  }

  lemma TestRaisesDue(cs: seq<Config>, s: State, s': State, st: Step)
    requires AllSane(cs) && Reachable(cs, s) && |s.items| == |cs| && Next(cs, s, st) == Some(s')
    ensures s'.alarms == s.alarms
         + if st.TestDown? && Due(cs, s) then [Alarm(s.checker.i, s.passNow, s.clock)] else []
    ensures s'.actions != s.actions ==> |s'.actions| > 0 && s'.actions[..|s'.actions| - 1] == s.actions
  {
    if st.TestDown? { DownBoundDecision(cs, s); }
  }

  lemma {:induction false} RunReaches(cs: seq<Config>, s: State, steps: seq<Step>)
    requires Reachable(cs, s) && |s.items| == |cs| && Run(cs, s, steps).Some?
    ensures Reachable(cs, Run(cs, s, steps).value)
    decreases |steps|
  {
    if steps != [] {
      RunLast(cs, s, steps);
      RunReaches(cs, s, Before(steps));
      ReachableNext(cs, Run(cs, s, Before(steps)).value, Last(steps), Run(cs, s, steps).value);
    }
  }

  lemma {:induction false} AlarmsRaised(cs: seq<Config>, s: State, steps: seq<Step>)
    requires AllSane(cs) && Reachable(cs, s) && |s.items| == |cs| && Run(cs, s, steps).Some?
    ensures Run(cs, s, steps).value.alarms == s.alarms + DueAlarms(cs, s, steps)
    decreases |steps|
  {
    if steps != [] {
      RunLast(cs, s, steps);
      RunReaches(cs, s, Before(steps));
      AlarmsRaised(cs, s, Before(steps));
      TestRaisesDue(cs, Run(cs, s, Before(steps)).value, Run(cs, s, steps).value, Last(steps));
    }
  }

  /** In every run, over any number of passes, exactly the alarms that are due are raised, in the order of
      the tests, each with one action. */
  lemma DueAlarmsAreRaised(cs: seq<Config>, s: State, steps: seq<Step>)
    requires AllSane(cs) && Reachable(cs, s) && |s.items| == |cs| && Run(cs, s, steps).Some?
    ensures var s' := Run(cs, s, steps).value;
            && s'.alarms == s.alarms + DueAlarms(cs, s, steps)
            && Downs(s'.actions) == Downs(s.actions) + ItemsOf(DueAlarms(cs, s, steps))
  {
    AlarmsRaised(cs, s, steps);
    RunReaches(cs, s, steps);
    ActionsAreAlarms(cs, s);
    ActionsAreAlarms(cs, Run(cs, s, steps).value);
    ItemsOfConcat(s.alarms, DueAlarms(cs, s, steps));
  }

  lemma ItemsOfConcat(a: seq<Alarm>, b: seq<Alarm>)
    ensures ItemsOf(a + b) == ItemsOf(a) + ItemsOf(b)
  {}

  // ----- every item in a pass -----

  // The step of a run at which item `i` is tested.
  ghost predicate TestOf(steps: seq<Step>, i: nat, k: nat) {
    k < |steps| && steps[k].TestDown? && Purges(steps[..k]) == i + 1
  }

  lemma {:induction false} VisitHappens(n: nat, steps: seq<Step>, i: nat) returns (k: nat)
    requires Tested(i) in Visits(n, steps)
    ensures TestOf(steps, i, k)
    decreases |steps|
  {
    if Tested(i) in Visits(n, Before(steps)) {
      k := VisitHappens(n, Before(steps), i);
      assert Before(steps)[..k] == steps[..k];
    } else {
      k := |steps| - 1;
    }
  }

  lemma {:induction false} InOnePass(n: nat, i: nat)
    requires i < n
    ensures Purged(i) in OnePass(n) && Tested(i) in OnePass(n)
  {
    if i < n - 1 { InOnePass(n - 1, i); }
  }

  lemma {:induction false} RunPrefix(cs: seq<Config>, s: State, steps: seq<Step>, k: nat)
    requires |s.items| == |cs| && k <= |steps| && Run(cs, s, steps).Some?
    ensures Run(cs, s, steps[..k]).Some? && |Run(cs, s, steps[..k]).value.items| == |cs|
    decreases |steps|
  {
    if k == |steps| {
      assert steps[..k] == steps;
      if steps != [] {
        RunLast(cs, s, steps);
        NextSize(cs, Run(cs, s, Before(steps)).value, Last(steps));
      }
    } else {
      RunLast(cs, s, steps);
      RunPrefix(cs, s, Before(steps), k);
      assert Before(steps)[..k] == steps[..k];
    }
  }

  // Alarms of an earlier part of the run stay.
  lemma {:induction false} DueStays(cs: seq<Config>, s: State, steps: seq<Step>, k: nat)
    requires |s.items| == |cs| && Run(cs, s, steps).Some? && k < |steps| && steps[k].TestDown?
    requires Run(cs, s, steps[..k]).Some? && |Run(cs, s, steps[..k]).value.items| == |cs|
    requires Due(cs, Run(cs, s, steps[..k]).value)
    ensures var t := Run(cs, s, steps[..k]).value;
            Alarm(t.checker.i, t.passNow, t.clock) in DueAlarms(cs, s, steps)
    decreases |steps|
  {
    RunLast(cs, s, steps);
    if k < |steps| - 1 {
      assert Before(steps)[..k] == steps[..k];
      DueStays(cs, s, Before(steps), k);
    }
  }

  lemma {:induction false} TurnIsItem(cs: seq<Config>, s: State, steps: seq<Step>, k: nat, i: nat)
    requires IsPass(cs, s, steps) && TestOf(steps, i, k)
    ensures Run(cs, s, steps[..k]).Some? && |Run(cs, s, steps[..k]).value.items| == |cs|
    ensures var t := Run(cs, s, steps[..k]).value; t.checker.Checking? && t.checker.i == i
  {
    RunPrefix(cs, s, steps, k);
    RunPrefix(cs, s, steps, k + 1);
    assert Before(steps[..k + 1]) == steps[..k];
    RunLast(cs, s, steps[..k + 1]);
    assert k > 0;
    PassSoFar(cs, s, steps[..k]);
  }

  lemma InItems(alarms: seq<Alarm>, i: nat, t: State)
    requires Alarm(i, t.passNow, t.clock) in alarms
    ensures i in ItemsOf(alarms)
  {
    var j :| 0 <= j < |alarms| && alarms[j] == Alarm(i, t.passNow, t.clock);
    assert ItemsOf(alarms)[j] == i;
  }

  /** A pass is complete: every item has its test in it, and if the item is due there its alarm is recorded
      and its action has been queued by the end of the pass. */
  lemma PassAlarmsEveryDueItem(cs: seq<Config>, s: State, steps: seq<Step>, i: nat) returns (k: nat)
    requires AllSane(cs) && Reachable(cs, s) && IsPass(cs, s, steps) && i < |cs|
    requires Run(cs, s, steps).value.checker.Sleeping?
    ensures TestOf(steps, i, k)
    ensures Run(cs, s, steps[..k]).Some? && |Run(cs, s, steps[..k]).value.items| == |cs|
    ensures var t, s' := Run(cs, s, steps[..k]).value, Run(cs, s, steps).value;
            && t.checker.Checking? && t.checker.i == i
            && s'.alarms == s.alarms + DueAlarms(cs, s, steps)
            && Downs(s'.actions) == Downs(s.actions) + ItemsOf(DueAlarms(cs, s, steps))
            && (Due(cs, t) ==>
                  && Alarm(i, t.passNow, t.clock) in DueAlarms(cs, s, steps)
                  && i in ItemsOf(DueAlarms(cs, s, steps)))
  {
    PassVisitsEveryItem(cs, s, steps);
    InOnePass(|cs|, i);
    k := VisitHappens(|cs|, steps, i);
    TurnIsItem(cs, s, steps, k, i);
    DueAlarmsAreRaised(cs, s, steps);
    if Due(cs, Run(cs, s, steps[..k]).value) {
      DueStays(cs, s, steps, k);
      InItems(DueAlarms(cs, s, steps), i, Run(cs, s, steps[..k]).value);
    }
  }

  // ----- a pass comes to its end -----

  ghost predicate WithoutStart(steps: seq<Step>) {
    forall k | 0 <= k < |steps| :: steps[k] != StartPass
  }

  // What the checker does next.
  function Turn(checker: Checker): Step {
    match checker
    case Sleeping => StartPass
    case Purging(_) => Purge
    case Checking(_, _) => TestDown
    case Emptying(_) => ResetDown
  }

  // How many of its steps a pass still has to take, at most.
  function ToGo(n: nat, checker: Checker): nat {
    match checker
    case Sleeping => 0
    case Purging(i) => if i <= n then 3 * (n - i) + 1 else 0
    case Checking(i, _) => if i < n then 3 * (n - i) else 0
    case Emptying(i) => if i < n then 3 * (n - i) - 1 else 0
  }

  lemma TurnAdvances(cs: seq<Config>, s: State, s': State)
    requires |s.items| == |cs| && !s.checker.Sleeping? && s.checker.i <= |cs|
    requires Next(cs, s, Turn(s.checker)) == Some(s')
    ensures s'.reader == s.reader && ToGo(|cs|, s'.checker) < ToGo(|cs|, s.checker)
  {}

  lemma PassGoesOn(cs: seq<Config>, s: State)
    requires AllSane(cs) && Reachable(cs, s) && !s.checker.Sleeping? && !s.reader.Counting?
    ensures |s.items| == |cs| && s.checker.i <= |cs| && Next(cs, s, Turn(s.checker)).Some?
    ensures Reachable(cs, Next(cs, s, Turn(s.checker)).value)
  {
    StepsAsEnabled(cs, s, Turn(s.checker));
    ReachableNext(cs, s, Turn(s.checker), Next(cs, s, Turn(s.checker)).value);
    assert s.checker.i <= |cs| by { ReachableInv(cs, s); }
  }

  lemma {:induction false} PassRunsOut(cs: seq<Config>, s: State) returns (steps: seq<Step>)
    requires AllSane(cs) && Reachable(cs, s) && !s.reader.Counting?
    ensures |s.items| == |cs| && Run(cs, s, steps).Some? && Run(cs, s, steps).value.checker.Sleeping?
    ensures WithoutStart(steps) && |steps| <= ToGo(|cs|, s.checker)
    decreases ToGo(|cs|, s.checker)
  {
    ReachableInv(cs, s);
    steps := [];
    if !s.checker.Sleeping? {
      PassGoesOn(cs, s);
      TurnAdvances(cs, s, Next(cs, s, Turn(s.checker)).value);
      var rest := PassRunsOut(cs, Next(cs, s, Turn(s.checker)).value);
      steps := [Turn(s.checker)] + rest;
      assert steps[1..] == rest;
    }
  }

  /** From every reachable state the running pass can be brought to its end, in at most three steps for
      every item still to come and two more, the second half of a match being one of them. */
  lemma PassCanEnd(cs: seq<Config>, s: State) returns (steps: seq<Step>)
    requires AllSane(cs) && Reachable(cs, s)
    ensures |s.items| == |cs| && Run(cs, s, steps).Some? && Run(cs, s, steps).value.checker.Sleeping?
    ensures WithoutStart(steps) && |steps| <= 3 * |cs| + 2
  {
    ReachableInv(cs, s);
    if s.reader.Counting? {
      StepsAsEnabled(cs, s, CountDown);
      var s' := Next(cs, s, CountDown).value;
      ReachableNext(cs, s, CountDown, s');
      assert s'.checker == s.checker && !s'.reader.Counting?;
      var rest := PassRunsOut(cs, s');
      steps := [CountDown] + rest;
      assert steps[1..] == rest;
    } else {
      steps := PassRunsOut(cs, s);
    }
  }

  // ----- what a match leads to -----

  // The test after a match finds too many: more than the limit since the item's last alarm are live.
  ghost predicate Exceeds(cs: seq<Config>, s: State)
    requires |s.items| == |cs|
  {
    s.reader.Testing? && s.reader.i < |cs| &&
    var c, it := cs[s.reader.i], s.items[s.reader.i];
    !KeyGone(cs, s) && it.up.from <= |it.hist| && Live(c, it, s.reader.key) > c.upCount
  }

  ghost function Exceeded(cs: seq<Config>, s: State, steps: seq<Step>): seq<nat>
    requires |s.items| == |cs| && Run(cs, s, steps).Some?
    decreases |steps|
  {
    if steps == [] then [] else
    RunLast(cs, s, steps);
    var t := Run(cs, s, Before(steps)).value;
    Exceeded(cs, s, Before(steps)) + if Last(steps).TestUp? && Exceeds(cs, t) then [t.reader.i] else []
  }

  // The steps from a match on, up to the next one.
  ghost predicate IsRound(cs: seq<Config>, s: State, steps: seq<Step>) {
    && |s.items| == |cs| && s.reader.Reading? && Run(cs, s, steps).Some?
    && steps != [] && steps[0].CountUp? && forall k | 1 <= k < |steps| :: !steps[k].CountUp?
  }

  // The reader's own steps in a round that is over: the second count always, the test whenever there are
  // captures, and the emptying when the test found too many.
  function OneRound(first: Step, captures: nat, exceeded: bool): seq<Step> {
    [first, CountDown] + (if captures > 0 then [TestUp] + (if exceeded then [ResetUp] else []) else [])
  }

  ghost predicate RoundProgress(reader: Reader, first: Step, own: seq<Step>, exceeded: seq<nat>)
    requires first.CountUp?
  {
    var CountUp(i, key, captures) := first;
    match reader
    case Counting(j, k, _, c) => (j, k, c) == (i, key, captures) && own == [first] && exceeded == []
    case Testing(j, k, _) => (j, k) == (i, key) && captures > 0 && own == [first, CountDown] && exceeded == []
    case Resetting(j) => j == i && captures > 0 && own == [first, CountDown, TestUp] && exceeded == [i]
    case Reading => own == OneRound(first, captures, exceeded != []) && (exceeded == [] || exceeded == [i])
    case Undefined => captures > 0 && own == [first, CountDown, TestUp] && exceeded == []
  }

  lemma TestFinds(cs: seq<Config>, s: State, s': State)
    requires AllSane(cs) && Reachable(cs, s) && |s.items| == |cs| && Next(cs, s, TestUp) == Some(s')
    ensures s.reader.Testing?
    ensures s'.reader == if Exceeds(cs, s) then Resetting(s.reader.i)
                         else if KeyGone(cs, s) then Undefined else Reading
  {
    ReachableInv(cs, s);
    LookupFailsIff(cs, s);
    if !KeyGone(cs, s) { UpBoundExact(cs, s); }
  }

  lemma RoundStep(cs: seq<Config>, s: State, s': State, st: Step, first: Step, own: seq<Step>, exceeded: seq<nat>)
    requires AllSane(cs) && Reachable(cs, s) && |s.items| == |cs| && Next(cs, s, st) == Some(s') && !st.CountUp?
    requires first.CountUp? && RoundProgress(s.reader, first, own, exceeded)
    ensures RoundProgress(s'.reader, first, own + if OfReader(st) then [st] else [],
                          exceeded + if st.TestUp? && Exceeds(cs, s) then [s.reader.i] else [])
  {
    if st.TestUp? {
      TestFinds(cs, s, s');
    } else if !OfReader(st) {
      assert s'.reader == s.reader;
    }
  }

  lemma {:induction false} RoundSoFar(cs: seq<Config>, s: State, steps: seq<Step>)
    requires AllSane(cs) && Reachable(cs, s) && IsRound(cs, s, steps)
    ensures RoundProgress(Run(cs, s, steps).value.reader, steps[0], ReaderSteps(steps), Exceeded(cs, s, steps))
    decreases |steps|
  {
    RunLast(cs, s, steps);
    if |steps| == 1 {
      assert Before(steps) == [];
    } else {
      RoundSoFar(cs, s, Before(steps));
      RunReaches(cs, s, Before(steps));
      RoundStep(cs, Run(cs, s, Before(steps)).value, Run(cs, s, steps).value, Last(steps), steps[0],
                ReaderSteps(Before(steps)), Exceeded(cs, s, Before(steps)));
    }
  }

  /** What a match leads to, whatever the checker does meanwhile: once the reader reads again it has taken
      exactly these steps: the match was counted on both sides, then tested if and only if there were
      captures, and the queues were emptied if and only if the test found too many live matches. */
  lemma EveryMatchIsTested(cs: seq<Config>, s: State, steps: seq<Step>)
    requires AllSane(cs) && Reachable(cs, s) && IsRound(cs, s, steps)
    requires Run(cs, s, steps).value.reader.Reading?
    ensures ReaderSteps(steps) == OneRound(steps[0], steps[0].captures, Exceeded(cs, s, steps) != [])
    ensures Exceeded(cs, s, steps) == [] || Exceeded(cs, s, steps) == [steps[0].i]
  {
    RoundSoFar(cs, s, steps);
  }

  // How often an item occurs.
  function Times(items: seq<nat>, i: nat): nat
    decreases |items|
  {
    if items == [] then 0 else
    Times(items[..|items| - 1], i) + if items[|items| - 1] == i then 1 else 0
  }

  lemma TestRaisesExcess(cs: seq<Config>, s: State, s': State, st: Step, i: nat)
    requires AllSane(cs) && Reachable(cs, s) && |s.items| == |cs| && Next(cs, s, st) == Some(s')
    ensures Ups(s'.actions, i) == Ups(s.actions, i) + if st.TestUp? && Exceeds(cs, s) && s.reader.i == i then 1 else 0
  {
    if st.TestUp? {
      TestFinds(cs, s, s');
      OneMoreAction(s.actions, UpAction(s.reader.i), i);
    }
    if st.TestDown? { OneMoreAction(s.actions, DownAction(s.checker.i), i); }
  }

  lemma OneMoreTime(items: seq<nat>, j: nat, i: nat)
    ensures Times(items + [j], i) == Times(items, i) + if j == i then 1 else 0
  {
    assert (items + [j])[..|items|] == items;
  }

  /** In every run every test that finds too many live matches, and no other, queues the up-bound action of
      its item. */
  lemma {:induction false} ExcessesAreRaised(cs: seq<Config>, s: State, steps: seq<Step>, i: nat)
    requires AllSane(cs) && Reachable(cs, s) && |s.items| == |cs| && Run(cs, s, steps).Some?
    ensures Ups(Run(cs, s, steps).value.actions, i) == Ups(s.actions, i) + Times(Exceeded(cs, s, steps), i)
    decreases |steps|
  {
    if steps != [] {
      RunLast(cs, s, steps);
      RunReaches(cs, s, Before(steps));
      ExcessesAreRaised(cs, s, Before(steps), i);
      var t := Run(cs, s, Before(steps)).value;
      TestRaisesExcess(cs, t, Run(cs, s, steps).value, Last(steps), i);
      if Last(steps).TestUp? && Exceeds(cs, t) {
        OneMoreTime(Exceeded(cs, s, Before(steps)), t.reader.i, i);
        assert Exceeded(cs, s, steps) == Exceeded(cs, s, Before(steps)) + [t.reader.i];
      } else {
        assert Exceeded(cs, s, steps) == Exceeded(cs, s, Before(steps));
      }
    }
  }
}
