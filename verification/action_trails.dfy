/** What the threads of the action queue do in the course of a call: the places a call of `push` or `pop`
    goes through, against the order in which action_queue.cpp and core.cpp write them, and what the calls
    put into the queue and get out of it. */
module ActionTrails {
  import opened Options
  import opened ActionQueue

  type Schedule = seq<(Tid, Choice)>

  function Before(schedule: Schedule): Schedule
    requires schedule != []
  {
    schedule[..|schedule| - 1]
  }

  function Last(schedule: Schedule): (Tid, Choice)
    requires schedule != []
  {
    schedule[|schedule| - 1]
  }

  lemma {:induction false} RunLast(s: State, schedule: Schedule)
    requires schedule != [] && Run(s, schedule).Some?
    ensures Run(s, Before(schedule)).Some?
    ensures Run(s, schedule) == Step(Run(s, Before(schedule)).value, Last(schedule).0, Last(schedule).1)
    decreases |schedule|
  {
    if |schedule| > 1 {
      RunLast(Step(s, schedule[0].0, schedule[0].1).value, schedule[1..]);
      assert Before(schedule)[1..] == Before(schedule[1..]);
    }
  }

  // ----- the calls of a run -----

  // The latest call of the thread, CallPush or CallPop.
  function Call(schedule: Schedule, t: Tid): Option<Choice>
    decreases |schedule|
  {
    if schedule == [] then None else
    var (u, ch) := Last(schedule);
    if u == t && (ch.CallPush? || ch.CallPop?) then Some(ch) else Call(Before(schedule), t)
  }

  function PlaceOf(s: State, t: Tid): Pc {
    if t in s.threads then s.threads[t] else Idle
  }

  // The places the thread has come to in its latest call, in order.
  ghost function Trail(s: State, schedule: Schedule, t: Tid): seq<Pc>
    requires Run(s, schedule).Some?
    decreases |schedule|
  {
    if schedule == [] then [] else
    RunLast(s, schedule);
    var before := PlaceOf(Run(s, Before(schedule)).value, t);
    var after := PlaceOf(Run(s, schedule).value, t);
    if after == before then Trail(s, Before(schedule), t)
    else (if before == Idle then [] else Trail(s, Before(schedule), t)) + [after]
  }

  // Whether the queue was empty when the thread last looked.
  ghost function FoundEmpty(s: State, schedule: Schedule, t: Tid): bool
    requires Run(s, schedule).Some?
    decreases |schedule|
  {
    if schedule == [] then false else
    RunLast(s, schedule);
    var before := Run(s, Before(schedule)).value;
    if Last(schedule).0 == t && PlaceOf(before, t) == TestEmpty then |before.queue| == 0
    else FoundEmpty(s, Before(schedule), t)
  }

  // What stood at the front of the queue when the thread last went to take a command.
  ghost function Front(s: State, schedule: Schedule, t: Tid): Option<string>
    requires Run(s, schedule).Some?
    decreases |schedule|
  {
    if schedule == [] then None else
    RunLast(s, schedule);
    var before := Run(s, Before(schedule)).value;
    if Last(schedule).0 == t && PlaceOf(before, t) == Take then
      (if |before.queue| == 0 then None else Some(before.queue[0]))
    else Front(s, Before(schedule), t)
  }

  // The way of a push: its critical section, with the signal inside.
  function PushTrail(command: string): seq<Pc> {
    [PushLock(command), PushAppend(command), SignalLock, SignalWake, SignalUnlock, PushUnlock, Idle]
  }

  // The ways of a pop that looked and found a command, and of one that found none and had to wait.
  function TakingTrail(result: Option<string>): seq<Pc> {
    [TestLock, TestEmpty, TestUnlock(false), TakeLock, Take, TakeUnlock(result), Idle]
  }

  function WaitingTrail(result: Option<string>): seq<Pc> {
    [TestLock, TestEmpty, TestUnlock(true), WaitLock, WaitSleep, Asleep, Woken, WaitUnlock,
     TakeLock, Take, TakeUnlock(result), Idle]
  }

  function WholeTrail(call: Choice, empty: bool, result: Option<string>): seq<Pc> {
    match call
    case CallPush(command) => PushTrail(command)
    case _ => if empty then WaitingTrail(result) else TakingTrail(result)
  }

  // The trail so far is a first part of the whole one, and ends where the thread is.
  predicate SoFar(place: Pc, trail: seq<Pc>, whole: seq<Pc>) {
    0 < |trail| <= |whole| && trail == whole[..|trail|] && place == trail[|trail| - 1]
  }

  predicate OnTrail(place: Pc, trail: seq<Pc>, call: Option<Choice>, empty: bool, result: Option<string>) {
    if call == None then trail == [] && place == Idle
    else (call.value.CallPush? || call == Some(CallPop)) && SoFar(place, trail, WholeTrail(call.value, empty, result))
  }

  lemma OneOn(place: Pc, trail: seq<Pc>, whole: seq<Pc>, next: Pc)
    requires SoFar(place, trail, whole) && |trail| < |whole| && next == whole[|trail|]
    ensures SoFar(next, trail + [next], whole)
  {}

  // Where a place stands on the way.
  function Index(place: Pc, empty: bool): nat {
    match place
    case PushLock(_) => 0
    case PushAppend(_) => 1
    case SignalLock => 2
    case SignalWake => 3
    case SignalUnlock => 4
    case PushUnlock => 5
    case TestLock => 0
    case TestEmpty => 1
    case TestUnlock(_) => 2
    case WaitLock => 3
    case WaitSleep => 4
    case Asleep => 5
    case Woken => 6
    case WaitUnlock => 7
    case TakeLock => if empty then 8 else 3
    case Take => if empty then 9 else 4
    case TakeUnlock(_) => if empty then 10 else 5
    case Idle => 6
  }

  lemma PushIndex(place: Pc, k: nat, command: string)
    requires k < 6 && place == PushTrail(command)[k]
    ensures InPush(place) && k == Index(place, false) == Index(place, true)
  {}

  lemma TakingIndex(place: Pc, k: nat, result: Option<string>)
    requires k < 6 && place == TakingTrail(result)[k]
    ensures InPop(place) && k == Index(place, false)
    ensures !InWait(place) && place != TestUnlock(true)
  {}

  lemma WaitingIndex(place: Pc, k: nat, result: Option<string>)
    requires k < 11 && place == WaitingTrail(result)[k]
    ensures InPop(place) && k == Index(place, true) && place != TestUnlock(false)
  {}

  // The place says how far a call has come.
  lemma IndexIs(place: Pc, trail: seq<Pc>, call: Choice, empty: bool, result: Option<string>)
    requires OnTrail(place, trail, Some(call), empty, result) && place != Idle
    ensures var whole := WholeTrail(call, empty, result);
            |trail| == Index(place, empty) + 1 < |whole| && place == whole[|trail| - 1]
    ensures if call.CallPush? then InPush(place) else InPop(place)
    ensures place == TestUnlock(false) ==> !empty
    ensures InWait(place) || place == TestUnlock(true) ==> empty
  {
    var k := |trail| - 1;
    if call.CallPush? {
      PushIndex(place, k, call.command);
    } else if empty {
      WaitingIndex(place, k, result);
    } else {
      TakingIndex(place, k, result);
    }
  }

  // Before the thread has looked, its way does not depend on what it will find.
  lemma LooksUnseen(trail: seq<Pc>, call: Choice, empty: bool, result: Option<string>, empty': bool)
    requires OnTrail(TestEmpty, trail, Some(call), empty, result)
    ensures OnTrail(TestEmpty, trail, Some(call), empty', result)
  {
    IndexIs(TestEmpty, trail, call, empty, result);
    assert WholeTrail(call, empty, result)[..2] == [TestLock, TestEmpty] == WholeTrail(call, empty', result)[..2];
  }

  lemma TakesUnseen(trail: seq<Pc>, call: Choice, empty: bool, result: Option<string>, result': Option<string>)
    requires OnTrail(Take, trail, Some(call), empty, result)
    ensures OnTrail(Take, trail, Some(call), empty, result')
  {
    IndexIs(Take, trail, call, empty, result);
    var n := |trail|;
    assert WholeTrail(call, empty, result)[..n] == WholeTrail(call, empty, result')[..n];
  }

  // ----- every step -----

  lemma PushGoesOn(s: State, t: Tid, ch: Choice, s': State, command: string)
    requires t in s.threads && InPush(s.threads[t]) && Step(s, t, ch) == Some(s')
    requires var k := Index(s.threads[t], false); s.threads[t] == PushTrail(command)[k]
    ensures t in s'.threads && s'.threads[t] == PushTrail(command)[Index(s.threads[t], false) + 1]
  {}

  lemma WaitGoesOn(s: State, t: Tid, ch: Choice, s': State, result: Option<string>)
    requires t in s.threads && InWait(s.threads[t]) && Step(s, t, ch) == Some(s')
    ensures t in s'.threads && s'.threads[t] == WaitingTrail(result)[Index(s.threads[t], true) + 1]
  {}

  // The rest of a pop, but for the two steps that look at the queue.
  lemma PopGoesOn(s: State, t: Tid, ch: Choice, s': State, empty: bool, result: Option<string>)
    requires t in s.threads && InPop(s.threads[t]) && Step(s, t, ch) == Some(s')
    requires s.threads[t] != TestEmpty && s.threads[t] != Take && !InWait(s.threads[t])
    requires s.threads[t].TestUnlock? ==> s.threads[t].empty == empty
    ensures t in s'.threads && s'.threads[t] == WholeTrail(CallPop, empty, result)[Index(s.threads[t], empty) + 1]
  {}

  lemma OtherGoesOn(s: State, t: Tid, ch: Choice, s': State, trail: seq<Pc>, call: Choice, empty: bool,
                    result: Option<string>)
    requires t in s.threads && Step(s, t, ch) == Some(s') && OnTrail(s.threads[t], trail, Some(call), empty, result)
    requires s.threads[t] != Idle && s.threads[t] != TestEmpty && s.threads[t] != Take
    ensures t in s'.threads && OnTrail(s'.threads[t], trail + [s'.threads[t]], Some(call), empty, result)
  {
    var place := s.threads[t];
    IndexIs(place, trail, call, empty, result);
    if InPush(place) {
      PushGoesOn(s, t, ch, s', call.command);
    } else if InWait(place) {
      WaitGoesOn(s, t, ch, s', result);
    } else {
      PopGoesOn(s, t, ch, s', empty, result);
    }
    OneOn(place, trail, WholeTrail(call, empty, result), s'.threads[t]);
  }

  lemma LookGoesOn(s: State, t: Tid, ch: Choice, s': State, trail: seq<Pc>, call: Choice, empty: bool,
                   result: Option<string>)
    requires t in s.threads && Step(s, t, ch) == Some(s') && s.threads[t] == TestEmpty
    requires OnTrail(TestEmpty, trail, Some(call), empty, result)
    ensures t in s'.threads && OnTrail(s'.threads[t], trail + [s'.threads[t]], Some(call), |s.queue| == 0, result)
  {
    LooksUnseen(trail, call, empty, result, |s.queue| == 0);
    IndexIs(TestEmpty, trail, call, |s.queue| == 0, result);
    OneOn(TestEmpty, trail, WholeTrail(call, |s.queue| == 0, result), s'.threads[t]);
  }

  function FrontOf(queue: seq<string>): Option<string> {
    if |queue| == 0 then None else Some(queue[0])
  }

  lemma TakeGoesOn(s: State, t: Tid, ch: Choice, s': State, trail: seq<Pc>, call: Choice, empty: bool,
                   result: Option<string>)
    requires t in s.threads && Step(s, t, ch) == Some(s') && s.threads[t] == Take
    requires OnTrail(Take, trail, Some(call), empty, result)
    ensures t in s'.threads && OnTrail(s'.threads[t], trail + [s'.threads[t]], Some(call), empty, FrontOf(s.queue))
  {
    TakesUnseen(trail, call, empty, result, FrontOf(s.queue));
    IndexIs(Take, trail, call, empty, FrontOf(s.queue));
    OneOn(Take, trail, WholeTrail(call, empty, FrontOf(s.queue)), s'.threads[t]);
  }

  // A signal moves a sleeper, and no step moves another thread in any other way.
  lemma OthersMove(s: State, u: Tid, ch: Choice, s': State, t: Tid)
    requires u != t && t in s.threads && Step(s, u, ch) == Some(s')
    ensures t in s'.threads && (s'.threads[t] == s.threads[t] || (s.threads[t] == Asleep && s'.threads[t] == Woken))
  {}

  lemma WokenGoesOn(trail: seq<Pc>, call: Choice, empty: bool, result: Option<string>)
    requires OnTrail(Asleep, trail, Some(call), empty, result)
    ensures OnTrail(Woken, trail + [Woken], Some(call), empty, result)
  {
    IndexIs(Asleep, trail, call, empty, result);
    OneOn(Asleep, trail, WholeTrail(call, empty, result), Woken);
  }

  ghost predicate Follows(s: State, schedule: Schedule, t: Tid)
    requires Run(s, schedule).Some?
  {
    && t in Run(s, schedule).value.threads
    && OnTrail(Run(s, schedule).value.threads[t], Trail(s, schedule, t), Call(schedule, t),
               FoundEmpty(s, schedule, t), Front(s, schedule, t))
  }

  lemma IdleBegins(s: State, t: Tid, ch: Choice, s': State, empty: bool, result: Option<string>)
    requires t in s.threads && s.threads[t] == Idle && Step(s, t, ch) == Some(s')
    ensures (ch.CallPush? || ch.CallPop?) && t in s'.threads && s'.threads[t] != Idle
    ensures OnTrail(s'.threads[t], [s'.threads[t]], Some(ch), empty, result)
  {}

  lemma OthersFollow(s: State, schedule: Schedule, t: Tid)
    requires Run(s, schedule).Some? && schedule != [] && Last(schedule).0 != t
    requires Run(s, Before(schedule)).Some? && Follows(s, Before(schedule), t)
    ensures Follows(s, schedule, t)
  {
    RunLast(s, schedule);
    var m, e := Run(s, Before(schedule)).value, Run(s, schedule).value;
    OthersMove(m, Last(schedule).0, Last(schedule).1, e, t);
    if e.threads[t] != m.threads[t] {
      WokenGoesOn(Trail(s, Before(schedule), t), Call(Before(schedule), t).value,
                  FoundEmpty(s, Before(schedule), t), Front(s, Before(schedule), t));
    }
  }

  lemma MoverFollows(s: State, schedule: Schedule, t: Tid)
    requires Run(s, schedule).Some? && schedule != [] && Last(schedule).0 == t
    requires Run(s, Before(schedule)).Some? && Follows(s, Before(schedule), t)
    ensures Follows(s, schedule, t)
  {
    RunLast(s, schedule);
    var m, e, ch := Run(s, Before(schedule)).value, Run(s, schedule).value, Last(schedule).1;
    var trail := Trail(s, Before(schedule), t);
    var empty, result := FoundEmpty(s, Before(schedule), t), Front(s, Before(schedule), t);
    if m.threads[t] == Idle {
      IdleBegins(m, t, ch, e, empty, result);
    } else {
      var call := Call(Before(schedule), t).value;
      if m.threads[t] == TestEmpty {
        LookGoesOn(m, t, ch, e, trail, call, empty, result);
      } else if m.threads[t] == Take {
        TakeGoesOn(m, t, ch, e, trail, call, empty, result);
      } else {
        OtherGoesOn(m, t, ch, e, trail, call, empty, result);
      }
      Moves(m, t, ch, e);
    }
  }

  lemma Moves(s: State, t: Tid, ch: Choice, s': State)
    requires t in s.threads && s.threads[t] != Idle && Step(s, t, ch) == Some(s')
    ensures t in s'.threads && s'.threads[t] != s.threads[t] && !ch.CallPush? && !ch.CallPop?
  {}

  /** In every run, however the threads interleave, every call goes through the places written in the
      source and no others, and is back only at the end of them.  Which way a pop takes is decided by
      whether the queue was empty at its look, and its result is what stood in front when it took. */
  lemma {:induction false} CallsFollowTheirTrail(s: State, schedule: Schedule, t: Tid)
    requires Initial(s) && Run(s, schedule).Some? && t in s.threads
    ensures Follows(s, schedule, t)
    decreases |schedule|
  {
    if schedule != [] {
      RunLast(s, schedule);
      CallsFollowTheirTrail(s, Before(schedule), t);
      if Last(schedule).0 == t {
        MoverFollows(s, schedule, t);
      } else {
        OthersFollow(s, schedule, t);
      }
    }
  }

  /** So a thread waits for a signal only in a pop that found the queue empty; a pop that found a command
      goes from its look to the taking. */
  lemma WaitsOnlyWhenEmpty(s: State, schedule: Schedule, t: Tid)
    requires Initial(s) && Run(s, schedule).Some? && t in s.threads
    ensures t in Run(s, schedule).value.threads
    ensures var place, empty := Run(s, schedule).value.threads[t], FoundEmpty(s, schedule, t);
            && (InWait(place) ==> Call(schedule, t) == Some(CallPop) && empty)
            && (place.TestUnlock? ==> place.empty == empty)
            && (Call(schedule, t) == Some(CallPop) && !empty && |Trail(s, schedule, t)| > 2 ==>
                  Trail(s, schedule, t) <= TakingTrail(Front(s, schedule, t)))
  {
    CallsFollowTheirTrail(s, schedule, t);
    var place := Run(s, schedule).value.threads[t];
    if place != Idle {
      IndexIs(place, Trail(s, schedule, t), Call(schedule, t).value, FoundEmpty(s, schedule, t), Front(s, schedule, t));
    }
  }

  // ----- what the calls put in and get out -----

  // The commands of the pushes, in the order in which they were appended.
  ghost function Put(s: State, schedule: Schedule): seq<string>
    requires Run(s, schedule).Some?
    decreases |schedule|
  {
    if schedule == [] then [] else
    RunLast(s, schedule);
    var (t, _) := Last(schedule);
    Put(s, Before(schedule))
    + match (PlaceOf(Run(s, Before(schedule)).value, t), Call(Before(schedule), t))
      case (PushAppend(_), Some(CallPush(command))) => [command]
      case _ => []
  }

  // What the pops that have returned got, in the order of their returns.
  ghost function Got(s: State, schedule: Schedule): seq<string>
    requires Run(s, schedule).Some?
    decreases |schedule|
  {
    if schedule == [] then [] else
    RunLast(s, schedule);
    var (t, _) := Last(schedule);
    Got(s, Before(schedule))
    + match (PlaceOf(Run(s, Before(schedule)).value, t), Front(s, Before(schedule), t))
      case (TakeUnlock(_), Some(command)) => [command]
      case _ => []
  }

  lemma StepRecords(s: State, t: Tid, ch: Choice, s': State)
    requires Step(s, t, ch) == Some(s')
    ensures t in s.threads
    ensures s'.pushed == s.pushed + match s.threads[t] case PushAppend(command) => [command] case _ => []
    ensures s'.returned == s.returned + match s.threads[t] case TakeUnlock(Some(command)) => [command] case _ => []
  {}

  // A thread that appends does so for the command of its call, one that returns with what it took.
  lemma PlaceOfCall(s: State, schedule: Schedule, t: Tid)
    requires Initial(s) && Run(s, schedule).Some? && t in s.threads
    ensures t in Run(s, schedule).value.threads
    ensures var place := Run(s, schedule).value.threads[t];
            && (place.PushAppend? ==> Call(schedule, t) == Some(CallPush(place.command)))
            && (place.TakeUnlock? ==> place.result == Front(s, schedule, t))
  {
    CallsFollowTheirTrail(s, schedule, t);
    var place := Run(s, schedule).value.threads[t];
    if place != Idle {
      IndexIs(place, Trail(s, schedule, t), Call(schedule, t).value, FoundEmpty(s, schedule, t), Front(s, schedule, t));
    }
  }

  /** The records of the state are those of the calls: every push appends its own command once, every pop
      returns what it found in front; so by FifoConservation what the pops get is what the pushes put, in
      order. */
  lemma {:induction false} RecordsAreOfCalls(s: State, schedule: Schedule)
    requires Initial(s) && Run(s, schedule).Some?
    ensures Run(s, schedule).value.pushed == Put(s, schedule)
    ensures Run(s, schedule).value.returned == Got(s, schedule)
    decreases |schedule|
  {
    if schedule != [] {
      RunLast(s, schedule);
      RecordsAreOfCalls(s, Before(schedule));
      RunKeepsKeys(s, Before(schedule));
      var (t, ch) := Last(schedule);
      StepRecords(Run(s, Before(schedule)).value, t, ch, Run(s, schedule).value);
      PlaceOfCall(s, Before(schedule), t);
    }
  }

  lemma {:induction false} RunKeepsKeys(s: State, schedule: Schedule)
    requires Run(s, schedule).Some?
    ensures Run(s, schedule).value.threads.Keys == s.threads.Keys
    decreases |schedule|
  {
    if schedule != [] {
      StepKeepsThreads(s, schedule[0].0, schedule[0].1);
      RunKeepsKeys(Step(s, schedule[0].0, schedule[0].1).value, schedule[1..]);
    }
  }

  // ----- which steps can be taken -----

  /** When a thread can take a step: it calls when idle, a sleeper can only wake of itself, a signal wakes
      any sleeper or nobody when there is none, and nothing holds the others up but the mutex they ask
      for. */
  lemma StepsAsEnabled(s: State, t: Tid, ch: Choice)
    requires Inv(s) && t in s.threads
    ensures Step(s, t, ch).Some? <==>
              match s.threads[t]
              case Idle => ch.CallPush? || ch.CallPop?
              case Asleep => ch == Spurious
              case SignalWake => if ch.Wake? then PlaceOf(s, ch.sleeper) == Asleep
                                 else ch == WakeNobody && forall u <- s.threads :: s.threads[u] != Asleep
              case _ => ch == Continue && forall u :: !Blocked(s, t, u)
  {
    var place := s.threads[t];
    if WantsQueue(place) && s.queueOwner.Some? { assert Blocked(s, t, s.queueOwner.value); }
    if WantsCond(place) && s.condOwner.Some? { assert Blocked(s, t, s.condOwner.value); }
  }
}
