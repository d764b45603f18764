/** The protocol of `LNActionQueue::push` and `pop` (action_queue.cpp) over its two mutexes: the
    queue's own and the one inside `LNCondition` (core.cpp).

    Every atomic action of a thread is one step; a run is any schedule of steps of any number of
    threads, with `pthread_cond_signal` waking any sleeper and sleepers waking spuriously. */
module ActionQueue {
  import opened Options

  type Tid = nat

  // Where a thread is; the names say what it does next.
  datatype Pc =
    | Idle
    // LNActionQueue::push
    | PushLock(command: string)
    | PushAppend(command: string)
    | SignalLock
    | SignalWake
    | SignalUnlock
    | PushUnlock
    // LNActionQueue::pop, first critical section
    | TestLock
    | TestEmpty
    | TestUnlock(empty: bool)
    // LNCondition::wait
    | WaitLock
    | WaitSleep
    | Asleep
    | Woken
    | WaitUnlock
    // LNActionQueue::pop, second critical section
    | TakeLock
    | Take
    | TakeUnlock(result: Option<string>)

  // `pushed` records the commands in the order of the push critical sections, `returned` the
  // commands handed out by `pop` in the order of its returns.
  datatype State = State(threads: map<Tid, Pc>, queueOwner: Option<Tid>, condOwner: Option<Tid>,
                         queue: seq<string>, pushed: seq<string>, returned: seq<string>)

  // What the environment chooses for a step.
  datatype Choice =
    | CallPush(command: string)
    | CallPop
    | Continue
    | Wake(sleeper: Tid)
    | WakeNobody
    | Spurious

  predicate Initial(s: State) {
    && (forall t <- s.threads :: s.threads[t] == Idle)
    && s.queueOwner == None && s.condOwner == None
    && s.queue == s.pushed == s.returned == []
  }

  function At(s: State, t: Tid, pc: Pc): State {
    s.(threads := s.threads[t := pc])
  }

  // The steps of LNActionQueue::push, with LNCondition::signal inside the critical section.
  function PushStep(s: State, t: Tid, pc: Pc, ch: Choice): Option<State> {
    match (pc, ch)
    case (PushLock(command), Continue) =>
      if s.queueOwner == None then Some(At(s, t, PushAppend(command)).(queueOwner := Some(t))) else None
    case (PushAppend(command), Continue) =>
      Some(At(s, t, SignalLock).(queue := s.queue + [command], pushed := s.pushed + [command]))
    case (SignalLock, Continue) =>
      if s.condOwner == None then Some(At(s, t, SignalWake).(condOwner := Some(t))) else None
    case (SignalWake, Wake(u)) =>
      if u in s.threads && s.threads[u] == Asleep then Some(At(At(s, u, Woken), t, SignalUnlock)) else None
    case (SignalWake, WakeNobody) =>
      if forall u <- s.threads :: s.threads[u] != Asleep then Some(At(s, t, SignalUnlock)) else None
    case (SignalUnlock, Continue) => Some(At(s, t, PushUnlock).(condOwner := None))
    case (PushUnlock, Continue) => Some(At(s, t, Idle).(queueOwner := None))
    case _ => None
  }

  // The steps of LNCondition::wait, called by pop with no mutex held.
  function WaitStep(s: State, t: Tid, pc: Pc, ch: Choice): Option<State> {
    match (pc, ch)
    case (WaitLock, Continue) =>
      if s.condOwner == None then Some(At(s, t, WaitSleep).(condOwner := Some(t))) else None
    case (WaitSleep, Continue) => Some(At(s, t, Asleep).(condOwner := None))
    case (Asleep, Spurious) => Some(At(s, t, Woken))
    case (Woken, Continue) =>
      if s.condOwner == None then Some(At(s, t, WaitUnlock).(condOwner := Some(t))) else None
    case (WaitUnlock, Continue) => Some(At(s, t, TakeLock).(condOwner := None))
    case _ => None
  }

  // The steps of the two critical sections of LNActionQueue::pop.
  function PopStep(s: State, t: Tid, pc: Pc, ch: Choice): Option<State> {
    match (pc, ch)
    case (TestLock, Continue) =>
      if s.queueOwner == None then Some(At(s, t, TestEmpty).(queueOwner := Some(t))) else None
    case (TestEmpty, Continue) => Some(At(s, t, TestUnlock(s.queue == [])))
    case (TestUnlock(empty), Continue) =>
      Some(At(s, t, if empty then WaitLock else TakeLock).(queueOwner := None))
    case (TakeLock, Continue) =>
      if s.queueOwner == None then Some(At(s, t, Take).(queueOwner := Some(t))) else None
    case (Take, Continue) =>
      if |s.queue| > 0
      then Some(At(s, t, TakeUnlock(Some(s.queue[0]))).(queue := s.queue[1..]))
      else Some(At(s, t, TakeUnlock(None)))
    case (TakeUnlock(result), Continue) =>
      Some(At(s, t, Idle).(queueOwner := None,
           returned := s.returned + if result.Some? then [result.value] else []))
    case _ => None
  }

  predicate InPush(pc: Pc) {
    || pc.PushLock? || pc.PushAppend? || pc.SignalLock? || pc.SignalWake? || pc.SignalUnlock?
    || pc.PushUnlock?
  }

  predicate InWait(pc: Pc) {
    pc.WaitLock? || pc.WaitSleep? || pc.Asleep? || pc.Woken? || pc.WaitUnlock?
  }

  // One step of thread `t`, or None when it cannot take one with this choice.
  function Step(s: State, t: Tid, ch: Choice): Option<State> {
    if t !in s.threads then None else
    var pc := s.threads[t];
    if pc.Idle? then
      match ch
      case CallPush(command) => Some(At(s, t, PushLock(command)))
      case CallPop => Some(At(s, t, TestLock))
      case _ => None
    else if InPush(pc) then PushStep(s, t, pc, ch)
    else if InWait(pc) then WaitStep(s, t, pc, ch)
    else PopStep(s, t, pc, ch)
  }

  // The state after a schedule, or None if one of its steps is not enabled.
  function Run(s: State, schedule: seq<(Tid, Choice)>): Option<State>
    decreases |schedule|
  {
    if schedule == [] then Some(s) else
    var next := Step(s, schedule[0].0, schedule[0].1);
    if next == None then None else Run(next.value, schedule[1..])
  }

  // ----- mutual exclusion and conservation -----

  predicate HoldsQueue(pc: Pc) {
    || pc.PushAppend? || pc.SignalLock? || pc.SignalWake? || pc.SignalUnlock? || pc.PushUnlock?
    || pc.TestEmpty? || pc.TestUnlock? || pc.Take? || pc.TakeUnlock?
  }

  predicate HoldsCond(pc: Pc) {
    pc.SignalWake? || pc.SignalUnlock? || pc.WaitSleep? || pc.WaitUnlock?
  }

  ghost predicate Exclusive(s: State) {
    && (s.queueOwner.Some? ==> s.queueOwner.value in s.threads)
    && (s.condOwner.Some? ==> s.condOwner.value in s.threads)
    && (forall t <- s.threads :: HoldsQueue(s.threads[t]) <==> s.queueOwner == Some(t))
    && (forall t <- s.threads :: HoldsCond(s.threads[t]) <==> s.condOwner == Some(t))
  }

  // The command already taken from the queue by a pop that has not released the mutex yet.
  function InFlight(s: State): seq<string> {
    if s.queueOwner.Some? && s.queueOwner.value in s.threads then
      match s.threads[s.queueOwner.value]
      case TakeUnlock(Some(command)) => [command]
      case _ => []
    else []
  }

  ghost predicate Conserved(s: State) {
    s.pushed == s.returned + InFlight(s) + s.queue
  }

  ghost predicate Inv(s: State) {
    Exclusive(s) && Conserved(s)
  }

  ghost predicate OwnerMoves(t: Tid, before: Option<Tid>, after: Option<Tid>, holds: bool) {
    && (after == before || (before == None && after == Some(t)) || (before == Some(t) && after == None))
    && (holds <==> after == Some(t))
  }

  // A step that moves one thread keeps the mutexes exclusive if it takes a mutex only when that is
  // free, gives back only its own, and the new place of the thread says which it holds.
  lemma MoveKeepsExclusive(s: State, t: Tid, pc: Pc, s': State)
    requires Exclusive(s) && t in s.threads && s'.threads == s.threads[t := pc]
    requires OwnerMoves(t, s.queueOwner, s'.queueOwner, HoldsQueue(pc))
    requires OwnerMoves(t, s.condOwner, s'.condOwner, HoldsCond(pc))
    ensures Exclusive(s')
  {}

  lemma PushStepKeepsExclusive(s: State, t: Tid, ch: Choice)
    requires Exclusive(s) && t in s.threads && PushStep(s, t, s.threads[t], ch).Some?
    ensures Exclusive(PushStep(s, t, s.threads[t], ch).value)
  {
    var s' := PushStep(s, t, s.threads[t], ch).value;
    var m := if ch.Wake? then At(s, ch.sleeper, Woken) else s;
    if ch.Wake? {
      MoveKeepsExclusive(s, ch.sleeper, Woken, m);
    }
    MoveKeepsExclusive(m, t, s'.threads[t], s');
  }

  lemma PopStepKeepsExclusive(s: State, t: Tid, ch: Choice)
    requires Exclusive(s) && t in s.threads
    requires PopStep(s, t, s.threads[t], ch).Some?
    ensures Exclusive(PopStep(s, t, s.threads[t], ch).value)
  {
    var s' := PopStep(s, t, s.threads[t], ch).value;
    MoveKeepsExclusive(s, t, s'.threads[t], s');
  }

  lemma WaitStepKeepsExclusive(s: State, t: Tid, ch: Choice)
    requires Exclusive(s) && t in s.threads && WaitStep(s, t, s.threads[t], ch).Some?
    ensures Exclusive(WaitStep(s, t, s.threads[t], ch).value)
  {
    var s' := WaitStep(s, t, s.threads[t], ch).value;
    MoveKeepsExclusive(s, t, s'.threads[t], s');
  }

  lemma PushStepKeepsConserved(s: State, t: Tid, ch: Choice)
    requires Inv(s) && t in s.threads && PushStep(s, t, s.threads[t], ch).Some?
    ensures Conserved(PushStep(s, t, s.threads[t], ch).value)
  {
    var s' := PushStep(s, t, s.threads[t], ch).value;
    PushStepKeepsExclusive(s, t, ch);
    assert InFlight(s) == InFlight(s');
    if s.threads[t].PushAppend? {
      var command := s.threads[t].command;
      assert s.returned + InFlight(s) + (s.queue + [command]) == s.returned + InFlight(s) + s.queue + [command];
    }
  }

  lemma PopStepKeepsConserved(s: State, t: Tid, ch: Choice)
    requires Inv(s) && t in s.threads && PopStep(s, t, s.threads[t], ch).Some?
    ensures Conserved(PopStep(s, t, s.threads[t], ch).value)
  {
    var s' := PopStep(s, t, s.threads[t], ch).value;
    if s.threads[t].Take? && |s.queue| > 0 {
      assert InFlight(s) == [] && InFlight(s') == [s.queue[0]];
      assert s.queue == [s.queue[0]] + s.queue[1..];
    } else {
      assert s'.returned + InFlight(s') == s.returned + InFlight(s);
    }
  }

  // A thread begins to wait only behind a look that found the queue empty, and knows what it looked at.
  predicate WaitsForCause(s: State, before: Pc, after: Pc) {
    && (InWait(after) ==> InWait(before) || before == TestUnlock(true))
    && (before == TestUnlock(false) ==> after == TakeLock)
    && (before == TestEmpty ==> after == TestUnlock(|s.queue| == 0))
  }

  lemma StepWaitsForCause(s: State, t: Tid, ch: Choice)
    requires Step(s, t, ch).Some?
    ensures t in s.threads && t in Step(s, t, ch).value.threads
    ensures WaitsForCause(s, s.threads[t], Step(s, t, ch).value.threads[t])
  {}

  lemma StepKeepsInv(s: State, t: Tid, ch: Choice)
    requires Inv(s) && Step(s, t, ch).Some?
    ensures t in s.threads && t in Step(s, t, ch).value.threads
    ensures Inv(Step(s, t, ch).value) && WaitsForCause(s, s.threads[t], Step(s, t, ch).value.threads[t])
  {
    StepWaitsForCause(s, t, ch);
    var pc, s' := s.threads[t], Step(s, t, ch).value;
    if pc.Idle? {
      MoveKeepsExclusive(s, t, s'.threads[t], s');
      assert InFlight(s) == InFlight(s');
    } else if InPush(pc) {
      PushStepKeepsExclusive(s, t, ch);
      PushStepKeepsConserved(s, t, ch);
    } else if InWait(pc) {
      WaitStepKeepsExclusive(s, t, ch);
      assert InFlight(s) == InFlight(s');
    } else {
      PopStepKeepsExclusive(s, t, ch);
      PopStepKeepsConserved(s, t, ch);
    }
  }

  lemma StepKeepsThreads(s: State, t: Tid, ch: Choice)
    requires Step(s, t, ch).Some?
    ensures Step(s, t, ch).value.threads.Keys == s.threads.Keys
  {}

  lemma {:induction false} RunKeepsInv(s: State, schedule: seq<(Tid, Choice)>)
    requires Inv(s) && Run(s, schedule).Some?
    ensures Inv(Run(s, schedule).value)
    ensures Run(s, schedule).value.threads.Keys == s.threads.Keys
    decreases |schedule|
  {
    if schedule != [] {
      var (t, ch) := schedule[0];
      StepKeepsInv(s, t, ch);
      StepKeepsThreads(s, t, ch);
      RunKeepsInv(Step(s, t, ch).value, schedule[1..]);
    }
  }

  /** FIFO conservation: in every run the commands pushed, in the order of the push critical sections,
      are the commands returned, in order, followed by the one in flight and the queue. */
  lemma FifoConservation(s: State, schedule: seq<(Tid, Choice)>)
    requires Initial(s) && Run(s, schedule).Some?
    ensures var e := Run(s, schedule).value;
            e.pushed == e.returned + InFlight(e) + e.queue && |InFlight(e)| <= 1
  {
    RunKeepsInv(s, schedule);
  }

  /** A pop gives up empty-handed only at a moment when every command pushed so far has already been
      returned by some pop. */
  lemma EmptyHandedOnlyWhenDrained(s: State, t: Tid, ch: Choice)
    requires Inv(s) && Step(s, t, ch).Some?
    requires s.threads[t] != Step(s, t, ch).value.threads[t] == TakeUnlock(None)
    ensures s.threads[t] == Take && s.queueOwner == Some(t)
    ensures s.queue == [] && s.pushed == s.returned
  {
    assert s.threads[t] == Take;
  }

  // ----- deadlock freedom -----

  predicate WantsQueue(pc: Pc) {
    pc.PushLock? || pc.TestLock? || pc.TakeLock?
  }

  predicate WantsCond(pc: Pc) {
    pc.SignalLock? || pc.WaitLock? || pc.Woken?
  }

  // `t` cannot go on before `u` releases a mutex.
  ghost predicate Blocked(s: State, t: Tid, u: Tid) {
    && t in s.threads
    && ((WantsQueue(s.threads[t]) && s.queueOwner == Some(u))
        || (WantsCond(s.threads[t]) && s.condOwner == Some(u)))
  }

  // The queue mutex is never requested by a thread that holds a mutex, the condition's never by one
  // that holds it; whoever holds the condition's mutex waits for nobody.
  lemma LockOrder(s: State, t: Tid)
    requires Inv(s) && t in s.threads
    ensures WantsQueue(s.threads[t]) ==> s.queueOwner != Some(t) && s.condOwner != Some(t)
    ensures WantsCond(s.threads[t]) ==> s.condOwner != Some(t)
    ensures s.threads[t] == Asleep ==> s.queueOwner != Some(t) && s.condOwner != Some(t)
    ensures s.condOwner == Some(t) ==> forall u :: !Blocked(s, t, u)
  {}

  /** A chain of blocked threads never has three links. */
  lemma NoLongWait(s: State, t: Tid, u: Tid, v: Tid, w: Tid)
    requires Inv(s)
    ensures !(Blocked(s, t, u) && Blocked(s, u, v) && Blocked(s, v, w))
  {}

  ghost predicate CircularWait(s: State, cycle: seq<Tid>) {
    && cycle != []
    && forall i, j | 0 <= i < |cycle| && j == (if i + 1 == |cycle| then 0 else i + 1) ::
         Blocked(s, cycle[i], cycle[j])
  }

  lemma NoCircularWait(start: State, schedule: seq<(Tid, Choice)>, cycle: seq<Tid>)
    requires Initial(start) && Run(start, schedule).Some?
    ensures !CircularWait(Run(start, schedule).value, cycle)
  {
    RunKeepsInv(start, schedule);
    var s, n := Run(start, schedule).value, |cycle|;
    if CircularWait(s, cycle) {
      var b := if n == 1 then 0 else 1;
      var c := if b + 1 == n then 0 else b + 1;
      var d := if c + 1 == n then 0 else c + 1;
      NoLongWait(s, cycle[0], cycle[b], cycle[c], cycle[d]);
      assert false;
    }
  }

  // The steps a thread has left before it holds no mutex (for a push: before it returns).
  function StepsLeft(pc: Pc): nat {
    match pc
    case PushLock(_) => 6
    case PushAppend(_) => 5
    case SignalLock => 4
    case SignalWake => 3
    case SignalUnlock => 2
    case TestEmpty => 2
    case Take => 2
    case PushUnlock => 1
    case TestUnlock(_) => 1
    case TakeUnlock(_) => 1
    case WaitSleep => 1
    case WaitUnlock => 1
    case _ => 0
  }

  // Neither idle nor on the way to sleep: a push, and a pop that has found a command or has been woken.
  predicate Returning(pc: Pc) {
    InPush(pc) || pc == TestUnlock(false) || pc.Woken? || pc.WaitUnlock? || pc.TakeLock? || pc.Take? || pc.TakeUnlock?
  }

  // The steps such a thread has left before it returns.
  function ToReturn(pc: Pc): nat {
    match pc
    case Woken => 5
    case WaitUnlock => 4
    case TestUnlock(_) => 4
    case TakeLock => 3
    case _ => StepsLeft(pc)
  }

  function OwnerSteps(s: State, owner: Option<Tid>, t: Tid): nat {
    if owner.Some? && owner.value != t && owner.value in s.threads then StepsLeft(s.threads[owner.value]) else 0
  }

  function Distance(s: State, t: Tid): nat
    requires t in s.threads
  {
    100 * ToReturn(s.threads[t]) + 10 * OwnerSteps(s, s.queueOwner, t) + OwnerSteps(s, s.condOwner, t)
  }

  // The thread to run next so that `t` gets on with its call: whoever holds the innermost mutex.
  function Helper(s: State, t: Tid): Tid {
    if s.condOwner.Some? then s.condOwner.value
    else if s.queueOwner.Some? then s.queueOwner.value
    else t
  }

  ghost predicate Internal(ch: Choice) {
    ch.Continue? || ch.Wake? || ch.WakeNobody?
  }

  lemma HelperCanStep(s: State, t: Tid) returns (ch: Choice)
    requires Inv(s) && t in s.threads && Returning(s.threads[t])
    ensures Internal(ch) && Step(s, Helper(s, t), ch).Some?
  {
    var u := Helper(s, t);
    if s.threads[u] != SignalWake {
      ch := Continue;
    } else if v :| v in s.threads && s.threads[v] == Asleep {
      ch := Wake(v);
    } else {
      ch := WakeNobody;
    }
  }

  // A step of a thread that holds a mutex: it comes one step nearer to holding none, and no other thread
  // moves but a sleeper.
  lemma StepCounts(s: State, u: Tid, ch: Choice)
    requires u in s.threads && Internal(ch) && Step(s, u, ch).Some?
    requires StepsLeft(s.threads[u]) > 0
    ensures var s' := Step(s, u, ch).value;
            && u in s'.threads && StepsLeft(s'.threads[u]) == StepsLeft(s.threads[u]) - 1
            && (forall v <- s.threads | v != u ::
                  v in s'.threads && (s'.threads[v] == s.threads[v] || s.threads[v].Asleep?))
  {}

  // A step of a thread on its way back: one nearer to its return.
  lemma StepReturns(s: State, t: Tid, ch: Choice)
    requires t in s.threads && Internal(ch) && Step(s, t, ch).Some? && Returning(s.threads[t])
    ensures var s' := Step(s, t, ch).value;
            && t in s'.threads && (Returning(s'.threads[t]) || s'.threads[t].Idle?)
            && ToReturn(s'.threads[t]) == ToReturn(s.threads[t]) - 1
  {}

  // A step takes the two mutexes from nobody else.
  lemma OwnersMove(s: State, u: Tid, ch: Choice)
    requires Inv(s) && Step(s, u, ch).Some?
    ensures var s' := Step(s, u, ch).value;
            && (s'.queueOwner == s.queueOwner || s'.queueOwner == None || s'.queueOwner == Some(u))
            && (s'.condOwner == s.condOwner || s'.condOwner == None || s'.condOwner == Some(u))
  {}

  ghost predicate OthersStand(s: State, u: Tid, s': State) {
    forall v <- s.threads | v != u :: v in s'.threads && (s'.threads[v] == s.threads[v] || s.threads[v].Asleep?)
  }

  // When another thread that holds a mutex makes a step, those in the way come nearer to being out of it.
  lemma OwnersNearer(s: State, t: Tid, u: Tid, s': State)
    requires Exclusive(s) && t in s.threads && u in s.threads && u != t && OthersStand(s, u, s')
    requires u == Helper(s, t) && t in s'.threads && s'.threads[t] == s.threads[t]
    requires u in s'.threads && StepsLeft(s'.threads[u]) == StepsLeft(s.threads[u]) - 1
    requires s'.queueOwner == s.queueOwner || s'.queueOwner == None
    requires s'.condOwner == s.condOwner || s'.condOwner == None || (s.condOwner == None && s'.condOwner == Some(u))
    ensures Distance(s', t) < Distance(s, t)
  {
    if s.condOwner.Some? {
      assert OwnerSteps(s', s'.queueOwner, t) <= OwnerSteps(s, s.queueOwner, t);
    } else {
      assert s.queueOwner == Some(u);
    }
  }

  lemma HelperProgress(s: State, t: Tid, ch: Choice)
    requires Inv(s) && t in s.threads && Returning(s.threads[t])
    requires Internal(ch) && Step(s, Helper(s, t), ch).Some?
    ensures var s' := Step(s, Helper(s, t), ch).value;
            && t in s'.threads && (Returning(s'.threads[t]) || s'.threads[t].Idle?)
            && Distance(s', t) < Distance(s, t)
  {
    var u := Helper(s, t);
    if u == t {
      StepReturns(s, t, ch);
      OwnAlone(s, t, ch);
    } else {
      OtherProgress(s, t, ch);
    }
  }

  lemma OtherProgress(s: State, t: Tid, ch: Choice)
    requires Inv(s) && t in s.threads && Returning(s.threads[t]) && Helper(s, t) != t
    requires Internal(ch) && Step(s, Helper(s, t), ch).Some?
    ensures var s' := Step(s, Helper(s, t), ch).value;
            t in s'.threads && s'.threads[t] == s.threads[t] && Distance(s', t) < Distance(s, t)
  {
    var u := Helper(s, t);
    OwnersMove(s, u, ch);
    StepCounts(s, u, ch);
    OwnersNearer(s, t, u, Step(s, u, ch).value);
  }

  // The step of the thread itself adds at most the steps of one other owner.
  lemma OwnAlone(s: State, t: Tid, ch: Choice)
    requires Inv(s) && t in s.threads && Returning(s.threads[t]) && Step(s, t, ch).Some?
    requires var s' := Step(s, t, ch).value; t in s'.threads && ToReturn(s'.threads[t]) == ToReturn(s.threads[t]) - 1
    ensures Distance(Step(s, t, ch).value, t) < Distance(s, t)
  {
    StepBound(Step(s, t, ch).value, t);
  }

  lemma StepBound(s: State, t: Tid)
    ensures OwnerSteps(s, s.queueOwner, t) <= 6 && OwnerSteps(s, s.condOwner, t) <= 6
  {}

  /** A thread inside push, or inside a pop that has found a command or has been woken, can always be
      brought to return by finitely many steps of the threads that are running anyway: no new call and no
      spurious wake-up is needed. */
  lemma CallCanReturn(s: State, t: Tid) returns (schedule: seq<(Tid, Choice)>)
    requires Inv(s) && t in s.threads && Returning(s.threads[t])
    ensures forall x <- schedule :: Internal(x.1)
    ensures Run(s, schedule).Some? && t in Run(s, schedule).value.threads
    ensures Run(s, schedule).value.threads[t] == Idle
    decreases Distance(s, t)
  {
    var u := Helper(s, t);
    var ch := HelperCanStep(s, t);
    HelperProgress(s, t, ch);
    var s' := Step(s, u, ch).value;
    schedule := [(u, ch)];
    if s'.threads[t] != Idle {
      StepKeepsInv(s, u, ch);
      var rest := CallCanReturn(s', t);
      schedule := schedule + rest;
    } else {
      assert Run(s', schedule[1..]) == Some(s');
    }
  }

  // ----- waking consumers -----

  // `consumers` are the threads that only pop, all others only push.
  predicate KeepsRole(t: Tid, ch: Choice, consumers: set<Tid>) {
    (ch.CallPop? ==> t in consumers) && (ch.CallPush? ==> t !in consumers)
  }

  ghost predicate KeepsRoles(schedule: seq<(Tid, Choice)>, consumers: set<Tid>) {
    forall x <- schedule :: KeepsRole(x.0, x.1, consumers)
  }

  // No consumer goes to sleep while the queue holds a command.
  predicate Careful(s: State, t: Tid, ch: Choice, consumers: set<Tid>) {
    KeepsRole(t, ch, consumers) && (t in s.threads && s.threads[t] == WaitSleep ==> s.queue == [])
  }

  predicate CarefulRun(s: State, schedule: seq<(Tid, Choice)>, consumers: set<Tid>)
    requires Run(s, schedule).Some?
    decreases |schedule|
  {
    schedule == [] ||
    (Careful(s, schedule[0].0, schedule[0].1, consumers) &&
     CarefulRun(Step(s, schedule[0].0, schedule[0].1).value, schedule[1..], consumers))
  }

  predicate InPop(pc: Pc) {
    !pc.Idle? && !InPush(pc)
  }

  // A push that has appended its command and not yet signalled.
  predicate AboutToSignal(pc: Pc) {
    pc.SignalLock? || pc.SignalWake?
  }

  // Consumers pop, the others push.
  ghost predicate Roles(s: State, consumers: set<Tid>) {
    forall t <- s.threads :: (InPop(s.threads[t]) ==> t in consumers) && (InPush(s.threads[t]) ==> t !in consumers)
  }

  ghost predicate SomeAsleep(s: State) {
    exists t :: t in s.threads && s.threads[t] == Asleep
  }

  predicate Attends(s: State, t: Tid, consumers: set<Tid>) {
    t in s.threads && (AboutToSignal(s.threads[t]) || (t in consumers && s.threads[t] != Asleep))
  }

  // A command in the queue is attended to, unless nobody sleeps.
  ghost predicate Attended(s: State, consumers: set<Tid>) {
    s.queue != [] && SomeAsleep(s) ==> exists t :: Attends(s, t, consumers)
  }

  lemma OthersStay(s: State, t: Tid, ch: Choice, v: Tid)
    requires Step(s, t, ch).Some? && v != t && v in s.threads
    ensures var s' := Step(s, t, ch).value;
            && v in s'.threads
            && (s'.threads[v] == s.threads[v] || (ch == Wake(v) && s.threads[v] == Asleep && s'.threads[v] == Woken))
  {}

  lemma MoverKeepsRole(s: State, t: Tid, ch: Choice)
    requires Step(s, t, ch).Some?
    ensures t in Step(s, t, ch).value.threads
    ensures var pc, pc' := s.threads[t], Step(s, t, ch).value.threads[t];
            (InPop(pc') ==> InPop(pc) || ch.CallPop?) && (InPush(pc') ==> InPush(pc) || ch.CallPush?)
  {}

  lemma MoverAttends(s: State, t: Tid, ch: Choice)
    requires Step(s, t, ch).Some?
    ensures t in Step(s, t, ch).value.threads
    ensures var s' := Step(s, t, ch).value; var pc, pc' := s.threads[t], s'.threads[t];
            && (s'.queue != [] ==> s.queue != [] || pc'.SignalLock?)
            && (pc' == Asleep ==> pc == WaitSleep)
            && (AboutToSignal(pc) ==> AboutToSignal(pc') || ch.Wake? || (ch.WakeNobody? && !SomeAsleep(s)))
            && (ch.Wake? ==> ch.sleeper in s.threads && s.threads[ch.sleeper] == Asleep && ch.sleeper != t
                             && s'.threads[ch.sleeper] == Woken)
  {}

  lemma StepKeepsRoles(s: State, t: Tid, ch: Choice, consumers: set<Tid>)
    requires Roles(s, consumers) && Step(s, t, ch).Some? && KeepsRole(t, ch, consumers)
    ensures Roles(Step(s, t, ch).value, consumers)
  {
    var s' := Step(s, t, ch).value;
    MoverKeepsRole(s, t, ch);
    StepKeepsThreads(s, t, ch);
    forall v | v in s'.threads
      ensures (InPop(s'.threads[v]) ==> v in consumers) && (InPush(s'.threads[v]) ==> v !in consumers)
    {
      if v != t { OthersStay(s, t, ch, v); }
    }
  }

  lemma StepKeepsAttended(s: State, t: Tid, ch: Choice, consumers: set<Tid>)
    requires Roles(s, consumers) && Attended(s, consumers)
    requires Step(s, t, ch).Some? && Careful(s, t, ch, consumers)
    ensures Attended(Step(s, t, ch).value, consumers)
  {
    var s' := Step(s, t, ch).value;
    MoverAttends(s, t, ch);
    if s'.queue != [] && SomeAsleep(s') && !Attends(s', t, consumers) {
      if ch.Wake? {
        assert Attends(s', ch.sleeper, consumers);
      } else {
        StepKeepsThreads(s, t, ch);
        var v :| v in s'.threads && s'.threads[v] == Asleep;
        if v != t { OthersStay(s, t, ch, v); }
        assert SomeAsleep(s);
        var u :| Attends(s, u, consumers);
        if u != t { OthersStay(s, t, ch, u); }
        assert Attends(s', u, consumers);
      }
    }
  }

  lemma {:induction false} RunKeepsAttended(s: State, schedule: seq<(Tid, Choice)>, consumers: set<Tid>)
    requires Roles(s, consumers) && Attended(s, consumers)
    requires Run(s, schedule).Some? && CarefulRun(s, schedule, consumers)
    ensures Attended(Run(s, schedule).value, consumers)
    decreases |schedule|
  {
    if schedule != [] {
      var (t, ch) := schedule[0];
      StepKeepsRoles(s, t, ch, consumers);
      StepKeepsAttended(s, t, ch, consumers);
      RunKeepsAttended(Step(s, t, ch).value, schedule[1..], consumers);
    }
  }

  /** As long as no consumer goes to sleep while the queue holds a command, no command is left behind
      with every consumer asleep: one of them is awake, or a push is about to signal. */
  lemma CommandIsAttended(s: State, schedule: seq<(Tid, Choice)>, consumers: set<Tid>)
    requires Initial(s) && Run(s, schedule).Some? && CarefulRun(s, schedule, consumers)
    requires var e := Run(s, schedule).value; e.queue != [] && SomeAsleep(e)
    ensures exists t :: Attends(Run(s, schedule).value, t, consumers)
  {
    RunKeepsAttended(s, schedule, consumers);
  }

  // ----- the race that loses a wake-up -----

  // A command is left behind: every consumer sleeps, and no push is under way that would wake one.
  ghost predicate Stranded(s: State, consumers: set<Tid>) {
    && s.queue != [] && SomeAsleep(s)
    && forall t <- s.threads :: if t in consumers then s.threads[t] == Asleep else !InPush(s.threads[t])
  }

  ghost predicate SomeConsumer(s: State, consumers: set<Tid>) {
    exists t :: t in s.threads && t in consumers
  }

  ghost predicate SomeProducer(s: State, consumers: set<Tid>) {
    exists t :: t in s.threads && t !in consumers
  }

  /** No command is left behind in a run in which no consumer goes to sleep while the queue holds one. */
  lemma CarefulNeverStrands(s: State, schedule: seq<(Tid, Choice)>, consumers: set<Tid>)
    requires Initial(s) && Run(s, schedule).Some? && CarefulRun(s, schedule, consumers)
    ensures !Stranded(Run(s, schedule).value, consumers)
  {
    var e := Run(s, schedule).value;
    if e.queue != [] && SomeAsleep(e) {
      CommandIsAttended(s, schedule, consumers);
      var t :| Attends(e, t, consumers);
      assert t in e.threads;
    }
  }

  // Whatever has been pushed, a producer has pushed it.
  ghost predicate PushedByProducer(s: State, consumers: set<Tid>) {
    s.pushed != [] ==> SomeProducer(s, consumers)
  }

  lemma StepKeepsProducer(s: State, t: Tid, ch: Choice, consumers: set<Tid>)
    requires Roles(s, consumers) && PushedByProducer(s, consumers) && Step(s, t, ch).Some?
    ensures PushedByProducer(Step(s, t, ch).value, consumers)
  {
    var s' := Step(s, t, ch).value;
    StepKeepsThreads(s, t, ch);
    if s'.pushed != s.pushed {
      assert s.threads[t].PushAppend? && t !in consumers && t in s'.threads;
    } else if s'.pushed != [] {
      var u :| u in s.threads && u !in consumers;
      assert u in s'.threads;
    }
  }

  lemma {:induction false} RunKeepsRoles(s: State, schedule: seq<(Tid, Choice)>, consumers: set<Tid>)
    requires Roles(s, consumers) && PushedByProducer(s, consumers)
    requires Run(s, schedule).Some? && KeepsRoles(schedule, consumers)
    ensures Roles(Run(s, schedule).value, consumers) && PushedByProducer(Run(s, schedule).value, consumers)
    decreases |schedule|
  {
    if schedule != [] {
      var (t, ch) := schedule[0];
      assert schedule[0] in schedule && forall x <- schedule[1..] :: x in schedule;
      StepKeepsRoles(s, t, ch, consumers);
      StepKeepsProducer(s, t, ch, consumers);
      RunKeepsRoles(Step(s, t, ch).value, schedule[1..], consumers);
    }
  }

  lemma {:induction false} RunConcat(s: State, a: seq<(Tid, Choice)>, b: seq<(Tid, Choice)>)
    requires Run(s, a).Some?
    ensures Run(s, a + b) == Run(Run(s, a).value, b)
    decreases |a|
  {
    if a == [] {
      assert a + b == b;
    } else {
      assert (a + b)[1..] == a[1..] + b;
      RunConcat(Step(s, a[0].0, a[0].1).value, a[1..], b);
    }
  }

  // A schedule that keeps the roles leads from one state to the other.
  ghost predicate Leads(s: State, schedule: seq<(Tid, Choice)>, s': State, consumers: set<Tid>) {
    Run(s, schedule) == Some(s') && KeepsRoles(schedule, consumers)
  }

  lemma LeadsOn(s: State, a: seq<(Tid, Choice)>, m: State, b: seq<(Tid, Choice)>, s': State, consumers: set<Tid>)
    requires Leads(s, a, m, consumers) && Leads(m, b, s', consumers)
    ensures Leads(s, a + b, s', consumers)
  {
    RunConcat(s, a, b);
  }

  lemma StepLeads(s: State, t: Tid, ch: Choice, m: State, rest: seq<(Tid, Choice)>, s': State, consumers: set<Tid>)
    requires Step(s, t, ch) == Some(m) && KeepsRole(t, ch, consumers) && Leads(m, rest, s', consumers)
    ensures Leads(s, [(t, ch)] + rest, s', consumers)
  {
    assert ([(t, ch)] + rest)[1..] == rest;
  }

  lemma NoSteps(s: State, consumers: set<Tid>)
    ensures Leads(s, [], s, consumers)
  {}

  // Two places of one thread in a row come to the second.
  lemma MovedTwice(threads: map<Tid, Pc>, t: Tid, a: Pc, b: Pc)
    ensures threads[t := a][t := b] == threads[t := b]
  {}

  // A consumer finds the queue empty and is about to wait.
  lemma Looks(s: State, t: Tid, consumers: set<Tid>) returns (schedule: seq<(Tid, Choice)>)
    requires t in s.threads && t in consumers && s.threads[t] == Idle && s.queueOwner == None && s.queue == []
    ensures Leads(s, schedule, At(s, t, WaitLock), consumers)
  {
    var a := At(s, t, TestLock);
    var b := At(s, t, TestEmpty).(queueOwner := Some(t));
    var c := At(s, t, TestUnlock(true)).(queueOwner := Some(t));
    var d := At(s, t, WaitLock);
    MovedTwice(s.threads, t, TestLock, TestEmpty);
    MovedTwice(s.threads, t, TestEmpty, TestUnlock(true));
    MovedTwice(s.threads, t, TestUnlock(true), WaitLock);
    NoSteps(d, consumers);
    StepLeads(c, t, Continue, d, [], d, consumers);
    StepLeads(b, t, Continue, c, [(t, Continue)] + [], d, consumers);
    StepLeads(a, t, Continue, b, [(t, Continue)] + ([(t, Continue)] + []), d, consumers);
    schedule := [(t, CallPop)] + ([(t, Continue)] + ([(t, Continue)] + ([(t, Continue)] + [])));
    StepLeads(s, t, CallPop, a, schedule[1..], d, consumers);
    assert schedule == [(t, CallPop)] + schedule[1..];
  }

  // The threads `ts` at `pc`.
  function Moved(s: State, ts: set<Tid>, pc: Pc): State {
    s.(threads := map t | t in s.threads :: if t in ts then pc else s.threads[t])
  }

  lemma {:induction false} AllLook(s: State, ts: set<Tid>, consumers: set<Tid>) returns (schedule: seq<(Tid, Choice)>)
    requires ts <= s.threads.Keys && ts <= consumers && forall t <- ts :: s.threads[t] == Idle
    requires s.queueOwner == None && s.queue == []
    ensures Leads(s, schedule, Moved(s, ts, WaitLock), consumers)
    decreases |ts|
  {
    if ts == {} {
      NoSteps(s, consumers);
      assert Moved(s, ts, WaitLock) == s;
      schedule := [];
    } else {
      var t :| t in ts;
      var m := At(s, t, WaitLock);
      var first := Looks(s, t, consumers);
      var rest := AllLook(m, ts - {t}, consumers);
      assert Moved(m, ts - {t}, WaitLock) == Moved(s, ts, WaitLock);
      LeadsOn(s, first, m, rest, Moved(s, ts, WaitLock), consumers);
      schedule := first + rest;
    }
  }

  // A consumer that has found the queue empty goes to sleep, whatever the queue holds by now.
  lemma FallsAsleep(s: State, t: Tid, consumers: set<Tid>) returns (schedule: seq<(Tid, Choice)>)
    requires t in s.threads && s.threads[t] == WaitLock && s.condOwner == None
    ensures Leads(s, schedule, At(s, t, Asleep), consumers)
  {
    var a := At(s, t, WaitSleep).(condOwner := Some(t));
    var b := At(s, t, Asleep);
    MovedTwice(s.threads, t, WaitSleep, Asleep);
    NoSteps(b, consumers);
    StepLeads(a, t, Continue, b, [], b, consumers);
    StepLeads(s, t, Continue, a, [(t, Continue)] + [], b, consumers);
    schedule := [(t, Continue)] + ([(t, Continue)] + []);
  }

  lemma {:induction false} AllFallAsleep(s: State, ts: set<Tid>, consumers: set<Tid>)
      returns (schedule: seq<(Tid, Choice)>)
    requires ts <= s.threads.Keys && (forall t <- ts :: s.threads[t] == WaitLock) && s.condOwner == None
    ensures Leads(s, schedule, Moved(s, ts, Asleep), consumers)
    decreases |ts|
  {
    if ts == {} {
      NoSteps(s, consumers);
      assert Moved(s, ts, Asleep) == s;
      schedule := [];
    } else {
      var t :| t in ts;
      var m := At(s, t, Asleep);
      var first := FallsAsleep(s, t, consumers);
      var rest := AllFallAsleep(m, ts - {t}, consumers);
      assert Moved(m, ts - {t}, Asleep) == Moved(s, ts, Asleep);
      LeadsOn(s, first, m, rest, Moved(s, ts, Asleep), consumers);
      schedule := first + rest;
    }
  }

  // A whole push while nobody sleeps: its signal wakes nobody.
  lemma PushesUnheard(s: State, p: Tid, command: string, consumers: set<Tid>) returns (schedule: seq<(Tid, Choice)>)
    requires p in s.threads && p !in consumers && s.threads[p] == Idle && !SomeAsleep(s)
    requires s.queueOwner == s.condOwner == None
    ensures Leads(s, schedule, s.(queue := s.queue + [command], pushed := s.pushed + [command]), consumers)
  {
    var s' := s.(queue := s.queue + [command], pushed := s.pushed + [command]);
    var a := At(s, p, PushAppend(command)).(queueOwner := Some(p));
    var b := At(s', p, SignalWake).(queueOwner := Some(p), condOwner := Some(p));
    var enter := Enters(s, p, command, consumers);
    var append := Appends(s, p, command, consumers);
    var leave := Leaves(s', p, consumers);
    LeadsOn(s, enter, a, append, b, consumers);
    LeadsOn(s, enter + append, b, leave, s', consumers);
    schedule := enter + append + leave;
  }

  lemma Enters(s: State, p: Tid, command: string, consumers: set<Tid>) returns (schedule: seq<(Tid, Choice)>)
    requires p in s.threads && p !in consumers && s.threads[p] == Idle && s.queueOwner == None
    ensures Leads(s, schedule, At(s, p, PushAppend(command)).(queueOwner := Some(p)), consumers)
  {
    var a := At(s, p, PushLock(command));
    var b := At(s, p, PushAppend(command)).(queueOwner := Some(p));
    MovedTwice(s.threads, p, PushLock(command), PushAppend(command));
    NoSteps(b, consumers);
    StepLeads(a, p, Continue, b, [], b, consumers);
    StepLeads(s, p, CallPush(command), a, [(p, Continue)] + [], b, consumers);
    schedule := [(p, CallPush(command))] + ([(p, Continue)] + []);
  }

  lemma Appends(s: State, p: Tid, command: string, consumers: set<Tid>) returns (schedule: seq<(Tid, Choice)>)
    requires p in s.threads && s.condOwner == None
    ensures var s' := s.(queue := s.queue + [command], pushed := s.pushed + [command]);
            Leads(At(s, p, PushAppend(command)).(queueOwner := Some(p)), schedule,
                  At(s', p, SignalWake).(queueOwner := Some(p), condOwner := Some(p)), consumers)
  {
    var s' := s.(queue := s.queue + [command], pushed := s.pushed + [command]);
    var a := At(s, p, PushAppend(command)).(queueOwner := Some(p));
    var b := At(s', p, SignalLock).(queueOwner := Some(p));
    var c := At(s', p, SignalWake).(queueOwner := Some(p), condOwner := Some(p));
    MovedTwice(s.threads, p, PushAppend(command), SignalLock);
    MovedTwice(s.threads, p, SignalLock, SignalWake);
    NoSteps(c, consumers);
    StepLeads(b, p, Continue, c, [], c, consumers);
    StepLeads(a, p, Continue, b, [(p, Continue)] + [], c, consumers);
    schedule := [(p, Continue)] + ([(p, Continue)] + []);
  }

  lemma Leaves(s: State, p: Tid, consumers: set<Tid>) returns (schedule: seq<(Tid, Choice)>)
    requires p in s.threads && s.threads[p] == Idle && !SomeAsleep(s) && s.queueOwner == s.condOwner == None
    ensures Leads(At(s, p, SignalWake).(queueOwner := Some(p), condOwner := Some(p)), schedule, s, consumers)
  {
    var a := At(s, p, SignalWake).(queueOwner := Some(p), condOwner := Some(p));
    var b := At(s, p, SignalUnlock).(queueOwner := Some(p), condOwner := Some(p));
    var c := At(s, p, PushUnlock).(queueOwner := Some(p));
    MovedTwice(s.threads, p, SignalWake, SignalUnlock);
    MovedTwice(s.threads, p, SignalUnlock, PushUnlock);
    MovedTwice(s.threads, p, PushUnlock, Idle);
    assert s.threads[p := Idle] == s.threads;
    NoSteps(s, consumers);
    StepLeads(c, p, Continue, s, [], s, consumers);
    StepLeads(b, p, Continue, c, [(p, Continue)] + [], s, consumers);
    assert forall u <- a.threads :: a.threads[u] != Asleep;
    StepLeads(a, p, WakeNobody, b, [(p, Continue)] + ([(p, Continue)] + []), s, consumers);
    schedule := [(p, WakeNobody)] + ([(p, Continue)] + ([(p, Continue)] + []));
  }

  lemma {:induction false} AllPushedUnheard(s: State, p: Tid, commands: seq<string>, consumers: set<Tid>)
      returns (schedule: seq<(Tid, Choice)>)
    requires p in s.threads && p !in consumers && s.threads[p] == Idle && !SomeAsleep(s)
    requires s.queueOwner == s.condOwner == None
    ensures Leads(s, schedule, s.(queue := s.queue + commands, pushed := s.pushed + commands), consumers)
    decreases |commands|
  {
    var s' := s.(queue := s.queue + commands, pushed := s.pushed + commands);
    if commands == [] {
      NoSteps(s, consumers);
      assert s' == s;
      schedule := [];
    } else {
      var m := s.(queue := s.queue + [commands[0]], pushed := s.pushed + [commands[0]]);
      var first := PushesUnheard(s, p, commands[0], consumers);
      var rest := AllPushedUnheard(m, p, commands[1..], consumers);
      assert [commands[0]] + commands[1..] == commands;
      assert m.queue + commands[1..] == s'.queue && m.pushed + commands[1..] == s'.pushed;
      LeadsOn(s, first, m, rest, s', consumers);
      schedule := first + rest;
    }
  }

  lemma AllAsleepStranded(s: State, consumers: set<Tid>)
    requires s.queue != [] && SomeConsumer(s, consumers)
    requires forall t <- s.threads :: t in consumers || s.threads[t] == Idle
    ensures Stranded(Moved(s, s.threads.Keys * consumers, Asleep), consumers)
  {
    var t :| t in s.threads && t in consumers;
    assert Moved(s, s.threads.Keys * consumers, Asleep).threads[t] == Asleep;
  }

  /** In every system with a consumer and a producer, any commands can be left behind: all of them are
      pushed between the consumers' looks at the empty queue and their waits. */
  lemma WakeUpCanBeLost(s: State, commands: seq<string>, consumers: set<Tid>) returns (schedule: seq<(Tid, Choice)>)
    requires Initial(s) && SomeConsumer(s, consumers) && SomeProducer(s, consumers) && commands != []
    ensures Run(s, schedule).Some? && KeepsRoles(schedule, consumers)
    ensures Stranded(Run(s, schedule).value, consumers) && Run(s, schedule).value.queue == commands
  {
    var p :| p in s.threads && p !in consumers;
    var ts := s.threads.Keys * consumers;
    var a := Moved(s, ts, WaitLock);
    var b := a.(queue := commands, pushed := commands);
    var e := Moved(b, ts, Asleep);
    var look := AllLook(s, ts, consumers);
    var push := AllPushedUnheard(a, p, commands, consumers);
    assert [] + commands == commands;
    var sleep := AllFallAsleep(b, ts, consumers);
    LeadsOn(s, look, a, push, b, consumers);
    LeadsOn(s, look + push, b, sleep, e, consumers);
    schedule := look + push + sleep;
    AllAsleepStranded(b, consumers);
  }

  /** Wake-ups are lost in every system that does any work: some run in which consumers only pop and the
      others only push ends with a command queued, every consumer asleep and no push under way, if and
      only if there are a consumer and a producer. */
  lemma WakeUpLostIff(s: State, consumers: set<Tid>)
    requires Initial(s)
    ensures (exists schedule :: Run(s, schedule).Some? && KeepsRoles(schedule, consumers)
                             && Stranded(Run(s, schedule).value, consumers))
            <==> SomeConsumer(s, consumers) && SomeProducer(s, consumers)
  {
    if SomeConsumer(s, consumers) && SomeProducer(s, consumers) {
      var schedule := WakeUpCanBeLost(s, ["command"], consumers);
    } else {
      forall schedule | Run(s, schedule).Some? && KeepsRoles(schedule, consumers)
        ensures !Stranded(Run(s, schedule).value, consumers)
      {
        NobodyLeftBehind(s, schedule, consumers);
      }
    }
  }

  lemma NobodyLeftBehind(s: State, schedule: seq<(Tid, Choice)>, consumers: set<Tid>)
    requires Initial(s) && Run(s, schedule).Some? && KeepsRoles(schedule, consumers)
    ensures Stranded(Run(s, schedule).value, consumers) ==> SomeConsumer(s, consumers) && SomeProducer(s, consumers)
  {
    var e := Run(s, schedule).value;
    RunKeepsInv(s, schedule);
    RunKeepsRoles(s, schedule, consumers);
    if Stranded(e, consumers) {
      var t :| t in e.threads && e.threads[t] == Asleep;
      assert t in s.threads && t in consumers;
      assert e.pushed != [];
      var p :| p in e.threads && p !in consumers;
      assert p in s.threads;
    }
  }
}
