/** The event queues of `LNFreq` (monitor.cpp): for every key a FIFO queue of time stamps, capped
    before each push, purged by a pass over the map and emptied on alarms.

    `std::map` is a finite map whose iterators are the keys in ascending order and `End`.  The
    iterator of an erased entry stands for the erased key: incrementing it goes to the next key. */
module EventQueues {
  import FrequencyText
  import opened Options

  const TWO_64: nat := FrequencyText.TWO_64
  const TWO_63: nat := TWO_64 / 2

  type Time = int
  type Key = nat
  type Queues = map<Key, seq<Time>>

  // ----- one queue -----

  ghost predicate Ascending(q: seq<Time>) {
    forall i, j | 0 <= i < j < |q| :: q[i] <= q[j]
  }

  // How many stamps are not older than `cutoff`.
  function CountFrom(q: seq<Time>, cutoff: Time): nat
    decreases |q|
  {
    if q == [] then 0 else (if q[0] >= cutoff then 1 else 0) + CountFrom(q[1..], cutoff)
  }

  // The stamps that are not older than `cutoff`.
  function From(q: seq<Time>, cutoff: Time): seq<Time>
    decreases |q|
  {
    if q == [] then [] else (if q[0] >= cutoff then [q[0]] else []) + From(q[1..], cutoff)
  }

  // `currTime - m_time` in a signed 64-bit word: a period of 2^63 or more is a negative one.
  function Cutoff(now: Time, period: nat): Time {
    now - if period < TWO_63 then period else period - TWO_64
  }

  // What popping stale stamps off the front leaves.
  function DropBefore(q: seq<Time>, cutoff: Time): seq<Time>
    decreases |q|
  {
    if q != [] && q[0] < cutoff then DropBefore(q[1..], cutoff) else q
  }

  // The limit is computed in an unsigned 64-bit word.
  function HardLimit(count: nat): nat {
    (count + 10) % TWO_64
  }

  function Capped(q: seq<Time>, limit: nat): seq<Time> {
    if |q| > limit then q[|q| - limit..] else q
  }

  ghost predicate AllFrom(q: seq<Time>, cutoff: Time) {
    forall i | 0 <= i < |q| :: q[i] >= cutoff
  }

  ghost predicate AllBefore(q: seq<Time>, cutoff: Time) {
    forall i | 0 <= i < |q| :: q[i] < cutoff
  }

  lemma {:induction false} DropBeforeKeepsAscending(q: seq<Time>, cutoff: Time)
    requires Ascending(q)
    ensures Ascending(DropBefore(q, cutoff)) && AllFrom(DropBefore(q, cutoff), cutoff)
    decreases |q|
  {
    if q != [] && q[0] < cutoff { DropBeforeKeepsAscending(q[1..], cutoff); }
  }

  lemma {:induction false} FromAll(q: seq<Time>, cutoff: Time)
    requires AllFrom(q, cutoff)
    ensures From(q, cutoff) == q && CountFrom(q, cutoff) == |q|
    decreases |q|
  {
    if q != [] { FromAll(q[1..], cutoff); }
  }

  lemma {:induction false} FromNone(q: seq<Time>, cutoff: Time)
    requires AllBefore(q, cutoff)
    ensures CountFrom(q, cutoff) == 0
    decreases |q|
  {
    if q != [] { FromNone(q[1..], cutoff); }
  }

  lemma {:induction false} CountFromConcat(a: seq<Time>, b: seq<Time>, cutoff: Time)
    ensures CountFrom(a + b, cutoff) == CountFrom(a, cutoff) + CountFrom(b, cutoff)
    decreases |a|
  {
    if a == [] {
      assert a + b == b;
    } else {
      assert (a + b)[1..] == a[1..] + b;
      CountFromConcat(a[1..], b, cutoff);
    }
  }

  lemma {:induction false} CountFromAntitone(q: seq<Time>, lower: Time, upper: Time)
    requires lower <= upper
    ensures CountFrom(q, upper) <= CountFrom(q, lower) <= |q|
    decreases |q|
  {
    if q != [] { CountFromAntitone(q[1..], lower, upper); }
  }

  /** Popping stale stamps off the front of an ascending queue removes all of them. */
  lemma {:induction false} DropBeforeIsFilter(q: seq<Time>, cutoff: Time)
    requires Ascending(q)
    ensures DropBefore(q, cutoff) == From(q, cutoff)
    decreases |q|
  {
    if q != [] {
      if q[0] < cutoff {
        DropBeforeIsFilter(q[1..], cutoff);
      } else {
        FromAll(q, cutoff);
      }
    }
  }

  lemma {:induction false} DropBeforeSplits(q: seq<Time>, cutoff: Time)
    ensures |DropBefore(q, cutoff)| <= |q|
    ensures var n := |q| - |DropBefore(q, cutoff)|;
            q[n..] == DropBefore(q, cutoff) && AllBefore(q[..n], cutoff)
    decreases |q|
  {
    if q != [] && q[0] < cutoff {
      DropBeforeSplits(q[1..], cutoff);
      var n := |q| - |DropBefore(q, cutoff)|;
      assert q[..n] == [q[0]] + q[1..][..n - 1];
      assert q[1..][n - 1..] == q[n..];
    }
  }

  // ----- the capped, purged queue against everything pushed since the last reset -----

  /** `q` is what the program keeps of the stamps `h` pushed since the last reset, when the last purge
      used `cutoff`: a suffix of `h` of at most count + 11 stamps; whatever else was pushed is stale,
      unless the queue is full. */
  ghost predicate Keeps(q: seq<Time>, h: seq<Time>, cutoff: Time, count: nat) {
    && |q| <= |h| && q == h[|h| - |q|..]
    && |q| <= count + 11
    && (|q| == count + 11 || AllBefore(h[..|h| - |q|], cutoff))
  }

  lemma KeepsOnPush(q: seq<Time>, h: seq<Time>, cutoff: Time, count: nat, now: Time)
    requires Keeps(q, h, cutoff, count) && count + 10 < TWO_64
    ensures Keeps(Capped(q, HardLimit(count)) + [now], h + [now], cutoff, count)
  {
    var k := Capped(q, HardLimit(count));
    var n := |h| - |k|;
    assert k == h[n..];
    assert k + [now] == (h + [now])[n..] && (h + [now])[..n] == h[..n];
  }

  lemma KeepsOnPurge(q: seq<Time>, h: seq<Time>, cutoff: Time, count: nat, later: Time)
    requires Keeps(q, h, cutoff, count) && Ascending(h) && cutoff <= later
    ensures Keeps(DropBefore(q, later), h, later, count)
  {
    var r := DropBefore(q, later);
    DropBeforeSplits(q, later);
    var d, n := |h| - |q|, |q| - |r|;
    assert r == h[|h| - |r|..];
    if n > 0 {
      assert q[..n][n - 1] == q[n - 1] == h[d + n - 1];
    }
  }

  lemma KeepsOnReset(cutoff: Time, count: nat)
    ensures Keeps([], [], cutoff, count)
  {}

  /** Capping and purging never change a threshold decision: for every window that starts at or after
      the last purge cutoff, the queue has more (fewer) than `count` stamps in the window exactly when
      everything pushed since the last reset has. */
  lemma KeepsDecides(q: seq<Time>, h: seq<Time>, cutoff: Time, count: nat, start: Time)
    requires Keeps(q, h, cutoff, count) && Ascending(h) && cutoff <= start
    ensures CountFrom(q, start) > count <==> CountFrom(h, start) > count
    ensures CountFrom(q, start) < count <==> CountFrom(h, start) < count
  {
    var d := h[..|h| - |q|];
    assert h == d + q;
    CountFromConcat(d, q, start);
    if AllBefore(d, start) {
      FromNone(d, start);
    } else {
      var i :| 0 <= i < |d| && d[i] >= start;
      forall j | 0 <= j < |q| ensures q[j] >= start {
        assert h[i] == d[i] && h[|d| + j] == q[j];
      }
      FromAll(q, start);
    }
  }

  // ----- the map of queues -----

  datatype Iterator = At(key: Key) | End

  ghost predicate IsLeast(s: set<Key>, k: Key) {
    k in s && forall j <- s :: k <= j
  }

  lemma {:induction false} LeastExists(s: set<Key>) returns (least: Key)
    requires s != {}
    ensures IsLeast(s, least)
    decreases |s|
  {
    var k :| k in s;
    var rest := s - {k};
    least := k;
    if rest != {} {
      var m := LeastExists(rest);
      least := if k <= m then k else m;
    }
    assert forall j <- s :: j == k || j in rest;
  }

  // The iterator at the least key that is not below `bound`.
  function Seek(m: Queues, bound: Key): (i: Iterator)
    ensures i.At? ==> i.key in m && bound <= i.key && forall j <- m :: bound <= j ==> i.key <= j
    ensures i.End? ==> forall j <- m :: j < bound
  {
    var above := set k | k in m.Keys && bound <= k;
    if above == {} then
      assert forall j <- m :: bound <= j ==> j in above;
      End
    else
      assert exists k :: IsLeast(above, k) by { var k := LeastExists(above); }
      var k :| k in above && forall j <- above :: k <= j;
      assert forall j <- m :: bound <= j ==> j in above;
      At(k)
  }

  lemma SeekIs(m: Queues, bound: Key, k: Key)
    requires k in m && bound <= k && forall j <- m :: bound <= j ==> k <= j
    ensures Seek(m, bound) == At(k)
  {}

  function Begin(m: Queues): Iterator {
    Seek(m, 0)
  }

  function Increment(m: Queues, i: Iterator): Iterator {
    if i.At? then Seek(m, i.key + 1) else End
  }

  // The number of stamps in all queues.
  function Total(m: Queues): nat
    decreases |m|
  {
    var i := Begin(m);
    if i.End? then 0 else |m[i.key]| + Total(m - {i.key})
  }

  lemma {:induction false} TotalSplit(m: Queues, k: Key)
    requires k in m
    ensures Total(m) == |m[k]| + Total(m - {k})
    decreases |m|
  {
    var i := Begin(m).key;
    if i != k {
      TotalSplit(m - {i}, k);
      var rest := m - {k};
      SeekIs(rest, 0, i);
      assert rest - {i} == m - {i} - {k};
    }
  }

  lemma TotalUpdate(m: Queues, k: Key, q: seq<Time>)
    ensures Total(m[k := q]) == Total(m - {k}) + |q|
  {
    TotalSplit(m[k := q], k);
    assert m[k := q] - {k} == m - {k};
  }

  lemma TotalBound(m: Queues, k: Key)
    ensures k in m ==> |m[k]| <= Total(m)
    ensures k !in m ==> m - {k} == m
  {
    if k in m { TotalSplit(m, k); }
  }

  lemma {:induction false} TotalMonotone(m: Queues, n: Queues)
    requires forall k <- m :: k in n && |m[k]| <= |n[k]|
    ensures Total(m) <= Total(n)
    decreases |m|
  {
    var i := Begin(m);
    if i.At? {
      TotalSplit(n, i.key);
      TotalMonotone(m - {i.key}, n - {i.key});
    }
  }

  // ----- the operations of LNFreq on the map -----

  function Queue(m: Queues, key: Key): seq<Time> {
    if key in m then m[key] else []
  }

  function Pushed(m: Queues, count: nat, key: Key, now: Time): Queues {
    m[key := Capped(Queue(m, key), HardLimit(count)) + [now]]
  }

  function Emptied(m: Queues): Queues {
    map k | k in m :: []
  }

  predicate Stale(q: seq<Time>, cutoff: Time) {
    DropBefore(q, cutoff) == []
  }

  /** The key a purge pass never looks at: when the first two queues go stale, the pass restarts at
      the third and steps over it. */
  function Skipped(m: Queues, cutoff: Time): Iterator {
    var first := Begin(m);
    var second := Increment(m, first);
    if second.At? && Stale(m[first.key], cutoff) && Stale(m[second.key], cutoff)
    then Increment(m, second) else End
  }

  // The result of a pass that steps over `skip`.
  function Purged(m: Queues, cutoff: Time, skip: Iterator): Queues {
    map k | k in m && (At(k) == skip || !Stale(m[k], cutoff)) ::
      if At(k) == skip then m[k] else DropBefore(m[k], cutoff)
  }

  ghost predicate AllAscending(m: Queues) {
    forall k <- m :: Ascending(m[k])
  }

  lemma PurgedFilters(m: Queues, cutoff: Time)
    requires AllAscending(m)
    ensures var r := Purged(m, cutoff, End);
            && AllAscending(r)
            && (forall k :: k in r <==> k in m && From(m[k], cutoff) != [])
            && (forall k <- r :: r[k] == From(m[k], cutoff))
  {
    forall k | k in m
      ensures Ascending(DropBefore(m[k], cutoff)) && DropBefore(m[k], cutoff) == From(m[k], cutoff)
    {
      DropBeforeIsFilter(m[k], cutoff);
      DropBeforeKeepsAscending(m[k], cutoff);
    }
  }

  /** A pass leaves exactly the fresh stamps, and no empty queue, if and only if it steps over no
      queue that is empty or holds a stale stamp at its front. */
  lemma PassIsCompleteIff(m: Queues, cutoff: Time)
    ensures Purged(m, cutoff, Skipped(m, cutoff)) == Purged(m, cutoff, End)
       <==> (Skipped(m, cutoff).End? ||
             var q := m[Skipped(m, cutoff).key]; q != [] && q[0] >= cutoff)
  {
    var skip := Skipped(m, cutoff);
    if skip.At? {
      StepOverIsHarmlessIff(m, cutoff, skip.key);
    }
  }

  lemma StepOverIsHarmlessIff(m: Queues, cutoff: Time, k: Key)
    requires k in m
    ensures Purged(m, cutoff, At(k)) == Purged(m, cutoff, End) <==> m[k] != [] && m[k][0] >= cutoff
  {
    var stepped, full := Purged(m, cutoff, At(k)), Purged(m, cutoff, End);
    assert k in stepped && stepped[k] == m[k];
    if m[k] != [] && m[k][0] >= cutoff {
      assert stepped == full;
    } else {
      DropBeforeShrinks(m[k], cutoff);
      assert k in full ==> full[k] != m[k];
    }
  }

  lemma {:induction false} DropBeforeShrinks(q: seq<Time>, cutoff: Time)
    ensures |DropBefore(q, cutoff)| <= |q|
    ensures q != [] && q[0] < cutoff ==> |DropBefore(q, cutoff)| < |q|
    ensures DropBefore(DropBefore(q, cutoff), cutoff) == DropBefore(q, cutoff)
    decreases |q|
  {
    if q != [] && q[0] < cutoff { DropBeforeShrinks(q[1..], cutoff); }
  }

  // A later cutoff says less.
  lemma KeepsLater(q: seq<Time>, h: seq<Time>, cutoff: Time, count: nat, later: Time)
    requires Keeps(q, h, cutoff, count) && cutoff <= later
    ensures Keeps(q, h, later, count)
  {}

  // What `Keeps` says of a queue after a pass, with the cutoff of the pass unless that steps over the key.
  lemma KeepsOnPass(m: Queues, k: Key, h: seq<Time>, cutoff: Time, count: nat, later: Time)
    requires Keeps(Queue(m, k), h, cutoff, count) && Ascending(h) && cutoff <= later
    ensures var skip := Skipped(m, later); var q := Queue(Purged(m, later, skip), k);
            if skip == At(k) then q == Queue(m, k) && Keeps(q, h, cutoff, count)
            else Keeps(q, h, later, count) && AllFrom(q, later)
  {
    var q := Queue(m, k);
    if At(k) != Skipped(m, later) {
      KeepsOnPurge(q, h, cutoff, count, later);
      SuffixAscending(h, |h| - |q|);
      DropBeforeKeepsAscending(q, later);
      assert Queue(Purged(m, later, Skipped(m, later)), k) == DropBefore(q, later);
    }
  }

  // And nothing older than the cutoff is left.
  ghost predicate KeepsFresh(q: seq<Time>, h: seq<Time>, cutoff: Time, count: nat) {
    Keeps(q, h, cutoff, count) && AllFrom(q, cutoff)
  }

  lemma KeepsFreshOnPush(q: seq<Time>, h: seq<Time>, cutoff: Time, count: nat, now: Time)
    requires KeepsFresh(q, h, cutoff, count) && count + 10 < TWO_64 && cutoff <= now
    ensures KeepsFresh(Capped(q, HardLimit(count)) + [now], h + [now], cutoff, count)
  {
    KeepsOnPush(q, h, cutoff, count, now);
  }

  lemma KeepsFreshOnPass(m: Queues, k: Key, h: seq<Time>, cutoff: Time, count: nat, later: Time)
    requires KeepsFresh(Queue(m, k), h, cutoff, count) && Ascending(h) && cutoff <= later
    ensures var skip := Skipped(m, later);
            KeepsFresh(Queue(Purged(m, later, skip), k), h, if skip == At(k) then cutoff else later, count)
  {
    KeepsOnPass(m, k, h, cutoff, count, later);
  }

  lemma SuffixAscending(q: seq<Time>, n: nat)
    requires Ascending(q) && n <= |q|
    ensures Ascending(q[n..])
  {}

  // A pass over stale queues under three keys leaves the third.
  lemma PassCanLeaveStaleStamps()
    ensures var m := map[1 := [0], 2 := [0], 3 := [0]];
            Skipped(m, 5) == At(3) && Purged(m, 5, Skipped(m, 5)) == map[3 := [0]]
  {
    var m := map[1 := [0], 2 := [0], 3 := [0]];
    assert Begin(m) == At(1) by { assert 1 in m; }
    assert Seek(m, 2) == At(2) by { assert 2 in m; }
    assert Seek(m, 3) == At(3) by { assert 3 in m; }
    assert Stale([0], 5) by { assert [0][1..] == []; }
  }

  lemma SingleKeyNeverSkipped(m: Queues, key: Key, cutoff: Time)
    requires m.Keys <= {key}
    ensures Skipped(m, cutoff) == End
  {
    assert forall k <- m :: k == key;
  }

  lemma TotalOfSingleKey(m: Queues)
    requires m.Keys <= {0}
    ensures Total(m) == |Queue(m, 0)|
  {
    if 0 in m {
      TotalSplit(m, 0);
      assert m - {0} == map[];
    } else {
      assert m == map[];
    }
  }

  // ----- class LNFreq -----

  class Freq {
    var count: nat
    var period: nat
    var events: Queues

    constructor (count: nat, period: nat)
      ensures this.count == count && this.period == period && events == map[]
    {
      this.count, this.period, events := count, period, map[];
    }

    method ToString() returns (s: string)
      ensures FrequencyText.PrintedForm(s, count, period)
      ensures FrequencyText.Parse(s) == Some((FrequencyText.Unsigned64(FrequencyText.Int32(count)),
                                              FrequencyText.Unsigned64(FrequencyText.Int32(period))))
    {
      var a, b := FrequencyText.Int32(count), FrequencyText.Int32(period);
      s := FrequencyText.Decimal(a) + "/" + FrequencyText.Decimal(b);
      FrequencyText.DecimalIsNumeral(a);
      FrequencyText.DecimalIsNumeral(b);
      FrequencyText.PrintedParses(s, count, period);
    }

    method SetFromString(freq: string) returns (ok: bool)
      modifies this`count, this`period
      ensures ok <==> FrequencyText.Parse(freq).Some?
      ensures if ok then (count, period) == FrequencyText.Parse(freq).value
              else count == old(count) && period == old(period)
    {
      var params := FrequencyText.ExplodeString(freq, "/");
      if |params| < 2 {
        return false;
      }
      count := FrequencyText.Unsigned64(FrequencyText.Atoi(params[0]));
      period := FrequencyText.Unsigned64(FrequencyText.Atoi(params[1]));
      ok := true;
    }

    method PushEvent(crc: Key, now: Time)
      modifies this`events
      ensures events == Pushed(old(events), count, crc, now)
    {
      if crc !in events {
        events := events[crc := []];
      }
      var q := events[crc];
      var limit := HardLimit(count);
      if |q| > limit {
        var excess, i := |q| - limit, 0;
        while i < excess
          invariant 0 <= i <= excess && events == old(events)[crc := q[i..]]
        {
          events := events[crc := events[crc][1..]];
          i := i + 1;
        }
      }
      events := events[crc := events[crc] + [now]];
    }

    /** The pass over all keys; see `Skipped` for the key it may step over. */
    method RemoveDeprecated(now: Time)
      modifies this`events
      ensures var cutoff := Cutoff(now, period); events == Purged(old(events), cutoff, Skipped(old(events), cutoff))
    {
      var cutoff := Cutoff(now, period);
      ghost var m, skip := events, Skipped(events, cutoff);
      ghost var done: set<Key> := {};
      var i := Begin(events);
      var prev := i;
      while i.At?
        invariant i.At? ==> i.key in events
        invariant Progress(m, events, cutoff, done) && Position(m, events, cutoff, done, i, prev)
        decreases events.Keys, KeysFrom(events.Keys, i)
      {
        ghost var e, start := events, i;
        PopStale(i.key, cutoff);
        PopKeepsProgress(m, e, cutoff, done, i, prev);
        if events[i.key] == [] {
          events := events - {i.key};
          if i != prev {
            RestartKeepsPosition(m, e, cutoff, done, i, prev, events);
            i := Begin(events);
          } else {
            FirstErased(m, e, cutoff, done, i, prev, events);
          }
        } else {
          KeptKeepsPosition(m, e, cutoff, done, i, prev, events);
          IncrementAdvances(events, i.key);
        }
        done := done + {start.key};
        prev := i;
        i := Increment(events, i);
      }
      PassDone(m, events, cutoff, done, i, prev);
    }

    // The inner loop of the pass: pop the queue of `key` while its front is stale.
    method PopStale(key: Key, cutoff: Time)
      requires key in events
      modifies this`events
      ensures events == old(events)[key := DropBefore(old(events)[key], cutoff)]
    {
      while |events[key]| > 0 && events[key][0] < cutoff
        invariant key in events && events == old(events)[key := events[key]]
        invariant DropBefore(events[key], cutoff) == DropBefore(old(events)[key], cutoff)
        decreases |events[key]|
      {
        events := events[key := events[key][1..]];
      }
    }

    method GetMessuringCount(crc: Key) returns (c: nat)
      requires crc == 0 || crc in events
      ensures c == Measured(events, crc)
    {
      c := 0;
      if crc == 0 {
        var i := Begin(events);
        ghost var rest := events;
        while i.At?
          invariant rest == RestFrom(events, i)
          invariant i.At? ==> i.key in events
          invariant c + Total(rest) == Total(events)
          decreases |rest|
        {
          SeekIs(rest, 0, i.key);
          c := c + |events[i.key]|;
          rest := rest - {i.key};
          i := Increment(events, i);
        }
      } else {
        c := |events[crc]|;
      }
    }

    method ResetMessuring(crc: Key)
      requires crc == 0 || crc in events
      modifies this`events
      ensures events == if crc == 0 then Emptied(old(events)) else old(events)[crc := []]
    {
      if crc != 0 {
        EmptyQueue(crc);
      } else {
        var i := Begin(events);
        while i.At?
          invariant events.Keys == old(events).Keys && (i.At? ==> i.key in events)
          invariant forall k <- events :: events[k] == if Before(k, i) then [] else old(events)[k]
          decreases KeysFrom(events.Keys, i)
        {
          EmptyQueue(i.key);
          IncrementAdvances(events, i.key);
          i := Increment(events, i);
        }
      }
    }

    method EmptyQueue(key: Key)
      requires key in events
      modifies this`events
      ensures events == old(events)[key := []]
    {
      while events[key] != []
        invariant key in events && events == old(events)[key := events[key]]
        decreases |events[key]|
      {
        events := events[key := events[key][1..]];
      }
    }
  }

  function Measured(m: Queues, crc: Key): nat
    requires crc == 0 || crc in m
  {
    if crc == 0 then Total(m) else |m[crc]|
  }

  predicate Before(k: Key, i: Iterator) {
    i.End? || k < i.key
  }

  function RestFrom(m: Queues, i: Iterator): Queues {
    map k | k in m && !Before(k, i) :: m[k]
  }

  function KeysFrom(s: set<Key>, i: Iterator): set<Key> {
    set k | k in s && !Before(k, i)
  }

  // The keys of `done` have been purged, the others are untouched.
  ghost predicate Progress(m: Queues, e: Queues, cutoff: Time, done: set<Key>) {
    && done <= m.Keys && e.Keys <= m.Keys
    && forall k <- m :: if k in done
                        then (k in e <==> !Stale(m[k], cutoff)) && (k in e ==> e[k] == DropBefore(m[k], cutoff))
                        else k in e && e[k] == m[k]
  }

  // Past the erased first key.
  ghost predicate FirstGone(m: Queues, e: Queues, done: set<Key>, i: Iterator, prev: Iterator) {
    var first := Begin(m);
    first.At? && done == {first.key} && first.key !in e && prev == first && i == Increment(m, first)
  }

  // Past a first key that has been purged or is the one to be stepped over.
  ghost predicate FirstPassed(e: Queues, skip: Iterator, done: set<Key>, i: Iterator, prev: Iterator) {
    && (i.At? ==> prev.At? && prev.key < i.key)
    && (forall k <- e :: Before(k, i) ==> k in done || At(k) == skip)
    && (Begin(e).At? ==> Before(Begin(e).key, i) && (Begin(e).key in done || Begin(e) == skip))
    && (skip.At? ==> Begin(e) == skip)
  }

  // Where the pass is.
  ghost predicate Position(m: Queues, e: Queues, cutoff: Time, done: set<Key>, i: Iterator, prev: Iterator) {
    var skip := Skipped(m, cutoff);
    && (skip.At? ==> skip.key !in done)
    && (|| (done == {} && i == prev == Begin(m))
        || FirstGone(m, e, done, i, prev)
        || FirstPassed(e, skip, done, i, prev))
  }

  lemma IncrementAdvances(m: Queues, k: Key)
    requires k in m
    ensures KeysFrom(m.Keys, Increment(m, At(k))) < KeysFrom(m.Keys, At(k))
  {
    assert k in KeysFrom(m.Keys, At(k));
  }

  // A key the pass looks at is not the one it will step over.
  lemma NotSkipped(m: Queues, e: Queues, cutoff: Time, done: set<Key>, i: Iterator, prev: Iterator)
    requires Progress(m, e, cutoff, done) && Position(m, e, cutoff, done, i, prev)
    requires i.At? && i.key in e
    ensures Skipped(m, cutoff) != i
  {}

  // The state of the map after popping the stale stamps of the queue at `i`, and erasing it if it
  // is empty.
  ghost predicate Popped(e: Queues, cutoff: Time, i: Iterator, e': Queues)
    requires i.At? && i.key in e
  {
    var q := DropBefore(e[i.key], cutoff);
    e' == if q == [] then e - {i.key} else e[i.key := q]
  }

  lemma PopKeepsProgress(m: Queues, e: Queues, cutoff: Time, done: set<Key>, i: Iterator, prev: Iterator)
    requires Progress(m, e, cutoff, done) && Position(m, e, cutoff, done, i, prev)
    requires i.At? && i.key in e
    ensures forall e' | Popped(e, cutoff, i, e') :: Progress(m, e', cutoff, done + {i.key})
    ensures DropBefore(e[i.key], cutoff) == DropBefore(m[i.key], cutoff)
  {
    DropBeforeShrinks(m[i.key], cutoff);
  }

  lemma KeptKeepsPosition(m: Queues, e: Queues, cutoff: Time, done: set<Key>, i: Iterator, prev: Iterator, e': Queues)
    requires Progress(m, e, cutoff, done) && Position(m, e, cutoff, done, i, prev)
    requires i.At? && i.key in e && Popped(e, cutoff, i, e') && i.key in e'
    ensures Position(m, e', cutoff, done + {i.key}, Increment(e', i), i)
  {
    var skip := Skipped(m, cutoff);
    NotSkipped(m, e, cutoff, done, i, prev);
    assert e'.Keys == e.Keys;
    assert Begin(e') == Begin(e) by { SameKeysSameSeek(e, e', 0); }
    if !FirstPassed(e, skip, done, i, prev) {
      assert !Stale(m[i.key], cutoff) && skip == End;
      SeekIs(e', 0, i.key);
    }
    KeptIsPassed(e, e', skip, done, i, prev);
  }

  lemma KeptIsPassed(e: Queues, e': Queues, skip: Iterator, done: set<Key>, i: Iterator, prev: Iterator)
    requires e.Keys == e'.Keys && Begin(e) == Begin(e') && i.At? && i.key in e && skip != i
    requires FirstPassed(e, skip, done, i, prev) || (Begin(e) == i && skip == End)
    ensures FirstPassed(e', skip, done + {i.key}, Increment(e', i), i)
  {}

  lemma SameKeysSameSeek(e: Queues, e': Queues, bound: Key)
    requires forall k | bound <= k :: k in e <==> k in e'
    ensures Seek(e, bound) == Seek(e', bound)
  {}

  lemma FirstErased(m: Queues, e: Queues, cutoff: Time, done: set<Key>, i: Iterator, prev: Iterator, e': Queues)
    requires Progress(m, e, cutoff, done) && Position(m, e, cutoff, done, i, prev)
    requires i.At? && i.key in e && i == prev && Popped(e, cutoff, i, e') && i.key !in e'
    ensures Position(m, e', cutoff, done + {i.key}, Increment(e', i), i)
  {
    NotSkipped(m, e, cutoff, done, i, prev);
    assert e'.Keys == m.Keys - {i.key};
    SameKeysSameSeek(e', m, i.key + 1);
  }

  lemma RestartKeepsPosition(m: Queues, e: Queues, cutoff: Time, done: set<Key>, i: Iterator, prev: Iterator,
                             e': Queues)
    requires Progress(m, e, cutoff, done) && Position(m, e, cutoff, done, i, prev)
    requires i.At? && i.key in e && i != prev && Popped(e, cutoff, i, e') && i.key !in e'
    ensures Position(m, e', cutoff, done + {i.key}, Increment(e', Begin(e')), Begin(e'))
  {
    var skip := Skipped(m, cutoff);
    NotSkipped(m, e, cutoff, done, i, prev);
    assert e'.Keys == e.Keys - {i.key};
    if FirstGone(m, e, done, i, prev) {
      SecondGone(m, e, cutoff, done, i, prev, e');
    } else {
      assert Begin(e).key in e';
      SeekIs(e', 0, Begin(e).key);
    }
  }

  lemma SecondGone(m: Queues, e: Queues, cutoff: Time, done: set<Key>, i: Iterator, prev: Iterator, e': Queues)
    requires Progress(m, e, cutoff, done) && FirstGone(m, e, done, i, prev)
    requires i.At? && i.key in e && Popped(e, cutoff, i, e') && i.key !in e'
    ensures Begin(e') == Skipped(m, cutoff)
  {
    assert e.Keys == m.Keys - {Begin(m).key} && e'.Keys == e.Keys - {i.key};
    assert Stale(m[Begin(m).key], cutoff) && Stale(m[i.key], cutoff);
    if Increment(m, i).At? { SeekIs(e', 0, Increment(m, i).key); }
  }

  lemma PassDone(m: Queues, e: Queues, cutoff: Time, done: set<Key>, i: Iterator, prev: Iterator)
    requires Progress(m, e, cutoff, done) && Position(m, e, cutoff, done, i, prev) && i.End?
    ensures e == Purged(m, cutoff, Skipped(m, cutoff))
  {}
}
