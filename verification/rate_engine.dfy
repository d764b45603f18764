/** The rate engine: the match loop of `processLogFile` (main.cpp), the methods of `LNLogItem`
    (monitor.cpp) it calls, and the down-bound checker thread (action_queue.cpp), interleaved at every
    point where a lock is released.

    Every method of `LNLogItem` that takes the item's lock is one step on the value of the item's
    queues; the class `LogItem` at the end is proved to perform these steps.  The state also records
    what no variable of the program holds: all matches ever counted and where the queues were last
    emptied. */
module RateEngine {
  import opened EventQueues
  import opened Options

  // LNFreq's limits of one item; a frequency is `count` matches in `period` seconds.
  datatype Config = Config(upCount: nat, upPeriod: nat, downCount: nat, downPeriod: nat, usecrc: bool) {
    predicate Sane() {
      && upCount + 10 < TWO_64 && downCount + 10 < TWO_64
      && upPeriod < TWO_63 && downPeriod < TWO_63
    }
  }

  // A match counted under `key` (the CRC of the match, or 0 without usecrc) at time `at`, on the
  // up-bound side.
  datatype Match = Match(key: Key, at: Time)

  // A purge pass at time `at` over the up-bound queues, and the key it stepped over.
  datatype Sweep = Sweep(at: Time, skip: Iterator)

  /** The up-bound side of an item: its queues, how many matches preceded the last reset, a cutoff before
      all matches, all purges so far, and how many alarms were raised. */
  datatype Up = Up(queues: Queues, from: nat, first: Time, sweeps: seq<Sweep>, alarms: nat)

  /** The down-bound side: its queues, how many matches preceded the last reset, when that was and how
      much later than the `tnow` of its pass, and the cutoff of the last purge. */
  datatype Down = Down(queues: Queues, from: nat, resetAt: Time, slip: nat, cutoff: Time)

  // The matches as the up-bound side counted them, and their stamps on the down-bound side.
  datatype Item = Item(hist: seq<Match>, stamps: seq<Time>, up: Up, down: Down)

  // ----- the atomic operations on one item -----

  // The two halves of Match; each reads the clock.
  function CountUpItem(c: Config, it: Item, key: Key, now: Time): Item {
    it.(hist := it.hist + [Match(key, now)], up := it.up.(queues := Pushed(it.up.queues, c.upCount, key, now)))
  }

  function CountDownItem(c: Config, it: Item, now: Time): Item {
    it.(stamps := it.stamps + [now], down := it.down.(queues := Pushed(it.down.queues, c.downCount, 0, now)))
  }

  function PurgeUp(c: Config, u: Up, now: Time): Up {
    var cutoff := Cutoff(now, c.upPeriod);
    var skip := Skipped(u.queues, cutoff);
    u.(queues := Purged(u.queues, cutoff, skip), sweeps := u.sweeps + [Sweep(now, skip)])
  }

  function PurgeDown(c: Config, d: Down, now: Time): Down {
    var cutoff := Cutoff(now, c.downPeriod);
    d.(queues := Purged(d.queues, cutoff, Skipped(d.queues, cutoff)), cutoff := cutoff)
  }

  function PurgeItem(c: Config, it: Item, now: Time): Item {
    it.(up := PurgeUp(c, it.up, now), down := PurgeDown(c, it.down, now))
  }

  function ResetUpItem(it: Item): Item {
    it.(up := it.up.(queues := Emptied(it.up.queues), from := |it.hist|))
  }

  function ResetDownItem(it: Item, now: Time, slip: nat): Item {
    it.(down := it.down.(queues := Emptied(it.down.queues), from := |it.stamps|, resetAt := now, slip := slip))
  }

  // ----- the matches of an item -----

  function Stamps(hist: seq<Match>): (r: seq<Time>)
    ensures |r| == |hist|
  {
    seq(|hist|, i requires 0 <= i < |hist| => hist[i].at)
  }

  function KeyStamps(hist: seq<Match>, key: Key): seq<Time>
    decreases |hist|
  {
    if hist == [] then [] else
    var n := |hist| - 1;
    KeyStamps(hist[..n], key) + if hist[n].key == key then [hist[n].at] else []
  }

  lemma KeyStampsExtend(hist: seq<Match>, m: Match, key: Key)
    ensures KeyStamps(hist + [m], key) == KeyStamps(hist, key) + if m.key == key then [m.at] else []
  {
    assert (hist + [m])[..|hist|] == hist;
  }

  lemma {:induction false} KeyStampsAscending(hist: seq<Match>, key: Key)
    requires Ascending(Stamps(hist))
    ensures Ascending(KeyStamps(hist, key))
    ensures forall i | 0 <= i < |KeyStamps(hist, key)| :: hist != [] && KeyStamps(hist, key)[i] <= hist[|hist| - 1].at
    decreases |hist|
  {
    if hist != [] {
      var n := |hist| - 1;
      var ks := KeyStamps(hist[..n], key);
      assert Stamps(hist[..n]) == Stamps(hist)[..n];
      KeyStampsAscending(hist[..n], key);
      assert n > 0 ==> Stamps(hist)[n - 1] <= Stamps(hist)[n];
      assert forall i | 0 <= i < |ks| :: ks[i] <= hist[n].at;
    }
  }

  ghost predicate Past(q: seq<Time>, clock: Time) {
    Ascending(q) && forall i | 0 <= i < |q| :: q[i] <= clock
  }

  ghost predicate HistInv(it: Item, clock: Time) {
    Past(Stamps(it.hist), clock) && Past(it.stamps, clock)
  }

  lemma PastExtend(q: seq<Time>, clock: Time)
    requires Past(q, clock)
    ensures Past(q + [clock], clock)
  {}

  lemma StampsExtend(hist: seq<Match>, key: Key, clock: Time)
    ensures Stamps(hist + [Match(key, clock)]) == Stamps(hist) + [clock]
  {}

  // ----- the down-bound side -----

  // The stamps of the matches since the last down-bound reset.
  function SinceDownReset(it: Item): seq<Time>
    requires it.down.from <= |it.stamps|
  {
    it.stamps[it.down.from..]
  }

  ghost predicate DownInv(c: Config, it: Item, clock: Time) {
    var d := it.down;
    && d.queues.Keys <= {0} && d.from <= |it.stamps|
    && d.cutoff <= clock - c.downPeriod && d.resetAt <= clock
    && (forall i | 0 <= i < d.from :: it.stamps[i] <= d.resetAt)
    && Keeps(Queue(d.queues, 0), SinceDownReset(it), d.cutoff, c.downCount)
  }

  lemma DownInvOnCount(c: Config, it: Item, clock: Time)
    requires c.Sane() && DownInv(c, it, clock)
    ensures DownInv(c, CountDownItem(c, it, clock), clock)
  {
    KeepsOnPush(Queue(it.down.queues, 0), SinceDownReset(it), it.down.cutoff, c.downCount, clock);
    assert SinceDownReset(CountDownItem(c, it, clock)) == SinceDownReset(it) + [clock];
  }

  lemma DownPurgeOfQueue(c: Config, d: Down, now: Time)
    requires c.Sane() && d.queues.Keys <= {0}
    ensures PurgeDown(c, d, now).queues.Keys <= {0}
    ensures Queue(PurgeDown(c, d, now).queues, 0) == DropBefore(Queue(d.queues, 0), now - c.downPeriod)
  {
    SingleKeyNeverSkipped(d.queues, 0, now - c.downPeriod);
  }

  lemma DownQueueAscending(c: Config, it: Item, clock: Time)
    requires HistInv(it, clock) && DownInv(c, it, clock)
    ensures Ascending(SinceDownReset(it)) && Ascending(Queue(it.down.queues, 0))
  {
    var q, h := Queue(it.down.queues, 0), SinceDownReset(it);
    SuffixAscending(it.stamps, it.down.from);
    SuffixAscending(h, |h| - |q|);
  }

  lemma DownKeepsOnPurge(c: Config, it: Item, clock: Time)
    requires c.Sane() && HistInv(it, clock) && DownInv(c, it, clock)
    ensures var q, cutoff := Queue(PurgeDown(c, it.down, clock).queues, 0), clock - c.downPeriod;
            Keeps(q, SinceDownReset(it), cutoff, c.downCount) && AllFrom(q, cutoff)
  {
    var q, h, cutoff := Queue(it.down.queues, 0), SinceDownReset(it), clock - c.downPeriod;
    assert Queue(PurgeDown(c, it.down, clock).queues, 0) == DropBefore(q, cutoff) by {
      DownPurgeOfQueue(c, it.down, clock);
    }
    assert Ascending(h) && Ascending(q) by { DownQueueAscending(c, it, clock); }
    assert Keeps(DropBefore(q, cutoff), h, cutoff, c.downCount) by {
      KeepsOnPurge(q, h, it.down.cutoff, c.downCount, cutoff);
    }
    assert AllFrom(DropBefore(q, cutoff), cutoff) by { DropBeforeKeepsAscending(q, cutoff); }
  }

  lemma DownInvOnPurge(c: Config, it: Item, clock: Time)
    requires c.Sane() && HistInv(it, clock) && DownInv(c, it, clock)
    ensures DownInv(c, PurgeItem(c, it, clock), clock)
  {
    var d := PurgeDown(c, it.down, clock);
    DownPurgeOfQueue(c, it.down, clock);
    DownKeepsOnPurge(c, it, clock);
    assert PurgeItem(c, it, clock).down == d && PurgeItem(c, it, clock).stamps == it.stamps;
    assert d.from == it.down.from && d.resetAt == it.down.resetAt && d.cutoff == clock - c.downPeriod;
    assert SinceDownReset(PurgeItem(c, it, clock)) == SinceDownReset(it);
  }

  lemma DownInvOnReset(c: Config, it: Item, clock: Time, slip: nat)
    requires HistInv(it, clock) && DownInv(c, it, clock)
    ensures DownInv(c, ResetDownItem(it, clock, slip), clock)
  {
    assert Queue(Emptied(it.down.queues), 0) == [];
    KeepsOnReset(it.down.cutoff, c.downCount);
    assert it.stamps[|it.stamps|..] == [];
  }

  // What downBoundFreqExcess compares: the stamps of all queues.
  lemma DownMeasure(c: Config, it: Item, clock: Time, start: Time)
    requires HistInv(it, clock) && DownInv(c, it, clock)
    requires it.down.cutoff <= start && AllFrom(Queue(it.down.queues, 0), start)
    ensures Measured(it.down.queues, 0) < c.downCount <==> CountFrom(SinceDownReset(it), start) < c.downCount
  {
    TotalOfSingleKey(it.down.queues);
    SuffixAscending(it.stamps, it.down.from);
    FromAll(Queue(it.down.queues, 0), start);
    KeepsDecides(Queue(it.down.queues, 0), SinceDownReset(it), it.down.cutoff, c.downCount, start);
  }

  // Matches before the last reset lie outside every window that starts after it.
  lemma OlderMatchesOutside(c: Config, it: Item, clock: Time, start: Time)
    requires DownInv(c, it, clock) && it.down.resetAt < start
    ensures CountFrom(it.stamps, start) == CountFrom(SinceDownReset(it), start)
  {
    var h, n := it.stamps, it.down.from;
    assert h == h[..n] + h[n..];
    CountFromConcat(h[..n], h[n..], start);
    FromNone(h[..n], start);
  }

  lemma OlderMatchesSlip(c: Config, it: Item, clock: Time, start: Time, slip: nat)
    requires DownInv(c, it, clock) && it.down.resetAt < start + slip
    ensures CountFrom(it.stamps, start + slip) <= CountFrom(SinceDownReset(it), start)
  {
    var h, late := SinceDownReset(it), start + slip;
    OlderMatchesOutside(c, it, clock, late);
    CountFromAntitone(h, start, late);
  }

  // ----- the up-bound side -----

  // The stamps of the matches of one key since the last up-bound reset.
  function SinceUpReset(it: Item, key: Key): seq<Time>
    requires it.up.from <= |it.hist|
  {
    KeyStamps(it.hist[it.up.from..], key)
  }

  // The cutoff of the last purge that did not step over the key.
  function LastCutoff(period: nat, first: Time, sweeps: seq<Sweep>, key: Key): Time
    decreases |sweeps|
  {
    if sweeps == [] then first else
    var n := |sweeps| - 1;
    if sweeps[n].skip != At(key) then sweeps[n].at - period else LastCutoff(period, first, sweeps[..n], key)
  }

  function KeyCutoff(c: Config, u: Up, key: Key): Time {
    LastCutoff(c.upPeriod, u.first, u.sweeps, key)
  }

  // The queue of a key is what the last purge that looked at it left, and what has been pushed since.
  ghost predicate KeyInv(c: Config, it: Item, clock: Time, k: Key)
    requires it.up.from <= |it.hist|
  {
    var q, cutoff := Queue(it.up.queues, k), KeyCutoff(c, it.up, k);
    KeepsFresh(q, SinceUpReset(it, k), cutoff, c.upCount) && cutoff <= clock - c.upPeriod
  }

  ghost predicate UpInv(c: Config, it: Item, clock: Time) {
    var u := it.up;
    && u.from <= |it.hist|
    && (!c.usecrc ==> u.queues.Keys <= {0} && forall i | 0 <= i < |u.sweeps| :: u.sweeps[i].skip == End)
    && (forall k: Key :: KeyInv(c, it, clock, k))
    && Total(u.queues) <= |it.hist| - u.from
    && SweepsInv(u.sweeps, clock)
  }

  ghost predicate SweepsInv(sweeps: seq<Sweep>, clock: Time) {
    && (forall i | 0 <= i < |sweeps| :: sweeps[i].at <= clock)
    && forall i, j | 0 <= i < j < |sweeps| :: sweeps[i].at <= sweeps[j].at
  }

  // No purge that looked at the key used a later cutoff.
  lemma {:induction false} LastCutoffIsLast(period: nat, first: Time, sweeps: seq<Sweep>, key: Key, clock: Time, i: nat)
    requires SweepsInv(sweeps, clock) && i < |sweeps| && sweeps[i].skip != At(key)
    ensures LastCutoff(period, first, sweeps, key) >= sweeps[i].at - period
    decreases |sweeps|
  {
    var n := |sweeps| - 1;
    if sweeps[n].skip == At(key) { LastCutoffIsLast(period, first, sweeps[..n], key, clock, i); }
  }

  lemma PushedFrom(q: seq<Time>, count: nat, now: Time, cutoff: Time)
    requires AllFrom(q, cutoff) && cutoff <= now
    ensures AllFrom(Capped(q, HardLimit(count)) + [now], cutoff)
  {}

  lemma KeyAfterCount(c: Config, it: Item, key: Key, clock: Time, k: Key)
    requires it.up.from <= |it.hist|
    ensures var it' := CountUpItem(c, it, key, clock); var q := Queue(it.up.queues, k);
            && Queue(it'.up.queues, k) == (if k == key then Capped(q, HardLimit(c.upCount)) + [clock] else q)
            && SinceUpReset(it', k) == SinceUpReset(it, k) + if k == key then [clock] else []
  {
    var rest, m := it.hist[it.up.from..], Match(key, clock);
    assert CountUpItem(c, it, key, clock).hist[it.up.from..] == rest + [m];
    KeyStampsExtend(rest, m, k);
  }

  lemma KeyInvOnCount(c: Config, it: Item, key: Key, clock: Time, k: Key)
    requires c.Sane() && it.up.from <= |it.hist| && KeyInv(c, it, clock, k)
    ensures KeyInv(c, CountUpItem(c, it, key, clock), clock, k)
  {
    var q, h, cutoff := Queue(it.up.queues, k), SinceUpReset(it, k), KeyCutoff(c, it.up, k);
    KeyAfterCount(c, it, key, clock, k);
    if k == key {
      KeepsFreshOnPush(q, h, cutoff, c.upCount, clock);
    } else {
      assert h + [] == h;
    }
  }

  lemma TotalOnPush(m: Queues, count: nat, key: Key, now: Time)
    ensures Total(Pushed(m, count, key, now)) <= Total(m) + 1
  {
    var q := Capped(Queue(m, key), HardLimit(count)) + [now];
    TotalUpdate(m, key, q);
    if key in m { TotalSplit(m, key); } else { assert m - {key} == m; }
  }

  lemma UpInvOnCount(c: Config, it: Item, key: Key, clock: Time)
    requires c.Sane() && UpInv(c, it, clock) && (!c.usecrc ==> key == 0)
    ensures UpInv(c, CountUpItem(c, it, key, clock), clock)
  {
    var it' := CountUpItem(c, it, key, clock);
    forall k: Key ensures KeyInv(c, it', clock, k) {
      assert KeyInv(c, it, clock, k);
      KeyInvOnCount(c, it, key, clock, k);
    }
    TotalOnPush(it.up.queues, c.upCount, key, clock);
  }

  lemma SinceUpResetAscending(it: Item, clock: Time, k: Key)
    requires HistInv(it, clock) && it.up.from <= |it.hist|
    ensures Ascending(SinceUpReset(it, k))
  {
    var rest := it.hist[it.up.from..];
    assert Stamps(rest) == Stamps(it.hist)[it.up.from..];
    SuffixAscending(Stamps(it.hist), it.up.from);
    KeyStampsAscending(rest, k);
  }

  lemma CutoffOnPurge(c: Config, u: Up, now: Time, k: Key)
    requires c.Sane()
    ensures KeyCutoff(c, PurgeUp(c, u, now), k)
         == if Skipped(u.queues, now - c.upPeriod) == At(k) then KeyCutoff(c, u, k) else now - c.upPeriod
  {
    var n, sweeps := |u.sweeps|, PurgeUp(c, u, now).sweeps;
    assert sweeps[..n] == u.sweeps && sweeps[n] == Sweep(now, Skipped(u.queues, now - c.upPeriod));
  }

  lemma KeyAfterPurge(c: Config, it: Item, clock: Time, k: Key)
    requires c.Sane() && it.up.from <= |it.hist|
    ensures var it', cutoff := PurgeItem(c, it, clock), clock - c.upPeriod;
            && Queue(it'.up.queues, k) == Queue(Purged(it.up.queues, cutoff, Skipped(it.up.queues, cutoff)), k)
            && it'.up.from == it.up.from && it'.hist == it.hist && SinceUpReset(it', k) == SinceUpReset(it, k)
  {}

  lemma KeyInvOnPurge(c: Config, it: Item, clock: Time, k: Key)
    requires c.Sane() && HistInv(it, clock) && it.up.from <= |it.hist| && KeyInv(c, it, clock, k)
    ensures KeyInv(c, PurgeItem(c, it, clock), clock, k)
  {
    SinceUpResetAscending(it, clock, k);
    KeepsFreshOnPass(it.up.queues, k, SinceUpReset(it, k), KeyCutoff(c, it.up, k), c.upCount, clock - c.upPeriod);
    CutoffOnPurge(c, it.up, clock, k);
    KeyAfterPurge(c, it, clock, k);
  }

  lemma QueueAscending(c: Config, it: Item, clock: Time, k: Key)
    requires HistInv(it, clock) && UpInv(c, it, clock)
    ensures Ascending(Queue(it.up.queues, k))
  {
    var q, h := Queue(it.up.queues, k), SinceUpReset(it, k);
    SinceUpResetAscending(it, clock, k);
    assert KeyInv(c, it, clock, k);
    SuffixAscending(h, |h| - |q|);
  }

  lemma UpInvOnPurge(c: Config, it: Item, clock: Time)
    requires c.Sane() && HistInv(it, clock) && UpInv(c, it, clock)
    ensures UpInv(c, PurgeItem(c, it, clock), clock)
  {
    var it', cutoff := PurgeItem(c, it, clock), clock - c.upPeriod;
    forall k: Key ensures KeyInv(c, it', clock, k) {
      assert KeyInv(c, it, clock, k);
      KeyInvOnPurge(c, it, clock, k);
    }
    if !c.usecrc { SingleKeyNeverSkipped(it.up.queues, 0, cutoff); }
    forall k | k in it'.up.queues ensures |it'.up.queues[k]| <= |it.up.queues[k]| {
      DropBeforeShrinks(it.up.queues[k], cutoff);
    }
    TotalMonotone(it'.up.queues, it.up.queues);
  }

  lemma {:induction false} TotalOfEmptied(m: Queues)
    ensures Total(Emptied(m)) == 0
    decreases |m|
  {
    var i := Begin(m);
    if i.At? {
      SeekIs(Emptied(m), 0, i.key);
      assert Emptied(m) - {i.key} == Emptied(m - {i.key});
      TotalOfEmptied(m - {i.key});
    }
  }

  // The invariant looks at nothing else, and keeps as time goes by.
  lemma UpInvSame(c: Config, it: Item, it': Item, clock: Time, later: Time)
    requires UpInv(c, it, clock) && it'.hist == it.hist && it'.up == it.up.(alarms := it'.up.alarms) && clock <= later
    ensures UpInv(c, it', later)
  {
    forall k: Key ensures KeyInv(c, it', later, k) {
      assert KeyInv(c, it, clock, k);
      assert SinceUpReset(it', k) == SinceUpReset(it, k);
    }
  }

  lemma UpInvOnReset(c: Config, it: Item, clock: Time)
    requires UpInv(c, it, clock)
    ensures UpInv(c, ResetUpItem(it), clock)
  {
    var it' := ResetUpItem(it);
    TotalOfEmptied(it.up.queues);
    assert it'.hist[|it'.hist|..] == [];
    forall k: Key ensures KeyInv(c, it', clock, k) {
      assert KeyInv(c, it, clock, k);
      KeepsOnReset(KeyCutoff(c, it.up, k), c.upCount);
      assert Queue(it'.up.queues, k) == [] && SinceUpReset(it', k) == [];
    }
  }

  // ----- what upBoundFreqExcess compares -----

  // The matches not older than the cutoff of their own key.
  function CountLive(hist: seq<Match>, cutoff: Key -> Time): nat
    decreases |hist|
  {
    if hist == [] then 0 else
    var n := |hist| - 1;
    CountLive(hist[..n], cutoff) + if hist[n].at >= cutoff(hist[n].key) then 1 else 0
  }

  lemma {:induction false} CountLiveAntitone(hist: seq<Match>, lower: Key -> Time, upper: Key -> Time)
    requires forall k: Key :: lower(k) <= upper(k)
    ensures CountLive(hist, upper) <= CountLive(hist, lower)
    decreases |hist|
  {
    if hist != [] { CountLiveAntitone(hist[..|hist| - 1], lower, upper); }
  }

  // With one cutoff for all keys these are the stamps in a window.
  lemma {:induction false} CountLiveIsWindow(hist: seq<Match>, start: Time)
    ensures CountLive(hist, (k: Key) => start) == CountFrom(Stamps(hist), start)
    decreases |hist|
  {
    if hist != [] {
      var n := |hist| - 1;
      CountLiveIsWindow(hist[..n], start);
      assert Stamps(hist) == Stamps(hist[..n]) + [hist[n].at];
      CountFromConcat(Stamps(hist[..n]), [hist[n].at], start);
      assert [hist[n].at][1..] == [];
    }
  }

  lemma CountFromExtend(q: seq<Time>, at: Time, start: Time)
    ensures CountFrom(q + [at], start) == CountFrom(q, start) + if at >= start then 1 else 0
  {
    CountFromConcat(q, [at], start);
    assert [at][1..] == [];
  }

  lemma {:induction false} KeyCountsLive(hist: seq<Match>, cutoff: Key -> Time, key: Key)
    ensures CountFrom(KeyStamps(hist, key), cutoff(key)) <= CountLive(hist, cutoff)
    decreases |hist|
  {
    if hist != [] {
      var n := |hist| - 1;
      KeyCountsLive(hist[..n], cutoff, key);
      CountFromExtend(KeyStamps(hist[..n], key), hist[n].at, cutoff(key));
      assert KeyStamps(hist[..n], key) + [] == KeyStamps(hist[..n], key);
    }
  }

  lemma KeyCountStep(hist: seq<Match>, cutoff: Key -> Time, k: Key)
    requires hist != []
    ensures var last := hist[|hist| - 1];
            CountFrom(KeyStamps(hist, k), cutoff(k)) == CountFrom(KeyStamps(hist[..|hist| - 1], k), cutoff(k))
              + if last.key == k && last.at >= cutoff(k) then 1 else 0
  {
    var n := |hist| - 1;
    CountFromExtend(KeyStamps(hist[..n], k), hist[n].at, cutoff(k));
    assert KeyStamps(hist[..n], k) + [] == KeyStamps(hist[..n], k);
  }

  // Queues that hold at least as many stamps as there are live matches of their key hold at least all.
  lemma {:induction false} TotalAtLeast(m: Queues, hist: seq<Match>, cutoff: Key -> Time)
    requires forall k: Key :: CountFrom(KeyStamps(hist, k), cutoff(k)) <= |Queue(m, k)|
    ensures CountLive(hist, cutoff) <= Total(m)
    decreases |hist|
  {
    if hist != [] {
      var n := |hist| - 1;
      var key := hist[n].key;
      var rest, q := hist[..n], Queue(m, key);
      forall k: Key ensures CountFrom(KeyStamps(rest, k), cutoff(k)) <= |Queue(m, k)|
                         && (k == key && hist[n].at >= cutoff(k) ==> CountFrom(KeyStamps(rest, k), cutoff(k)) < |q|) {
        KeyCountStep(hist, cutoff, k);
      }
      if hist[n].at >= cutoff(key) {
        OneLess(m, key);
        TotalAtLeast(m[key := q[1..]], rest, cutoff);
      } else {
        TotalAtLeast(m, rest, cutoff);
      }
    }
  }

  lemma OneLess(m: Queues, key: Key)
    requires Queue(m, key) != []
    ensures Total(m[key := Queue(m, key)[1..]]) == Total(m) - 1
  {
    TotalUpdate(m, key, Queue(m, key)[1..]);
    TotalSplit(m, key);
  }

  lemma {:induction false} TotalOfNothing(m: Queues)
    requires forall k <- m :: m[k] == []
    ensures Total(m) == 0
  {
    assert m == Emptied(m);
    TotalOfEmptied(m);
  }

  // And queues that hold at most as many hold at most all.
  lemma {:induction false} TotalAtMost(m: Queues, hist: seq<Match>, cutoff: Key -> Time)
    requires forall k: Key :: |Queue(m, k)| <= CountFrom(KeyStamps(hist, k), cutoff(k))
    ensures Total(m) <= CountLive(hist, cutoff)
    decreases |hist|
  {
    if hist == [] {
      forall k | k in m ensures m[k] == [] { assert |Queue(m, k)| <= CountFrom(KeyStamps(hist, k), cutoff(k)); }
      TotalOfNothing(m);
    } else {
      var n := |hist| - 1;
      var key := hist[n].key;
      var rest, q := hist[..n], Queue(m, key);
      var m' := if hist[n].at >= cutoff(key) && q != [] then m[key := q[1..]] else m;
      forall k: Key ensures |Queue(m', k)| <= CountFrom(KeyStamps(rest, k), cutoff(k)) {
        KeyCountStep(hist, cutoff, k);
      }
      if m' != m { OneLess(m, key); }
      TotalAtMost(m', rest, cutoff);
    }
  }

  // How many matches since the last alarm the test for `key` is about: for key 0 those of all keys.
  function Live(c: Config, it: Item, key: Key): nat
    requires it.up.from <= |it.hist|
  {
    if key == 0 then CountLive(it.hist[it.up.from..], (k: Key) => KeyCutoff(c, it.up, k))
    else CountFrom(SinceUpReset(it, key), KeyCutoff(c, it.up, key))
  }

  // Those of them in a window.
  function InWindow(it: Item, key: Key, start: Time): nat
    requires it.up.from <= |it.hist|
  {
    CountFrom(if key == 0 then Stamps(it.hist[it.up.from..]) else SinceUpReset(it, key), start)
  }

  // The queue of a key holds its live matches, or is too long for the limit to matter.
  lemma KeyHoldsLive(c: Config, it: Item, clock: Time, k: Key)
    requires HistInv(it, clock) && UpInv(c, it, clock)
    ensures var q, live := Queue(it.up.queues, k), CountFrom(SinceUpReset(it, k), KeyCutoff(c, it.up, k));
            |q| <= live && (|q| <= c.upCount ==> live == |q|)
  {
    var q, h, cutoff := Queue(it.up.queues, k), SinceUpReset(it, k), KeyCutoff(c, it.up, k);
    assert KeyInv(c, it, clock, k);
    var d := h[..|h| - |q|];
    assert h == d + q;
    CountFromConcat(d, q, cutoff);
    FromAll(q, cutoff);
    if |q| <= c.upCount { FromNone(d, cutoff); }
  }

  /** The decision of the up-bound test: more stamps are held under the key than `upCount` exactly when
      more matches since the last alarm are not older than the cutoff of the last purge that looked at
      their key. */
  lemma MeasuredLive(c: Config, it: Item, key: Key, clock: Time)
    requires HistInv(it, clock) && UpInv(c, it, clock) && (key == 0 || key in it.up.queues)
    ensures Measured(it.up.queues, key) > c.upCount <==> Live(c, it, key) > c.upCount
  {
    if key != 0 {
      KeyHoldsLive(c, it, clock, key);
    } else {
      AllHoldLive(c, it, clock);
    }
  }

  lemma AllHoldLive(c: Config, it: Item, clock: Time)
    requires HistInv(it, clock) && UpInv(c, it, clock)
    ensures Total(it.up.queues) > c.upCount <==> Live(c, it, 0) > c.upCount
  {
    var m, rest := it.up.queues, it.hist[it.up.from..];
    var cutoff := (k: Key) => KeyCutoff(c, it.up, k);
    forall k: Key ensures |Queue(m, k)| <= CountFrom(KeyStamps(rest, k), cutoff(k)) {
      KeyHoldsLive(c, it, clock, k);
    }
    TotalAtMost(m, rest, cutoff);
    if Total(m) <= c.upCount {
      forall k: Key ensures CountFrom(KeyStamps(rest, k), cutoff(k)) <= |Queue(m, k)| {
        TotalBound(m, k);
        KeyHoldsLive(c, it, clock, k);
      }
      TotalAtLeast(m, rest, cutoff);
    }
  }

  // A purge that looked at all matches of the test.
  predicate LooksAt(sweep: Sweep, key: Key) {
    if key == 0 then sweep.skip == End else sweep.skip != At(key)
  }

  lemma LiveInWindow(c: Config, it: Item, key: Key, clock: Time)
    requires UpInv(c, it, clock)
    ensures InWindow(it, key, clock - c.upPeriod) <= Live(c, it, key)
  {
    var start := clock - c.upPeriod;
    forall k: Key ensures KeyCutoff(c, it.up, k) <= start { assert KeyInv(c, it, clock, k); }
    if key == 0 {
      CountLiveIsWindow(it.hist[it.up.from..], start);
      CountLiveAntitone(it.hist[it.up.from..], (k: Key) => KeyCutoff(c, it.up, k), (k: Key) => start);
    } else {
      CountFromAntitone(SinceUpReset(it, key), KeyCutoff(c, it.up, key), start);
    }
  }

  lemma WindowCoversLive(c: Config, it: Item, key: Key, clock: Time, lag: nat, sweep: nat)
    requires UpInv(c, it, clock) && sweep < |it.up.sweeps|
    requires clock - it.up.sweeps[sweep].at <= lag && LooksAt(it.up.sweeps[sweep], key)
    ensures Live(c, it, key) <= InWindow(it, key, clock - c.upPeriod - lag)
  {
    var start, u := clock - c.upPeriod - lag, it.up;
    if key == 0 {
      forall k: Key ensures start <= KeyCutoff(c, u, k) {
        LastCutoffIsLast(c.upPeriod, u.first, u.sweeps, k, clock, sweep);
      }
      CountLiveIsWindow(it.hist[u.from..], start);
      CountLiveAntitone(it.hist[u.from..], (k: Key) => start, (k: Key) => KeyCutoff(c, u, k));
    } else {
      LastCutoffIsLast(c.upPeriod, u.first, u.sweeps, key, clock, sweep);
      CountFromAntitone(SinceUpReset(it, key), start, KeyCutoff(c, u, key));
    }
  }

  // ----- the look-up after a match -----

  /** A purge after `deadline` did not step over the key. */
  ghost predicate Missed(u: Up, key: Key, deadline: Time) {
    exists i :: 0 <= i < |u.sweeps| && u.sweeps[i].at > deadline && u.sweeps[i].skip != At(key)
  }

  // Between a match at `at` and the test of its bound: the stamp is the newest under its key, unless
  // such a purge has removed the key.
  ghost predicate Counted(c: Config, u: Up, key: Key, at: Time) {
    if Missed(u, key, at + c.upPeriod) then key !in u.queues
    else var q := Queue(u.queues, key); q != [] && q[|q| - 1] == at
  }

  lemma CountedOnCount(c: Config, it: Item, key: Key, clock: Time)
    requires UpInv(c, it, clock)
    ensures Counted(c, CountUpItem(c, it, key, clock).up, key, clock)
  {
    assert SweepsInv(it.up.sweeps, clock);
  }

  lemma MissedOnPurge(c: Config, u: Up, now: Time, key: Key, deadline: Time)
    requires c.Sane()
    ensures Missed(PurgeUp(c, u, now), key, deadline) <==>
              Missed(u, key, deadline) || (now > deadline && Skipped(u.queues, now - c.upPeriod) != At(key))
  {
    var sweeps := PurgeUp(c, u, now).sweeps;
    assert sweeps[|u.sweeps|] == Sweep(now, Skipped(u.queues, now - c.upPeriod));
    if Missed(u, key, deadline) {
      var i :| 0 <= i < |u.sweeps| && u.sweeps[i].at > deadline && u.sweeps[i].skip != At(key);
      assert sweeps[i] == u.sweeps[i];
    }
  }

  lemma {:induction false} DropAll(q: seq<Time>, cutoff: Time)
    requires AllBefore(q, cutoff)
    ensures DropBefore(q, cutoff) == []
    decreases |q|
  {
    if q != [] { DropAll(q[1..], cutoff); }
  }

  // A purge spares the newest stamp of a queue when that is young enough.
  lemma PurgeSparesLast(q: seq<Time>, cutoff: Time)
    requires q != [] && q[|q| - 1] >= cutoff
    ensures var r := DropBefore(q, cutoff); r != [] && r[|r| - 1] == q[|q| - 1]
  {
    DropBeforeSplits(q, cutoff);
    var n := |q| - |DropBefore(q, cutoff)|;
    assert q[n..] == DropBefore(q, cutoff);
  }

  lemma CountedOnPurge(c: Config, u: Up, now: Time, key: Key, at: Time)
    requires c.Sane() && Counted(c, u, key, at) && Ascending(Queue(u.queues, key))
    ensures Counted(c, PurgeUp(c, u, now), key, at)
  {
    var q, cutoff := Queue(u.queues, key), now - c.upPeriod;
    MissedOnPurge(c, u, now, key, at + c.upPeriod);
    if !Missed(u, key, at + c.upPeriod) && Skipped(u.queues, cutoff) != At(key) {
      if at < cutoff {
        assert forall i | 0 <= i < |q| :: q[i] <= q[|q| - 1];
        DropAll(q, cutoff);
      } else {
        PurgeSparesLast(q, cutoff);
      }
    }
  }

  // ----- the two threads -----

  /** The thread that reads logs: reading, inside Match with the lock of item `i` after the up-bound side
      has counted, about to test the bound after a match, or about to empty the queues after an alarm.
      Undefined: the test looked up a key that was gone, and read through the end iterator. */
  datatype Reader =
    | Reading
    | Counting(i: nat, key: Key, at: Time, captures: nat)
    | Testing(i: nat, key: Key, at: Time)
    | Resetting(i: nat)
    | Undefined

  /** The checker thread: asleep, about to purge item `i`, about to test it after a purge at
      `purgedAt`, or about to empty its queue after an alarm. */
  datatype Checker = Sleeping | Purging(i: nat) | Checking(i: nat, purgedAt: Time) | Emptying(i: nat)

  datatype Action = UpAction(i: nat) | DownAction(i: nat)

  // A down-bound alarm of item `i`, in a pass that read `at` from the clock, and when it was raised.
  datatype Alarm = Alarm(i: nat, at: Time, raised: Time)

  /** `startTime` and `passNow` are the checker's `start_time` and `tnow`, `passStart` is `start_time`
      as it was when `uptime` was computed.  `born` is when the checker started, `alarms` are all
      down-bound alarms so far, and `earlier` says how many of them came before the running pass. */
  datatype State = State(clock: Time, items: seq<Item>, reader: Reader, checker: Checker,
                         startTime: Time, passNow: Time, passStart: Time,
                         born: Time, alarms: seq<Alarm>, earlier: nat,
                         actions: seq<Action>)

  /** A step of the clock, of the reader or of the checker.  `CountUp` and `CountDown` are the two halves
      of a call of `Match` whose regular expression matched; it returns `captures`, and a bound is only
      tested when that is positive. */
  datatype Step =
    | Tick(seconds: nat)
    | CountUp(i: nat, key: Key, captures: nat)
    | CountDown
    | TestUp
    | ResetUp
    | StartPass
    | Purge
    | TestDown
    | ResetDown

  function Put(s: State, i: nat, it: Item): State
    requires i < |s.items|
  {
    s.(items := s.items[i := it])
  }

  function ReaderStep(cs: seq<Config>, s: State, st: Step): Option<State>
    requires |s.items| == |cs|
  {
    match (st, s.reader)
    case (CountUp(i, key, captures), Reading) =>
      if i < |cs| && (!cs[i].usecrc ==> key == 0) && (cs[i].usecrc ==> captures > 0) then
        Some(Put(s, i, CountUpItem(cs[i], s.items[i], key, s.clock)).
             (reader := Counting(i, key, s.clock, captures)))
      else None
    case (CountDown, Counting(i, key, at, captures)) =>
      if i >= |cs| then None else
      Some(Put(s, i, CountDownItem(cs[i], s.items[i], s.clock)).
           (reader := if captures > 0 then Testing(i, key, at) else Reading))
    case (TestUp, Testing(i, key, _)) =>
      if i >= |cs| then None else
      var it := s.items[i];
      if key != 0 && key !in it.up.queues then Some(s.(reader := Undefined))
      else if Measured(it.up.queues, key) > cs[i].upCount then
        Some(Put(s, i, it.(up := it.up.(alarms := it.up.alarms + 1))).
             (reader := Resetting(i), actions := s.actions + [UpAction(i)]))
      else Some(s.(reader := Reading))
    case (ResetUp, Resetting(i)) =>
      if i < |cs| then Some(Put(s, i, ResetUpItem(s.items[i])).(reader := Reading)) else None
    case _ => None
  }

  // The branch of the checker that raises an alarm.
  predicate Fires(c: Config, it: Item, uptime: int) {
    c.downCount > 0 && uptime > c.downPeriod && Measured(it.down.queues, 0) < c.downCount
  }

  // Match holds the lock of the item across both counts.
  predicate Locked(s: State, i: nat) {
    s.reader.Counting? && s.reader.i == i
  }

  function CheckerStep(cs: seq<Config>, s: State, st: Step): Option<State>
    requires |s.items| == |cs|
  {
    match (st, s.checker)
    case (StartPass, Sleeping) =>
      Some(s.(checker := Purging(0), passNow := s.clock, passStart := s.startTime, earlier := |s.alarms|))
    case (Purge, Purging(i)) =>
      if i == |cs| then Some(s.(checker := Sleeping))
      else if i < |cs| && !Locked(s, i) then
        Some(Put(s, i, PurgeItem(cs[i], s.items[i], s.clock)).(checker := Checking(i, s.clock)))
      else None
    case (TestDown, Checking(i, _)) =>
      if i >= |cs| || Locked(s, i) then None
      else if Fires(cs[i], s.items[i], s.passNow - s.passStart) then
        Some(s.(checker := Emptying(i), alarms := s.alarms + [Alarm(i, s.passNow, s.clock)],
                actions := s.actions + [DownAction(i)]))
      else Some(s.(checker := Purging(i + 1)))
    case (ResetDown, Emptying(i)) =>
      if i >= |cs| || Locked(s, i) || s.clock < s.passNow then None else
      Some(Put(s, i, ResetDownItem(s.items[i], s.clock, s.clock - s.passNow)).
           (checker := Purging(i + 1), startTime := s.passNow))
    case _ => None
  }

  function Next(cs: seq<Config>, s: State, st: Step): Option<State>
    requires |s.items| == |cs|
  {
    match st
    case Tick(seconds) => Some(s.(clock := s.clock + seconds))
    case CountUp(_, _, _) => ReaderStep(cs, s, st)
    case CountDown => ReaderStep(cs, s, st)
    case TestUp => ReaderStep(cs, s, st)
    case ResetUp => ReaderStep(cs, s, st)
    case _ => CheckerStep(cs, s, st)
  }

  function Fresh(c: Config, clock: Time): Item {
    Item([], [], Up(map[], 0, clock - c.upPeriod, [], 0), Down(map[], 0, clock, 0, clock - c.downPeriod))
  }

  function Start(cs: seq<Config>, clock: Time): State {
    State(clock,
          seq(|cs|, i requires 0 <= i < |cs| => Fresh(cs[i], clock)),
          Reading, Sleeping, clock, clock, clock, clock, [], 0, [])
  }

  function Run(cs: seq<Config>, s: State, steps: seq<Step>): Option<State>
    requires |s.items| == |cs|
    decreases |steps|
  {
    if steps == [] then Some(s) else
    var next := Next(cs, s, steps[0]);
    if next == None then None else Run(cs, next.value, steps[1..])
  }

  // ----- what every step keeps -----

  ghost predicate ItemInv(c: Config, it: Item, clock: Time) {
    c.Sane() && HistInv(it, clock) && UpInv(c, it, clock) && DownInv(c, it, clock)
  }

  ghost predicate ItemsInv(cs: seq<Config>, items: seq<Item>, clock: Time) {
    |items| == |cs| && forall i | 0 <= i < |cs| :: ItemInv(cs[i], items[i], clock)
  }

  // Every alarm has used up count + 1 matches.
  ghost predicate BudgetInv(cs: seq<Config>, items: seq<Item>, reader: Reader)
    requires |items| == |cs|
  {
    forall i | 0 <= i < |cs| ::
      items[i].up.alarms * (cs[i].upCount + 1)
        <= (if reader == Resetting(i) then |items[i].hist| else items[i].up.from)
  }

  // The key of a match is still there when the bound is tested, unless a purge came too late.
  ghost predicate ReaderInv(cs: seq<Config>, items: seq<Item>, reader: Reader, clock: Time)
    requires |items| == |cs|
  {
    match reader
    case Counting(i, key, at, _) =>
      i < |cs| && at <= clock && (!cs[i].usecrc ==> key == 0) && Counted(cs[i], items[i].up, key, at)
    case Testing(i, key, at) =>
      i < |cs| && at <= clock && (!cs[i].usecrc ==> key == 0) && Counted(cs[i], items[i].up, key, at)
    case Resetting(i) => i < |cs|
    case _ => true
  }

  // Which `start_time` the checker will hold, or holds, against the next alarm of item `i`.
  function Baseline(s: State, i: nat): Time {
    match s.checker
    case Sleeping => s.startTime
    case Purging(j) => if i < j then s.startTime else s.passStart
    case Checking(j, _) => if i < j then s.startTime else s.passStart
    case Emptying(j) => if i < j then s.startTime else s.passStart
  }

  ghost predicate PassInv(cs: seq<Config>, s: State)
    requires |s.items| == |cs|
  {
    && s.passStart <= s.startTime <= s.clock && s.passNow <= s.clock
    && (s.checker.Sleeping? || (s.startTime <= s.passNow && s.checker.i <= |cs|))
    && (s.checker.Checking? || s.checker.Emptying? ==> s.checker.i < |cs|)
    && (s.checker.Checking? ==>
          var i, p := s.checker.i, s.checker.purgedAt;
          && s.passNow <= p <= s.clock && s.items[i].down.cutoff == p - cs[i].downPeriod
          && AllFrom(Queue(s.items[i].down.queues, 0), p - cs[i].downPeriod))
    && (forall i | 0 <= i < |cs| :: s.items[i].down.resetAt <= Baseline(s, i) + s.items[i].down.slip)
  }

  // The pass time of the latest alarm, or the start of the checker before there is one.
  function Latest(born: Time, alarms: seq<Alarm>): Time {
    if alarms == [] then born else alarms[|alarms| - 1].at
  }

  // What the checker's bookkeeping of alarms is about.
  datatype Book = Book(checker: Checker, startTime: Time, passNow: Time, passStart: Time,
                       born: Time, alarms: seq<Alarm>, earlier: nat)

  function BookOf(s: State): Book {
    Book(s.checker, s.startTime, s.passNow, s.passStart, s.born, s.alarms, s.earlier)
  }

  // The alarms after which `start_time` has been set.
  function Settled(b: Book): seq<Alarm> {
    if b.checker.Emptying? && b.alarms != [] then b.alarms[..|b.alarms| - 1] else b.alarms
  }

  ghost predicate AlarmTimes(born: Time, alarms: seq<Alarm>, latest: Time) {
    && born <= latest
    && (forall j | 0 <= j < |alarms| :: born <= alarms[j].at <= latest && alarms[j].at <= alarms[j].raised)
    && (forall j, k | 0 <= j < k < |alarms| :: alarms[j].at <= alarms[k].at)
  }

  // The items whose turn in the running pass is over, or that are being dealt with.
  function Done(checker: Checker): nat {
    match checker
    case Sleeping => 0
    case Purging(i) => i
    case Checking(i, _) => i
    case Emptying(i) => i + 1
  }

  /** `start_time` is the pass time of the latest alarm of any item, or the start of the checker; the
      alarms of the running pass belong to items it is done with. */
  ghost predicate AlarmsInv(b: Book) {
    && b.earlier <= |b.alarms| && AlarmTimes(b.born, b.alarms, b.passNow)
    && b.startTime == Latest(b.born, Settled(b))
    && (b.checker.Emptying? ==>
          |b.alarms| > b.earlier && b.alarms[|b.alarms| - 1].i == b.checker.i
          && b.alarms[|b.alarms| - 1].at == b.passNow)
    && (!b.checker.Sleeping? ==> b.passStart == Latest(b.born, b.alarms[..b.earlier]) && FromThisPass(b))
  }

  ghost predicate FromThisPass(b: Book) {
    forall j | b.earlier <= j < |b.alarms| :: b.alarms[j].at == b.passNow && b.alarms[j].i < Done(b.checker)
  }

  // Alarms of one item are more than its period apart.
  ghost predicate Spaced(cs: seq<Config>, alarms: seq<Alarm>) {
    && (forall j | 0 <= j < |alarms| :: alarms[j].i < |cs|)
    && forall j, k | 0 <= j < k < |alarms| && alarms[j].i == alarms[k].i ::
         alarms[k].at - alarms[j].at > cs[alarms[k].i].downPeriod
  }

  ghost predicate Inv(cs: seq<Config>, s: State) {
    ItemsInv(cs, s.items, s.clock) && ThreadsInv(cs, s)
  }

  lemma StartInv(cs: seq<Config>, clock: Time)
    requires forall c <- cs :: c.Sane()
    ensures Inv(cs, Start(cs, clock))
  {
    var s := Start(cs, clock);
    forall i | 0 <= i < |cs| ensures ItemInv(cs[i], s.items[i], clock) {
      FreshItemInv(cs[i], clock);
    }
  }

  lemma FreshItemInv(c: Config, clock: Time)
    requires c.Sane()
    ensures ItemInv(c, Fresh(c, clock), clock)
  {
    var it := Fresh(c, clock);
    assert it.hist[0..] == [] && it.stamps[0..] == [] && Total(it.up.queues) == 0;
    KeepsOnReset(it.down.cutoff, c.downCount);
    KeepsOnReset(it.up.first, c.upCount);
    forall k: Key ensures KeyInv(c, it, clock, k) {
      assert Queue(it.up.queues, k) == [] && SinceUpReset(it, k) == [];
    }
  }

  lemma ItemInvTicks(c: Config, it: Item, clock: Time, later: Time)
    requires ItemInv(c, it, clock) && clock <= later
    ensures ItemInv(c, it, later)
  {
    UpInvSame(c, it, it, clock, later);
  }

  // A step that changes at most item `i` keeps the items' invariant if it keeps that of the item.
  lemma PutKeepsItems(cs: seq<Config>, s: State, i: nat, it: Item)
    requires ItemsInv(cs, s.items, s.clock) && i < |cs| && ItemInv(cs[i], it, s.clock)
    ensures ItemsInv(cs, s.items[i := it], s.clock)
  {}

  lemma TickKeepsItems(cs: seq<Config>, s: State, seconds: nat)
    requires ItemsInv(cs, s.items, s.clock)
    ensures ItemsInv(cs, s.items, s.clock + seconds)
  {
    forall i | 0 <= i < |cs| ensures ItemInv(cs[i], s.items[i], s.clock + seconds) {
      ItemInvTicks(cs[i], s.items[i], s.clock, s.clock + seconds);
    }
  }

  // The part of the invariant that looks at no queue but those under test.
  ghost predicate ThreadsInv(cs: seq<Config>, s: State)
    requires |s.items| == |cs|
  {
    && BudgetInv(cs, s.items, s.reader) && ReaderInv(cs, s.items, s.reader, s.clock)
    && PassInv(cs, s) && AlarmsInv(BookOf(s)) && Spaced(cs, s.alarms)
  }

  // ----- the reader's steps -----

  lemma CountUpKeepsItems(cs: seq<Config>, s: State, i: nat, key: Key)
    requires ItemsInv(cs, s.items, s.clock) && i < |cs| && (!cs[i].usecrc ==> key == 0)
    ensures ItemsInv(cs, s.items[i := CountUpItem(cs[i], s.items[i], key, s.clock)], s.clock)
  {
    var c, it := cs[i], s.items[i];
    assert ItemInv(c, it, s.clock);
    StampsExtend(it.hist, key, s.clock);
    PastExtend(Stamps(it.hist), s.clock);
    UpInvOnCount(c, it, key, s.clock);
    assert SinceDownReset(CountUpItem(c, it, key, s.clock)) == SinceDownReset(it);
    PutKeepsItems(cs, s, i, CountUpItem(c, it, key, s.clock));
  }

  lemma CountDownKeepsItems(cs: seq<Config>, s: State, i: nat)
    requires ItemsInv(cs, s.items, s.clock) && i < |cs|
    ensures ItemsInv(cs, s.items[i := CountDownItem(cs[i], s.items[i], s.clock)], s.clock)
  {
    CountDownKeepsItem(cs[i], s.items[i], s.clock);
    PutKeepsItems(cs, s, i, CountDownItem(cs[i], s.items[i], s.clock));
  }

  lemma CountDownKeepsItem(c: Config, it: Item, clock: Time)
    requires ItemInv(c, it, clock)
    ensures ItemInv(c, CountDownItem(c, it, clock), clock)
  {
    PastExtend(it.stamps, clock);
    DownInvOnCount(c, it, clock);
    UpInvSame(c, it, CountDownItem(c, it, clock), clock, clock);
  }

  lemma CountDownKeepsPass(cs: seq<Config>, s: State)
    requires |s.items| == |cs| && PassInv(cs, s) && ReaderStep(cs, s, CountDown).Some?
    ensures PassInv(cs, ReaderStep(cs, s, CountDown).value)
  {
    var s', i := ReaderStep(cs, s, CountDown).value, s.reader.i;
    if s.checker.Checking? && s.checker.i == i {
      PushedFrom(Queue(s.items[i].down.queues, 0), cs[i].downCount, s.clock, s.checker.purgedAt - cs[i].downPeriod);
      assert Queue(s'.items[i].down.queues, 0)
          == Capped(Queue(s.items[i].down.queues, 0), HardLimit(cs[i].downCount)) + [s.clock];
    }
  }

  lemma OneMoreAlarm(alarms: nat, unit: nat, before: nat, now: nat)
    requires alarms * unit <= before && before + unit <= now
    ensures (alarms + 1) * unit <= now
  {}

  lemma AlarmKeepsItem(c: Config, it: Item, clock: Time, alarms: nat)
    requires ItemInv(c, it, clock)
    ensures ItemInv(c, it.(up := it.up.(alarms := alarms)), clock)
  {
    var it' := it.(up := it.up.(alarms := alarms));
    UpInvSame(c, it, it', clock, clock);
    assert SinceDownReset(it') == SinceDownReset(it);
  }

  lemma TestUpKeepsItems(cs: seq<Config>, s: State)
    requires ItemsInv(cs, s.items, s.clock) && ReaderStep(cs, s, TestUp).Some?
    ensures var s' := ReaderStep(cs, s, TestUp).value; ItemsInv(cs, s'.items, s'.clock)
  {
    var s', i := ReaderStep(cs, s, TestUp).value, s.reader.i;
    if s'.reader.Resetting? {
      var it := s.items[i];
      var it' := it.(up := it.up.(alarms := it.up.alarms + 1));
      assert s'.items == s.items[i := it'];
      assert ItemInv(cs[i], it, s.clock);
      AlarmKeepsItem(cs[i], it, s.clock, it.up.alarms + 1);
      PutKeepsItems(cs, s, i, it');
    }
  }

  lemma TestUpKeepsBudget(cs: seq<Config>, s: State)
    requires |s.items| == |cs| && BudgetInv(cs, s.items, s.reader) && ReaderStep(cs, s, TestUp).Some?
    requires var it := s.items[s.reader.i]; Total(it.up.queues) + it.up.from <= |it.hist|
    ensures var s' := ReaderStep(cs, s, TestUp).value; |s'.items| == |cs| && BudgetInv(cs, s'.items, s'.reader)
  {
    var i := s.reader.i;
    var it := s.items[i];
    TotalBound(it.up.queues, s.reader.key);
    if ReaderStep(cs, s, TestUp).value.reader.Resetting? {
      OneMoreAlarm(it.up.alarms, cs[i].upCount + 1, it.up.from, |it.hist|);
    }
  }

  lemma ResetUpKeepsItems(cs: seq<Config>, s: State, i: nat)
    requires ItemsInv(cs, s.items, s.clock) && i < |cs|
    ensures ItemsInv(cs, s.items[i := ResetUpItem(s.items[i])], s.clock)
  {
    assert ItemInv(cs[i], s.items[i], s.clock);
    UpInvOnReset(cs[i], s.items[i], s.clock);
    assert SinceDownReset(ResetUpItem(s.items[i])) == SinceDownReset(s.items[i]);
    PutKeepsItems(cs, s, i, ResetUpItem(s.items[i]));
  }

  // ----- the checker's steps -----

  lemma PurgeKeepsItems(cs: seq<Config>, s: State, i: nat)
    requires ItemsInv(cs, s.items, s.clock) && i < |cs|
    ensures ItemsInv(cs, s.items[i := PurgeItem(cs[i], s.items[i], s.clock)], s.clock)
  {
    assert ItemInv(cs[i], s.items[i], s.clock);
    UpInvOnPurge(cs[i], s.items[i], s.clock);
    DownInvOnPurge(cs[i], s.items[i], s.clock);
    PutKeepsItems(cs, s, i, PurgeItem(cs[i], s.items[i], s.clock));
  }

  // What a purge needs to know of the item: afterwards no stale stamp is left on the down-bound side,
  // and the queue a reader relies on is ascending.
  ghost predicate PurgePossible(cs: seq<Config>, s: State)
    requires |s.items| == |cs|
  {
    s.checker.Purging? && s.checker.i < |cs| ==>
      var i := s.checker.i;
      && cs[i].Sane()
      && AllFrom(Queue(PurgeDown(cs[i], s.items[i].down, s.clock).queues, 0), s.clock - cs[i].downPeriod)
      && forall k: Key :: Ascending(Queue(s.items[i].up.queues, k))
  }

  lemma ItemsPurgePossible(cs: seq<Config>, s: State)
    requires ItemsInv(cs, s.items, s.clock)
    ensures PurgePossible(cs, s)
  {
    if s.checker.Purging? && s.checker.i < |cs| {
      var i := s.checker.i;
      assert ItemInv(cs[i], s.items[i], s.clock);
      DownKeepsOnPurge(cs[i], s.items[i], s.clock);
      forall k: Key ensures Ascending(Queue(s.items[i].up.queues, k)) {
        QueueAscending(cs[i], s.items[i], s.clock, k);
      }
    }
  }

  lemma PurgeKeepsReader(cs: seq<Config>, s: State)
    requires |s.items| == |cs| && ReaderInv(cs, s.items, s.reader, s.clock) && PurgePossible(cs, s)
    requires CheckerStep(cs, s, Purge).Some?
    ensures var s' := CheckerStep(cs, s, Purge).value;
            |s'.items| == |cs| && ReaderInv(cs, s'.items, s'.reader, s'.clock)
  {
    var i := s.checker.i;
    if i < |cs| && s.reader.Testing? && i == s.reader.i {
      CountedOnPurge(cs[i], s.items[i].up, s.clock, s.reader.key, s.reader.at);
    }
  }

  // Going on to the next item, or to the test of the same one, keeps the bookkeeping.
  lemma AlarmsInvMoves(b: Book, checker: Checker)
    requires AlarmsInv(b) && !b.checker.Sleeping? && !b.checker.Emptying? && !checker.Emptying?
    requires checker.Sleeping? || Done(b.checker) <= Done(checker)
    ensures AlarmsInv(b.(checker := checker))
  {}

  lemma AlarmTimesExtend(born: Time, alarms: seq<Alarm>, latest: Time, i: nat, raised: Time)
    requires AlarmTimes(born, alarms, latest) && latest <= raised
    ensures AlarmTimes(born, alarms + [Alarm(i, latest, raised)], latest)
  {}

  lemma FromThisPassFires(b: Book, i: nat, raised: Time)
    requires FromThisPass(b) && b.checker.Checking? && b.checker.i == i
    ensures FromThisPass(b.(checker := Emptying(i), alarms := b.alarms + [Alarm(i, b.passNow, raised)]))
  {}

  lemma AlarmsInvFires(b: Book, i: nat, raised: Time)
    requires AlarmsInv(b) && b.checker.Checking? && b.checker.i == i && b.passNow <= raised
    ensures AlarmsInv(b.(checker := Emptying(i), alarms := b.alarms + [Alarm(i, b.passNow, raised)]))
  {
    var alarms := b.alarms + [Alarm(i, b.passNow, raised)];
    assert alarms[..b.earlier] == b.alarms[..b.earlier] && alarms[..|b.alarms|] == b.alarms;
    AlarmTimesExtend(b.born, b.alarms, b.passNow, i, raised);
    FromThisPassFires(b, i, raised);
  }

  // An alarm is due only when the item's last one is more than a period back.
  lemma SpacedFires(cs: seq<Config>, b: Book, i: nat, raised: Time)
    requires AlarmsInv(b) && b.checker.Checking? && b.checker.i == i < |cs| && Spaced(cs, b.alarms)
    requires b.passNow - b.passStart > cs[i].downPeriod
    ensures Spaced(cs, b.alarms + [Alarm(i, b.passNow, raised)])
  {
    forall j | 0 <= j < |b.alarms| && b.alarms[j].i == i ensures b.alarms[j].at <= b.passStart {
      assert FromThisPass(b) && j < b.earlier;
      assert b.alarms[j].at <= b.alarms[b.earlier - 1].at;
    }
  }

  lemma TestDownKeepsAlarms(cs: seq<Config>, s: State)
    requires |s.items| == |cs| && AlarmsInv(BookOf(s)) && Spaced(cs, s.alarms) && s.passNow <= s.clock
    requires CheckerStep(cs, s, TestDown).Some?
    ensures var s' := CheckerStep(cs, s, TestDown).value; AlarmsInv(BookOf(s')) && Spaced(cs, s'.alarms)
  {
    var s', b, i := CheckerStep(cs, s, TestDown).value, BookOf(s), s.checker.i;
    if s'.checker.Emptying? {
      AlarmsInvFires(b, i, s.clock);
      SpacedFires(cs, b, i, s.clock);
      assert BookOf(s') == b.(checker := Emptying(i), alarms := b.alarms + [Alarm(i, b.passNow, s.clock)]);
    } else {
      AlarmsInvMoves(b, s'.checker);
      assert BookOf(s') == b.(checker := s'.checker);
    }
  }

  lemma ResetDownKeepsItems(cs: seq<Config>, s: State, i: nat, slip: nat)
    requires ItemsInv(cs, s.items, s.clock) && i < |cs|
    ensures ItemsInv(cs, s.items[i := ResetDownItem(s.items[i], s.clock, slip)], s.clock)
  {
    var it' := ResetDownItem(s.items[i], s.clock, slip);
    assert ItemInv(cs[i], s.items[i], s.clock);
    DownInvOnReset(cs[i], s.items[i], s.clock, slip);
    UpInvSame(cs[i], s.items[i], it', s.clock, s.clock);
    PutKeepsItems(cs, s, i, it');
  }

  lemma AlarmsInvResets(b: Book)
    requires AlarmsInv(b) && b.checker.Emptying?
    ensures AlarmsInv(b.(checker := Purging(b.checker.i + 1), startTime := b.passNow))
  {}

  lemma ReaderStepKeepsItems(cs: seq<Config>, s: State, st: Step)
    requires ItemsInv(cs, s.items, s.clock) && ReaderStep(cs, s, st).Some?
    ensures var s' := ReaderStep(cs, s, st).value; ItemsInv(cs, s'.items, s'.clock)
  {
    if st.CountUp? {
      CountUpKeepsItems(cs, s, st.i, st.key);
    } else if st.CountDown? {
      CountDownKeepsItems(cs, s, s.reader.i);
    } else if st.TestUp? {
      TestUpKeepsItems(cs, s);
    } else {
      ResetUpKeepsItems(cs, s, s.reader.i);
    }
  }

  lemma PurgeStepKeepsItems(cs: seq<Config>, s: State)
    requires ItemsInv(cs, s.items, s.clock) && CheckerStep(cs, s, Purge).Some?
    ensures var s' := CheckerStep(cs, s, Purge).value; ItemsInv(cs, s'.items, s'.clock)
  {
    if s.checker.i < |cs| { PurgeKeepsItems(cs, s, s.checker.i); }
  }

  lemma ResetStepKeepsItems(cs: seq<Config>, s: State)
    requires ItemsInv(cs, s.items, s.clock) && CheckerStep(cs, s, ResetDown).Some?
    ensures var s' := CheckerStep(cs, s, ResetDown).value; ItemsInv(cs, s'.items, s'.clock)
  {
    var s', i, slip := CheckerStep(cs, s, ResetDown).value, s.checker.i, s.clock - s.passNow;
    assert s'.items == s.items[i := ResetDownItem(s.items[i], s.clock, slip)] && s'.clock == s.clock;
    ResetDownKeepsItems(cs, s, i, slip);
  }

  lemma OtherStepKeepsItems(cs: seq<Config>, s: State, st: Step)
    requires (st.StartPass? || st.TestDown?) && |s.items| == |cs| && CheckerStep(cs, s, st).Some?
    ensures var s' := CheckerStep(cs, s, st).value; s'.items == s.items && s'.clock == s.clock
  {}

  lemma CheckerStepKeepsItems(cs: seq<Config>, s: State, st: Step)
    requires ItemsInv(cs, s.items, s.clock) && CheckerStep(cs, s, st).Some?
    ensures var s' := CheckerStep(cs, s, st).value; ItemsInv(cs, s'.items, s'.clock)
  {
    if st.Purge? {
      PurgeStepKeepsItems(cs, s);
    } else if st.ResetDown? {
      ResetStepKeepsItems(cs, s);
    } else {
      OtherStepKeepsItems(cs, s, st);
    }
  }

  lemma StepKeepsItems(cs: seq<Config>, s: State, st: Step)
    requires ItemsInv(cs, s.items, s.clock) && Next(cs, s, st).Some?
    ensures var s' := Next(cs, s, st).value; ItemsInv(cs, s'.items, s'.clock)
  {
    if st.Tick? {
      TickKeepsItems(cs, s, st.seconds);
    } else if st.CountUp? || st.CountDown? || st.TestUp? || st.ResetUp? {
      ReaderStepKeepsItems(cs, s, st);
    } else {
      CheckerStepKeepsItems(cs, s, st);
    }
  }

  // What a step needs to know of the queues.
  ghost predicate StepFits(cs: seq<Config>, s: State, st: Step)
    requires |s.items| == |cs|
  {
    match st
    case CountUp(i, key, _) =>
      i < |cs| ==> Counted(cs[i], CountUpItem(cs[i], s.items[i], key, s.clock).up, key, s.clock)
    case TestUp =>
      s.reader.Testing? && s.reader.i < |cs| ==>
        var it := s.items[s.reader.i]; Total(it.up.queues) + it.up.from <= |it.hist|
    case Purge => PurgePossible(cs, s)
    case _ => true
  }

  lemma ItemsAllow(cs: seq<Config>, s: State, st: Step)
    requires ItemsInv(cs, s.items, s.clock)
    ensures StepFits(cs, s, st)
  {
    match st
    case CountUp(i, key, _) =>
      if i < |cs| {
        assert ItemInv(cs[i], s.items[i], s.clock);
        CountedOnCount(cs[i], s.items[i], key, s.clock);
      }
    case TestUp =>
      if s.reader.Testing? && s.reader.i < |cs| {
        assert ItemInv(cs[s.reader.i], s.items[s.reader.i], s.clock);
      }
    case Purge => ItemsPurgePossible(cs, s);
    case _ =>
  }

  lemma AlarmsInvStarts(b: Book, now: Time)
    requires AlarmsInv(b) && b.checker.Sleeping? && b.passNow <= now
    ensures AlarmsInv(b.(checker := Purging(0), passNow := now, passStart := b.startTime, earlier := |b.alarms|))
  {
    assert b.alarms[..|b.alarms|] == b.alarms;
  }

  lemma StepKeepsBudget(cs: seq<Config>, s: State, st: Step)
    requires |s.items| == |cs| && BudgetInv(cs, s.items, s.reader) && StepFits(cs, s, st) && Next(cs, s, st).Some?
    ensures var s' := Next(cs, s, st).value; |s'.items| == |cs| && BudgetInv(cs, s'.items, s'.reader)
  {
    if st.TestUp? { TestUpKeepsBudget(cs, s); }
  }

  lemma StepKeepsReader(cs: seq<Config>, s: State, st: Step)
    requires |s.items| == |cs| && ReaderInv(cs, s.items, s.reader, s.clock) && StepFits(cs, s, st)
    requires Next(cs, s, st).Some?
    ensures var s' := Next(cs, s, st).value; |s'.items| == |cs| && ReaderInv(cs, s'.items, s'.reader, s'.clock)
  {
    if st.Purge? { PurgeKeepsReader(cs, s); }
  }

  lemma ReaderStepKeepsPass(cs: seq<Config>, s: State, st: Step)
    requires |s.items| == |cs| && PassInv(cs, s) && ReaderStep(cs, s, st).Some?
    ensures var s' := ReaderStep(cs, s, st).value; |s'.items| == |cs| && PassInv(cs, s')
  {
    if st.CountDown? { CountDownKeepsPass(cs, s); }
  }

  lemma CheckerStepKeepsPass(cs: seq<Config>, s: State, st: Step)
    requires |s.items| == |cs| && PassInv(cs, s) && StepFits(cs, s, st) && CheckerStep(cs, s, st).Some?
    ensures var s' := CheckerStep(cs, s, st).value; |s'.items| == |cs| && PassInv(cs, s')
  {}

  lemma StepKeepsPass(cs: seq<Config>, s: State, st: Step)
    requires |s.items| == |cs| && PassInv(cs, s) && StepFits(cs, s, st) && Next(cs, s, st).Some?
    ensures var s' := Next(cs, s, st).value; |s'.items| == |cs| && PassInv(cs, s')
  {
    if ReaderStep(cs, s, st).Some? {
      ReaderStepKeepsPass(cs, s, st);
    } else if !st.Tick? {
      CheckerStepKeepsPass(cs, s, st);
    }
  }

  lemma ReaderKeepsBook(cs: seq<Config>, s: State, st: Step)
    requires |s.items| == |cs| && Next(cs, s, st).Some?
    requires !(st.StartPass? || st.Purge? || st.TestDown? || st.ResetDown?)
    ensures BookOf(Next(cs, s, st).value) == BookOf(s)
  {}

  lemma CheckerKeepsAlarms(cs: seq<Config>, s: State, st: Step)
    requires |s.items| == |cs| && AlarmsInv(BookOf(s)) && Spaced(cs, s.alarms) && s.passNow <= s.clock
    requires CheckerStep(cs, s, st).Some?
    ensures var s' := CheckerStep(cs, s, st).value; AlarmsInv(BookOf(s')) && Spaced(cs, s'.alarms)
  {
    var s', b := CheckerStep(cs, s, st).value, BookOf(s);
    if st.StartPass? {
      AlarmsInvStarts(b, s.clock);
    } else if st.Purge? {
      AlarmsInvMoves(b, s'.checker);
      assert BookOf(s') == b.(checker := s'.checker);
    } else if st.TestDown? {
      TestDownKeepsAlarms(cs, s);
    } else {
      AlarmsInvResets(b);
    }
  }

  lemma StepKeepsAlarms(cs: seq<Config>, s: State, st: Step)
    requires |s.items| == |cs| && AlarmsInv(BookOf(s)) && Spaced(cs, s.alarms) && s.passNow <= s.clock
    requires Next(cs, s, st).Some?
    ensures var s' := Next(cs, s, st).value; AlarmsInv(BookOf(s')) && Spaced(cs, s'.alarms)
  {
    if st.StartPass? || st.Purge? || st.TestDown? || st.ResetDown? {
      CheckerKeepsAlarms(cs, s, st);
    } else {
      ReaderKeepsBook(cs, s, st);
      assert Next(cs, s, st).value.alarms == BookOf(s).alarms;
    }
  }

  lemma StepKeepsThreads(cs: seq<Config>, s: State, st: Step)
    requires |s.items| == |cs| && ThreadsInv(cs, s) && StepFits(cs, s, st) && Next(cs, s, st).Some?
    ensures var s' := Next(cs, s, st).value; |s'.items| == |cs| && ThreadsInv(cs, s')
  {
    StepKeepsBudget(cs, s, st);
    StepKeepsReader(cs, s, st);
    StepKeepsPass(cs, s, st);
    StepKeepsAlarms(cs, s, st);
  }

  // The checker goes through the items one by one.
  predicate Proceeds(n: nat, before: Checker, after: Checker) {
    match before
    case Sleeping => after == Purging(0)
    case Purging(i) => if i == n then after == Sleeping else after.Checking? && after.i == i
    case Checking(i, _) => after == Purging(i + 1) || after == Emptying(i)
    case Emptying(i) => after == Purging(i + 1)
  }

  lemma StepProceeds(cs: seq<Config>, s: State, st: Step)
    requires |s.items| == |cs| && Next(cs, s, st).Some?
    ensures var after := Next(cs, s, st).value.checker; after == s.checker || Proceeds(|cs|, s.checker, after)
  {}

  lemma StepKeepsInv(cs: seq<Config>, s: State, st: Step)
    requires Inv(cs, s) && Next(cs, s, st).Some?
    ensures Inv(cs, Next(cs, s, st).value)
    ensures var after := Next(cs, s, st).value.checker; after == s.checker || Proceeds(|cs|, s.checker, after)
  {
    StepProceeds(cs, s, st);
    StepKeepsItems(cs, s, st);
    ItemsAllow(cs, s, st);
    StepKeepsThreads(cs, s, st);
  }

  lemma {:induction false} RunKeepsInv(cs: seq<Config>, s: State, steps: seq<Step>)
    requires Inv(cs, s) && Run(cs, s, steps).Some?
    ensures Inv(cs, Run(cs, s, steps).value)
    decreases |steps|
  {
    if steps != [] {
      StepKeepsInv(cs, s, steps[0]);
      RunKeepsInv(cs, Next(cs, s, steps[0]).value, steps[1..]);
    }
  }

  // A state some run from a start leads to.
  ghost predicate Reachable(cs: seq<Config>, s: State) {
    exists clock, steps :: Run(cs, Start(cs, clock), steps) == Some(s)
  }

  ghost predicate AllSane(cs: seq<Config>) {
    forall c <- cs :: c.Sane()
  }

  lemma ReachableInv(cs: seq<Config>, s: State)
    requires AllSane(cs) && Reachable(cs, s)
    ensures Inv(cs, s)
  {
    var clock, steps :| Run(cs, Start(cs, clock), steps) == Some(s);
    StartInv(cs, clock);
    RunKeepsInv(cs, Start(cs, clock), steps);
  }

  lemma {:induction false} RunExtends(cs: seq<Config>, s: State, steps: seq<Step>, st: Step)
    requires |s.items| == |cs| && Run(cs, s, steps).Some? && |Run(cs, s, steps).value.items| == |cs|
    ensures Run(cs, s, steps + [st]) == Next(cs, Run(cs, s, steps).value, st)
    decreases |steps|
  {
    if steps == [] {
      assert [st][1..] == [];
    } else {
      assert (steps + [st])[1..] == steps[1..] + [st];
      RunExtends(cs, Next(cs, s, steps[0]).value, steps[1..], st);
    }
  }

  lemma ReachableNext(cs: seq<Config>, s: State, st: Step, s': State)
    requires Reachable(cs, s) && |s.items| == |cs| && Next(cs, s, st) == Some(s')
    ensures Reachable(cs, s')
  {
    var clock, steps :| Run(cs, Start(cs, clock), steps) == Some(s);
    RunExtends(cs, Start(cs, clock), steps, st);
    assert Run(cs, Start(cs, clock), steps + [st]) == Some(s');
  }

  lemma StartReachable(cs: seq<Config>, clock: Time)
    ensures Reachable(cs, Start(cs, clock))
  {
    assert Run(cs, Start(cs, clock), []) == Some(Start(cs, clock));
  }

  // ----- the down-bound alarm -----

  // The checker raises a down-bound alarm in its next step.
  ghost predicate RaisesDown(cs: seq<Config>, s: State)
    requires |s.items| == |cs|
  {
    var next := CheckerStep(cs, s, TestDown);
    next.Some? && next.value.actions == s.actions + [DownAction(s.checker.i)]
  }

  /** `start_time` is the pass time of the latest down-bound alarm of any item, or the start of the
      checker before there is one, and `uptime` counts from what it was before the running pass. */
  lemma StartTimeIsLatestAlarm(cs: seq<Config>, s: State)
    requires AllSane(cs) && Reachable(cs, s)
    ensures var settled := Settled(BookOf(s));
            s.startTime == Latest(s.born, settled) && forall j | 0 <= j < |settled| :: settled[j].at <= s.startTime
    ensures s.earlier <= |s.alarms| && (!s.checker.Sleeping? ==> s.passStart == Latest(s.born, s.alarms[..s.earlier]))
  {
    ReachableInv(cs, s);
    SettledBefore(BookOf(s));
  }

  lemma SettledBefore(b: Book)
    requires AlarmsInv(b)
    ensures forall j | 0 <= j < |Settled(b)| :: Settled(b)[j].at <= b.startTime
  {
    var n := |Settled(b)|;
    assert forall j | 0 <= j < n :: Settled(b)[j] == b.alarms[j];
    if n > 0 { assert b.startTime == b.alarms[n - 1].at; }
  }

  // More than `period` seconds have passed since the checker started and since every alarm, of any item,
  // in an earlier pass.
  ghost predicate Quiet(s: State, period: nat) {
    && s.passNow - s.born > period
    && forall j | 0 <= j < |s.alarms| && j < s.earlier :: s.passNow - s.alarms[j].at > period
  }

  lemma UptimeIsQuiet(s: State, period: nat)
    requires AlarmsInv(BookOf(s)) && !s.checker.Sleeping?
    ensures s.passNow - s.passStart > period <==> Quiet(s, period)
  {
    if s.earlier > 0 {
      assert s.passStart == s.alarms[s.earlier - 1].at;
      assert forall j | 0 <= j < s.earlier :: s.alarms[j].at <= s.alarms[s.earlier - 1].at;
    }
  }

  /** The decision: in every reachable state, capped queues, purges and interleaved matches
      notwithstanding, the checker raises the alarm exactly when the bound is enabled, more than a period
      has passed since the checker started and since every alarm of an earlier pass, and fewer than
      `downCount` of all matches since the item's last down-bound reset lie in the period before the
      purge of this pass. */
  lemma DownBoundDecision(cs: seq<Config>, s: State)
    requires AllSane(cs) && Reachable(cs, s) && s.checker.Checking? && !Locked(s, s.checker.i)
    ensures |s.items| == |cs| && s.checker.i < |cs| && s.items[s.checker.i].down.from <= |s.items[s.checker.i].stamps|
    ensures var i := s.checker.i; var c := cs[i];
            RaisesDown(cs, s) <==>
              c.downCount > 0 && Quiet(s, c.downPeriod)
              && CountFrom(SinceDownReset(s.items[i]), s.checker.purgedAt - c.downPeriod) < c.downCount
  {
    ReachableInv(cs, s);
    var i := s.checker.i;
    assert ItemInv(cs[i], s.items[i], s.clock);
    UptimeIsQuiet(s, cs[i].downPeriod);
    DownMeasure(cs[i], s.items[i], s.clock, s.checker.purgedAt - cs[i].downPeriod);
  }

  /** Soundness against the full, unpruned history: an alarm means that fewer than `downCount` of all
      matches ever lie in the period before the purge, shortened by the slip of the item's last reset. */
  lemma DownBoundSound(cs: seq<Config>, s: State)
    requires AllSane(cs) && Reachable(cs, s) && s.checker.Checking?
    requires |s.items| == |cs| && RaisesDown(cs, s)
    ensures var i := s.checker.i;
            && i < |cs|
            && CountFrom(s.items[i].stamps, s.checker.purgedAt - cs[i].downPeriod + s.items[i].down.slip)
               < cs[i].downCount
  {
    DownBoundDecision(cs, s);
    SlipBoundsCount(cs, s);
  }

  lemma SlipBoundsCount(cs: seq<Config>, s: State)
    requires AllSane(cs) && Reachable(cs, s) && s.checker.Checking?
    ensures |s.items| == |cs| && s.checker.i < |cs| && s.items[s.checker.i].down.from <= |s.items[s.checker.i].stamps|
    ensures var i := s.checker.i; var it, start := s.items[i], s.checker.purgedAt - cs[i].downPeriod;
            Quiet(s, cs[i].downPeriod) ==>
              CountFrom(it.stamps, start + it.down.slip) <= CountFrom(SinceDownReset(it), start)
  {
    SlipCoversReset(cs, s);
    var i := s.checker.i;
    var it, start := s.items[i], s.checker.purgedAt - cs[i].downPeriod;
    if Quiet(s, cs[i].downPeriod) { OlderMatchesSlip(cs[i], it, s.clock, start, it.down.slip); }
  }

  lemma SlipCoversReset(cs: seq<Config>, s: State)
    requires AllSane(cs) && Reachable(cs, s) && s.checker.Checking?
    ensures |s.items| == |cs| && s.checker.i < |cs| && DownInv(cs[s.checker.i], s.items[s.checker.i], s.clock)
    ensures var i := s.checker.i;
            Quiet(s, cs[i].downPeriod) ==>
              s.items[i].down.resetAt < s.checker.purgedAt - cs[i].downPeriod + s.items[i].down.slip
  {
    ReachableInv(cs, s);
    var i := s.checker.i;
    assert ItemInv(cs[i], s.items[i], s.clock);
    UptimeIsQuiet(s, cs[i].downPeriod);
  }

  /** The alarm, judged by the whole history: raised if and only if the bound is enabled, more than a
      period has passed since the checker started and since every earlier alarm, and fewer than
      `downCount` of all matches lie in the period before the purge. */
  ghost predicate ExactDecision(cs: seq<Config>, s: State)
    requires |s.items| == |cs| && s.checker.Checking? && s.checker.i < |cs|
  {
    var i := s.checker.i;
    var c := cs[i];
    RaisesDown(cs, s) <==>
      c.downCount > 0 && Quiet(s, c.downPeriod)
      && CountFrom(s.items[i].stamps, s.checker.purgedAt - c.downPeriod) < c.downCount
  }

  /** The decision is exact whenever the item's queue was last emptied before the window. */
  lemma DownBoundExact(cs: seq<Config>, s: State)
    requires AllSane(cs) && Reachable(cs, s) && s.checker.Checking? && !Locked(s, s.checker.i)
    requires |s.items| == |cs| && s.checker.i < |cs|
    requires s.items[s.checker.i].down.resetAt < s.checker.purgedAt - cs[s.checker.i].downPeriod
    ensures ExactDecision(cs, s)
  {
    DownBoundDecision(cs, s);
    SlipCoversReset(cs, s);
    var i := s.checker.i;
    OlderMatchesOutside(cs[i], s.items[i], s.clock, s.checker.purgedAt - cs[i].downPeriod);
  }

  /** So it is when the clock stood still between reading `tnow` and the item's last reset. */
  lemma DownBoundExactWithoutSlip(cs: seq<Config>, s: State)
    requires AllSane(cs) && Reachable(cs, s) && s.checker.Checking? && !Locked(s, s.checker.i)
    requires |s.items| == |cs| && s.checker.i < |cs| && s.items[s.checker.i].down.slip == 0
    ensures ExactDecision(cs, s)
  {
    SlipCoversReset(cs, s);
    if Quiet(s, cs[s.checker.i].downPeriod) {
      DownBoundExact(cs, s);
    } else {
      DownBoundDecision(cs, s);
    }
  }

  // All decisions about items whose last reset slipped by at most `d` are exact.
  ghost predicate ExactUpTo(d: nat) {
    forall cs, s | AllSane(cs) && Reachable(cs, s) && s.checker.Checking? && !Locked(s, s.checker.i)
                && |s.items| == |cs| && s.checker.i < |cs| && s.items[s.checker.i].down.slip <= d ::
      ExactDecision(cs, s)
  }

  /** No slip at all is the exact condition. */
  lemma ExactUpToIff(d: nat)
    ensures ExactUpTo(d) <==> d == 0
  {
    if d == 0 {
      forall cs, s | AllSane(cs) && Reachable(cs, s) && s.checker.Checking? && !Locked(s, s.checker.i)
                  && |s.items| == |cs| && s.checker.i < |cs| && s.items[s.checker.i].down.slip <= d
        ensures ExactDecision(cs, s)
      {
        DownBoundExactWithoutSlip(cs, s);
      }
    } else {
      var cs, s := SlipLosesAMatch();
      assert !ExactDecision(cs, s);
    }
  }

  // An item whose alarm is due when at most one match lies in a second.
  const ONE_A_SECOND := Config(0, 1, 1, 1, false)

  // The part of a pass at `now` up to the test, while the reader is idle and there is one item.
  lemma OnePurge(cs: seq<Config>, s: State) returns (s': State)
    requires |cs| == |s.items| == 1 && Reachable(cs, s) && s.checker.Sleeping? && s.reader.Reading?
    ensures Reachable(cs, s') && s'.items == [PurgeItem(cs[0], s.items[0], s.clock)]
    ensures s' == s.(items := s'.items, checker := Checking(0, s.clock), passNow := s.clock, passStart := s.startTime,
                     earlier := |s.alarms|)
  {
    var m := s.(checker := Purging(0), passNow := s.clock, passStart := s.startTime, earlier := |s.alarms|);
    ReachableNext(cs, s, StartPass, m);
    s' := Put(m, 0, PurgeItem(cs[0], s.items[0], s.clock)).(checker := Checking(0, s.clock));
    ReachableNext(cs, m, Purge, s');
  }

  // The alarm of the first pass, which reads 2 from the clock, raised some time later.
  lemma FirstAlarm(cs: seq<Config>, delay: nat) returns (s: State)
    requires cs == [ONE_A_SECOND]
    ensures Reachable(cs, s) && |s.items| == 1 && s.reader.Reading? && s.checker == Emptying(0) && s.clock == 2 + delay
    ensures s.passNow == 2 && s.born == 0 && s.alarms == [Alarm(0, 2, 2 + delay)]
    ensures s.items[0].stamps == [] && s.items[0].down.from == 0
  {
    StartReachable(cs, 0);
    s := Start(cs, 0).(clock := 2);
    ReachableNext(cs, Start(cs, 0), Tick(2), s);
    s := OnePurge(cs, s);
    var late := s.(clock := 2 + delay);
    ReachableNext(cs, s, Tick(delay), late);
    var it := late.items[0];
    assert it.down.queues == map[] by { assert Fresh(cs[0], 0).down.queues == map[]; }
    assert Measured(it.down.queues, 0) == 0;
    s := Fired(cs, late);
  }

  // The checker's test when nothing is held.
  lemma Fired(cs: seq<Config>, s: State) returns (t: State)
    requires cs == [ONE_A_SECOND] && Reachable(cs, s) && |s.items| == 1 && s.reader.Reading?
    requires s.checker.Checking? && s.checker.i == 0 && Fires(cs[0], s.items[0], s.passNow - s.passStart)
    ensures Reachable(cs, t)
    ensures t == s.(checker := Emptying(0), alarms := s.alarms + [Alarm(0, s.passNow, s.clock)],
                    actions := s.actions + [DownAction(0)])
  {
    t := s.(checker := Emptying(0), alarms := s.alarms + [Alarm(0, s.passNow, s.clock)],
            actions := s.actions + [DownAction(0)]);
    ReachableNext(cs, s, TestDown, t);
  }

  // A match between `tnow` and the reset of the queue is lost to the next pass.
  lemma SlipLosesAMatch() returns (cs: seq<Config>, s: State)
    ensures AllSane(cs) && Reachable(cs, s) && s.checker.Checking? && !Locked(s, s.checker.i)
    ensures |s.items| == |cs| && s.checker.i < |cs| && s.items[s.checker.i].down.slip == 1
    ensures !ExactDecision(cs, s)
  {
    cs := [ONE_A_SECOND];
    s := FirstAlarm(cs, 0);
    s := MatchAndReset(cs, s);
    var t := s.(checker := Sleeping);
    ReachableNext(cs, s, Purge, t);
    s := t.(clock := 4);
    ReachableNext(cs, t, Tick(1), s);
    s := OnePurge(cs, s);
    assert s.alarms[0] == Alarm(0, 2, 2) && Quiet(s, 1);
    assert SinceDownReset(s.items[0]) == [];
    DownBoundDecision(cs, s);
    assert [3][1..] == [];
  }

  lemma MatchAndReset(cs: seq<Config>, s: State) returns (t: State)
    requires cs == [ONE_A_SECOND] && Reachable(cs, s) && |s.items| == 1 && s.reader.Reading? && s.checker == Emptying(0)
    requires s.clock == 2 && s.passNow == 2 && s.items[0].stamps == []
    ensures Reachable(cs, t) && |t.items| == 1 && t.reader.Reading? && t.checker == Purging(1) && t.clock == 3
    ensures t.born == s.born && t.alarms == s.alarms && t.startTime == 2
    ensures t.items[0].stamps == [3] && t.items[0].down.from == 1 && t.items[0].down.slip == 1
  {
    var a := s.(clock := 3);
    ReachableNext(cs, s, Tick(1), a);
    var b := Put(a, 0, CountUpItem(cs[0], a.items[0], 0, 3)).(reader := Counting(0, 0, 3, 0));
    ReachableNext(cs, a, CountUp(0, 0, 0), b);
    var e := Put(b, 0, CountDownItem(cs[0], b.items[0], 3)).(reader := Reading);
    ReachableNext(cs, b, CountDown, e);
    t := Put(e, 0, ResetDownItem(e.items[0], 3, 1)).(checker := Purging(1), startTime := 2);
    ReachableNext(cs, e, ResetDown, t);
  }

  /** The pass times of two down-bound alarms of one item, the `tnow` of their passes, are more than its
      period apart. */
  lemma DownBoundSpacing(cs: seq<Config>, s: State, j: nat, k: nat)
    requires AllSane(cs) && Reachable(cs, s) && j < k < |s.alarms| && s.alarms[j].i == s.alarms[k].i
    ensures s.alarms[k].i < |cs| && s.alarms[k].at - s.alarms[j].at > cs[s.alarms[k].i].downPeriod
  {
    ReachableInv(cs, s);
  }

  /** The moments at which they are raised are more than the period apart, less the delay between `tnow`
      and the earlier one. */
  lemma RaisedSpacing(cs: seq<Config>, s: State, j: nat, k: nat)
    requires AllSane(cs) && Reachable(cs, s) && j < k < |s.alarms| && s.alarms[j].i == s.alarms[k].i
    ensures s.alarms[k].i < |cs|
    ensures var a, b := s.alarms[j], s.alarms[k];
            a.raised >= a.at && b.raised - a.raised > cs[b.i].downPeriod - (a.raised - a.at)
  {
    ReachableInv(cs, s);
  }

  // Two alarms of one item, the earlier one raised within `d` seconds of its `tnow`, are raised more than a
  // period apart.
  ghost predicate RaisesSpacedUpTo(d: nat) {
    forall cs: seq<Config>, s: State, j: nat, k: nat | AllSane(cs) && Reachable(cs, s) && j < k < |s.alarms|
                      && s.alarms[j].i == s.alarms[k].i < |cs| && s.alarms[j].raised - s.alarms[j].at <= d ::
      s.alarms[k].raised - s.alarms[j].raised > cs[s.alarms[k].i].downPeriod
  }

  /** No delay at all is the exact condition. */
  lemma RaisesSpacedIff(d: nat)
    ensures RaisesSpacedUpTo(d) <==> d == 0
  {
    if d == 0 {
      forall cs: seq<Config>, s: State, j: nat, k: nat | AllSane(cs) && Reachable(cs, s) && j < k < |s.alarms|
                                  && s.alarms[j].i == s.alarms[k].i < |cs| && s.alarms[j].raised - s.alarms[j].at <= d
        ensures s.alarms[k].raised - s.alarms[j].raised > cs[s.alarms[k].i].downPeriod
      {
        RaisedSpacing(cs, s, j, k);
      }
    } else {
      var cs, s := RaisesTooClose();
      assert s.alarms[0].i == s.alarms[1].i;
    }
  }

  lemma LateReset(cs: seq<Config>, s: State) returns (t: State)
    requires cs == [ONE_A_SECOND] && Reachable(cs, s) && |s.items| == 1 && s.reader.Reading?
    requires s.checker == Emptying(0) && s.clock == 3 && s.passNow == 2
    ensures Reachable(cs, t)
    ensures t == Put(s, 0, ResetDownItem(s.items[0], 3, 1)).(checker := Sleeping, startTime := 2, clock := 4)
  {
    var u := Put(s, 0, ResetDownItem(s.items[0], 3, 1)).(checker := Purging(1), startTime := 2);
    ReachableNext(cs, s, ResetDown, u);
    var v := u.(checker := Sleeping);
    ReachableNext(cs, u, Purge, v);
    t := v.(clock := 4);
    ReachableNext(cs, v, Tick(1), t);
  }

  // An alarm raised a second late is followed by the next one after a period of one second.
  lemma RaisesTooClose() returns (cs: seq<Config>, s: State)
    ensures AllSane(cs) && Reachable(cs, s) && |cs| == 1 && cs[0].downPeriod == 1
    ensures s.alarms == [Alarm(0, 2, 3), Alarm(0, 4, 4)]
  {
    cs := [ONE_A_SECOND];
    s := FirstAlarm(cs, 1);
    s := LateReset(cs, s);
    s := OnePurge(cs, s);
    assert SinceDownReset(s.items[0]) == [] && s.alarms[0] == Alarm(0, 2, 3) && Quiet(s, 1);
    DownBoundDecision(cs, s);
    s := Fired(cs, s);
  }

  /** In every run, every queue is a suffix of the stamps matched under its key since the last reset,
      of at most count + 11 stamps, and what it lacks is stale or the queue is full.  On the up-bound side
      stale is what the last purge that looked at the key found so, and nothing stale is left. */
  lemma QueuesAreSuffixes(cs: seq<Config>, s: State, i: nat, key: Key)
    requires AllSane(cs) && Reachable(cs, s) && i < |s.items| == |cs|
    ensures var it := s.items[i];
            && it.up.from <= |it.hist| && it.down.from <= |it.stamps|
            && Keeps(Queue(it.up.queues, key), SinceUpReset(it, key), KeyCutoff(cs[i], it.up, key), cs[i].upCount)
            && AllFrom(Queue(it.up.queues, key), KeyCutoff(cs[i], it.up, key))
            && Keeps(Queue(it.down.queues, 0), SinceDownReset(it), it.down.cutoff, cs[i].downCount)
  {
    ReachableInv(cs, s);
    assert ItemInv(cs[i], s.items[i], s.clock);
    assert KeyInv(cs[i], s.items[i], s.clock, key);
  }

  // ----- the up-bound alarm -----

  ghost predicate RaisesUp(cs: seq<Config>, s: State)
    requires |s.items| == |cs|
  {
    var next := ReaderStep(cs, s, TestUp);
    next.Some? && next.value.actions == s.actions + [UpAction(s.reader.i)]
  }

  // A purge too late after the match has removed the key under test.
  ghost predicate KeyGone(cs: seq<Config>, s: State)
    requires |s.items| == |cs| && s.reader.Testing? && s.reader.i < |cs|
  {
    var i := s.reader.i;
    s.reader.key != 0 && Missed(s.items[i].up, s.reader.key, s.reader.at + cs[i].upPeriod)
  }

  /** The look-up fails exactly when the key is not 0 and some purge that did not step over it came more
      than a period after the match. */
  lemma LookupFailsIff(cs: seq<Config>, s: State)
    requires AllSane(cs) && Reachable(cs, s) && s.reader.Testing?
    ensures |s.items| == |cs| && s.reader.i < |cs| && ReaderStep(cs, s, TestUp).Some?
    ensures ReaderStep(cs, s, TestUp).value.reader.Undefined? <==> KeyGone(cs, s)
  {
    ReachableInv(cs, s);
  }

  /** The look-up is safe: as long as the clock has moved at most a period since the match, the test
      finds the key it counted under, even if a purge ran in between. */
  lemma LookupSafe(cs: seq<Config>, s: State)
    requires AllSane(cs) && Reachable(cs, s) && s.reader.Testing?
    ensures |s.items| == |cs| && s.reader.i < |cs|
    ensures s.clock - s.reader.at <= cs[s.reader.i].upPeriod ==>
              s.reader.key in s.items[s.reader.i].up.queues && !KeyGone(cs, s)
              && ReaderStep(cs, s, TestUp).Some? && !ReaderStep(cs, s, TestUp).value.reader.Undefined?
  {
    ReachableInv(cs, s);
    assert ItemInv(cs[s.reader.i], s.items[s.reader.i], s.clock);
    assert SweepsInv(s.items[s.reader.i].up.sweeps, s.clock);
  }

  /** For every item with usecrc and every CRC but 0 there is a run in which the look-up fails. */
  lemma LookupCanFail(c: Config, key: Key) returns (s: State)
    requires c.Sane() && c.usecrc && key != 0
    ensures Reachable([c], s) && |s.items| == 1 && s.reader.Testing?
    ensures ReaderStep([c], s, TestUp).Some? && ReaderStep([c], s, TestUp).value.reader.Undefined?
  {
    var cs, late := [c], c.upPeriod + 1;
    StartReachable(cs, 0);
    var a := Start(cs, 0);
    var b := Put(a, 0, CountUpItem(c, a.items[0], key, 0)).(reader := Counting(0, key, 0, 1));
    ReachableNext(cs, a, CountUp(0, key, 1), b);
    var d := Put(b, 0, CountDownItem(c, b.items[0], 0)).(reader := Testing(0, key, 0));
    ReachableNext(cs, b, CountDown, d);
    var e := d.(clock := late);
    ReachableNext(cs, d, Tick(late), e);
    var queues := e.items[0].up.queues;
    assert queues.Keys == {key};
    LatePurge(cs, e, key);
    s := PurgeWhileTesting(cs, e);
    LookupFailsIff(cs, s);
  }

  lemma PurgeWhileTesting(cs: seq<Config>, s: State) returns (s': State)
    requires |cs| == |s.items| == 1 && Reachable(cs, s) && s.checker.Sleeping? && s.reader.Testing?
    ensures Reachable(cs, s') && s'.reader == s.reader && s'.items == [PurgeItem(cs[0], s.items[0], s.clock)]
  {
    var m := s.(checker := Purging(0), passNow := s.clock, passStart := s.startTime, earlier := |s.alarms|);
    ReachableNext(cs, s, StartPass, m);
    s' := Put(m, 0, PurgeItem(cs[0], s.items[0], s.clock)).(checker := Checking(0, s.clock));
    ReachableNext(cs, m, Purge, s');
  }

  lemma LatePurge(cs: seq<Config>, s: State, key: Key)
    requires |cs| == |s.items| == 1 && cs[0].Sane() && s.items[0].up.queues.Keys == {key} && s.clock > cs[0].upPeriod
    ensures Missed(PurgeUp(cs[0], s.items[0].up, s.clock), key, cs[0].upPeriod)
  {
    SingleKeyNeverSkipped(s.items[0].up.queues, key, s.clock - cs[0].upPeriod);
    MissedOnPurge(cs[0], s.items[0].up, s.clock, key, cs[0].upPeriod);
  }

  lemma UpBoundDecision(cs: seq<Config>, s: State)
    requires AllSane(cs) && Reachable(cs, s) && s.reader.Testing? && |s.items| == |cs|
    requires s.reader.i < |cs| && !KeyGone(cs, s)
    ensures var i, key := s.reader.i, s.reader.key; var c, it := cs[i], s.items[i];
            && ItemInv(c, it, s.clock) && (key == 0 || key in it.up.queues) && (!c.usecrc ==> key == 0)
            && (RaisesUp(cs, s) <==> Measured(it.up.queues, key) > c.upCount)
  {
    ReachableInv(cs, s);
  }

  /** The decision, in every reachable state: unless the look-up fails, the alarm is raised exactly when
      more than `upCount` matches since the item's last alarm are not older than the cutoff of the last
      purge that looked at their key; those of the key, or of all keys when it is 0. */
  lemma UpBoundExact(cs: seq<Config>, s: State)
    requires AllSane(cs) && Reachable(cs, s) && s.reader.Testing? && |s.items| == |cs|
    requires s.reader.i < |cs| && !KeyGone(cs, s)
    ensures var i := s.reader.i;
            s.items[i].up.from <= |s.items[i].hist|
            && (RaisesUp(cs, s) <==> Live(cs[i], s.items[i], s.reader.key) > cs[i].upCount)
  {
    UpBoundDecision(cs, s);
    MeasuredLive(cs[s.reader.i], s.items[s.reader.i], s.reader.key, s.clock);
  }

  /** So the alarm lies between two windows: more than `upCount` of these matches in the period raise it,
      and it is raised only if more than `upCount` lie in the period extended by the age of any purge that
      looked at all of them. */
  lemma UpBoundSandwich(cs: seq<Config>, s: State, lag: nat, sweep: nat)
    requires AllSane(cs) && Reachable(cs, s) && s.reader.Testing? && |s.items| == |cs|
    requires s.reader.i < |cs| && !KeyGone(cs, s)
    ensures var i, key := s.reader.i, s.reader.key; var c, it := cs[i], s.items[i];
            && it.up.from <= |it.hist|
            && (InWindow(it, key, s.clock - c.upPeriod) > c.upCount ==> RaisesUp(cs, s))
            && (RaisesUp(cs, s) && sweep < |it.up.sweeps| && LooksAt(it.up.sweeps[sweep], key)
                && s.clock - it.up.sweeps[sweep].at <= lag
                ==> InWindow(it, key, s.clock - c.upPeriod - lag) > c.upCount)
  {
    UpBoundExact(cs, s);
    UpBoundDecision(cs, s);
    var i, key := s.reader.i, s.reader.key;
    LiveInWindow(cs[i], s.items[i], key, s.clock);
    if sweep < |s.items[i].up.sweeps| && LooksAt(s.items[i].up.sweeps[sweep], key)
       && s.clock - s.items[i].up.sweeps[sweep].at <= lag {
      WindowCoversLive(cs[i], s.items[i], key, s.clock, lag, sweep);
    }
  }

  // Without usecrc every purge is complete, so the window of the last one bounds the alarm.
  lemma PlainPurgesAreComplete(cs: seq<Config>, s: State, i: nat, sweep: nat)
    requires AllSane(cs) && Reachable(cs, s) && i < |s.items| == |cs|
    requires !cs[i].usecrc && sweep < |s.items[i].up.sweeps|
    ensures s.items[i].up.sweeps[sweep].skip == End
  {
    ReachableInv(cs, s);
    assert ItemInv(cs[i], s.items[i], s.clock);
  }

  /** The budget: in every run, with or without usecrc, the up-bound alarms of an item times
      (upCount + 1) never exceed its matches. */
  lemma AlarmBudget(cs: seq<Config>, s: State, i: nat)
    requires AllSane(cs) && Reachable(cs, s) && i < |s.items| == |cs|
    ensures s.items[i].up.alarms * (cs[i].upCount + 1) <= |s.items[i].hist|
  {
    ReachableInv(cs, s);
    assert ItemInv(cs[i], s.items[i], s.clock);
  }

  // ----- class LNLogItem -----

  /** The two frequencies of an item and the methods that run under its lock.  `View` is the item as
      the steps above see it, with the records no field of the program holds. */
  class LogItem {
    const upfreq: Freq
    const downfreq: Freq
    const usecrc: bool
    ghost var view: Item

    ghost predicate Valid()
      reads this, upfreq, downfreq
    {
      upfreq != downfreq && view.up.queues == upfreq.events && view.down.queues == downfreq.events
    }

    ghost function Limits(): Config
      reads this, upfreq, downfreq
    {
      Config(upfreq.count, upfreq.period, downfreq.count, downfreq.period, usecrc)
    }

    constructor (upfreq: Freq, downfreq: Freq, usecrc: bool, ghost now: Time)
      requires upfreq != downfreq && upfreq.events == downfreq.events == map[]
      ensures Valid() && view == Fresh(Limits(), now)
    {
      this.upfreq, this.downfreq, this.usecrc := upfreq, downfreq, usecrc;
      view := Fresh(Config(upfreq.count, upfreq.period, downfreq.count, downfreq.period, usecrc), now);
    }

    // `result` is what pcre_exec returned, `crc` the CRC of the whole match; the clock is read twice.
    method Match(result: int, crc: Key, now: Time, later: Time)
      requires Valid()
      modifies this`view, upfreq`events, downfreq`events
      ensures Valid() && Limits() == old(Limits())
      ensures var c, key := Limits(), if usecrc then crc else 0;
              view == if result >= 0 then CountDownItem(c, CountUpItem(c, old(view), key, now), later) else old(view)
      ensures result >= 0 ==>
                && upfreq.events == Pushed(old(upfreq.events), upfreq.count, if usecrc then crc else 0, now)
                && downfreq.events == Pushed(old(downfreq.events), downfreq.count, 0, later)
                && view.stamps == old(view.stamps) + [later]
    {
      if result >= 0 {
        var key := if usecrc then crc else 0;
        upfreq.PushEvent(key, now);
        downfreq.PushEvent(0, later);
        view := CountDownItem(Limits(), CountUpItem(Limits(), view, key, now), later);
      }
    }

    method UpBoundFreqExcess(crc: Key) returns (excess: bool)
      requires Valid() && (usecrc && crc != 0 ==> crc in upfreq.events)
      ensures excess <==> Measured(view.up.queues, if usecrc then crc else 0) > Limits().upCount
    {
      var c := upfreq.GetMessuringCount(if usecrc then crc else 0);
      excess := c > upfreq.count;
    }

    method DownBoundFreqExcess() returns (excess: bool)
      requires Valid()
      ensures excess <==> Measured(view.down.queues, 0) < Limits().downCount
    {
      var c := downfreq.GetMessuringCount(0);
      excess := c < downfreq.count;
    }

    method RemoveDeprecatedEvents(now: Time)
      requires Valid()
      modifies this`view, upfreq`events, downfreq`events
      ensures Valid() && Limits() == old(Limits()) && view == PurgeItem(Limits(), old(view), now)
    {
      ghost var c := Limits();
      downfreq.RemoveDeprecated(now);
      assert downfreq.events == PurgeDown(c, view.down, now).queues;
      upfreq.RemoveDeprecated(now);
      assert upfreq.events == PurgeUp(c, view.up, now).queues;
      view := PurgeItem(c, view, now);
    }

    method ResetDownBoundFreqMessuring(ghost now: Time, ghost slip: nat)
      requires Valid()
      modifies this`view, downfreq`events
      ensures Valid() && Limits() == old(Limits()) && view == ResetDownItem(old(view), now, slip)
    {
      downfreq.ResetMessuring(0);
      view := ResetDownItem(view, now, slip);
    }

    method ResetUpBoundFreqMessuring()
      requires Valid()
      modifies this`view, upfreq`events
      ensures Valid() && Limits() == old(Limits()) && view == ResetUpItem(old(view))
    {
      upfreq.ResetMessuring(0);
      view := ResetUpItem(view);
    }
  }
}
