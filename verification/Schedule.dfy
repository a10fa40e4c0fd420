/**
 Slots and the witness schedule: when blocks may be produced and by whom, what a new block records about
 its producer, and which blocks have become irreversible.
 */
module Schedule {
  import opened Amounts

  /** What slot times depend on. */
  datatype Clock = Clock(headNum: nat, headTime: nat, interval: nat, maintenance: bool, skipSlots: nat)

  /** The time of the n-th slot after the head block; slot 0 has none and reads as the epoch. */
  function SlotTime(c: Clock, n: nat): nat
    requires c.interval > 0
  {
    if n == 0 then 0
    else if c.headNum == 0 then c.headTime + n * c.interval
    else c.headTime / c.interval * c.interval + (n + (if c.maintenance then c.skipSlots else 0)) * c.interval
  }

  /** The last slot that has begun at time `t`, or 0. */
  function SlotAtTime(c: Clock, t: nat): nat
    requires c.interval > 0
  {
    var first := SlotTime(c, 1);
    if t < first then 0 else (t - first) / c.interval + 1
  }

  lemma MulStep(a: int, b: int, d: nat)
    requires d > 0
    ensures a <= b <==> a * d <= b * d
    ensures a < b <==> a * d < b * d
  {
    assert b * d - a * d == (b - a) * d;
    if a < b { assert (b - a) * d > 0; } else { assert (a - b) * d >= 0; assert a * d - b * d == (a - b) * d; }
  }

  /** Slot times are evenly spaced from the first one on. */
  lemma SlotsAreSpaced(c: Clock, n: nat)
    requires c.interval > 0 && n >= 1
    ensures SlotTime(c, n) == SlotTime(c, 1) + (n - 1) * c.interval
  {
    var s := if c.maintenance then c.skipSlots else 0;
    assert (n + s) * c.interval == (1 + s) * c.interval + (n - 1) * c.interval;
  }

  /** The slots passed over after a maintenance block. */
  function Skipped(c: Clock): nat {
    if c.maintenance then c.skipSlots else 0
  }

  /**
   After the first block, slot times are multiples of the interval, and slot `n` is the one with exactly `n`
   of them after the head block, not counting those passed over.  Before it, they count from the genesis time.
   */
  lemma SlotTimeIsRegular(c: Clock, n: nat)
    requires c.interval > 0 && n >= 1
    ensures c.headNum == 0 ==> SlotTime(c, n) - c.headTime == n * c.interval
    ensures c.headNum > 0 ==>
              && (exists k :: SlotTime(c, n) == k * c.interval)
              && (n + Skipped(c) - 1) * c.interval < SlotTime(c, n) - c.headTime <= (n + Skipped(c)) * c.interval
  {
    var i, q := c.interval, c.headTime / c.interval;
    assert c.headTime == q * i + c.headTime % i;
    if c.headNum > 0 {
      var m := n + Skipped(c);
      assert (m - 1) * i == m * i - i;
      assert SlotTime(c, n) == q * i + m * i == (q + m) * i;
    }
  }

  /** The two slot functions are adjoint: slot `n` has begun at `t` exactly when `n` is at most the slot at `t`. */
  lemma SlotsAreAdjoint(c: Clock, n: nat, t: nat)
    requires c.interval > 0 && n >= 1
    ensures SlotTime(c, n) <= t <==> n <= SlotAtTime(c, t)
  {
    SlotsAreSpaced(c, n);
    var first := SlotTime(c, 1);
    hide SlotTime;
    assert (n - 1) * c.interval >= 0;
    if t >= first {
      DivAdjoint(t - first, c.interval, n - 1);
    }
  }

  lemma DivAdjoint(x: nat, d: nat, k: nat)
    requires d > 0
    ensures k * d <= x <==> k <= x / d
  {
    assert x == x / d * d + x % d;
    assert (x / d + 1) * d == x / d * d + d;
    MulStep(k, x / d, d);
    MulStep(x / d + 1, k, d);
  }

  /** At the head block's own time no slot has begun. */
  lemma NoSlotAtHead(c: Clock)
    requires c.interval > 0 && c.headNum > 0
    ensures SlotAtTime(c, c.headTime) == 0
  {
    var s := if c.maintenance then c.skipSlots else 0;
    assert (1 + s) * c.interval == c.interval + s * c.interval;
    assert s * c.interval >= 0;
    assert c.headTime < c.headTime / c.interval * c.interval + c.interval;
  }

  // Who is scheduled --------------------------------------------------------------------------

  ghost predicate Distinct(ws: seq<nat>) {
    forall i, j :: 0 <= i < j < |ws| ==> ws[i] != ws[j]
  }

  function Scheduled(ws: seq<nat>, aslot: nat): nat
    requires ws != []
  {
    ws[aslot % |ws|]
  }

  /** A schedule is gone through in its order, over and over. */
  lemma ScheduleIsCyclic(ws: seq<nat>, round: nat, i: nat)
    requires i < |ws|
    ensures Scheduled(ws, round * |ws| + i) == ws[i]
  {
    ModSmall(i, |ws|, round);
  }

  lemma SameResidue(a: nat, b: nat, n: nat)
    requires n > 0 && a <= b < a + n && a % n == b % n
    ensures a == b
  {
    var qa, qb := a / n, b / n;
    assert b - a == (qb - qa) * n;
    MulStep(qb - qa, 1, n);
    MulStep(0, qb - qa, n);
  }

  /** Under one schedule, any |ws| consecutive slots name each witness exactly once. */
  lemma EachOncePerRound(ws: seq<nat>, start: nat, i: nat)
    requires ws != [] && Distinct(ws) && i < |ws|
    ensures exists s :: start <= s < start + |ws| && Scheduled(ws, s) == ws[i]
    ensures forall s, r :: start <= s < start + |ws| && start <= r < start + |ws| && Scheduled(ws, s) == Scheduled(ws, r) ==> s == r
  {
    var n := |ws|;
    var s := start + (i + n - start % n) % n;
    ResidueHits(start, i, n);
    assert Scheduled(ws, s) == ws[i];
    forall s, r | start <= s < start + n && start <= r < start + n && Scheduled(ws, s) == Scheduled(ws, r) ensures s == r {
      var x, y := s % n, r % n;
      assert x == y;
      if s <= r { SameResidue(s, r, n); } else { SameResidue(r, s, n); }
    }
  }

  lemma ResidueHits(start: nat, i: nat, n: nat)
    requires i < n
    ensures (start + (i + n - start % n) % n) % n == i
  {
    var r, q := start % n, start / n;
    var d := (i + n - r) % n;
    assert start == q * n + r;
    if i < r {
      assert d == i + n - r by { ModSmall(i + n - r, n, 0); }
      assert start + d == (q + 1) * n + i;
      ModSmall(i, n, q + 1);
    } else {
      assert d == i - r by { ModSmall(i - r, n, 1); }
      assert start + d == q * n + i;
      ModSmall(i, n, q);
    }
  }

  lemma ModSmall(x: nat, n: nat, k: nat)
    requires x < n
    ensures (k * n + x) % n == x && (x + k * n) % n == x
  {
    var y := k * n + x;
    assert y == y / n * n + y % n;
    assert (y / n - k) * n == x - y % n;
    MulStep(y / n - k, 1, n);
    MulStep(-1, y / n - k, n);
  }

  // The shuffle -------------------------------------------------------------------------------

  /** The position that is swapped to `i`, from the numbers drawn: any position from `i` on. */
  function Draw(mix: nat -> nat, i: nat, n: nat): (j: nat)
    requires i < n
    ensures i <= j < n && (j - i) % (n - i) == mix(i) % (n - i)
  {
    ModSmall(mix(i) % (n - i), n - i, 0);
    i + mix(i) % (n - i)
  }

  function Swapped(ws: seq<nat>, i: nat, j: nat): seq<nat>
    requires i < |ws| && j < |ws|
  {
    ws[i := ws[j]][j := ws[i]]
  }

  /** The shuffle from position `i` on. */
  function Shuffled(ws: seq<nat>, mix: nat -> nat, i: nat): (r: seq<nat>)
    requires i <= |ws|
    ensures |r| == |ws|
    decreases |ws| - i
  {
    if i == |ws| then ws else Shuffled(Swapped(ws, i, Draw(mix, i, |ws|)), mix, i + 1)
  }

  lemma SwapPermutes(ws: seq<nat>, i: nat, j: nat)
    requires i < |ws| && j < |ws|
    ensures |Swapped(ws, i, j)| == |ws| && multiset(Swapped(ws, i, j)) == multiset(ws)
    ensures Distinct(ws) ==> Distinct(Swapped(ws, i, j))
  {
  }

  /** The shuffled schedule holds exactly the active witnesses, each as often as before. */
  lemma {:induction false} ShuffleIsPermutation(ws: seq<nat>, mix: nat -> nat, i: nat)
    requires i <= |ws|
    ensures multiset(Shuffled(ws, mix, i)) == multiset(ws)
    ensures Distinct(ws) ==> Distinct(Shuffled(ws, mix, i))
    decreases |ws| - i
  {
    if i < |ws| {
      var j := Draw(mix, i, |ws|);
      SwapPermutes(ws, i, j);
      ShuffleIsPermutation(Swapped(ws, i, j), mix, i + 1);
    }
  }

  lemma {:induction false} ShuffleKeepsFront(ws: seq<nat>, mix: nat -> nat, i: nat)
    requires i <= |ws|
    ensures Shuffled(ws, mix, i)[..i] == ws[..i]
    decreases |ws| - i
  {
    if i < |ws| {
      var next := Swapped(ws, i, Draw(mix, i, |ws|));
      ShuffleKeepsFront(next, mix, i + 1);
      assert Shuffled(ws, mix, i)[..i] == Shuffled(next, mix, i + 1)[..i + 1][..i];
      assert next[..i + 1][..i] == ws[..i];
    }
  }

  /** Only the numbers drawn from position `i` on matter. */
  lemma {:induction false} LaterDraws(ws: seq<nat>, mix: nat -> nat, mix': nat -> nat, i: nat)
    requires i <= |ws| && forall k: nat :: k >= i ==> mix(k) == mix'(k)
    ensures Shuffled(ws, mix, i) == Shuffled(ws, mix', i)
    decreases |ws| - i
  {
    if i < |ws| {
      LaterDraws(Swapped(ws, i, Draw(mix, i, |ws|)), mix, mix', i + 1);
    }
  }

  /** Any order of the same witnesses that agrees up to `i` comes out for some numbers drawn. */
  lemma {:induction false} ShuffleReachesEvery(ws: seq<nat>, order: seq<nat>, i: nat) returns (mix: nat -> nat)
    requires i <= |ws| == |order| && multiset(ws) == multiset(order) && ws[..i] == order[..i]
    ensures Shuffled(ws, mix, i) == order
    decreases |ws| - i
  {
    if i == |ws| {
      assert ws == ws[..i] && order == order[..i];
      mix := _ => 0;
      return;
    }
    hide Swapped, Draw, Then, Distinct;
    var j := FindFrom(ws, order, i);
    var next := Swapped(ws, i, j);
    SwapPermutes(ws, i, j);
    AgreesOneMore(ws, order, i, j);
    var rest := ShuffleReachesEvery(next, order, i + 1);
    mix := Then(i, j - i, rest);
    DrawsThen(ws, order, i, j, rest);
  }

  function Then(i: nat, x: nat, rest: nat -> nat): nat -> nat {
    k => if k == i then x else rest(k)
  }

  lemma DrawsThen(ws: seq<nat>, order: seq<nat>, i: nat, j: nat, rest: nat -> nat)
    requires i <= j < |ws| && Shuffled(Swapped(ws, i, j), rest, i + 1) == order
    ensures Shuffled(ws, Then(i, j - i, rest), i) == order
  {
    ModSmall(j - i, |ws| - i, 0);
    LaterDraws(Swapped(ws, i, j), Then(i, j - i, rest), rest, i + 1);
  }

  lemma AgreesOneMore(ws: seq<nat>, order: seq<nat>, i: nat, j: nat)
    requires i <= j < |ws| == |order| && ws[..i] == order[..i] && ws[j] == order[i]
    ensures Swapped(ws, i, j)[..i + 1] == order[..i + 1]
  {
    forall k | 0 <= k < i ensures Swapped(ws, i, j)[k] == order[k] {
      assert ws[..i][k] == order[..i][k];
    }
  }

  /** What comes next in the order is still behind position `i`. */
  lemma FindFrom(ws: seq<nat>, order: seq<nat>, i: nat) returns (j: nat)
    requires i < |ws| == |order| && multiset(ws) == multiset(order) && ws[..i] == order[..i]
    ensures i <= j < |ws| && ws[j] == order[i]
  {
    assert ws == ws[..i] + ws[i..] && order == order[..i] + order[i..];
    assert multiset(ws) == multiset(ws[..i]) + multiset(ws[i..]) && multiset(order) == multiset(order[..i]) + multiset(order[i..]);
    assert multiset(ws[i..]) == multiset(ws) - multiset(ws[..i]) == multiset(order[i..]);
    assert order[i..][0] == order[i];
    assert order[i] in multiset(order[i..]);
    assert order[i] in ws[i..];
    var k :| 0 <= k < |ws[i..]| && ws[i..][k] == order[i];
    j := i + k;
  }

  method ShuffleInPlace(a: array<nat>, mix: nat -> nat)
    modifies a
    ensures a[..] == Shuffled(old(a[..]), mix, 0)
  {
    for i := 0 to a.Length
      invariant Shuffled(a[..], mix, i) == Shuffled(old(a[..]), mix, 0)
    {
      var j := Draw(mix, i, a.Length);
      ghost var before := a[..];
      a[i], a[j] := a[j], a[i];
      assert a[..] == Swapped(before, i, j);
    }
  }

  // Irreversibility ---------------------------------------------------------------------------

  const IRREVERSIBLE_THRESHOLD := 7000

  /** How many entries of `s` are at least `v`. */
  function AtLeastCount(s: seq<nat>, v: nat): (c: nat)
    ensures c <= |s|
  {
    if s == [] then 0 else AtLeastCount(s[1..], v) + (if s[0] >= v then 1 else 0)
  }

  lemma {:induction false} CountAntitone(s: seq<nat>, v: nat, w: nat)
    requires v <= w
    ensures AtLeastCount(s, w) <= AtLeastCount(s, v)
  {
    if s != [] {
      CountAntitone(s[1..], v, w);
    }
  }

  lemma {:induction false} CountJumpsAtElements(s: seq<nat>, v: nat, w: nat)
    requires v <= w && forall i :: 0 <= i < |s| ==> !(v <= s[i] < w)
    ensures AtLeastCount(s, v) == AtLeastCount(s, w)
  {
    if s != [] {
      CountJumpsAtElements(s[1..], v, w);
    }
  }

  /** `v` is the entry at `offset` of `s` in ascending order. */
  predicate IsNth(s: seq<nat>, offset: nat, v: nat) {
    v in s && AtLeastCount(s, v) >= |s| - offset > AtLeastCount(s, v + 1)
  }

  lemma {:induction false} AllAtLeastZero(s: seq<nat>)
    ensures AtLeastCount(s, 0) == |s|
  {
    if s != [] {
      AllAtLeastZero(s[1..]);
    }
  }

  function Max(s: seq<nat>): (m: nat)
    ensures forall i :: 0 <= i < |s| ==> s[i] <= m
  {
    if s == [] then 0 else var m := Max(s[1..]); if s[0] >= m then s[0] else m
  }

  lemma {:induction false} NothingAboveMax(s: seq<nat>, v: nat)
    requires forall i :: 0 <= i < |s| ==> s[i] < v
    ensures AtLeastCount(s, v) == 0
  {
    if s != [] {
      NothingAboveMax(s[1..], v);
    }
  }

  lemma {:induction false} NthAbove(s: seq<nat>, offset: nat, v: nat)
    requires offset < |s| && AtLeastCount(s, v) >= |s| - offset
    ensures exists w :: w >= v && IsNth(s, offset, w)
    decreases Max(s) + 1 - v
  {
    if AtLeastCount(s, v + 1) >= |s| - offset {
      if v >= Max(s) { NothingAboveMax(s, v + 1); }
      NthAbove(s, offset, v + 1);
    } else {
      if v !in s { CountJumpsAtElements(s, v, v + 1); }
      assert IsNth(s, offset, v);
    }
  }

  /** The entry at the offset is the largest number that all but at most `offset` entries reach. */
  lemma NthIsLargestReached(s: seq<nat>, offset: nat, v: nat, u: nat)
    requires IsNth(s, offset, v)
    ensures u <= v <==> AtLeastCount(s, u) >= |s| - offset
  {
    if u <= v { CountAntitone(s, u, v); } else { CountAntitone(s, v + 1, u); }
  }

  method NthElement(s: seq<nat>, offset: nat) returns (v: nat)
    requires offset < |s|
    ensures IsNth(s, offset, v)
  {
    AllAtLeastZero(s);
    NthAbove(s, offset, 0);
    v :| v in s && IsNth(s, offset, v);
  }

  function Get(m: map<nat, nat>, w: nat): nat {
    if w in m then m[w] else 0
  }

  /** The last block each active witness confirmed. */
  function Confirmed(active: seq<nat>, last: map<nat, nat>): (c: seq<nat>)
    ensures |c| == |active| && forall i :: 0 <= i < |c| ==> c[i] == Get(last, active[i])
  {
    seq(|active|, i requires 0 <= i < |active| => Get(last, active[i]))
  }

  /** All but this many of the active witnesses must have confirmed a block to make it irreversible. */
  function Tolerated(n: nat): (k: nat)
    ensures n > 0 ==> k < n
    ensures 10 * (n - k) >= 7 * n > 10 * (n - k - 1) || n == k == 0
  {
    (HUNDRED_PERCENT - IRREVERSIBLE_THRESHOLD) * n / HUNDRED_PERCENT
  }

  // Missed slots ------------------------------------------------------------------------------

  /** Missed-slot counts with the witnesses of the `n` slots after `aslot` counted once more. */
  function Missed(m: map<nat, nat>, ws: seq<nat>, aslot: nat, n: nat): map<nat, nat>
    requires ws != []
  {
    if n == 0 then m
    else
      var before, w := Missed(m, ws, aslot, n - 1), Scheduled(ws, aslot + n);
      before[w := Get(before, w) + 1]
  }

  ghost predicate ScheduledWithin(ws: seq<nat>, from: nat, to: nat, w: nat)
    requires ws != []
  {
    exists s :: from < s <= to && Scheduled(ws, s) == w
  }

  /** As long as less than a round was missed, each witness is counted at most once, and the next one not at all. */
  lemma {:induction false} MissedOnce(m: map<nat, nat>, ws: seq<nat>, aslot: nat, n: nat, w: nat)
    requires ws != [] && Distinct(ws) && n < |ws|
    ensures Get(Missed(m, ws, aslot, n), w) == Get(m, w) + (if ScheduledWithin(ws, aslot, aslot + n, w) then 1 else 0)
    ensures w == Scheduled(ws, aslot + n + 1) ==> !ScheduledWithin(ws, aslot, aslot + n, w)
  {
    EachOncePerRound(ws, aslot + 1, 0);
    hide Scheduled;
    if n > 0 {
      MissedOnce(m, ws, aslot, n - 1, w);
      var last := Scheduled(ws, aslot + n);
      if w != last {
        assert ScheduledWithin(ws, aslot, aslot + n, w) ==> ScheduledWithin(ws, aslot, aslot + n - 1, w);
      }
    }
  }

  // Applying a block --------------------------------------------------------------------------

  function MissedAfter(m: map<nat, nat>, ws: seq<nat>, aslot: nat, slot: nat): map<nat, nat>
    requires ws != [] && slot > 0
  {
    if slot - 1 < |ws| then Missed(m, ws, aslot, slot - 1) else m
  }

  /** Each witness is counted once for the slots that were skipped, or not at all if they were a round or more. */
  lemma MissedAfterCounts(m: map<nat, nat>, ws: seq<nat>, aslot: nat, slot: nat, w: nat)
    requires ws != [] && Distinct(ws) && slot > 0
    ensures Get(MissedAfter(m, ws, aslot, slot), w)
            == Get(m, w) + (if slot <= |ws| && ScheduledWithin(ws, aslot, aslot + slot - 1, w) then 1 else 0)
  {
    if slot <= |ws| {
      MissedOnce(m, ws, aslot, slot - 1, w);
    }
  }

  /** The block is later than the head and in a slot of its signer. */
  predicate InSlot(c: Clock, ws: seq<nat>, aslot: nat, t: nat, signer: nat)
    requires c.interval > 0 && ws != []
    ensures InSlot(c, ws, aslot, t, signer) ==> SlotAtTime(c, t) > 0
  {
    c.headTime < t && SlotAtTime(c, t) > 0 && Scheduled(ws, aslot + SlotAtTime(c, t)) == signer
  }

  /** A block is in a slot of its signer exactly when its time lies in one and the signer is scheduled for that one. */
  lemma InSlotMeans(c: Clock, ws: seq<nat>, aslot: nat, t: nat, signer: nat)
    requires c.interval > 0 && ws != []
    ensures InSlot(c, ws, aslot, t, signer) <==> exists n :: n >= 1 && SlotTime(c, n) <= t < SlotTime(c, n + 1) && Scheduled(ws, aslot + n) == signer
  {
    var slot := SlotAtTime(c, t);
    forall n: nat | n >= 1 ensures SlotTime(c, n) <= t < SlotTime(c, n + 1) <==> n == slot {
      SlotsAreAdjoint(c, n, t);
      SlotsAreAdjoint(c, n + 1, t);
    }
    SlotsAreAdjoint(c, 1, t);
    SlotTimeIsRegular(c, 1);
    FirstSlotIsLater(c);
    if slot > 0 {
      assert SlotTime(c, slot) <= t < SlotTime(c, slot + 1);
    }
    hide SlotTime, SlotAtTime, Scheduled;
  }

  lemma FirstSlotIsLater(c: Clock)
    requires c.interval > 0
    ensures SlotTime(c, 1) > c.headTime
  {
    SlotTimeIsRegular(c, 1);
    assert Skipped(c) * c.interval >= 0;
  }

  /** The schedule after block number `n`: reshuffled once per round. */
  function NextSchedule(n: nat, active: seq<nat>, ws: seq<nat>, mix: nat -> nat): seq<nat>
    requires active != []
  {
    if n % |active| == 0 then Shuffled(active, mix, 0) else ws
  }

  /** The schedule is renewed from the active witnesses after every block whose number they divide, and only then. */
  lemma RenewedOncePerRound(n: nat, active: seq<nat>, ws: seq<nat>, mix: nat -> nat)
    requires active != []
    ensures if exists k :: IsTimes(n, k, |active|) then multiset(NextSchedule(n, active, ws, mix)) == multiset(active) else NextSchedule(n, active, ws, mix) == ws
  {
    ShuffleIsPermutation(active, mix, 0);
    DividesIsNoRest(n, |active|);
    hide IsTimes, Distinct, Shuffled;
  }

  predicate IsTimes(n: nat, k: nat, d: nat) {
    n == k * d
  }

  lemma DividesIsNoRest(n: nat, d: nat)
    requires d > 0
    ensures (exists k :: IsTimes(n, k, d)) <==> n % d == 0
  {
    if n % d == 0 {
      assert n == n / d * d + n % d;
      assert IsTimes(n, n / d, d);
    }
    if k: nat :| IsTimes(n, k, d) {
      ModSmall(0, d, k);
    }
  }

  /**
   The last irreversible block moves from `before` to `after`: it rises to the largest number that all
   but the tolerated number of active witnesses have confirmed, and never falls.
   */
  ghost predicate Rises(active: seq<nat>, last: map<nat, nat>, before: nat, after: nat) {
    var seen, needed := Confirmed(active, last), |active| - Tolerated(|active|);
    if AtLeastCount(seen, before + 1) >= needed then after > before && forall u: nat :: u <= after <==> AtLeastCount(seen, u) >= needed
    else after == before
  }

  class Producers {
    /** The generator: the numbers drawn for a shuffle at a time. */
    const random: nat -> nat -> nat
    var clock: Clock
    var aslot: nat
    var shuffled: seq<nat>
    var active: seq<nat>
    var lastAslot: map<nat, nat>
    var lastConfirmed: map<nat, nat>
    var missed: map<nat, nat>
    var irreversible: nat

    ghost predicate Valid()
      reads this
    {
      && clock.interval > 0 && shuffled != [] && Distinct(shuffled) && active != [] && Distinct(active)
      && irreversible <= clock.headNum && (forall w :: w in lastConfirmed ==> lastConfirmed[w] <= clock.headNum)
    }

    constructor (random: nat -> nat -> nat, genesisTime: nat, interval: nat, skipSlots: nat, witnesses: seq<nat>)
      requires interval > 0 && witnesses != [] && Distinct(witnesses)
      ensures Valid() && clock == Clock(0, genesisTime, interval, false, skipSlots) && aslot == 0
      ensures this.random == random && shuffled == witnesses && active == witnesses && irreversible == 0
      ensures forall w :: Get(missed, w) == 0 && Get(lastConfirmed, w) == 0 && Get(lastAslot, w) == 0
    {
      this.random := random;
      clock, aslot := Clock(0, genesisTime, interval, false, skipSlots), 0;
      shuffled, active := witnesses, witnesses;
      lastAslot, lastConfirmed, missed, irreversible := map[], map[], map[], 0;
    }

    /** Count a missed slot for each witness whose slot the block skipped, unless a whole round was skipped. */
    method UpdateMissed(slot: nat)
      requires Valid() && slot > 0
      modifies this`missed
      ensures missed == MissedAfter(old(missed), shuffled, aslot, slot)
    {
      if slot - 1 < |shuffled| {
        for i := 0 to slot - 1
          invariant missed == Missed(old(missed), shuffled, aslot, i)
        {
          var w := Scheduled(shuffled, aslot + i + 1);
          missed := missed[w := Get(missed, w) + 1];
        }
      }
    }

    /** The slot of the block becomes the current one; the slot counted from the new head's own time is 0. */
    method RecordBlock(t: nat, slot: nat, signer: nat)
      requires Valid()
      modifies this`clock, this`aslot, this`lastAslot, this`lastConfirmed
      ensures Valid() && clock == old(clock).(headNum := old(clock).headNum + 1, headTime := t) && aslot == old(aslot) + slot
      ensures lastAslot == old(lastAslot)[signer := aslot] && lastConfirmed == old(lastConfirmed)[signer := clock.headNum]
    {
      clock := clock.(headNum := clock.headNum + 1, headTime := t);
      aslot := aslot + slot;
      NoSlotAtHead(clock);
      lastAslot := lastAslot[signer := aslot + SlotAtTime(clock, t)];
      lastConfirmed := lastConfirmed[signer := clock.headNum];
    }

    method UpdateLastIrreversible()
      requires Valid()
      modifies this`irreversible
      ensures Valid() && Rises(active, lastConfirmed, old(irreversible), irreversible)
    {
      var seen := Confirmed(active, lastConfirmed);
      var v := NthElement(seen, Tolerated(|active|));
      forall u: nat ensures u <= v <==> AtLeastCount(seen, u) >= |active| - Tolerated(|active|) {
        NthIsLargestReached(seen, Tolerated(|active|), v, u);
      }
      if v > irreversible {
        irreversible := v;
      }
    }

    method UpdateSchedule()
      requires Valid()
      modifies this`shuffled
      ensures Valid() && shuffled == NextSchedule(clock.headNum, active, old(shuffled), random(clock.headTime))
    {
      if clock.headNum % |active| == 0 {
        var ws, mix := active, random(clock.headTime);
        ShuffleIsPermutation(ws, mix, 0);
        var a := new nat[|ws|](i requires 0 <= i < |ws| => ws[i]);
        assert a[..] == ws;
        ShuffleInPlace(a, mix);
        shuffled := a[..];
      }
    }

    /**
     Apply a block signed by `signer` at time `t`.  It is accepted exactly when it is in a slot of its
     signer; that slot becomes the current one, so no later block can be in it.
     */
    method ApplyBlock(t: nat, signer: nat, maintenance: bool, elected: seq<nat>) returns (thrown: bool)
      requires Valid() && elected != [] && Distinct(elected)
      modifies this
      ensures Valid()
      ensures thrown <==> !InSlot(old(clock), old(shuffled), old(aslot), t, signer)
      ensures thrown ==> unchanged(this)
      ensures !thrown ==>
                var slot := SlotAtTime(old(clock), t);
                && clock == old(clock).(headNum := old(clock).headNum + 1, headTime := t, maintenance := maintenance)
                && aslot == old(aslot) + slot > old(aslot) && signer == Scheduled(old(shuffled), aslot)
                && lastAslot == old(lastAslot)[signer := aslot] && lastConfirmed == old(lastConfirmed)[signer := clock.headNum]
                && missed == MissedAfter(old(missed), old(shuffled), old(aslot), slot)
                && active == (if maintenance then elected else old(active))
                && shuffled == NextSchedule(clock.headNum, active, old(shuffled), random(t))
                && Rises(old(active), lastConfirmed, old(irreversible), irreversible)
    {
      if !InSlot(clock, shuffled, aslot, t, signer) {
        return true;
      }
      var slot := SlotAtTime(clock, t);
      hide SlotAtTime, SlotTime, Rises, MissedAfter, NextSchedule, Scheduled, Distinct, InSlot;
      UpdateMissed(slot);
      RecordBlock(t, slot, signer);
      UpdateLastIrreversible();
      if maintenance {
        active := elected;
      }
      clock := clock.(maintenance := maintenance);
      UpdateSchedule();
      return false;
    }
  }
}
