/**
 Block synchronisation: the short summary of the own chain a node sends to a peer, and the block ids a
 node answers such a summary with.
 */
module Sync {
  import opened Options
  import opened Blocks
  import opened Forks
  import opened BlockStore
  import opened Chains

  // The numbers in a synopsis -----------------------------------------------------------------

  function Log2(n: nat): nat {
    if n <= 1 then 0 else 1 + Log2(n / 2)
  }

  /** The number after `n`: half of what is left up to `end` is skipped. */
  function NextNumber(n: nat, end: nat): (r: nat)
    requires n <= end
    ensures n < r <= end + 1
  {
    n + (end - n + 2) / 2
  }

  /** The block numbers of a synopsis: from `low`, each time half of what is left up to `end`, not beyond `high`. */
  function Steps(low: nat, high: nat, end: nat): (s: seq<nat>)
    requires low <= high <= end
    ensures s != [] && s[0] == low
    decreases end - low
  {
    var next := NextNumber(low, end);
    if next <= high then [low] + Steps(next, high, end) else [low]
  }

  ghost predicate Increasing(s: seq<nat>, low: nat, high: nat) {
    && (forall i :: 0 <= i < |s| ==> low <= s[i] <= high)
    && (forall i, j :: 0 <= i < j < |s| ==> s[i] < s[j])
  }

  /** The numbers increase strictly and stay within bounds. */
  lemma {:induction false} StepsIncrease(low: nat, high: nat, end: nat)
    requires low <= high <= end
    ensures Increasing(Steps(low, high, end), low, high)
    decreases end - low
  {
    var next := NextNumber(low, end);
    if next <= high {
      StepsIncrease(next, high, end);
      assert Steps(low, high, end) == [low] + Steps(next, high, end);
    }
  }

  /** There are at most about log2 of them, and that many when nothing follows `high`; then the last is `high`. */
  lemma {:induction false} StepsAreFew(low: nat, high: nat, end: nat)
    requires low <= high <= end
    ensures var s := Steps(low, high, end);
            && |s| <= Log2(end - low + 1) + 1
            && (end == high ==> |s| == Log2(end - low + 1) + 1 && s[|s| - 1] == high)
    decreases end - low
  {
    var next := NextNumber(low, end);
    if next <= high {
      assert end - next + 1 == (end - low + 1) / 2;
      StepsAreFew(next, high, end);
    }
  }

  // Ancestors ---------------------------------------------------------------------------------

  lemma {:induction false} AncestorThrough(id: Id, x: Id, n: nat)
    requires OnChain(id, x) && n <= Num(x)
    ensures n <= Num(id) && AncestorAt(id, n) == AncestorAt(x, n)
    decreases id
  {
    AncestorIsLower(id, x);
    if id != x {
      AncestorThrough(id.block.previous, x, n);
    }
  }

  lemma {:induction false} AncestorIsOnChain(id: Id, n: nat)
    requires n <= Num(id) && (id.Of? || n == Num(id))
    ensures OnChain(id, AncestorAt(id, n))
    decreases id
  {
    if n != Num(id) && id.block.previous.Of? {
      AncestorIsOnChain(id.block.previous, n);
    }
  }

  /** The ids of a branch, bottom first. */
  function Upwards(b: seq<Item>): (ids: seq<Id>)
    ensures |ids| == |b| && forall i :: 0 <= i < |b| ==> ids[i] == b[|b| - 1 - i].id
  {
    seq(|b|, i requires 0 <= i < |b| => b[|b| - 1 - i].id)
  }

  // The synopsis ------------------------------------------------------------------------------

  /** Where a synopsis ends and where its ids come from: the store up to `nonFork`, then a fork. */
  datatype Span = Span(low: nat, nonFork: nat, high: nat, history: seq<Id>)

  ghost predicate ValidSpan(s: Span) {
    && s.low <= s.high && s.nonFork + |s.history| == s.high && s.low <= s.nonFork + 1
    && forall i :: 0 <= i < |s.history| ==> Num(s.history[i]) == s.nonFork + 1 + i
  }

  /** The lower end: the last block that cannot be undone, at most the upper end, at least 1. */
  function LowEnd(lastNonUndoable: nat, high: nat): (low: nat)
    ensures 1 <= lastNonUndoable <= high ==> low == lastNonUndoable
    ensures lastNonUndoable == 0 ==> low == 1
    ensures lastNonUndoable > high ==> low == high
  {
    if lastNonUndoable == 0 then 1 else if lastNonUndoable < high then lastNonUndoable else high
  }

  ghost predicate Stale<O(!new)>(db: ChainDatabase<O>, id: Id)
    reads db, db.store
  {
    Num(id) > Num(db.state.head) && db.store.FetchBlockId(Num(id)) == Some(id)
  }

  /** A span that summarises the chain of `tip`. */
  ghost predicate Spans<O(!new)>(db: ChainDatabase<O>, s: Span, tip: Id, lastNonUndoable: nat)
    reads db, db.store
  {
    && ValidSpan(s) && s.high == Num(tip) > 0 && s.low == LowEnd(lastNonUndoable, Num(tip)) && (s.nonFork > 0 ==> s.nonFork < |db.store.index|)
    && (!Stale(db, tip) ==>
          && s.nonFork <= Num(db.state.head)
          && (s.nonFork > 0 ==> OnChain(tip, AncestorAt(db.state.head, s.nonFork)))
          && forall i :: 0 <= i < |s.history| ==> s.history[i] == AncestorAt(tip, s.nonFork + 1 + i))
  }

  /** The paths of `x` and `y` meet after `k` more steps and not earlier. */
  ghost predicate MeetFirst(index: Index, x: Item, y: Item, k: nat)
    requires Keyed(index)
    requires x.id.Of? && y.id.Of?
  {
    Meet(index, x, y, k) && forall j :: 0 <= j < k ==> !Meet(index, x, y, j)
  }

  /** `reference` is not joined to the chain, or the most recent block they share is below the last one that cannot be undone. */
  ghost predicate Unreachable(index: Index, head: Id, reference: Id, lastNonUndoable: nat)
    requires Keyed(index)
  {
    !Joined(index, head, reference)
    || exists k :: MeetFirst(index, index[head], index[reference], k) && Num(head) - Above(index[head], index[reference]) - k - 1 < lastNonUndoable
  }

  lemma LeavesAt(index: Index, head: Id, reference: Id, lastNonUndoable: nat, k: nat)
    requires Keyed(index) && head in index && reference in index && MeetFirst(index, index[head], index[reference], k)
    ensures Unreachable(index, head, reference, lastNonUndoable) <==> Num(head) - Above(index[head], index[reference]) - k - 1 < lastNonUndoable
  {
    hide Meet;
    assert forall l: nat :: MeetFirst(index, index[head], index[reference], l) ==> l == k;
  }

  /** Where the source throws: nothing is recorded for the number, or another block is and the fork is out of reach. */
  ghost predicate NoSpan<O(!new)>(db: ChainDatabase<O>, reference: Id, lastNonUndoable: nat)
    requires Keyed(db.fork.index)
    reads db, db.fork, db.store
  {
    var there := db.store.FetchBlockId(Num(reference));
    there.None? || (there.value != reference && Unreachable(db.fork.index, db.state.head, reference, lastNonUndoable))
  }

  /** What a synopsis for `reference` summarises; `None` where the source throws. */
  method FindSpan<O(!new)>(db: ChainDatabase<O>, reference: Id, lastNonUndoable: nat) returns (r: Option<Span>)
    requires db.Consistent() && reference != Zero && lastNonUndoable <= Num(db.state.head)
    ensures r.Some? ==> Spans(db, r.value, reference, lastNonUndoable)
    ensures r.None? <==> NoSpan(db, reference, lastNonUndoable)
  {
    var num := Num(reference);
    var there := db.store.FetchBlockId(num);
    if there.None? {
      return None;
    }
    if there.value == reference {
      if num <= Num(db.state.head) && num > 0 { db.ChainIsStored(num); }
      var low := if num < lastNonUndoable then num else lastNonUndoable;
      return Some(Span(if low == 0 then 1 else low, num, num, []));
    }
    r := FindFork(db, reference, lastNonUndoable);
  }

  /** The reference block is on a fork: find where it leaves the chain. */
  method FindFork<O(!new)>(db: ChainDatabase<O>, reference: Id, lastNonUndoable: nat) returns (r: Option<Span>)
    requires db.Consistent() && lastNonUndoable <= Num(db.state.head)
    ensures r.Some? ==> Spans(db, r.value, reference, lastNonUndoable)
    ensures r.None? <==> Unreachable(db.fork.index, db.state.head, reference, lastNonUndoable)
  {
    hide AncestorAt, OnChain, StateAt, HoldsChain, History, RoundTrips, WellPlaced, Lock, Up, Stale, Meet;
    var head := db.state.head;
    var thrown, a, b := db.fork.FetchBranchFrom(head, reference);
    if thrown {
      return None;
    }
    BranchesDescend(db.fork.index, db.fork.index[head], db.fork.index[reference], a, b);
    var common := Previous(a[|a| - 1]);
    CommonAncestor(head, reference, a, b);
    db.HeadIsStored();
    LeavesAt(db.fork.index, head, reference, lastNonUndoable, |a| - Above(db.fork.index[head], db.fork.index[reference]) - 1);
    hide Descending, Branches, Keyed, Unreachable;
    if Num(common) < lastNonUndoable {
      return None;
    }
    return Some(Span(if lastNonUndoable == 0 then 1 else lastNonUndoable, Num(common), Num(common) + |b|, Upwards(b)));
  }

  lemma CommonAncestor(head: Id, reference: Id, a: seq<Item>, b: seq<Item>)
    requires a != [] && b != [] && Descending(a) && Descending(b) && a[0].id == head && b[0].id == reference
    requires Previous(a[|a| - 1]) == Previous(b[|b| - 1])
    ensures var common := Previous(b[|b| - 1]);
            && Num(common) + |b| == Num(reference) && Num(common) + |a| == Num(head)
            && AncestorAt(head, Num(common)) == common && OnChain(reference, common)
            && forall i :: 0 <= i < |b| ==> Num(Upwards(b)[i]) == Num(common) + 1 + i && Upwards(b)[i] == AncestorAt(reference, Num(common) + 1 + i)
  {
    hide AncestorAt, OnChain, AllIn;
    var common := Previous(b[|b| - 1]);
    DescendingReaches(a, 0, |a| - 1);
    DescendingReaches(b, 0, |b| - 1);
    AncestorThrough(head, common, Num(common));
    AncestorIsItself(common);
    forall i | 0 <= i < |b|
      ensures Num(Upwards(b)[i]) == Num(common) + 1 + i && Upwards(b)[i] == AncestorAt(reference, Num(common) + 1 + i)
    {
      BranchAncestor(b, |b| - 1 - i);
    }
  }

  lemma BranchAncestor(b: seq<Item>, j: nat)
    requires Descending(b) && j < |b|
    ensures Num(b[j].id) == Num(Previous(b[|b| - 1])) + |b| - j <= Num(b[0].id) && b[j].id == AncestorAt(b[0].id, Num(b[j].id))
  {
    hide AncestorAt, OnChain;
    DescendingReaches(b, 0, j);
    DescendingReaches(b, j, |b| - 1);
    AncestorThrough(b[0].id, b[j].id, Num(b[j].id));
    AncestorIsItself(b[j].id);
  }

  lemma AncestorIsItself(id: Id)
    ensures AncestorAt(id, Num(id)) == id
  {
  }

  function IdAt<O(!new)>(db: ChainDatabase<O>, s: Span, n: nat): Option<Id>
    requires n <= s.nonFork + |s.history|
    reads db, db.store
  {
    if n <= s.nonFork then db.store.FetchBlockId(n) else Some(s.history[n - s.nonFork - 1])
  }

  /** The id taken for a number has that number, and is the tip's ancestor of that number. */
  lemma IdIsAncestor<O(!new)>(db: ChainDatabase<O>, s: Span, tip: Id, lastNonUndoable: nat, n: nat)
    requires db.Consistent() && Spans(db, s, tip, lastNonUndoable) && 1 <= n <= s.high
    ensures IdAt(db, s, n).Some? && Num(IdAt(db, s, n).value) == n
    ensures !Stale(db, tip) ==> IdAt(db, s, n) == Some(AncestorAt(tip, n))
  {
    if n <= s.nonFork && !Stale(db, tip) {
      var head, join := db.state.head, AncestorAt(db.state.head, s.nonFork);
      db.ChainIsStored(n);
      db.ChainIsStored(s.nonFork);
      AncestorIsOnChain(head, s.nonFork);
      AncestorThrough(head, join, n);
      AncestorThrough(tip, join, n);
    }
  }

  /** `ids` have the numbers `nums`, and are (if `exact`) the ancestors of `tip` with these numbers. */
  ghost predicate Lists(tip: Id, ids: seq<Id>, nums: seq<nat>, exact: bool) {
    && |ids| == |nums|
    && forall i :: 0 <= i < |ids| ==> Num(ids[i]) == nums[i] <= Num(tip) && (exact ==> ids[i] == AncestorAt(tip, nums[i]))
  }

  /**
   The synopsis of the chain of `reference`, or of the own chain.  It lists that chain's blocks at the
   numbers of `Steps`, unless `reference` is only a stale entry of the store.
   */
  method Synopsis<O(!new)>(db: ChainDatabase<O>, reference: Id, after: nat, lastNonUndoable: nat) returns (r: Option<seq<Id>>)
    requires db.Consistent() && lastNonUndoable <= Num(db.state.head)
    ensures r == Some([]) <==> reference == Zero && db.state.head == Zero
    ensures r.None? <==> reference != Zero && NoSpan(db, reference, lastNonUndoable)
    ensures r.Some? && r.value != [] ==>
              var tip := if reference == Zero then db.state.head else reference;
              var low := LowEnd(lastNonUndoable, Num(tip));
              1 <= low <= Num(tip) && Lists(tip, r.value, Steps(low, Num(tip), Num(tip) + after), !Stale(db, tip))
  {
    var span: Span;
    ghost var tip := if reference == Zero then db.state.head else reference;
    if reference != Zero {
      var found := FindSpan(db, reference, lastNonUndoable);
      if found.None? {
        return None;
      }
      span := found.value;
    } else {
      var num := Num(db.state.head);
      if num == 0 {
        return Some([]);
      }
      span := Span(if lastNonUndoable == 0 then 1 else lastNonUndoable, num, num, []);
    }
    assert Spans(db, span, tip, lastNonUndoable);
    hide Lists, Steps, OnChain, StateAt, History, HoldsChain;
    var ids := Collect(db, span, after, tip, lastNonUndoable);
    return Some(ids);
  }

  /** A synopsis under construction: `n` is the number of the next id. */
  ghost predicate Collecting(tip: Id, ids: seq<Id>, all: seq<nat>, n: nat, end: nat, exact: bool)
    requires Num(tip) <= end
  {
    && |ids| <= |all| && Lists(tip, ids, all[..|ids|], exact)
    && all[|ids|..] == (if n <= Num(tip) then Steps(n, Num(tip), end) else [])
  }

  lemma CollectingGoesOn(tip: Id, ids: seq<Id>, all: seq<nat>, n: nat, end: nat, exact: bool, id: Id)
    requires Num(tip) <= end && Collecting(tip, ids, all, n, end, exact) && n <= Num(tip)
    requires Num(id) == n && (exact ==> id == AncestorAt(tip, n))
    ensures Collecting(tip, ids + [id], all, NextNumber(n, end), end, exact)
  {
    var next := NextNumber(n, end);
    TakeOne(all, |ids|, n, if next <= Num(tip) then Steps(next, Num(tip), end) else []);
    ListsMore(tip, ids, all[..|ids|], exact, id, n);
  }

  lemma TakeOne(all: seq<nat>, k: nat, n: nat, rest: seq<nat>)
    requires k <= |all| && all[k..] == [n] + rest
    ensures k < |all| && all[..k + 1] == all[..k] + [n] && all[k + 1..] == rest
  {
    assert all[k] == all[k..][0] && all[k + 1..] == all[k..][1..];
  }

  lemma ListsMore(tip: Id, ids: seq<Id>, nums: seq<nat>, exact: bool, id: Id, n: nat)
    requires Lists(tip, ids, nums, exact) && Num(id) == n <= Num(tip) && (exact ==> id == AncestorAt(tip, n))
    ensures Lists(tip, ids + [id], nums + [n], exact)
  {
    hide AncestorAt, Num;
  }

  lemma SpanIsReady<O(!new)>(db: ChainDatabase<O>, s: Span, tip: Id, lastNonUndoable: nat)
    requires Spans(db, s, tip, lastNonUndoable)
    ensures 1 <= s.low <= s.high == Num(tip) && s.nonFork + |s.history| == s.high
  {
    hide OnChain, AncestorAt;
  }

  lemma CollectingStarts(tip: Id, all: seq<nat>, n: nat, end: nat, exact: bool)
    requires n <= Num(tip) <= end && all == Steps(n, Num(tip), end)
    ensures Collecting(tip, [], all, n, end, exact)
  {
    assert all[..0] == [] && all[0..] == all;
  }

  method Collect<O(!new)>(db: ChainDatabase<O>, span: Span, after: nat, ghost tip: Id, ghost lastNonUndoable: nat) returns (ids: seq<Id>)
    requires db.Consistent() && Spans(db, span, tip, lastNonUndoable)
    ensures ids != [] && Lists(tip, ids, Steps(span.low, span.high, span.high + after), !Stale(db, tip))
  {
    var n, end := span.low, span.high + after;
    ids := [];
    hide *;
    SpanIsReady(db, span, tip, lastNonUndoable);
    ghost var all, exact := Steps(n, span.high, end), !Stale(db, tip);
    CollectingStarts(tip, all, n, end, exact);
    while n <= span.high
      invariant n >= 1 && (ids == [] ==> n <= span.high)
      invariant Collecting(tip, ids, all, n, end, exact)
      decreases end + 1 - n
    {
      var id := FetchId(db, span, n, tip, lastNonUndoable);
      CollectingGoesOn(tip, ids, all, n, end, exact, id);
      ids, n := ids + [id], NextNumber(n, end);
    }
    CollectingEnds(tip, ids, all, n, end, exact);
  }

  /** The lookup of an id never fails: the store has an entry for every number in question. */
  method FetchId<O(!new)>(db: ChainDatabase<O>, span: Span, n: nat, ghost tip: Id, ghost lastNonUndoable: nat) returns (id: Id)
    requires db.Consistent() && Spans(db, span, tip, lastNonUndoable) && 1 <= n <= span.high
    ensures Num(id) == n
    ensures !Stale(db, tip) ==> n <= Num(tip) && id == AncestorAt(tip, n)
  {
    IdIsAncestor(db, span, tip, lastNonUndoable, n);
    id := IdAt(db, span, n).value;
  }

  lemma CollectingEnds(tip: Id, ids: seq<Id>, all: seq<nat>, n: nat, end: nat, exact: bool)
    requires Num(tip) <= end && Collecting(tip, ids, all, n, end, exact) && n > Num(tip)
    ensures Lists(tip, ids, all, exact)
  {
    assert all[..|ids|] == all;
  }

  // Answering a synopsis ----------------------------------------------------------------------

  predicate Known<O(!new)>(db: ChainDatabase<O>, id: Id)
    reads db, db.fork, db.store
  {
    id in db.fork.index || db.store.Contains(id)
  }

  /** The node takes an id of a synopsis for one of its own chain. */
  predicate Recognised<O(!new)>(db: ChainDatabase<O>, id: Id)
    reads db, db.fork, db.store
  {
    id == Zero || (Known(db, id) && db.store.FetchBlockId(Num(id)) == Some(id))
  }

  /** The blocks of the chain are exactly the recognised ids that are not above the head. */
  lemma RecognisedIsShared<O(!new)>(db: ChainDatabase<O>, id: Id)
    requires db.Consistent()
    ensures OnChain(db.state.head, id) <==> Recognised(db, id) && Num(id) <= Num(db.state.head)
  {
    var head := db.state.head;
    if id == Zero {
      ChainReachesZero(db.exec, db.genesis, head);
    } else if OnChain(head, id) {
      AncestorIsLower(head, id);
      AncestorThrough(head, id, Num(id));
      AncestorIsItself(id);
      AncestorIsValid(db.exec, db.genesis, head, id);
      db.store.ChainReadsBack(head, Num(id));
    } else if Recognised(db, id) && Num(id) <= Num(head) {
      db.ChainIsStored(Num(id));
      AncestorIsOnChain(head, Num(id));
    }
  }

  lemma {:induction false} ChainReachesZero<O(!new)>(exec: (O, Block) -> Option<O>, genesis: O, id: Id)
    requires StateAt(exec, genesis, id).Some?
    ensures OnChain(id, Zero)
    decreases id
  {
    if id != Zero {
      ChainReachesZero(exec, genesis, id.block.previous);
    }
  }

  /** A block that was undone stays recognised until its number is used again. */
  lemma StaleIsRecognised<O(!new)>(db: ChainDatabase<O>, id: Id)
    requires db.Consistent() && Holds(db.store.codec, db.store.index, db.store.blocks, id) && Num(id) > Num(db.state.head)
    ensures Recognised(db, id) && !OnChain(db.state.head, id)
  {
    if OnChain(db.state.head, id) { AncestorIsLower(db.state.head, id); }
  }

  /** The block is known, but nothing is recorded for its number: the source throws. */
  predicate Absent<O(!new)>(db: ChainDatabase<O>, id: Id)
    reads db, db.fork, db.store
  {
    Known(db, id) && db.store.FetchBlockId(Num(id)).None?
  }

  /** No id is recognised, or the search from the end comes upon an absent one before that. */
  ghost predicate Unanswerable<O(!new)>(db: ChainDatabase<O>, synopsis: seq<Id>)
    reads db, db.fork, db.store
  {
    || (forall j :: 0 <= j < |synopsis| ==> !Recognised(db, synopsis[j]))
    || exists k :: 0 <= k < |synopsis| && Absent(db, synopsis[k]) && forall j :: k < j < |synopsis| ==> !Recognised(db, synopsis[j])
  }

  /** The last id of a synopsis the node recognises. */
  method LastRecognised<O(!new)>(db: ChainDatabase<O>, synopsis: seq<Id>) returns (r: Option<nat>)
    requires db.Consistent()
    ensures r.Some? ==> r.value < |synopsis| && Recognised(db, synopsis[r.value]) && forall j :: r.value < j < |synopsis| ==> !Recognised(db, synopsis[j])
    ensures r.None? <==> Unanswerable(db, synopsis)
  {
    var k := |synopsis|;
    while k > 0
      invariant 0 <= k <= |synopsis|
      invariant forall j :: k <= j < |synopsis| ==> !Recognised(db, synopsis[j]) && !Absent(db, synopsis[j])
    {
      k := k - 1;
      var id := synopsis[k];
      if id == Zero {
        return Some(k);
      }
      if Known(db, id) {
        var there := db.store.FetchBlockId(Num(id));
        if there.None? {
          assert Absent(db, synopsis[k]);
          return None;
        }
        if there.value == id {
          return Some(k);
        }
      }
    }
    return None;
  }

  /** `ids` are the chain's blocks from number `from` on, without a gap, as many as the limit allows. */
  ghost predicate IsRun(head: Id, ids: seq<Id>, from: nat, limit: nat) {
    && |ids| == (if from > Num(head) then 0 else if Num(head) + 1 - from <= limit then Num(head) + 1 - from else limit)
    && forall i :: 0 <= i < |ids| ==> ids[i] == AncestorAt(head, from + i) && Num(ids[i]) == from + i
  }

  /**
   Answer a synopsis with the ids that follow the last recognised one, which is included.  The number
   of further blocks is exact whenever an id is returned.
   */
  method GetBlockIds<O(!new)>(db: ChainDatabase<O>, synopsis: seq<Id>, limit: nat) returns (r: Option<seq<Id>>, remaining: nat, ghost last: Id)
    requires db.Consistent()
    ensures db.state.head == Zero ==> r == Some([]) && remaining == 0
    ensures r.None? <==> db.state.head != Zero && synopsis != [] && synopsis != [Zero] && Unanswerable(db, synopsis)
    ensures r.Some? && db.state.head != Zero ==>
              && (if synopsis == [] || synopsis == [Zero] then last == Zero
                  else Recognised(db, last) && exists k :: 0 <= k < |synopsis| && synopsis[k] == last && forall j :: k < j < |synopsis| ==> !Recognised(db, synopsis[j]))
              && IsRun(db.state.head, r.value, if Num(last) == 0 then 1 else Num(last), limit)
              && remaining == if r.value == [] then 0 else Num(db.state.head) - Num(r.value[|r.value| - 1])
  {
    remaining, last := 0, Zero;
    var start := 0;
    var headNum := Num(db.state.head);
    if headNum == 0 {
      return Some([]), 0, Zero;
    }
    if synopsis != [] && synopsis != [Zero] {
      var k := LastRecognised(db, synopsis);
      if k.None? {
        return None, 0, Zero;
      }
      start, last := Num(synopsis[k.value]), synopsis[k.value];
    }
    var ids := ReadRun(db, if start == 0 then 1 else start, limit);
    if ids != [] && Num(ids[|ids| - 1]) < headNum {
      remaining := headNum - Num(ids[|ids| - 1]);
    }
    return Some(ids), remaining, last;
  }

  method ReadRun<O(!new)>(db: ChainDatabase<O>, from: nat, limit: nat) returns (ids: seq<Id>)
    requires db.Consistent() && from >= 1
    ensures IsRun(db.state.head, ids, from, limit)
  {
    ids := [];
    var n := from;
    while n <= Num(db.state.head) && |ids| < limit
      invariant from <= n && |ids| == n - from && (n > from ==> n <= Num(db.state.head) + 1) && |ids| <= limit
      invariant forall i :: 0 <= i < |ids| ==> ids[i] == AncestorAt(db.state.head, from + i) && Num(ids[i]) == from + i
    {
      db.ChainIsStored(n);
      ids := ids + [db.store.FetchBlockId(n).value];
      n := n + 1;
    }
  }

  // A round between two nodes -----------------------------------------------------------------

  ghost predicate Ascending(ids: seq<Id>) {
    forall i, j :: 0 <= i < j < |ids| ==> Num(ids[i]) < Num(ids[j])
  }

  ghost predicate NoneStale<O(!new)>(db: ChainDatabase<O>, ids: seq<Id>)
    reads db, db.store
  {
    forall i :: 0 <= i < |ids| ==> !Stale(db, ids[i])
  }

  /** A list without stale ids is answered from its highest block on the chain, and fails if there is none or an absent one. */
  lemma AnswersFromHighestShared<O(!new)>(db: ChainDatabase<O>, ids: seq<Id>)
    requires db.Consistent() && Ascending(ids) && NoneStale(db, ids)
    ensures forall j :: 0 <= j < |ids| ==> (Recognised(db, ids[j]) <==> OnChain(db.state.head, ids[j]))
    ensures Unanswerable(db, ids) <==>
              || (forall j :: 0 <= j < |ids| ==> !OnChain(db.state.head, ids[j]))
              || exists j :: 0 <= j < |ids| && Absent(db, ids[j])
  {
    hide OnChain, StateAt, History, HoldsChain, RoundTrips;
    forall j | 0 <= j < |ids|
      ensures Recognised(db, ids[j]) <==> OnChain(db.state.head, ids[j])
      ensures Absent(db, ids[j]) ==> Num(ids[j]) > Num(db.state.head)
      ensures Recognised(db, ids[j]) ==> Num(ids[j]) <= Num(db.state.head)
    {
      RecognisedIsShared(db, ids[j]);
      if 1 <= Num(ids[j]) <= Num(db.state.head) { db.ChainIsStored(Num(ids[j])); }
    }
  }

  /** Below a block that two chains share they share everything. */
  lemma SharedBelow<O(!new)>(db: ChainDatabase<O>, head: Id, n: nat, m: nat)
    requires db.Consistent() && 1 <= n <= m <= Num(db.state.head) && OnChain(head, AncestorAt(db.state.head, m))
    ensures OnChain(head, AncestorAt(db.state.head, n))
  {
    var tip, x := db.state.head, AncestorAt(db.state.head, m);
    AncestorOfValid(db.exec, db.genesis, tip, m);
    AncestorIsOnChain(tip, m);
    AncestorThrough(tip, x, n);
    AncestorIsOnChain(x, n);
    OnChainTransitive(head, x, AncestorAt(tip, n));
  }

  /** The chains of `tip` and `head` part after number `nums[k]` and before `nums[k + 1]`, or not at all if that is the last. */
  ghost predicate PartWithin(tip: Id, head: Id, nums: seq<nat>, k: nat) {
    && k < |nums| && nums[k] <= Num(tip) && OnChain(head, AncestorAt(tip, nums[k]))
    && (k + 1 == |nums| ==> nums[k] == Num(tip))
    && (k + 1 < |nums| ==> forall n :: nums[k + 1] <= n <= Num(tip) ==> !OnChain(head, AncestorAt(tip, n)))
  }

  lemma PartsAfterLastShared<O(!new)>(db: ChainDatabase<O>, head: Id, ids: seq<Id>, nums: seq<nat>, k: nat)
    requires db.Consistent() && Lists(db.state.head, ids, nums, true) && k < |ids| && OnChain(head, ids[k])
    requires (forall j :: 0 <= j < |nums| ==> nums[j] >= 1) && nums[|nums| - 1] == Num(db.state.head)
    requires forall j :: k < j < |ids| ==> !OnChain(head, ids[j])
    ensures PartWithin(db.state.head, head, nums, k)
  {
    hide OnChain, AncestorAt, StateAt, History, HoldsChain, RoundTrips;
    if k + 1 < |nums| {
      forall n | nums[k + 1] <= n <= Num(db.state.head) ensures !OnChain(head, AncestorAt(db.state.head, n)) {
        if OnChain(head, AncestorAt(db.state.head, n)) { SharedBelow(db, head, nums[k + 1], n); }
      }
    }
  }

  /** What a round achieves if the answering node has no stale entry for an id of the synopsis. */
  ghost predicate Answered<O(!new)>(asking: ChainDatabase<O>, answering: ChainDatabase<O>, low: nat, synopsis: seq<Id>, limit: nat, r: Option<seq<Id>>)
    requires 1 <= low <= Num(asking.state.head)
    reads asking, answering, answering.fork, answering.store
  {
    var tip, head := asking.state.head, answering.state.head;
    var nums := Steps(low, Num(tip), Num(tip));
    && (r.None? <==> !OnChain(head, AncestorAt(tip, low)) || exists j :: 0 <= j < |synopsis| && Absent(answering, synopsis[j]))
    && (r.Some? ==> exists k: nat :: PartWithin(tip, head, nums, k) && IsRun(head, r.value, nums[k], limit))
  }

  /**
   One node sends the synopsis of its chain, another one answers it.  The answer fails exactly when the
   chains differ at the asking node's last block that cannot be undone, or a known id has no entry.
   Otherwise it is a run of the answering node's chain that starts with a block both have, the highest
   one of the synopsis, and the chains part before the next number of the synopsis.
   */
  method SyncRound<O(!new)>(asking: ChainDatabase<O>, answering: ChainDatabase<O>, lastNonUndoable: nat, limit: nat)
    returns (r: Option<seq<Id>>, remaining: nat, synopsis: seq<Id>)
    requires asking.Consistent() && answering.Consistent() && lastNonUndoable <= Num(asking.state.head)
    ensures asking.state.head == Zero && answering.state.head != Zero ==> r.Some? && IsRun(answering.state.head, r.value, 1, limit)
    ensures asking.state.head != Zero ==>
              var tip := asking.state.head;
              var low := LowEnd(lastNonUndoable, Num(tip));
              && 1 <= low <= Num(tip) && Lists(tip, synopsis, Steps(low, Num(tip), Num(tip)), true)
              && (answering.state.head != Zero && NoneStale(answering, synopsis) ==> Answered(asking, answering, low, synopsis, limit, r))
  {
    hide Answered, NoneStale, Lists, Steps, OnChain, IsRun, AncestorAt, StateAt, History, HoldsChain, RoundTrips, WellPlaced, WellFormed, Unanswerable, NoSpan;
    var sent := Synopsis(asking, Zero, 0, lastNonUndoable);
    synopsis := sent.value;
    ghost var last;
    r, remaining, last := GetBlockIds(answering, synopsis, limit);
    if asking.state.head != Zero && answering.state.head != Zero && NoneStale(answering, synopsis) {
      SynopsisAscends(asking.state.head, synopsis, LowEnd(lastNonUndoable, Num(asking.state.head)));
      RoundIsAnswered(asking, answering, LowEnd(lastNonUndoable, Num(asking.state.head)), synopsis, limit, r, last);
    }
  }

  lemma RoundIsAnswered<O(!new)>(asking: ChainDatabase<O>, answering: ChainDatabase<O>, low: nat, synopsis: seq<Id>, limit: nat, r: Option<seq<Id>>, last: Id)
    requires asking.Consistent() && answering.Consistent() && 1 <= low <= Num(asking.state.head) && answering.state.head != Zero
    requires Lists(asking.state.head, synopsis, Steps(low, Num(asking.state.head), Num(asking.state.head)), true) && NoneStale(answering, synopsis)
    requires r.None? <==> Unanswerable(answering, synopsis)
    requires r.Some? ==>
               && (exists k :: 0 <= k < |synopsis| && synopsis[k] == last && Recognised(answering, last) && forall j :: k < j < |synopsis| ==> !Recognised(answering, synopsis[j]))
               && IsRun(answering.state.head, r.value, if Num(last) == 0 then 1 else Num(last), limit)
    ensures Answered(asking, answering, low, synopsis, limit, r)
  {
    hide *;
    var tip, head := asking.state.head, answering.state.head;
    var nums := Steps(low, Num(tip), Num(tip));
    SynopsisAscends(tip, synopsis, low);
    AnswersFromHighestShared(answering, synopsis);
    SharesLowestOrNone(asking, head, synopsis, nums);
    assert r.None? <==> !OnChain(head, AncestorAt(tip, low)) || exists j :: 0 <= j < |synopsis| && Absent(answering, synopsis[j]);
    if r.Some? {
      var k :| 0 <= k < |synopsis| && synopsis[k] == last && Recognised(answering, last) && forall j :: k < j < |synopsis| ==> !Recognised(answering, synopsis[j]);
      PartsAfterLastShared(asking, head, synopsis, nums, k);
      assert IsRun(head, r.value, nums[k], limit);
    }
    AnsweredIf(asking, answering, low, synopsis, limit, r);
  }

  lemma AnsweredIf<O(!new)>(asking: ChainDatabase<O>, answering: ChainDatabase<O>, low: nat, synopsis: seq<Id>, limit: nat, r: Option<seq<Id>>)
    requires 1 <= low <= Num(asking.state.head)
    requires r.None? <==> !OnChain(answering.state.head, AncestorAt(asking.state.head, low)) || exists j :: 0 <= j < |synopsis| && Absent(answering, synopsis[j])
    requires r.Some? ==>
               var nums := Steps(low, Num(asking.state.head), Num(asking.state.head));
               exists k: nat :: PartWithin(asking.state.head, answering.state.head, nums, k) && IsRun(answering.state.head, r.value, nums[k], limit)
    ensures Answered(asking, answering, low, synopsis, limit, r)
  {
    hide OnChain, AncestorAt, Absent, PartWithin, IsRun, Steps, Num;
  }

  lemma SynopsisAscends(tip: Id, ids: seq<Id>, low: nat)
    requires 1 <= low <= Num(tip) && Lists(tip, ids, Steps(low, Num(tip), Num(tip)), true)
    ensures ids != [] && ids[0] == AncestorAt(tip, low) && Ascending(ids)
    ensures var nums := Steps(low, Num(tip), Num(tip));
            && |nums| == |ids| && nums[0] == low && nums[|nums| - 1] == Num(tip)
            && forall j :: 0 <= j < |nums| ==> low <= nums[j] && Num(ids[j]) == nums[j]
  {
    hide AncestorAt, Num;
    StepsIncrease(low, Num(tip), Num(tip));
    StepsAreFew(low, Num(tip), Num(tip));
  }

  lemma SharesLowestOrNone<O(!new)>(db: ChainDatabase<O>, head: Id, ids: seq<Id>, nums: seq<nat>)
    requires db.Consistent() && Lists(db.state.head, ids, nums, true) && ids != []
    requires forall j :: 0 <= j < |nums| ==> 1 <= nums[0] <= nums[j]
    ensures (exists j :: 0 <= j < |ids| && OnChain(head, ids[j])) <==> OnChain(head, ids[0])
  {
    hide OnChain, AncestorAt, StateAt, History, HoldsChain, RoundTrips, WellPlaced, WellFormed, Num;
    forall j | 0 <= j < |ids| && OnChain(head, ids[j]) ensures OnChain(head, ids[0]) {
      SharedBelow(db, head, nums[0], nums[j]);
    }
  }
}
