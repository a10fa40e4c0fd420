/**
 The block chain state machine: receiving blocks, extending the chain, switching forks, giving up a fork
 that turns out to be invalid, and undoing blocks.

 The object database is a `State`; `saved` holds the states that undoing the blocks of the chain
 restores, one per block.  `exec` evaluates a block on the objects; it is `None` where the evaluation
 throws, and the undo session then restores the objects.
 */
module Chains {
  import opened Options
  import opened Blocks
  import opened Forks
  import opened BlockStore

  /** `base` is an ancestor of `id`, or `id` itself. */
  ghost predicate OnChain(id: Id, base: Id)
    decreases id
  {
    id == base || (id.Of? && OnChain(id.block.previous, base))
  }

  /** `x` is among the blocks from `top` down to, and not including, `base`. */
  ghost predicate Between(top: Id, base: Id, x: Id)
    decreases top
  {
    top != base && top.Of? && (top == x || Between(top.block.previous, base, x))
  }

  /** Each block from `top` down to, and not including, `base` is known. */
  ghost predicate AllKnown(index: Index, top: Id, base: Id)
    decreases top
  {
    top == base || (top.Of? && top in index && AllKnown(index, top.block.previous, base))
  }

  lemma {:induction false} AncestorIsLower(id: Id, base: Id)
    requires OnChain(id, base)
    ensures Num(base) <= Num(id) && (id != base ==> Num(base) < Num(id))
    decreases id
  {
    if id != base {
      AncestorIsLower(id.block.previous, base);
    }
  }

  lemma {:induction false} OnChainGoesDown(id: Id, x: Id)
    requires OnChain(id, x) && x.Of?
    ensures OnChain(id, x.block.previous)
    decreases id
  {
    if id != x {
      OnChainGoesDown(id.block.previous, x);
    }
  }

  lemma {:induction false} OnChainIsBetween(top: Id, x: Id, base: Id)
    requires OnChain(top, x) && OnChain(x, base) && x != base
    ensures Between(top, base, x)
    decreases top
  {
    AncestorIsLower(top, x);
    AncestorIsLower(x, base);
    if top != x {
      OnChainIsBetween(top.block.previous, x, base);
    }
  }

  /** What undoing one block keeps on the way down to `base`. */
  ghost predicate Descent(top: Id, base: Id, head: Id, tip0: Id, tip: Id) {
    && OnChain(top, head) && OnChain(head, base)
    && (if Between(top, base, tip0) then Between(head, base, tip) || (tip == base && head == base)
        else tip == tip0 && !Between(head, base, tip))
    && (tip == tip0 || (tip0.Of? && OnChain(tip0.block.previous, head)))
  }

  lemma {:induction false} BetweenIsAbove(top: Id, base: Id, x: Id)
    requires Between(top, base, x)
    ensures x != base && x.Of? && OnChain(top, x)
    decreases top
  {
    if top != x {
      BetweenIsAbove(top.block.previous, base, x);
    }
  }

  lemma {:induction false} BetweenIsNotBelow(top: Id, base: Id, x: Id)
    requires Between(top, base, x) && OnChain(top, base)
    ensures OnChain(x, base) && !OnChain(base, x)
    decreases top
  {
    if top == x {
      AncestorIsLower(x, base);
      if OnChain(base, x) { AncestorIsLower(base, x); }
    } else {
      BetweenIsNotBelow(top.block.previous, base, x);
    }
  }

  lemma DescentStarts(top: Id, base: Id, tip: Id)
    requires OnChain(top, base)
    ensures Descent(top, base, top, tip, tip)
  {
  }

  lemma DescentEnds(top: Id, base: Id, tip0: Id, tip: Id)
    requires Descent(top, base, base, tip0, tip)
    ensures OnChain(top, base) && tip == if Between(top, base, tip0) then base else tip0
    ensures Between(top, base, tip0) ==> tip != tip0
  {
    if Between(top, base, tip0) {
      BetweenIsAbove(top, base, tip0);
    }
  }

  lemma DescentGoesOn(top: Id, base: Id, head: Id, tip0: Id, tip: Id)
    requires Descent(top, base, head, tip0, tip) && head != base
    ensures head.Of? && Descent(top, base, head.block.previous, tip0, if tip == head then head.block.previous else tip)
    ensures Between(top, base, head) && (tip == head ==> Between(top, base, tip0)) && OnChain(top, head)
    ensures tip == tip0 || (tip0.Of? && OnChain(tip0.block.previous, head))
    ensures tip == head ==> head.block.previous != tip0
  {
    OnChainGoesDown(top, head);
    if tip != tip0 {
      AncestorIsLower(tip0.block.previous, head);
      OnChainGoesDown(tip0.block.previous, head);
    }
    OnChainIsBetween(top, head, base);
  }

  /** An ancestor of an invalid block's descendants: validity is inherited downwards. */
  lemma {:induction false} AncestorIsValid<O(!new)>(exec: (O, Block) -> Option<O>, genesis: O, id: Id, base: Id)
    requires OnChain(id, base) && StateAt(exec, genesis, id).Some?
    ensures StateAt(exec, genesis, base).Some?
    decreases id
  {
    if id != base {
      AncestorIsValid(exec, genesis, id.block.previous, base);
    }
  }

  /** Consecutive items of a branch, tip first. */
  ghost predicate Descending(a: seq<Item>) {
    && (forall i :: 0 <= i < |a| ==> a[i].id.Of?)
    && forall i :: 0 < i < |a| ==> Previous(a[i - 1]) == a[i].id
  }

  lemma {:induction false} DescendingReaches(a: seq<Item>, i: nat, j: nat)
    requires Descending(a) && i <= j < |a|
    ensures OnChain(a[i].id, a[j].id) && OnChain(a[i].id, Previous(a[j]))
    ensures Num(a[j].id) + j == Num(a[i].id) + i
    decreases j - i
  {
    if i < j {
      DescendingReaches(a, i + 1, j);
    }
  }

  lemma {:induction false} OnChainTransitive(id: Id, x: Id, y: Id)
    requires OnChain(id, x) && OnChain(x, y)
    ensures OnChain(id, y)
    decreases id
  {
    if id != x {
      OnChainTransitive(id.block.previous, x, y);
    }
  }

  lemma {:induction false} OneAncestorPerHeight(id: Id, x: Id, y: Id)
    requires OnChain(id, x) && OnChain(id, y) && Num(x) == Num(y)
    ensures x == y
    decreases id
  {
    AncestorIsLower(id, x);
    AncestorIsLower(id, y);
    if id != x && id != y {
      OneAncestorPerHeight(id.block.previous, x, y);
    }
  }

  ghost predicate AllIn(index: Index, a: seq<Item>) {
    forall i :: 0 <= i < |a| ==> a[i].id in index && index[a[i].id] == a[i]
  }

  /** Two branches of known blocks, from `tip` and from `head`, with the same predecessor at the bottom. */
  ghost predicate Facing(index: Index, tip: Id, head: Id, a: seq<Item>, b: seq<Item>) {
    && Keyed(index) && a != [] && b != [] && Descending(a) && Descending(b) && AllIn(index, a) && AllIn(index, b)
    && a[0].id == tip && b[0].id == head && Previous(a[|a| - 1]) == Previous(b[|b| - 1])
    && (OnChain(tip, head) ==> |b| == 1 && a[|a| - 1] == b[0])
  }

  lemma PathDescends(index: Index, x: Item, path: seq<Item>)
    requires Keyed(index) && x.id in index && index[x.id] == x && IsPath(index, x, path)
    ensures Descending(path) && AllIn(index, path) && (path != [] ==> path[0] == x)
  {
    forall k | 0 <= k < |path|
      ensures path[k].id in index && index[path[k].id] == path[k] && (k > 0 ==> Previous(path[k - 1]) == path[k].id)
    {
      assert Up(index, x, k) == Some(path[k]);
      if k > 0 { assert Up(index, x, k - 1) == Some(path[k - 1]); }
    }
  }

  lemma BranchesDescend(index: Index, x: Item, y: Item, a: seq<Item>, b: seq<Item>)
    requires Keyed(index) && x.id in index && index[x.id] == x && y.id in index && index[y.id] == y
    requires Branches(index, x, y, a, b)
    ensures a != [] && b != [] && Descending(a) && Descending(b) && AllIn(index, a) && AllIn(index, b)
    ensures a[0] == x && b[0] == y && Previous(a[|a| - 1]) == Previous(b[|b| - 1])
  {
    PathDescends(index, x, a);
    PathDescends(index, y, b);
    assert Up(index, x, |a| - 1) == Some(a[|a| - 1]) && Up(index, y, |b| - 1) == Some(b[|b| - 1]);
  }

  /** Fetched branches face each other; if one block is an ancestor of the other they end in it. */
  lemma FetchedBranchesFace(index: Index, tip: Id, head: Id, a: seq<Item>, b: seq<Item>)
    requires Keyed(index) && tip in index && head in index && Num(tip) > Num(head)
    requires Branches(index, index[tip], index[head], a, b)
    ensures Facing(index, tip, head, a, b)
  {
    var x, y := index[tip], index[head];
    var d := Above(x, y);
    BranchesDescend(index, x, y, a, b);
    if OnChain(tip, head) {
      DescendingReaches(a, 0, d);
      OneAncestorPerHeight(tip, a[d].id, head);
      assert Up(index, x, d) == Some(a[d]);
      MeetsAt(index, x, y, 0, a[d], y);
    }
  }

  lemma {:induction false} BranchIsKnown(index: Index, a: seq<Item>, i: nat)
    requires Descending(a) && i < |a| && forall j :: i <= j < |a| ==> a[j].id in index
    ensures AllKnown(index, a[i].id, Previous(a[|a| - 1]))
    decreases |a| - i
  {
    if i + 1 < |a| {
      BranchIsKnown(index, a, i + 1);
    }
  }

  /** Forgetting the top of a branch keeps its lower part, and the block below it. */
  lemma LowerPartStays(index: Index, a: seq<Item>, left: nat)
    requires Descending(a) && AllIn(index, a) && left <= |a| && a != []
    ensures left < |a| ==> AllKnown(index - Ids(a[..left]), a[left].id, Previous(a[|a| - 1]))
    ensures Previous(a[|a| - 1]) !in Ids(a[..left])
  {
    forall i, j | 0 <= i <= j < |a| ensures Num(a[j].id) + j == Num(a[i].id) + i {
      DescendingReaches(a, i, j);
    }
    if left < |a| {
      BranchIsKnown(index - Ids(a[..left]), a, left);
    }
  }

  class ChainDatabase<O(!new)> {
    const exec: (O, Block) -> Option<O>
    const genesis: O
    const fork: ForkDatabase
    const store: Store
    var state: State<O>
    var saved: seq<State<O>>

    /**
     The state is the one reached by applying the blocks of the chain, the saved states are those
     before each of them, and the store yields each of them.
     */
    ghost predicate Consistent()
      reads this, fork, store
    {
      && StateAt(exec, genesis, state.head) == Some(state)
      && saved == History(exec, genesis, state.head)
      && RoundTrips(store.codec) && HoldsChain(store.codec, store.index, store.blocks, state.head) && WellPlaced(store.index)
      && WellFormed(fork.index, fork.made) && (fork.head.Some? ==> fork.head.value.id.Of?)
    }

    constructor (exec: (O, Block) -> Option<O>, genesis: O, codec: Codec)
      requires RoundTrips(codec)
      ensures Consistent() && this.exec == exec && this.genesis == genesis && state == State(Zero, genesis)
      ensures fork.index == map[] && fork.head == None && fork.made == 0 && fresh(fork) && fresh(store)
    {
      this.exec, this.genesis := exec, genesis;
      fork := new ForkDatabase();
      store := new Store(codec);
      state, saved := State(Zero, genesis), [];
    }

    /** For every number up to the head's, the store yields the chain's block of that number and its id. */
    lemma ChainIsStored(n: nat)
      requires Consistent() && 1 <= n <= Num(state.head)
      ensures var a := AncestorAt(state.head, n);
              && a.Of? && Num(a) == n && StateAt(exec, genesis, a).Some?
              && store.FetchBlockId(n) == Some(a) && store.FetchByNumber(n) == Some(a.block)
    {
      store.ChainReadsBack(state.head, n);
      AncestorOfValid(exec, genesis, state.head, n);
    }

    lemma HeadIsStored()
      requires Consistent()
      ensures state.head != Zero ==> state.head.Of? && Num(state.head) < |store.index|
    {
    }

    /** Apply a block in an undo session and store it; nothing changes if it is refused. */
    method ApplyBlock(b: Block) returns (ok: bool)
      requires Consistent()
      modifies this, store
      ensures Consistent()
      ensures ok <==> b.previous == old(state.head) && StateAt(exec, genesis, Of(b)).Some?
      ensures ok ==> state.head == Of(b)
      ensures !ok ==> state == old(state) && saved == old(saved) && unchanged(store)
    {
      var s := Apply(exec, state, b);
      if s.None? {
        return false;
      }
      store.PutBlock(b, state.head);
      saved := saved + [state];
      state := s.value;
      return true;
    }

    /** Undo the last block. */
    method PopBlock() returns (thrown: bool)
      requires Consistent()
      modifies this, fork`head
      ensures Consistent()
      ensures thrown <==> old(fork.head).None? || (if old(fork.head).value.id == old(state.head) then Lock(fork.index, old(fork.head).value).None?
                                              else old(state.head) !in fork.index)
      ensures thrown ==> state == old(state) && saved == old(saved) && fork.head == old(fork.head)
      ensures !thrown ==> old(state.head).Of? && state.head == old(state.head).block.previous && state == old(saved)[|old(saved)| - 1]
      ensures !thrown && old(fork.head).value.id == old(state.head) ==>
                state.head in fork.index && fork.head == Some(fork.index[state.head]) && fork.head.value.id == state.head
      ensures !thrown ==> fork.head == if old(fork.head).value.id == old(state.head) then Lock(fork.index, old(fork.head).value) else old(fork.head)
    {
      if fork.head.None? {
        return true;
      }
      if fork.head.value.id == state.head {
        thrown := fork.PopBlock();
        if thrown {
          return;
        }
      } else if state.head !in fork.index {
        return true;
      }
      state, saved := saved[|saved| - 1], saved[..|saved| - 1];
      return false;
    }

    /**
     Undo blocks until `base` is the head.  This can fail only at the block that is also the fork
     database's head, and only if that head cannot be moved down.
     */
    method PopTo(base: Id) returns (thrown: bool)
      requires Consistent() && fork.head.Some?
      requires OnChain(state.head, base) && AllKnown(fork.index, state.head, base)
      modifies this, fork`head
      ensures Consistent() && OnChain(old(state.head), state.head) && fork.head.Some?
      ensures !thrown ==> state.head == base
      ensures thrown ==> Between(old(state.head), base, state.head) && fork.head.value.id == state.head && Lock(fork.index, fork.head.value).None?
      ensures !Between(old(state.head), base, old(fork.head).value.id) ==> !thrown && fork.head == old(fork.head)
      ensures Between(old(state.head), base, old(fork.head).value.id) && !thrown ==>
                base in fork.index && fork.head == Some(fork.index[base]) && Lock(fork.index, old(fork.head).value).Some?
      ensures thrown ==> fork.head == old(fork.head) || OnChain(Previous(old(fork.head).value), state.head)
    {
      hide OnChain, Between, Descent, StateAt, History, HoldsChain, RoundTrips, WellPlaced, WellFormed, Lock;
      DescentStarts(state.head, base, fork.head.value.id);
      while state.head != base
        invariant Consistent() && fork.head.Some? && AllKnown(fork.index, state.head, base)
        invariant Descent(old(state.head), base, state.head, old(fork.head).value.id, fork.head.value.id)
        invariant fork.head == old(fork.head) || (fork.head.value.id != old(fork.head).value.id && Lock(fork.index, old(fork.head).value).Some?)
        invariant fork.head == old(fork.head) || (fork.head.value.id in fork.index && fork.head.value == fork.index[fork.head.value.id])
        decreases |saved|
      {
        DescentGoesOn(old(state.head), base, state.head, old(fork.head).value.id, fork.head.value.id);
        thrown := PopBlock();
        if thrown {
          return;
        }
      }
      DescentEnds(old(state.head), base, old(fork.head).value.id, fork.head.value.id);
      return false;
    }

    /** Apply a branch from its bottom up; `left` blocks at the top are left when one is refused. */
    method ApplyBranch(a: seq<Item>) returns (left: nat)
      requires Consistent() && a != [] && Descending(a) && state.head == Previous(a[|a| - 1])
      modifies this, store
      ensures Consistent() && left <= |a|
      ensures state.head == if left == |a| then old(state.head) else a[left].id
      ensures left > 0 ==> StateAt(exec, genesis, a[left - 1].id).None?
      ensures left == 0 <==> StateAt(exec, genesis, a[0].id).Some?
    {
      hide HoldsChain, History, RoundTrips, WellPlaced, WellFormed;
      left := |a|;
      while left > 0
        invariant left <= |a| && Consistent()
        invariant state.head == if left == |a| then old(state.head) else a[left].id
      {
        var ok := ApplyBlock(a[left - 1].id.block);
        if !ok {
          DescendingReaches(a, 0, left - 1);
          if StateAt(exec, genesis, a[0].id).Some? {
            AncestorIsValid(exec, genesis, a[0].id, a[left - 1].id);
          }
          return;
        }
        left := left - 1;
      }
    }

    /** Forget the blocks at the top of a branch. */
    method ForgetTop(a: seq<Item>, left: nat)
      requires left <= |a| && fork.head.Some? && WellFormed(fork.index, fork.made) && fork.head.value.id.Of?
      modifies fork`index, fork`head
      ensures fork.index == old(fork.index) - Ids(a[..left])
      ensures WellFormed(fork.index, fork.made)
    {
      var i := left;
      while i > 0
        invariant 0 <= i <= left && fork.index == old(fork.index) - Ids(a[i..left])
        invariant fork.head.Some? ==> fork.head.value.id.Of?
        invariant WellFormed(fork.index, fork.made)
      {
        i := i - 1;
        fork.Remove(a[i].id);
        assert a[i..left] == [a[i]] + a[i + 1..left];
      }
      assert a[0..left] == a[..left];
    }

    /**
     Go back to the old chain after a block of the new branch was refused.  The old head and its state
     are restored in every case.  The fork database's head becomes the old head, unless the old head is
     itself on the abandoned branch: then undoing it moved that head down to its predecessor.
     */
    method GiveUp(tip: Id, a: seq<Item>, b: seq<Item>, left: nat)
      requires Consistent() && b != [] && Facing(fork.index, tip, b[0].id, a, b) && fork.head.Some?
      requires 0 < left <= |a| && state.head == (if left == |a| then Previous(a[|a| - 1]) else a[left].id)
      requires StateAt(exec, genesis, a[left - 1].id).None? && StateAt(exec, genesis, b[0].id).Some?
      modifies this, fork`index, fork`head, store
      ensures Consistent() && state.head == b[0].id
      ensures fork.index == old(fork.index) - Ids(a[..left])
      ensures fork.head == Some(if OnChain(tip, b[0].id) && Lock(old(fork.index), b[0]).Some? then Lock(old(fork.index), b[0]).value else b[0])
    {
      var base := Previous(a[|a| - 1]);
      LowerPartStays(fork.index, a, left);
      HeadOnBranch(fork.index, tip, b[0].id, a, b, left, state.head);
      ghost var now := state.head;
      hide OnChain, Between, StateAt, HoldsChain, History, RoundTrips, WellPlaced, AllKnown, Num;
      ForgetTop(a, left);
      fork.SetHead(b[0]);
      var thrown := PopTo(base);
      if thrown {
        BetweenIsNotBelow(now, base, state.head);
        return;
      }
      var none := ApplyBranch(b);
    }

    /**
     Make `tip` the head of the chain.  This succeeds exactly when `tip` is joined to the chain and all
     its ancestors are valid; otherwise the chain and the state are as before.
     */
    method SwitchFork(tip: Id) returns (outcome: Outcome)
      requires Consistent() && fork.head.Some? && fork.head.value.id == tip && Num(tip) > Num(state.head)
      modifies this, fork`index, fork`head, store
      ensures Consistent()
      ensures outcome == (if !Joined(old(fork.index), tip, old(state.head)) then Disconnected
                          else if StateAt(exec, genesis, tip).Some? then Switched else BranchRejected)
      ensures outcome == Switched ==> state.head == tip && unchanged(fork)
      ensures outcome != Switched ==> state == old(state) && saved == old(saved)
      ensures outcome == Disconnected ==> unchanged(fork) && unchanged(store)
      ensures outcome == BranchRejected ==>
                && old(state.head) in old(fork.index)
                && fork.head == Some(HeadAfterGivingUp(old(fork.index), tip, old(state.head)))
                && fork.index == old(fork.index) - Invalid(exec, genesis, old(fork.index), tip)
    {
      var thrown, a, b := fork.FetchBranchFrom(tip, state.head);
      if thrown {
        return Disconnected;
      }
      FetchedBranchesFace(fork.index, tip, state.head, a, b);
      hide *;
      outcome := ReplaceBranch(tip, a, b);
    }

    /** Undo the old branch and apply the new one, or give up. */
    method ReplaceBranch(tip: Id, a: seq<Item>, b: seq<Item>) returns (outcome: Outcome)
      requires Consistent() && fork.head.Some? && fork.head.value.id == tip && Num(tip) > Num(state.head)
      requires Facing(fork.index, tip, state.head, a, b)
      modifies this, fork`index, fork`head, store
      ensures Consistent()
      ensures outcome == if StateAt(exec, genesis, tip).Some? then Switched else BranchRejected
      ensures outcome == Switched ==> state.head == tip && unchanged(fork)
      ensures outcome != Switched ==> state == old(state) && saved == old(saved)
      ensures outcome == BranchRejected ==>
                && old(state.head) in old(fork.index) && Keyed(old(fork.index))
                && fork.head == Some(HeadAfterGivingUp(old(fork.index), tip, old(state.head)))
                && fork.index == old(fork.index) - Invalid(exec, genesis, old(fork.index), tip)
    {
      ghost var index := fork.index;
      var base := Previous(b[|b| - 1]);
      ReadyToSwitch(exec, genesis, fork.index, state.head, tip, a, b);
      hide OnChain, Between, StateAt, HoldsChain, History, RoundTrips, WellPlaced, AllKnown, Num, WellFormed;
      var failed := PopTo(base);
      var left := ApplyBranch(a);
      if left == 0 {
        return Switched;
      }
      InvalidOnBranch(exec, genesis, index, a, left);
      GiveUp(tip, a, b, left);
      return BranchRejected;
    }

    /** Extend the chain by the block that was received. */
    method Extend(b: Block) returns (outcome: Outcome)
      requires Consistent() && fork.head.Some?
      modifies this, fork`index, fork`head, store
      ensures Consistent()
      ensures outcome == if b.previous == old(state.head) && StateAt(exec, genesis, Of(b)).Some? then Extended else Rejected
      ensures outcome == Extended ==> state.head == Of(b) && unchanged(fork)
      ensures outcome == Rejected ==>
                && state == old(state) && saved == old(saved) && unchanged(store) && fork.index == old(fork.index) - {Of(b)}
                && fork.head == if old(fork.head).value.id == Of(b) then Lock(fork.index, old(fork.head).value) else old(fork.head)
    {
      hide StateAt, HoldsChain, History, RoundTrips, WellPlaced, Num;
      var ok := ApplyBlock(b);
      if ok {
        return Extended;
      }
      fork.Remove(Of(b));
      return Rejected;
    }

    /**
     Receive a block.  The chain is extended, replaced by a longer one, or left exactly as it was; the
     outcome is determined by what is known and by which blocks are valid.
     */
    method PushBlock(b: Block) returns (outcome: Outcome)
      requires Consistent()
      modifies this, fork, store
      ensures Consistent()
      ensures outcome == OutcomeOf(exec, genesis, old(state.head), old(fork.index), old(fork.head), old(fork.made), b)
      ensures outcome == Extended ==> state.head == Of(b)
      ensures outcome == Switched ==> state.head == TipWith(old(fork.head), b)
      ensures outcome != Extended && outcome != Switched ==> state == old(state) && saved == old(saved)
      ensures fork.head == ForkHeadAfter(exec, genesis, old(state.head), old(fork.index), old(fork.head), old(fork.made), b)
      ensures state == old(state) || Num(state.head) > Num(old(state.head))
      ensures !Fails(outcome) ==> fork.head.Some? && Number(b) <= Num(fork.head.value.id) <= Num(state.head)
      ensures !Fails(outcome) && old(fork.head).Some? && Number(b) <= Num(old(fork.head).value.id) ==> fork.head == old(fork.head)
      ensures outcome == Unlinkable ==> unchanged(fork)
      ensures outcome != Unlinkable ==> fork.made == old(fork.made) + 1
      ensures !Fails(outcome) ==> Keeps(old(fork.index), fork.index) && fork.index.Keys == old(fork.index).Keys + {Of(b)}
      ensures Keeps(fork.index - {Of(b)}, old(fork.index))
      ensures forall i :: i in old(fork.index) && i !in fork.index ==>
                if outcome == Rejected then i == Of(b)
                else outcome == BranchRejected && OnChain(TipWith(old(fork.head), b), i) && StateAt(exec, genesis, i).None?
      ensures outcome != Unlinkable ==>
                var index := Received(old(fork.index), old(fork.head), old(fork.made), b);
                fork.index == if outcome == Rejected then index - {Of(b)}
                              else if outcome == BranchRejected then index - Invalid(exec, genesis, index, TipWith(old(fork.head), b))
                              else index
    {
      ReceivedIsWellFormed(fork.index, fork.head, fork.made, b);
      var thrown := fork.PushBlock(b);
      if thrown {
        return Unlinkable;
      }
      assert Number(b) <= Num(fork.head.value.id);
      ghost var index, known, tip := old(fork.index), fork.index, fork.head.value.id;
      hide StateAt, HoldsChain, History, RoundTrips, WellPlaced, Joined, WellFormed, Received, Lock, HeadAfterGivingUp, Decided, HeadOnceDecided, Invalid, Num, Keeps;
      outcome := Proceed(b);
      KnownAfter(exec, genesis, index, known, fork.index, tip, b, outcome);
    }

    /** Extend the chain, switch to the fork database's head, or do nothing, now that the block is in the fork database. */
    method Proceed(b: Block) returns (outcome: Outcome)
      requires Consistent() && fork.head.Some?
      modifies this, fork`index, fork`head, store
      ensures Consistent()
      ensures outcome == Decided(exec, genesis, old(state.head), old(fork.index), old(fork.head).value.id, b)
      ensures outcome == Extended ==> state.head == Of(b)
      ensures outcome == Switched ==> state.head == old(fork.head).value.id
      ensures outcome != Extended && outcome != Switched ==> state == old(state) && saved == old(saved)
      ensures state == old(state) || Num(state.head) > Num(old(state.head))
      ensures !Fails(outcome) ==> fork.head == old(fork.head) && Num(fork.head.value.id) <= Num(state.head)
      ensures fork.head == HeadOnceDecided(outcome, old(state.head), old(fork.index), old(fork.head).value, b)
      ensures fork.index == if outcome == Rejected then old(fork.index) - {Of(b)}
                            else if outcome == BranchRejected then old(fork.index) - Invalid(exec, genesis, old(fork.index), old(fork.head).value.id)
                            else old(fork.index)
    {
      hide StateAt, HoldsChain, History, RoundTrips, WellPlaced, Joined, WellFormed, Lock, HeadAfterGivingUp;
      if Previous(fork.head.value) != state.head {
        if Num(fork.head.value.id) > Num(state.head) {
          outcome := SwitchFork(fork.head.value.id);
        } else {
          outcome := Kept;
        }
      } else {
        outcome := Extend(b);
      }
    }
  }

  /** What is still known once a block has been received: the same items, but for the refused ones. */
  lemma KnownAfter<O(!new)>(exec: (O, Block) -> Option<O>, genesis: O, before: Index, known: Index, after: Index, tip: Id, b: Block, outcome: Outcome)
    requires Keeps(before, known) && known.Keys == before.Keys + {Of(b)} && outcome != Unlinkable
    requires after == if outcome == Rejected then known - {Of(b)}
                      else if outcome == BranchRejected then known - Invalid(exec, genesis, known, tip) else known
    ensures !Fails(outcome) ==> Keeps(before, after) && after.Keys == before.Keys + {Of(b)}
    ensures Keeps(after - {Of(b)}, before)
    ensures forall i :: i in before && i !in after ==>
              if outcome == Rejected then i == Of(b) else outcome == BranchRejected && OnChain(tip, i) && StateAt(exec, genesis, i).None?
  {
    hide StateAt, OnChain;
  }

  /** The highest block known once `b` is received. */
  function TipWith(head: Option<Item>, b: Block): Id {
    if head.None? || Number(b) > Num(head.value.id) then Of(b) else head.value.id
  }

  /** The item of that block. */
  function HeadWith(index: Index, head: Option<Item>, made: nat, b: Block): Item
    requires Links(index, head, b)
  {
    if head.None? || Number(b) > Num(head.value.id) then NewItem(index, head, made, b) else head.value
  }

  /** What receiving `b` must lead to, with `known` and `tip` the known blocks and the highest of them once it is in. */
  ghost function Decided<O(!new)>(exec: (O, Block) -> Option<O>, genesis: O, at: Id, known: Index, tip: Id, b: Block): Outcome
    requires Keyed(known) && tip.Of?
  {
    if tip.block.previous == at then
      if b.previous == at && StateAt(exec, genesis, Of(b)).Some? then Extended else Rejected
    else if Num(tip) <= Num(at) then Kept
    else if !Joined(known, tip, at) then Disconnected
    else if StateAt(exec, genesis, tip).Some? then Switched else BranchRejected
  }

  ghost function OutcomeOf<O(!new)>(exec: (O, Block) -> Option<O>, genesis: O, at: Id, index: Index, head: Option<Item>, made: nat, b: Block): Outcome
    requires WellFormed(index, made) && (head.Some? ==> head.value.id.Of?)
  {
    if !Links(index, head, b) then Unlinkable
    else Decided(exec, genesis, at, Received(index, head, made, b), TipWith(head, b), b)
  }

  lemma ReceivedIsWellFormed(index: Index, head: Option<Item>, made: nat, b: Block)
    requires WellFormed(index, made)
    ensures Links(index, head, b) ==> WellFormed(Received(index, head, made, b), made + 1)
  {
  }

  /** The fork database's head at the end, if it was `x` once `b` was in. */
  ghost function HeadOnceDecided(outcome: Outcome, at: Id, known: Index, x: Item, b: Block): Option<Item>
    requires Keyed(known) && x.id.Of?
  {
    if outcome.Rejected? then (if x.id == Of(b) then Lock(known - {Of(b)}, x) else Some(x))
    else if outcome.BranchRejected? && at in known then Some(HeadAfterGivingUp(known, x.id, at))
    else Some(x)
  }

  ghost function ForkHeadAfter<O(!new)>(exec: (O, Block) -> Option<O>, genesis: O, at: Id, index: Index, head: Option<Item>, made: nat, b: Block): Option<Item>
    requires WellFormed(index, made) && (head.Some? ==> head.value.id.Of?)
  {
    if !Links(index, head, b) then head
    else HeadOnceDecided(OutcomeOf(exec, genesis, at, index, head, made, b), at, Received(index, head, made, b), HeadWith(index, head, made, b), b)
  }

  /** The received block is refused, and an exception leaves the push. */
  predicate Fails(outcome: Outcome) {
    outcome.Unlinkable? || outcome.Rejected? || outcome.Disconnected? || outcome.BranchRejected?
  }

  function IdOf(head: Option<Item>): Option<Id> {
    if head.None? then None else Some(head.value.id)
  }

  /**
   When a refused block leaves the fork database's head as it was.  A single block: if that head is the
   chain's head, or is as high as the block and another one.  A branch that is not joined to the chain: if
   the block is not higher than that head.  A branch that is given up: if that head is the chain's head and
   the branch does not lead through it, or is the block before the chain's head and the branch does.
   */
  ghost predicate ComesBack(outcome: Outcome, at: Id, known: Index, head: Option<Item>, b: Block)
    requires Keyed(known)
  {
    match outcome
    case Unlinkable => true
    case Rejected => head.None? || (if Number(b) > Num(head.value.id) then head.value.id == at else head.value.id != Of(b))
    case Disconnected => head.Some? && Number(b) <= Num(head.value.id)
    case BranchRejected =>
      && head.Some? && at in known
      && head.value.id == if OnChain(TipWith(head, b), at) && Lock(known, known[at]).Some? then at.block.previous else at
    case _ => false
  }

  /** The promise that a failed push leaves the fork database's head alone holds exactly when `ComesBack` does. */
  lemma ForkHeadComesBackWhen<O(!new)>(exec: (O, Block) -> Option<O>, genesis: O, at: Id, index: Index, head: Option<Item>, made: nat, b: Block)
    requires WellFormed(index, made) && (head.Some? ==> head.value.id.Of?)
    requires Fails(OutcomeOf(exec, genesis, at, index, head, made, b))
    ensures IdOf(ForkHeadAfter(exec, genesis, at, index, head, made, b)) == IdOf(head) <==>
              !Links(index, head, b) || ComesBack(OutcomeOf(exec, genesis, at, index, head, made, b), at, Received(index, head, made, b), head, b)
  {
    hide StateAt, OnChain;
  }

  /**
   The fork database's head does not come back when an invalid block builds on a known but undone
   child of the head: the switch leads through the head, and giving up leaves the fork head below it.
   */
  lemma GivingUpMovesForkHead<O(!new)>(exec: (O, Block) -> Option<O>, genesis: O, index: Index, made: nat, head: Id, child: Block, b: Block)
    requires WellFormed(index, made) && head in index && Lock(index, index[head]).Some?
    requires child.previous == head && Of(child) in index && Lock(index, index[Of(child)]).Some?
    requires b.previous == Of(child) && Of(b) !in index && StateAt(exec, genesis, Of(b)).None?
    ensures OutcomeOf(exec, genesis, head, index, Some(index[head]), made, b) == BranchRejected
    ensures ForkHeadAfter(exec, genesis, head, index, Some(index[head]), made, b) == Lock(index, index[head])
  {
    hide StateAt;
    var known := Received(index, Some(index[head]), made, b);
    var x := known[Of(b)];
    assert Up(known, x, 1) == Some(index[Of(child)]);
    assert Up(known, x, 2) == Some(index[head]);
    MeetsAt(known, x, index[head], 0, index[head], index[head]);
    assert OnChain(Of(child), head);
  }

  /** Nor does it when it is a sibling of the head and an invalid block builds on it: then the chain's head takes its place. */
  lemma GivingUpDropsSibling<O(!new)>(exec: (O, Block) -> Option<O>, genesis: O, index: Index, made: nat, head: Id, sibling: Block, b: Block)
    requires WellFormed(index, made) && head in index && Of(sibling) in index && sibling.previous == head.block.previous && Of(sibling) != head
    requires b.previous == Of(sibling) && Of(b) !in index && StateAt(exec, genesis, Of(b)).None?
    ensures OutcomeOf(exec, genesis, head, index, Some(index[Of(sibling)]), made, b) == BranchRejected
    ensures ForkHeadAfter(exec, genesis, head, index, Some(index[Of(sibling)]), made, b) == Some(index[head])
  {
    hide StateAt;
    var known := Received(index, Some(index[Of(sibling)]), made, b);
    var x := known[Of(b)];
    assert Up(known, x, 1) == Some(index[Of(sibling)]);
    assert Up(known, index[head], 0) == Some(index[head]);
    MeetsAt(known, x, index[head], 0, index[Of(sibling)], index[head]);
    if OnChain(Of(b), head) {
      OneAncestorPerHeight(Of(b), Of(sibling), head);
    }
  }

  // A run in which the fork database's head is lost ----------------------------------------------

  const B1 := Block(Zero, 1)
  const B2 := Block(Of(B1), 2)
  const B3 := Block(Of(B2), 3)
  const B4 := Block(Of(B3), 4)
  const C2 := Block(Of(B1), 5)
  const C3 := Block(Of(C2), 4)

  const X1 := Item(Of(B1), 0, None)
  const X2 := Item(Of(B2), 1, Some(0))
  const X3 := Item(Of(B3), 2, Some(1))
  const Y2 := Item(Of(C2), 4, Some(0))

  const THREE: Index := map[Of(B1) := X1, Of(B2) := X2, Of(B3) := X3]

  /** Blocks with body 4 are invalid, all others are valid. */
  function Refuse4(n: nat, b: Block): Option<nat> {
    if b.body == 4 then None else Some(n + 1)
  }

  lemma BlocksOfTheRun()
    ensures forall b :: b in {B1, B2, B3, C2} ==> StateAt(Refuse4, 0, Of(b)).Some?
    ensures StateAt(Refuse4, 0, Of(B4)).None? && StateAt(Refuse4, 0, Of(C3)).None?
  {
    assert StateAt(Refuse4, 0, Of(B1)) == Some(State(Of(B1), 1));
    assert StateAt(Refuse4, 0, Of(B2)) == Some(State(Of(B2), 2));
    assert StateAt(Refuse4, 0, Of(B3)) == Some(State(Of(B3), 3));
    assert Apply(Refuse4, State(Of(B3), 3), B4) == None;
    assert StateAt(Refuse4, 0, Of(C2)) == Some(State(Of(C2), 2));
    assert Apply(Refuse4, State(Of(C2), 2), C3) == None;
  }

  /** A valid new block on the head extends the chain, and becomes the fork database's head. */
  lemma NextBlockExtends<O(!new)>(exec: (O, Block) -> Option<O>, genesis: O, at: Id, index: Index, head: Option<Item>, made: nat, b: Block)
    requires WellFormed(index, made) && Of(b) !in index && b.previous == at && StateAt(exec, genesis, Of(b)).Some?
    requires if at == Zero then head.None? else head.Some? && head.value.id == at && at in index
    ensures Links(index, head, b) && OutcomeOf(exec, genesis, at, index, head, made, b) == Extended
    ensures ForkHeadAfter(exec, genesis, at, index, head, made, b) == Some(NewItem(index, head, made, b))
    ensures Received(index, head, made, b) == index[Of(b) := NewItem(index, head, made, b)]
  {
    hide StateAt;
  }

  method ReceiveNext<O(!new)>(db: ChainDatabase<O>, b: Block)
    requires db.Consistent() && Of(b) !in db.fork.index && b.previous == db.state.head && StateAt(db.exec, db.genesis, Of(b)).Some?
    requires if b.previous == Zero then db.fork.head.None? else db.fork.head.Some? && db.fork.head.value.id == b.previous && b.previous in db.fork.index
    modifies db, db.fork, db.store
    ensures db.Consistent() && db.state.head == Of(b) && db.fork.made == old(db.fork.made) + 1
    ensures var x := Item(Of(b), old(db.fork.made), if b.previous == Zero then None else Some(old(db.fork.index)[b.previous].serial));
            db.fork.index == old(db.fork.index)[Of(b) := x] && db.fork.head == Some(x)
  {
    NextBlockExtends(db.exec, db.genesis, db.state.head, db.fork.index, db.fork.head, db.fork.made, b);
    hide OutcomeOf, ForkHeadAfter, Received, StateAt, History, HoldsChain, RoundTrips, WellPlaced, Num;
    var outcome := db.PushBlock(b);
  }

  /** Three valid blocks are received, and the last one is undone. */
  method UndoThirdBlock(codec: Codec) returns (db: ChainDatabase<nat>)
    requires RoundTrips(codec)
    ensures fresh(db) && fresh(db.fork) && fresh(db.store) && db.Consistent() && db.exec == Refuse4 && db.genesis == 0
    ensures db.state.head == Of(B2) && db.fork.index == THREE && db.fork.head == Some(X2) && db.fork.made == 3
  {
    BlocksOfTheRun();
    hide StateAt, History, HoldsChain, RoundTrips, WellPlaced, WellFormed;
    db := new ChainDatabase<nat>(Refuse4, 0, codec);
    ReceiveNext(db, B1);
    assert db.fork.index == map[Of(B1) := X1] && db.fork.head == Some(X1);
    ReceiveNext(db, B2);
    assert db.fork.index == map[Of(B1) := X1, Of(B2) := X2] && db.fork.head == Some(X2);
    ReceiveNext(db, B3);
    assert db.fork.index == THREE && db.fork.head == Some(X3);
    var thrown := db.PopBlock();
  }

  lemma RefusedLeavesRest(index: Index, made: nat, head: Item, b: Block)
    requires WellFormed(index, made) && head.id.Of? && b.previous in index && Of(b) !in index
    requires StateAt(Refuse4, 0, b.previous).Some? && StateAt(Refuse4, 0, Of(b)).None?
    ensures Received(index, Some(head), made, b) - Invalid(Refuse4, 0, Received(index, Some(head), made, b), Of(b)) == index
  {
    var known := Received(index, Some(head), made, b);
    hide StateAt;
    forall i | i in known && OnChain(Of(b), i) && StateAt(Refuse4, 0, i).None? ensures i == Of(b) {
      if OnChain(b.previous, i) { AncestorIsValid(Refuse4, 0, b.previous, i); }
    }
    assert Invalid(Refuse4, 0, known, Of(b)) == {Of(b)};
  }

  /**
   A run from the empty database: an invalid block on an undone one moves the fork database's head from the
   chain's head to the block before it; then a sibling of the chain's head becomes that head, and an invalid
   block on the sibling takes it back to the chain's head.  The chain is the same throughout.
   */
  method ForkHeadIsNotAlwaysRestored(codec: Codec) returns (first: Outcome, between: Outcome, second: Outcome, heads: seq<Option<Item>>, db: ChainDatabase<nat>)
    requires RoundTrips(codec)
    ensures first == BranchRejected && between == Kept && second == BranchRejected
    ensures heads == [Some(X2), Some(X1), Some(Y2), Some(X2)]
    ensures db.Consistent() && db.state.head == Of(B2) && db.fork.head == heads[3]
  {
    hide *;
    db := UndoThirdBlock(codec);
    heads := [db.fork.head];
    first := FirstRefusal(db);
    heads := heads + [db.fork.head];
    between := ReceiveSibling(db);
    heads := heads + [db.fork.head];
    second := SecondRefusal(db);
    heads := heads + [db.fork.head];
  }

  method FirstRefusal(db: ChainDatabase<nat>) returns (outcome: Outcome)
    requires db.Consistent() && db.exec == Refuse4 && db.genesis == 0
    requires db.state.head == Of(B2) && db.fork.index == THREE && db.fork.head == Some(X2) && db.fork.made == 3
    modifies db, db.fork, db.store
    ensures db.Consistent() && outcome == BranchRejected
    ensures db.state.head == Of(B2) && db.fork.index == THREE && db.fork.head == Some(X1) && db.fork.made == 4
  {
    BlocksOfTheRun();
    GivingUpMovesForkHead(Refuse4, 0, THREE, 3, Of(B2), B3, B4);
    RefusedLeavesRest(THREE, 3, X2, B4);
    hide OutcomeOf, ForkHeadAfter, Received, Invalid, StateAt, History, HoldsChain, RoundTrips, WellPlaced, WellFormed;
    outcome := db.PushBlock(B4);
  }

  method ReceiveSibling(db: ChainDatabase<nat>) returns (outcome: Outcome)
    requires db.Consistent() && db.exec == Refuse4 && db.genesis == 0
    requires db.state.head == Of(B2) && db.fork.index == THREE && db.fork.head == Some(X1) && db.fork.made == 4
    modifies db, db.fork, db.store
    ensures db.Consistent() && outcome == Kept
    ensures db.state.head == Of(B2) && db.fork.index == THREE[Of(C2) := Y2] && db.fork.head == Some(Y2) && db.fork.made == 5
  {
    hide StateAt, History, HoldsChain, RoundTrips, WellPlaced;
    outcome := db.PushBlock(C2);
  }

  method SecondRefusal(db: ChainDatabase<nat>) returns (outcome: Outcome)
    requires db.Consistent() && db.exec == Refuse4 && db.genesis == 0
    requires db.state.head == Of(B2) && db.fork.index == THREE[Of(C2) := Y2] && db.fork.head == Some(Y2) && db.fork.made == 5
    modifies db, db.fork, db.store
    ensures db.Consistent() && outcome == BranchRejected
    ensures db.state.head == Of(B2) && db.fork.index == THREE[Of(C2) := Y2] && db.fork.head == Some(X2) && db.fork.made == 6
  {
    BlocksOfTheRun();
    GivingUpDropsSibling(Refuse4, 0, THREE[Of(C2) := Y2], 5, Of(B2), C2, C3);
    RefusedLeavesRest(THREE[Of(C2) := Y2], 5, Y2, C3);
    hide OutcomeOf, ForkHeadAfter, Received, Invalid, StateAt, History, HoldsChain, RoundTrips, WellPlaced, WellFormed;
    outcome := db.PushBlock(C3);
  }

  // A run in which a block is received twice ----------------------------------------------------

  const D5 := Block(Of(D4), 5)
  const D4 := Block(Of(B3), 6)

  const Z4 := Item(Of(D4), 3, Some(2))
  const FOUR: Index := THREE[Of(D4) := Z4]

  lemma ValidUpToFive()
    ensures StateAt(Refuse4, 0, Of(D4)).Some? && StateAt(Refuse4, 0, Of(D5)).Some?
  {
    BlocksOfTheRun();
    var s3 := StateAt(Refuse4, 0, Of(B3)).value;
    assert Apply(Refuse4, s3, D4).Some?;
    var s4 := StateAt(Refuse4, 0, Of(D4)).value;
    assert Apply(Refuse4, s4, D5).Some?;
  }

  /** Four valid blocks are received, and the last two are undone. */
  method UndoTwoBlocks(codec: Codec) returns (db: ChainDatabase<nat>)
    requires RoundTrips(codec)
    ensures fresh(db) && fresh(db.fork) && fresh(db.store) && db.Consistent() && db.exec == Refuse4 && db.genesis == 0
    ensures db.state.head == Of(B2) && db.fork.index == FOUR && db.fork.head == Some(X2) && db.fork.made == 4
  {
    BlocksOfTheRun();
    ValidUpToFive();
    hide StateAt, History, HoldsChain, RoundTrips, WellPlaced, WellFormed;
    db := new ChainDatabase<nat>(Refuse4, 0, codec);
    ReceiveNext(db, B1);
    assert db.fork.index == map[Of(B1) := X1] && db.fork.head == Some(X1);
    ReceiveNext(db, B2);
    assert db.fork.index == map[Of(B1) := X1, Of(B2) := X2] && db.fork.head == Some(X2);
    ReceiveNext(db, B3);
    assert db.fork.index == THREE && db.fork.head == Some(X3);
    ReceiveNext(db, D4);
    assert db.fork.index == FOUR && db.fork.head == Some(Z4);
    var thrown := db.PopBlock();
    assert db.fork.head == Some(X3);
    thrown := db.PopBlock();
  }

  /**
   A block received again extends the chain again, and does not cut off the blocks that were built on it: a
   later block on these is still joined to the chain, and the chain switches to it.
   */
  method ReceivedAgain(codec: Codec) returns (again: Outcome, later: Outcome, db: ChainDatabase<nat>)
    requires RoundTrips(codec)
    ensures again == Extended && later == Switched && db.Consistent() && db.state.head == Of(D5)
  {
    hide *;
    db := UndoTwoBlocks(codec);
    again := ReceiveThirdAgain(db);
    later := ReceiveFifth(db);
  }

  method ReceiveThirdAgain(db: ChainDatabase<nat>) returns (outcome: Outcome)
    requires db.Consistent() && db.exec == Refuse4 && db.genesis == 0
    requires db.state.head == Of(B2) && db.fork.index == FOUR && db.fork.head == Some(X2) && db.fork.made == 4
    modifies db, db.fork, db.store
    ensures db.Consistent() && outcome == Extended && db.state.head == Of(B3)
    ensures db.fork.index == FOUR && db.fork.head == Some(Item(Of(B3), 4, Some(1))) && db.fork.made == 5
  {
    BlocksOfTheRun();
    hide StateAt, History, HoldsChain, RoundTrips, WellPlaced, Joined;
    outcome := db.PushBlock(B3);
  }

  method ReceiveFifth(db: ChainDatabase<nat>) returns (outcome: Outcome)
    requires db.Consistent() && db.exec == Refuse4 && db.genesis == 0 && db.state.head == Of(B3)
    requires db.fork.index == FOUR && db.fork.head == Some(Item(Of(B3), 4, Some(1))) && db.fork.made == 5
    modifies db, db.fork, db.store
    ensures db.Consistent() && outcome == Switched && db.state.head == Of(D5)
  {
    ValidUpToFive();
    FifthIsJoined();
    hide StateAt, History, HoldsChain, RoundTrips, WellPlaced, Joined;
    outcome := db.PushBlock(D5);
  }

  lemma FifthIsJoined()
    ensures var known := FOUR[Of(D5) := Item(Of(D5), 5, Some(3))]; Keyed(known) && Joined(known, Of(D5), Of(B3))
  {
    var x := Item(Of(D5), 5, Some(3));
    var known := FOUR[Of(D5) := x];
    assert Up(known, x, 1) == Some(Z4);
    assert Up(known, x, 2) == Some(X3);
    MeetsAt(known, x, X3, 0, X3, X3);
  }

  /** The blocks to undo are known and valid, and the new tip is not among them. */
  lemma ReadyToSwitch<O(!new)>(exec: (O, Block) -> Option<O>, genesis: O, index: Index, head: Id, tip: Id, a: seq<Item>, b: seq<Item>)
    requires Facing(index, tip, head, a, b) && Num(tip) > Num(head) && StateAt(exec, genesis, head).Some?
    ensures var base := Previous(b[|b| - 1]);
            AllKnown(index, head, base) && OnChain(head, base) && !Between(head, base, tip) && StateAt(exec, genesis, base).Some?
  {
    var base := Previous(b[|b| - 1]);
    BranchIsKnown(index, b, 0);
    DescendingReaches(b, 0, |b| - 1);
    HeadIsNotHigher(head, base, tip);
    AncestorIsValid(exec, genesis, head, base);
  }

  /** What became of a received block; `Unlinkable`, `Rejected`, `Disconnected` and `BranchRejected` are exceptions. */
  datatype Outcome = Unlinkable | Kept | Extended | Rejected | Disconnected | Switched | BranchRejected

  /** The fork database's head after a branch was given up: undoing the old head moves it down if the branch leads through it. */
  ghost function HeadAfterGivingUp(index: Index, tip: Id, head: Id): Item
    requires Keyed(index) && head in index
  {
    if OnChain(tip, head) && Lock(index, index[head]).Some? then Lock(index, index[head]).value else index[head]
  }

  /** The known blocks on the chain of `tip` that do not apply. */
  ghost function Invalid<O(!new)>(exec: (O, Block) -> Option<O>, genesis: O, index: Index, tip: Id): set<Id> {
    set i | i in index && OnChain(tip, i) && StateAt(exec, genesis, i).None?
  }

  /** A block higher than all of a chain is not on it. */
  lemma {:induction false} HeadIsNotHigher(head: Id, base: Id, tip: Id)
    requires Num(tip) > Num(head)
    ensures !Between(head, base, tip)
    decreases head
  {
    if head.Of? {
      HeadIsNotHigher(head.block.previous, base, tip);
    }
  }

  lemma {:induction false} OnBranchOrBelow(a: seq<Item>, i: nat, x: Id)
    requires Descending(a) && i < |a| && OnChain(a[i].id, x)
    ensures (exists j :: i <= j < |a| && a[j].id == x) || OnChain(Previous(a[|a| - 1]), x)
    decreases |a| - i
  {
    if a[i].id != x && i + 1 < |a| {
      OnBranchOrBelow(a, i + 1, x);
    }
  }

  /** The blocks left over when a branch is refused are the invalid ones on it. */
  lemma InvalidOnBranch<O(!new)>(exec: (O, Block) -> Option<O>, genesis: O, index: Index, a: seq<Item>, left: nat)
    requires a != [] && Descending(a) && AllIn(index, a) && 0 < left <= |a|
    requires StateAt(exec, genesis, if left == |a| then Previous(a[|a| - 1]) else a[left].id).Some?
    requires StateAt(exec, genesis, a[left - 1].id).None?
    ensures Ids(a[..left]) == Invalid(exec, genesis, index, a[0].id)
  {
    hide StateAt;
    forall j | 0 <= j < |a| ensures OnChain(a[0].id, a[j].id) && (StateAt(exec, genesis, a[j].id).None? <==> j < left) {
      DescendingReaches(a, 0, j);
      if j < left {
        DescendingReaches(a, j, left - 1);
        if StateAt(exec, genesis, a[j].id).Some? { AncestorIsValid(exec, genesis, a[j].id, a[left - 1].id); }
      } else {
        DescendingReaches(a, left, j);
        AncestorIsValid(exec, genesis, a[left].id, a[j].id);
      }
    }
    forall i | i in index && OnChain(a[0].id, i) && StateAt(exec, genesis, i).None? ensures i in Ids(a[..left]) {
      OnBranchOrBelow(a, 0, i);
      if OnChain(Previous(a[|a| - 1]), i) {
        DescendingReaches(a, if left == |a| then left - 1 else left, |a| - 1);
        if left < |a| { OnChainTransitive(a[left].id, Previous(a[|a| - 1]), i); }
        AncestorIsValid(exec, genesis, if left == |a| then Previous(a[|a| - 1]) else a[left].id, i);
      } else {
        var j :| 0 <= j < |a| && a[j].id == i;
        assert a[..left][j] == a[j];
      }
    }
  }

  /** Whether the old head is on the part of the branch that was applied. */
  lemma HeadOnBranch(index: Index, tip: Id, head: Id, a: seq<Item>, b: seq<Item>, left: nat, now: Id)
    requires Facing(index, tip, head, a, b) && left <= |a|
    requires now == (if left == |a| then Previous(a[|a| - 1]) else a[left].id)
    requires left == |a| ==> a[|a| - 1] != b[0]
    ensures OnChain(now, Previous(a[|a| - 1]))
    ensures Between(now, Previous(a[|a| - 1]), head) <==> OnChain(tip, head)
  {
    var base := Previous(a[|a| - 1]);
    if left < |a| {
      DescendingReaches(a, left, |a| - 1);
      DescendingReaches(a, 0, left);
      if Between(now, base, head) {
        BetweenIsAbove(now, base, head);
        OnChainTransitive(tip, now, head);
      }
      if OnChain(tip, head) {
        OnChainIsBetween(now, head, base);
      }
    }
  }

  function Ids(a: seq<Item>): set<Id> {
    set i | 0 <= i < |a| :: a[i].id
  }
}
