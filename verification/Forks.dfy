/**
 The fork database: every received block that links to a known one, and the tip of the longest chain.

 Items are linked by weak references.  A reference to the predecessor's item is followed only while
 that very item is still indexed: an item that is removed and received again is a new item, and older
 references do not find it.  Each item therefore has a serial number, and a reference names one.
 */
module Forks {
  import opened Options
  import opened Blocks

  datatype Item = Item(id: Id, serial: nat, parent: Option<nat>)

  type Index = map<Id, Item>

  ghost predicate Keyed(index: Index) {
    forall i :: i in index ==> i.Of? && index[i].id == i
  }

  /** Serial numbers already handed out are below `made`. */
  ghost predicate WellFormed(index: Index, made: nat) {
    && Keyed(index)
    && forall i :: i in index ==> index[i].serial < made && (index[i].parent.Some? ==> index[i].parent.value < made)
  }

  function Previous(x: Item): Id
    requires x.id.Of?
  {
    x.id.block.previous
  }

  /** Follow an item's reference to its predecessor. */
  function Lock(index: Index, x: Item): Option<Item>
    requires x.id.Of?
  {
    if x.parent.Some? && Previous(x) in index && index[Previous(x)].serial == x.parent.value
    then Some(index[Previous(x)]) else None
  }

  /** The item reached after following `k` references. */
  ghost function Up(index: Index, x: Item, k: nat): (r: Option<Item>)
    requires Keyed(index)
    requires x.id.Of?
    ensures r.Some? ==> r.value.id.Of? && Num(r.value.id) + k == Num(x.id)
  {
    if k == 0 then Some(x)
    else
      var y := Up(index, x, k - 1);
      if y.None? then None else Lock(index, y.value)
  }

  lemma {:induction false} UpStops(index: Index, x: Item, k: nat, l: nat)
    requires Keyed(index)
    requires x.id.Of? && k <= l && Up(index, x, k).None?
    ensures Up(index, x, l).None?
    decreases l - k
  {
    if k < l {
      UpStops(index, x, k + 1, l);
    }
  }

  /** How far `x` is above `y`. */
  function Above(x: Item, y: Item): nat {
    if Num(x.id) > Num(y.id) then Num(x.id) - Num(y.id) else 0
  }

  /** From the lower item's height, the paths of `x` and `y` go down `k` more steps to a common predecessor. */
  ghost predicate Meet(index: Index, x: Item, y: Item, k: nat)
    requires Keyed(index)
    requires x.id.Of? && y.id.Of?
  {
    && Up(index, x, Above(x, y) + k).Some? && Up(index, y, Above(y, x) + k).Some?
    && Previous(Up(index, x, Above(x, y) + k).value) == Previous(Up(index, y, Above(y, x) + k).value)
  }

  /** `path` lists the items from `x` down along the references. */
  ghost predicate IsPath(index: Index, x: Item, path: seq<Item>)
    requires Keyed(index)
    requires x.id.Of?
  {
    forall k :: 0 <= k < |path| ==> Up(index, x, k) == Some(path[k])
  }

  /** Two branches down to, and not including, their most recent common predecessor. */
  ghost predicate Branches(index: Index, x: Item, y: Item, a: seq<Item>, b: seq<Item>)
    requires Keyed(index)
    requires x.id.Of? && y.id.Of?
  {
    && IsPath(index, x, a) && IsPath(index, y, b)
    && |a| > Above(x, y) && |b| == |a| - Above(x, y) + Above(y, x)
    && Meet(index, x, y, |a| - Above(x, y) - 1)
    && forall k :: 0 <= k < |a| - Above(x, y) - 1 ==> !Meet(index, x, y, k)
  }

  predicate Links(index: Index, head: Option<Item>, b: Block) {
    head.None? || b.previous == Zero || b.previous in index
  }

  function NewItem(index: Index, head: Option<Item>, made: nat, b: Block): Item
    requires Links(index, head, b)
  {
    Item(Of(b), made, if head.Some? && b.previous != Zero then Some(index[b.previous].serial) else None)
  }

  /** The index with a block taken in; a block that is known already keeps its item. */
  function Received(index: Index, head: Option<Item>, made: nat, b: Block): Index
    requires Links(index, head, b)
  {
    if Of(b) in index then index else index[Of(b) := NewItem(index, head, made, b)]
  }

  /** Every item known before is still known, and is the same item. */
  ghost predicate Keeps(before: Index, after: Index) {
    forall i :: i in before ==> i in after && after[i] == before[i]
  }

  lemma {:induction false} UpStays(index: Index, later: Index, x: Item, k: nat)
    requires Keyed(index) && Keyed(later) && Keeps(index, later)
    requires x.id.Of? && Up(index, x, k).Some?
    ensures Up(later, x, k) == Up(index, x, k)
  {
    if k > 0 {
      UpStays(index, later, x, k - 1);
    }
  }

  lemma KeptItem(before: Index, after: Index, i: Id)
    requires Keeps(before, after) && i in before
    ensures i in after && after[i] == before[i]
  {
  }

  /** Blocks that were joined stay joined: references to items that are kept do not die. */
  lemma JoinedStays(index: Index, later: Index, first: Id, second: Id)
    requires Keyed(index) && Keyed(later) && Keeps(index, later) && Joined(index, first, second)
    ensures Joined(later, first, second)
  {
    hide Up, Num, Keeps;
    var x, y := index[first], index[second];
    assert first in later && second in later && later[first] == x && later[second] == y by { KeptItem(index, later, first); KeptItem(index, later, second); }
    var k: nat :| Meet(index, x, y, k);
    UpStays(index, later, x, Above(x, y) + k);
    UpStays(index, later, y, Above(y, x) + k);
    assert Meet(later, x, y, k);
  }

  /** Both blocks are known, and references lead from them to a common predecessor. */
  ghost predicate Joined(index: Index, first: Id, second: Id)
    requires Keyed(index)
  {
    first in index && second in index && exists k :: Meet(index, index[first], index[second], k)
  }

  class ForkDatabase {
    var index: Index
    var head: Option<Item>
    var made: nat

    constructor ()
      ensures index == map[] && head == None && made == 0
    {
      index, head, made := map[], None, 0;
    }

    /**
     Take in a block.  It must link to a known block, unless it claims to be a first block or nothing
     is known yet.  The head moves only to a strictly higher block.
     */
    method PushBlock(b: Block) returns (thrown: bool)
      modifies this
      ensures thrown <==> !Links(old(index), old(head), b)
      ensures thrown ==> unchanged(this)
      ensures !thrown ==> made == old(made) + 1 && index == Received(old(index), old(head), old(made), b)
      ensures !thrown ==> Keeps(old(index), index) && index.Keys == old(index).Keys + {Of(b)} && (Of(b) in old(index) ==> index == old(index))
      ensures !thrown ==> head == Some(if old(head).None? || Number(b) > Num(old(head).value.id)
                                       then NewItem(old(index), old(head), old(made), b) else old(head).value)
    {
      var parent: Option<nat> := None;
      if head.Some? && b.previous != Zero {
        if b.previous !in index {
          return true;
        }
        parent := Some(index[b.previous].serial);
      }
      var x := Item(Of(b), made, parent);
      made := made + 1;
      if Of(b) !in index {
        index := index[Of(b) := x];
      }
      if head.None? || Number(b) > Num(head.value.id) {
        head := Some(x);
      }
      return false;
    }

    /** Move the head to its predecessor, if that is still indexed. */
    method PopBlock() returns (thrown: bool)
      requires head.Some? ==> head.value.id.Of?
      modifies this`head
      ensures thrown <==> old(head).None? || Lock(index, old(head).value).None?
      ensures head == if thrown then old(head) else Lock(index, old(head).value)
    {
      if head.None? || Lock(index, head.value).None? {
        return true;
      }
      head := Lock(index, head.value);
      return false;
    }

    method SetHead(x: Item)
      modifies this`head
      ensures head == Some(x)
    {
      head := Some(x);
    }

    /** Forget a block.  If it was the head, its predecessor becomes the head, if it has one. */
    method Remove(id: Id)
      requires head.Some? ==> head.value.id.Of?
      modifies this`index, this`head
      ensures index == old(index) - {id}
      ensures head == if old(head).Some? && old(head).value.id == id then Lock(index, old(head).value) else old(head)
    {
      index := index - {id};
      if head.Some? && head.value.id == id {
        var thrown := PopBlock();
        if thrown {
          head := None;
        }
      }
    }

    /**
     The branches from `first` and `second` down to their most recent common predecessor.  Fails exactly
     when a block is unknown or the paths of live references have no common predecessor.
     */
    method FetchBranchFrom(first: Id, second: Id) returns (thrown: bool, a: seq<Item>, b: seq<Item>)
      requires WellFormed(index, made)
      ensures thrown <==> !Joined(index, first, second)
      ensures !thrown ==> Branches(index, index[first], index[second], a, b)
    {
      a, b := [], [];
      if first !in index || second !in index {
        return true, a, b;
      }
      var x, y := index[first], index[second];
      while Num(x.id) > Num(y.id)
        invariant x.id.Of? && |a| <= Above(index[first], y)
        invariant Up(index, index[first], |a|) == Some(x) && IsPath(index, index[first], a)
        decreases Num(x.id)
      {
        a := a + [x];
        var next := Lock(index, x);
        if next.None? {
          NoMeetAbove(index, index[first], index[second], |a|);
          return true, a, b;
        }
        x := next.value;
      }
      while Num(y.id) > Num(x.id)
        invariant y.id.Of? && |b| <= Above(index[second], index[first])
        invariant Up(index, index[second], |b|) == Some(y) && IsPath(index, index[second], b)
        invariant |a| == Above(index[first], index[second])
        decreases Num(y.id)
      {
        b := b + [y];
        var next := Lock(index, y);
        if next.None? {
          NoMeetBelow(index, index[first], index[second], |b|);
          return true, a, b;
        }
        y := next.value;
      }
      thrown, a, b := DescendTogether(index[first], index[second], x, y, a, b);
    }

    /** The common part of the descent, from equal heights. */
    method DescendTogether(ghost first: Item, ghost second: Item, x0: Item, y0: Item, a0: seq<Item>, b0: seq<Item>)
      returns (thrown: bool, a: seq<Item>, b: seq<Item>)
      requires Keyed(index) && first.id.Of? && second.id.Of?
      requires |a0| == Above(first, second) && |b0| == Above(second, first)
      requires Up(index, first, |a0|) == Some(x0) && IsPath(index, first, a0)
      requires Up(index, second, |b0|) == Some(y0) && IsPath(index, second, b0)
      ensures thrown <==> !exists k :: Meet(index, first, second, k)
      ensures !thrown ==> Branches(index, first, second, a, b)
    {
      hide IsPath, Meet, Num, Lock, Keyed, Above;
      var x, y := x0, y0;
      a, b := a0, b0;
      ghost var k := 0;
      while Previous(x) != Previous(y)
        invariant x.id.Of? && y.id.Of? && |a| == |a0| + k && |b| == |b0| + k
        invariant Up(index, first, |a|) == Some(x) && IsPath(index, first, a)
        invariant Up(index, second, |b|) == Some(y) && IsPath(index, second, b)
        invariant forall j :: 0 <= j < k ==> !Meet(index, first, second, j)
        decreases Num(x.id)
      {
        MeetsAt(index, first, second, k, x, y);
        a, b := ExtendPath(index, first, a, x), ExtendPath(index, second, b, y);
        k := k + 1;
        var left, right := Lock(index, x), Lock(index, y);
        assert Up(index, first, |a|) == left && Up(index, second, |b|) == right;
        if left.None? || right.None? {
          NoMeetBeyond(index, first, second, k);
          return true, a, b;
        }
        x, y := left.value, right.value;
      }
      MeetsAt(index, first, second, k, x, y);
      a, b := ExtendPath(index, first, a, x), ExtendPath(index, second, b, y);
      return false, a, b;
    }
  }

  function ExtendPath(index: Index, ghost x: Item, path: seq<Item>, last: Item): (r: seq<Item>)
    requires Keyed(index)
    requires x.id.Of? && IsPath(index, x, path) && Up(index, x, |path|) == Some(last)
    ensures r == path + [last] && IsPath(index, x, r)
  {
    path + [last]
  }

  lemma MeetsAt(index: Index, x: Item, y: Item, k: nat, u: Item, v: Item)
    requires Keyed(index)
    requires x.id.Of? && y.id.Of? && Up(index, x, Above(x, y) + k) == Some(u) && Up(index, y, Above(y, x) + k) == Some(v)
    ensures Meet(index, x, y, k) <==> Previous(u) == Previous(v)
  {
  }

  lemma NoMeetAbove(index: Index, x: Item, y: Item, n: nat)
    requires Keyed(index)
    requires x.id.Of? && y.id.Of? && n <= Above(x, y) && Up(index, x, n).None?
    ensures !exists k :: Meet(index, x, y, k)
  {
    forall k: nat ensures !Meet(index, x, y, k) {
      UpStops(index, x, n, Above(x, y) + k);
    }
  }

  lemma NoMeetBelow(index: Index, x: Item, y: Item, n: nat)
    requires Keyed(index)
    requires x.id.Of? && y.id.Of? && n <= Above(y, x) && Up(index, y, n).None?
    ensures !exists k :: Meet(index, x, y, k)
  {
    forall k: nat ensures !Meet(index, x, y, k) {
      UpStops(index, y, n, Above(y, x) + k);
    }
  }

  lemma NoMeetBeyond(index: Index, x: Item, y: Item, n: nat)
    requires Keyed(index)
    requires x.id.Of? && y.id.Of?
    requires Up(index, x, Above(x, y) + n).None? || Up(index, y, Above(y, x) + n).None?
    requires forall j :: 0 <= j < n ==> !Meet(index, x, y, j)
    ensures !exists k :: Meet(index, x, y, k)
  {
    hide Keyed, Num, Lock, Up, Previous;
    forall k: nat ensures !Meet(index, x, y, k) {
      if k >= n {
        if Up(index, x, Above(x, y) + n).None? {
          UpStops(index, x, Above(x, y) + n, Above(x, y) + k);
        } else {
          UpStops(index, y, Above(y, x) + n, Above(y, x) + k);
        }
      }
    }
  }
}
