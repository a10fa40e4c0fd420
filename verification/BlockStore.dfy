/**
 The block store: a file of packed blocks that only grows, and an index file with one fixed-size entry
 per block number.  Entries are overwritten in place and never cleared when blocks are undone, so entries
 above the head of the chain may be stale.
 */
module BlockStore {
  import opened Options
  import opened Blocks

  datatype Entry = Entry(pos: nat, size: nat, id: Id)

  const EMPTY := Entry(0, 0, Zero)

  /** The serialisation of blocks. */
  datatype Codec = Codec(pack: Block -> seq<nat>, unpack: seq<nat> -> Option<Block>)

  ghost predicate RoundTrips(c: Codec) {
    forall b :: |c.pack(b)| > 0 && c.unpack(c.pack(b)) == Some(b)
  }

  /** The index with an entry written at `n`; a gap before it reads as zeros. */
  function Written(index: seq<Entry>, n: nat, e: Entry): (r: seq<Entry>)
    ensures |r| == (if n < |index| then |index| else n + 1)
    ensures forall k :: 0 <= k < |r| ==> r[k] == if k == n then e else if k < |index| then index[k] else EMPTY
  {
    if n < |index| then index[n := e] else index + seq(n - |index|, _ => EMPTY) + [e]
  }

  /** The block an entry refers to, if it can be read and its id is the recorded one. */
  function ReadBack(c: Codec, blocks: seq<nat>, e: Entry): Option<Block> {
    if e.pos + e.size > |blocks| then None
    else
      match c.unpack(blocks[e.pos..e.pos + e.size])
      case None => None
      case Some(b) => if Of(b) == e.id then Some(b) else None
  }

  class Store {
    const codec: Codec
    var index: seq<Entry>
    var blocks: seq<nat>

    constructor (codec: Codec)
      ensures this.codec == codec && index == [] && blocks == []
    {
      this.codec, index, blocks := codec, [], [];
    }

    /** Append the block and point the entry of its number at it; an id left out is taken from the block. */
    method Put(given: Id, b: Block)
      modifies this
      ensures var id := if given == Zero then Of(b) else given;
              index == Written(old(index), Num(id), Entry(|old(blocks)|, |codec.pack(b)|, id))
      ensures blocks == old(blocks) + codec.pack(b)
    {
      var id := if given == Zero then Of(b) else given;
      var bytes := codec.pack(b);
      index := Written(index, Num(id), Entry(|blocks|, |bytes|, id));
      blocks := blocks + bytes;
    }

    /** Mark a block as absent; the entry of another block of the same number is left alone. */
    method Remove(id: Id) returns (thrown: bool)
      modifies this`index
      ensures thrown <==> Num(id) >= |old(index)|
      ensures |index| == |old(index)|
      ensures forall k :: 0 <= k < |index| ==>
                index[k] == if k == Num(id) && old(index)[k].id == id then old(index)[k].(size := 0) else old(index)[k]
    {
      if Num(id) >= |index| {
        return true;
      }
      if index[Num(id)].id == id {
        index := index[Num(id) := index[Num(id)].(size := 0)];
      }
      return false;
    }

    predicate Contains(id: Id)
      reads this
    {
      id != Zero && Num(id) < |index| && index[Num(id)].id == id && index[Num(id)].size > 0
    }

    /** The id recorded for a number; `None` where the source throws. */
    function FetchBlockId(n: nat): Option<Id>
      reads this
    {
      if n >= |index| || index[n].id == Zero then None else Some(index[n].id)
    }

    function FetchOptional(id: Id): Option<Block>
      reads this
    {
      if Num(id) >= |index| || index[Num(id)].id != id then None else ReadBack(codec, blocks, index[Num(id)])
    }

    function FetchByNumber(n: nat): Option<Block>
      reads this
    {
      if n >= |index| then None else ReadBack(codec, blocks, index[n])
    }

    /** Entry `k` has a block that reads back. */
    predicate Intact(k: nat)
      requires k < |index|
      reads this
    {
      index[k].size > 0 && ReadBack(codec, blocks, index[k]).Some?
    }

    /** Find the highest entry that reads back and cut the index above it. */
    method LastIndexEntry() returns (r: Option<Entry>)
      modifies this`index
      ensures index <= old(index)
      ensures r.Some? ==> index != [] && r.value == index[|index| - 1] && Intact(|index| - 1)
      ensures r.None? ==> index == []
      ensures forall k :: |index| <= k < |old(index)| ==> !old(Intact(k))
    {
      while |index| > 0
        invariant index <= old(index)
        invariant forall k :: |index| <= k < |old(index)| ==> !old(Intact(k))
        decreases |index|
      {
        var k := |index| - 1;
        if Intact(k) {
          return Some(index[k]);
        }
        assert !old(Intact(k));
        index := index[..k];
      }
      return None;
    }

    /** Storing a block keeps every shorter chain and holds the block itself. */
    method PutBlock(b: Block, ghost below: Id)
      requires RoundTrips(codec) && HoldsChain(codec, index, blocks, below) && Num(below) == Num(b.previous) && WellPlaced(index)
      modifies this
      ensures index == Written(old(index), Number(b), Entry(|old(blocks)|, |codec.pack(b)|, Of(b)))
      ensures blocks == old(blocks) + codec.pack(b)
      ensures Holds(codec, index, blocks, Of(b)) && HoldsChain(codec, index, blocks, below) && WellPlaced(index)
    {
      KeepsLower(codec, index, blocks, b, below);
      PutHolds(codec, index, blocks, b);
      Put(Of(b), b);
    }

    /**
     Whatever stale entries there are above it, block number `n` of a chain that is held is what the
     store yields for `n`, by number and by id.
     */
    lemma {:induction false} ChainReadsBack(id: Id, n: nat)
      requires HoldsChain(codec, index, blocks, id) && 1 <= n <= Num(id)
      ensures var a := AncestorAt(id, n);
              && a.Of? && Num(a) == n && FetchBlockId(n) == Some(a) && FetchByNumber(n) == Some(a.block)
              && Contains(a) && FetchOptional(a) == Some(a.block)
      decreases id
    {
      if n != Num(id) {
        ChainReadsBack(id.block.previous, n);
      }
    }
  }

  /** Every entry but the first is the one of a block, at its number: there are no gaps. */
  ghost predicate WellPlaced(index: seq<Entry>) {
    && (|index| > 0 ==> index[0].id == Zero)
    && forall n :: 0 < n < |index| ==> index[n].id.Of? && Num(index[n].id) == n
  }

  /** The entry of the block's number refers to the block. */
  ghost predicate Holds(c: Codec, index: seq<Entry>, blocks: seq<nat>, id: Id) {
    && id.Of? && Num(id) < |index| && index[Num(id)].id == id && index[Num(id)].size > 0
    && ReadBack(c, blocks, index[Num(id)]) == Some(id.block)
  }

  /** Every block of the chain of `id` is held. */
  ghost predicate HoldsChain(c: Codec, index: seq<Entry>, blocks: seq<nat>, id: Id)
    decreases id
  {
    id == Zero || (Holds(c, index, blocks, id) && HoldsChain(c, index, blocks, id.block.previous))
  }

  lemma PutHolds(c: Codec, index: seq<Entry>, blocks: seq<nat>, b: Block)
    requires RoundTrips(c)
    ensures Holds(c, Written(index, Number(b), Entry(|blocks|, |c.pack(b)|, Of(b))), blocks + c.pack(b), Of(b))
  {
    assert (blocks + c.pack(b))[|blocks|..|blocks| + |c.pack(b)|] == c.pack(b);
  }

  lemma {:induction false} KeepsLower(c: Codec, index: seq<Entry>, blocks: seq<nat>, b: Block, id: Id)
    requires HoldsChain(c, index, blocks, id) && Num(id) < Number(b)
    ensures HoldsChain(c, Written(index, Number(b), Entry(|blocks|, |c.pack(b)|, Of(b))), blocks + c.pack(b), id)
    decreases id
  {
    if id != Zero {
      var e := index[Num(id)];
      assert (blocks + c.pack(b))[e.pos..e.pos + e.size] == blocks[e.pos..e.pos + e.size];
      KeepsLower(c, index, blocks, b, id.block.previous);
    }
  }
}
