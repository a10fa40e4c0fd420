/**
 Blocks, block ids and what a chain of blocks means.

 A block id carries the number of its block and a digest of it.  Digests are taken to be free of
 collisions: `Of(b)` is the id of block `b` and of no other block.  `Unknown` stands for an id that is
 the id of no block, as a block received from a peer may name one as its predecessor.
 */
module Blocks {
  import opened Options

  datatype Id = Zero | Unknown(claimed: nat, digest: nat) | Of(block: Block)

  /** A signed block: its predecessor and everything else in it. */
  datatype Block = Block(previous: Id, body: nat)

  /** The number an id carries; a block's own number is one more than its predecessor's. */
  function Num(id: Id): nat {
    match id
    case Zero => 0
    case Unknown(n, _) => n
    case Of(b) => Num(b.previous) + 1
  }

  function Number(b: Block): nat {
    Num(b.previous) + 1
  }

  /** The object database: the head block's id and all other objects. */
  datatype State<O> = State(head: Id, objects: O)

  /** Applying a block is refused unless it builds on the head; `exec` is the rest of the evaluation. */
  function Apply<O>(exec: (O, Block) -> Option<O>, s: State<O>, b: Block): Option<State<O>> {
    if b.previous != s.head then None
    else
      match exec(s.objects, b)
      case None => None
      case Some(o) => Some(State(Of(b), o))
  }

  /** The state after all blocks up to and including `id`, if each of them applies. */
  function StateAt<O>(exec: (O, Block) -> Option<O>, genesis: O, id: Id): (s: Option<State<O>>)
    ensures s.Some? ==> s.value.head == id
  {
    match id
    case Zero => Some(State(Zero, genesis))
    case Unknown(_, _) => None
    case Of(b) =>
      match StateAt(exec, genesis, b.previous)
      case None => None
      case Some(s) => Apply(exec, s, b)
  }

  ghost predicate ValidChain<O(!new)>(exec: (O, Block) -> Option<O>, genesis: O, id: Id) {
    StateAt(exec, genesis, id).Some?
  }

  /** The states before each block of the chain of `id`, oldest first. */
  function History<O>(exec: (O, Block) -> Option<O>, genesis: O, id: Id): (h: seq<State<O>>)
    requires StateAt(exec, genesis, id).Some?
    ensures |h| == Num(id)
  {
    match id
    case Zero => []
    case Of(b) => History(exec, genesis, b.previous) + [StateAt(exec, genesis, b.previous).value]
  }

  /** The id of block number `n` on the chain of `id`. */
  function AncestorAt(id: Id, n: nat): (a: Id)
    requires n <= Num(id)
    decreases id
  {
    if n == Num(id) || !id.Of? then id else AncestorAt(id.block.previous, n)
  }

  lemma {:induction false} AncestorOfValid<O(!new)>(exec: (O, Block) -> Option<O>, genesis: O, id: Id, n: nat)
    requires n <= Num(id) && ValidChain(exec, genesis, id)
    ensures ValidChain(exec, genesis, AncestorAt(id, n)) && Num(AncestorAt(id, n)) == n
    ensures n > 0 ==> AncestorAt(id, n).Of?
    decreases id
  {
    if n != Num(id) {
      AncestorOfValid(exec, genesis, id.block.previous, n);
    }
  }
}
