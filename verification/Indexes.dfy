/**
 Secondary indexes kept up to date by callbacks: which accounts a member (an account, a key or an
 address) has authority over, and a two-level table of account balances.
 */
module Indexes {
  import opened Amounts
  import opened Options

  // Memberships -------------------------------------------------------------------------------

  /** The accounts recorded for a member; a member that lost all its accounts may keep an empty entry. */
  function Recorded<K(==)>(memberships: map<K, set<AccountId>>, k: K): set<AccountId> {
    if k in memberships then memberships[k] else {}
  }

  /** The index is what recomputing it from all accounts would give. */
  ghost predicate Agrees<K(!new)>(memberships: map<K, set<AccountId>>, accounts: map<AccountId, set<K>>) {
    forall k: K, a: AccountId :: a in Recorded(memberships, k) <==> a in accounts && k in accounts[a]
  }

  /** What `id`'s memberships become when only the changes from `before` to `after` are worked in. */
  function Patched<K>(members: set<K>, before: set<K>, after: set<K>): set<K> {
    members - (before - after) + (after - before)
  }

  /** Patching is exact just when `before` covers what has to go and claims nothing that has to come. */
  lemma PatchIsExact<K>(members: set<K>, before: set<K>, after: set<K>)
    ensures Patched(members, before, after) == after <==> members - after <= before && after * before <= members
  {
    var p := Patched(members, before, after);
    if members - after <= before && after * before <= members {
      assert forall k :: k in p <==> k in after;
    }
    if p == after {
      assert forall k :: k in members - after ==> k in before;
      forall k | k in after * before ensures k in members {
        assert k in p;
      }
    }
  }

  lemma PatchDecides<K(!new)>(memberships: map<K, set<AccountId>>, accounts: map<AccountId, set<K>>, id: AccountId, p: set<K>, after: set<K>)
    requires id in accounts && accounts[id] == after
    requires forall k, a :: a in Recorded(memberships, k) <==> if a == id then k in p else a in accounts && k in accounts[a]
    ensures Agrees(memberships, accounts) <==> p == after
  {
    if Agrees(memberships, accounts) {
      forall k ensures k in p <==> k in after {
        assert id in Recorded(memberships, k) <==> k in p;
      }
    }
  }

  class MemberIndex<K(==,!new)> {
    var memberships: map<K, set<AccountId>>
    /** The members of the account about to be modified. */
    var before: set<K>
    /** The members of every account. */
    ghost var accounts: map<AccountId, set<K>>

    ghost predicate Valid()
      reads this
    {
      Agrees(memberships, accounts)
    }

    constructor ()
      ensures Valid() && accounts == map[]
    {
      memberships, before, accounts := map[], {}, map[];
    }

    method Record(id: AccountId, members: set<K>)
      modifies this`memberships
      ensures forall k :: Recorded(memberships, k) == Recorded(old(memberships), k) + (if k in members then {id} else {})
    {
      var todo := members;
      while todo != {}
        invariant todo <= members
        invariant forall k :: Recorded(memberships, k) == Recorded(old(memberships), k) + (if k in members - todo then {id} else {})
        decreases todo
      {
        var k :| k in todo;
        memberships, todo := memberships[k := Recorded(memberships, k) + {id}], todo - {k};
      }
    }

    method Erase(id: AccountId, members: set<K>)
      modifies this`memberships
      ensures forall k :: Recorded(memberships, k) == Recorded(old(memberships), k) - (if k in members then {id} else {})
    {
      var todo := members;
      while todo != {}
        invariant todo <= members
        invariant forall k :: Recorded(memberships, k) == Recorded(old(memberships), k) - (if k in members - todo then {id} else {})
        decreases todo
      {
        var k :| k in todo;
        memberships, todo := memberships[k := Recorded(memberships, k) - {id}], todo - {k};
      }
    }

    method ObjectInserted(id: AccountId, members: set<K>)
      requires Valid() && id !in accounts
      modifies this
      ensures Valid() && accounts == old(accounts)[id := members]
    {
      Record(id, members);
      accounts := accounts[id := members];
    }

    method ObjectRemoved(id: AccountId, members: set<K>)
      requires Valid() && id in accounts && accounts[id] == members
      modifies this
      ensures Valid() && accounts == old(accounts) - {id}
    {
      Erase(id, members);
      accounts := accounts - {id};
    }

    method AboutToModify(members: set<K>)
      modifies this`before
      ensures before == members
    {
      before := members;
    }

    /**
     Work in a modification.  There is one slot for the members an account had before, so the index is
     right afterwards exactly when that slot still describes this account well enough; it does whenever the
     two callbacks are paired without another modification in between.
     */
    method ObjectModified(id: AccountId, after: set<K>)
      requires Valid() && id in accounts
      modifies this
      ensures accounts == old(accounts)[id := after] && before == old(before)
      ensures Valid() <==> old(accounts)[id] - after <= before && after * before <= old(accounts)[id]
      ensures old(before) == old(accounts)[id] || after == old(accounts)[id] ==> Valid()
    {
      ghost var members := accounts[id];
      PatchIsExact(members, before, after);
      Erase(id, before - after);
      Record(id, after - before);
      accounts := accounts[id := after];
      ghost var p := Patched(members, before, after);
      assert forall k, a :: a in Recorded(memberships, k) <==> if a == id then k in p else a in accounts && k in accounts[a];
      PatchDecides(memberships, accounts, id, p, after);
    }
  }

  /** Two nested modifications leave the index wrong: the outer one compares with the inner one's account. */
  method NestedModificationIsLost() returns (index: MemberIndex<nat>)
    ensures !index.Valid()
  {
    index := new MemberIndex<nat>();
    index.ObjectInserted(1, {10});
    index.ObjectInserted(2, {20});
    index.AboutToModify({10});
    index.AboutToModify({20});
    index.ObjectModified(2, {21});
    assert 10 in index.accounts[1] - {11} && 10 !in index.before;
    index.ObjectModified(1, {11});
  }

  // Balances ----------------------------------------------------------------------------------

  const CHUNK := 0x10_0000

  /** A balance object. */
  datatype Holding = Holding(owner: AccountId, asset: AssetId, amount: int)

  type Row = map<AssetId, nat>
  type Table = seq<seq<Row>>

  ghost predicate Chunked(table: Table) {
    forall c :: 0 <= c < |table| ==> |table[c]| == CHUNK
  }

  /** The object recorded for an account and an asset, by way of the account's chunk and row. */
  function Lookup(table: Table, owner: AccountId, asset: AssetId): Option<nat>
    requires Chunked(table)
  {
    if owner / CHUNK >= |table| then None
    else
      var row := table[owner / CHUNK][owner % CHUNK];
      if asset in row then Some(row[asset]) else None
  }

  function WithRow(table: Table, owner: AccountId, row: Row): Table
    requires Chunked(table) && owner / CHUNK < |table|
    ensures Chunked(WithRow(table, owner, row))
  {
    table[owner / CHUNK := table[owner / CHUNK][owner % CHUNK := row]]
  }

  /** The table has exactly the objects of the flat index, each under its owner and asset. */
  ghost predicate Mirrors(table: Table, objects: map<nat, Holding>) {
    && Chunked(table)
    && (forall i :: i in objects ==> Lookup(table, objects[i].owner, objects[i].asset) == Some(i))
    && (forall o: AccountId, s: AssetId :: Lookup(table, o, s).Some? ==>
          Lookup(table, o, s).value in objects && objects[Lookup(table, o, s).value].owner == o && objects[Lookup(table, o, s).value].asset == s)
  }

  lemma RowOfOthers(table: Table, owner: AccountId, row: Row, o: AccountId, s: AssetId)
    requires Chunked(table) && owner / CHUNK < |table|
    ensures Lookup(WithRow(table, owner, row), o, s) ==
            if o != owner then Lookup(table, o, s) else if s in row then Some(row[s]) else None
  {
    if o / CHUNK == owner / CHUNK && o % CHUNK == owner % CHUNK {
      assert o == owner;
    }
  }

  lemma TableLoses(before: Table, table: Table, objects: map<nat, Holding>, i: nat, h: Holding)
    requires i !in objects && Mirrors(before, objects[i := h]) && Chunked(table)
    requires forall o: AccountId, s: AssetId :: Lookup(table, o, s) == if o == h.owner && s == h.asset then None else Lookup(before, o, s)
    ensures Mirrors(table, objects)
  {
    var all := objects[i := h];
    forall k | k in objects ensures Lookup(table, objects[k].owner, objects[k].asset) == Some(k) {
      assert all[k] == objects[k] && Lookup(before, all[k].owner, all[k].asset) == Some(k);
      assert Lookup(before, all[i].owner, all[i].asset) == Some(i);
    }
    forall o: AccountId, s: AssetId | Lookup(table, o, s).Some?
      ensures Lookup(table, o, s).value in objects && objects[Lookup(table, o, s).value].owner == o && objects[Lookup(table, o, s).value].asset == s
    {
      assert Lookup(before, o, s).value in all && all[Lookup(before, o, s).value].owner == o;
    }
  }

  /** A modification of an object, with the modifications made while it is under way. */
  datatype Modification = Modification(id: nat, inner: seq<Modification>)

  /** The objects in the order in which their modifications end. */
  function InnerFirst(m: Modification): seq<nat>
    decreases m, 0
  {
    AllInnerFirst(m.inner) + [m.id]
  }

  function AllInnerFirst(ms: seq<Modification>): seq<nat>
    decreases ms, |ms|
  {
    if ms == [] then [] else AllInnerFirst(ms[..|ms| - 1]) + InnerFirst(ms[|ms| - 1])
  }

  class BalanceIndex {
    var objects: map<nat, Holding>
    var next: nat
    var table: Table
    /** The objects whose modification is under way. */
    var modifying: seq<nat>

    ghost predicate Valid()
      reads this
    {
      Mirrors(table, objects) && (forall i :: i in objects ==> i < next && objects[i].amount >= 0)
    }

    constructor ()
      ensures Valid() && objects == map[]
    {
      objects, next, table, modifying := map[], 0, [], [];
    }

    /** The balance in the flat index: at most one object has this owner and asset. */
    function BalanceOf(owner: AccountId, asset: AssetId): int
      requires Mirrors(table, objects)
      reads this
    {
      match Lookup(table, owner, asset)
      case None => 0
      case Some(i) => objects[i].amount
    }

    /** Make room for the account's chunk. */
    method Grow(owner: AccountId)
      requires Chunked(table)
      modifies this`table
      ensures Chunked(table) && owner / CHUNK < |table|
      ensures forall o: AccountId, s: AssetId :: Lookup(table, o, s) == old(Lookup(table, o, s))
    {
      while |table| < owner / CHUNK + 1
        invariant Chunked(table)
        invariant forall o: AccountId, s: AssetId :: Lookup(table, o, s) == old(Lookup(table, o, s))
        decreases owner / CHUNK + 1 - |table|
      {
        ghost var before := table;
        table := table + [seq(CHUNK, _ => map[])];
        forall o: AccountId, s: AssetId ensures Lookup(table, o, s) == Lookup(before, o, s) {
        }
      }
    }

    method ObjectInserted(i: nat)
      requires i in objects && Mirrors(table, objects - {i}) && Lookup(table, objects[i].owner, objects[i].asset).None?
      modifies this`table
      ensures Mirrors(table, objects)
    {
      var h := objects[i];
      Grow(h.owner);
      ghost var before := table;
      var row := table[h.owner / CHUNK][h.owner % CHUNK][h.asset := i];
      table := WithRow(table, h.owner, row);
      forall o: AccountId, s: AssetId
        ensures Lookup(table, o, s) == if o == h.owner && s == h.asset then Some(i) else Lookup(before, o, s)
      {
        RowOfOthers(before, h.owner, row, o, s);
      }
    }

    /** Take an object out of the table; an account beyond the table has nothing in it. */
    method ObjectRemoved(i: nat, h: Holding)
      requires i !in objects && Mirrors(table, objects[i := h])
      modifies this`table
      ensures Mirrors(table, objects)
    {
      assert Lookup(table, objects[i := h][i].owner, objects[i := h][i].asset) == Some(i);
      if |table| < h.owner / CHUNK + 1 {
        return;
      }
      ghost var before := table;
      var row := table[h.owner / CHUNK][h.owner % CHUNK] - {h.asset};
      table := WithRow(table, h.owner, row);
      forall o: AccountId, s: AssetId
        ensures Lookup(table, o, s) == if o == h.owner && s == h.asset then None else Lookup(before, o, s)
      {
        RowOfOthers(before, h.owner, row, o, s);
      }
      TableLoses(before, table, objects, i, h);
    }

    /** Remove a balance object, as undoing its creation does. */
    method RemoveObject(i: nat)
      requires Valid() && i in objects
      modifies this`objects, this`table
      ensures Valid() && objects == old(objects) - {i}
      ensures forall o: AccountId, s: AssetId ::
                BalanceOf(o, s) == if o == old(objects)[i].owner && s == old(objects)[i].asset then 0 else old(BalanceOf(o, s))
    {
      var h := objects[i];
      ghost var before := objects;
      objects := objects - {i};
      assert objects[i := h] == before;
      ObjectRemoved(i, h);
    }

    method AboutToModify(i: nat)
      modifies this`modifying
      ensures modifying == old(modifying) + [i]
    {
      modifying := modifying + [i];
    }

    /** The object modified must be the one announced last. */
    method ObjectModified(i: nat) returns (thrown: bool)
      requires modifying != []
      modifies this`modifying
      ensures thrown <==> old(modifying)[|old(modifying)| - 1] != i
      ensures modifying == if thrown then old(modifying) else old(modifying)[..|old(modifying)| - 1]
    {
      if modifying[|modifying| - 1] != i {
        return true;
      }
      modifying := modifying[..|modifying| - 1];
      return false;
    }

    /** Modifications that are properly nested never trip the assertion, however deep and long; `done` are those carried out. */
    method Nested(m: Modification) returns (thrown: bool, done: seq<nat>)
      modifies this`modifying
      ensures !thrown && modifying == old(modifying) && done == InnerFirst(m)
      decreases m
    {
      AboutToModify(m.id);
      done := [];
      for k := 0 to |m.inner|
        invariant modifying == old(modifying) + [m.id] && done == AllInnerFirst(m.inner[..k])
      {
        var failed, more := Nested(m.inner[k]);
        assert m.inner[..k + 1][..k] == m.inner[..k];
        done := done + more;
      }
      assert m.inner[..|m.inner|] == m.inner;
      thrown := ObjectModified(m.id);
      done := done + [m.id];
    }

    /**
     Add to a balance.  It fails exactly when the balance would become negative; otherwise only this one
     balance changes, whether or not there was an object for it.
     */
    method AdjustBalance(owner: AccountId, asset: AssetId, delta: int) returns (thrown: bool)
      requires Valid()
      modifies this
      ensures Valid()
      ensures thrown <==> old(BalanceOf(owner, asset)) + delta < 0
      ensures thrown ==> unchanged(this)
      ensures modifying == old(modifying)
      ensures !thrown ==> forall o: AccountId, s: AssetId ::
                BalanceOf(o, s) == old(BalanceOf(o, s)) + (if o == owner && s == asset then delta else 0)
    {
      if delta == 0 {
        return false;
      }
      var found := Lookup(table, owner, asset);
      if found.None? {
        if delta < 0 {
          return true;
        }
        objects := objects[next := Holding(owner, asset, delta)];
        assert objects - {next} == old(objects);
        ObjectInserted(next);
        next := next + 1;
      } else {
        var h := objects[found.value];
        if delta < 0 && h.amount < -delta {
          return true;
        }
        AboutToModify(found.value);
        objects := objects[found.value := h.(amount := h.amount + delta)];
        var failed := ObjectModified(found.value);
      }
      return false;
    }
  }
}
