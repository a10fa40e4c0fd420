/**
 The undo database: nested sessions that record, per object, only its first value, its creation or its
 removal, and from which any earlier state of the objects is restored.
 */
module Undo {

  /** An object's id: the index (space and type) it lives in, and its number there. */
  datatype ObjectId = ObjectId(index: nat, instance: nat)

  /** All objects, and the number the next object of each index will get. */
  datatype Snapshot<V> = Snapshot(objects: map<ObjectId, V>, next: map<nat, nat>)

  /** What a session recorded. */
  datatype Record<V> = Record(oldValues: map<ObjectId, V>, newIds: set<ObjectId>, removed: map<ObjectId, V>, oldNext: map<nat, nat>)

  /** An object's relation to a session. */
  datatype Entry<V> = Untouched | New | Updated(was: V) | Deleted(was: V)

  function EntryOf<V>(r: Record<V>, i: ObjectId): Entry<V> {
    if i in r.newIds then New
    else if i in r.oldValues then Updated(r.oldValues[i])
    else if i in r.removed then Deleted(r.removed[i])
    else Untouched
  }

  /** No object is recorded in two ways. */
  ghost predicate Disjoint<V>(r: Record<V>) {
    r.newIds !! r.oldValues.Keys && r.newIds !! r.removed.Keys && r.oldValues.Keys !! r.removed.Keys
  }

  /** Ids are handed out in order: every object's number is below its index's next one. */
  ghost predicate Allocated<V>(s: Snapshot<V>) {
    forall i :: i in s.objects ==> i.index in s.next && i.instance < s.next[i.index]
  }

  /** `e` tells how object `i` of `now` came from `before`; ids of new objects were not used before. */
  ghost predicate Explains<V>(e: Entry<V>, before: Snapshot<V>, now: Snapshot<V>, i: ObjectId) {
    match e
    case New => i !in before.objects && i in now.objects && i.index in before.next && i.instance >= before.next[i.index]
    case Updated(was) => i in before.objects && i in now.objects && before.objects[i] == was
    case Deleted(was) => i in before.objects && i !in now.objects && before.objects[i] == was
    case Untouched => (i in before.objects <==> i in now.objects) && (i in now.objects ==> before.objects[i] == now.objects[i])
  }

  /** `r` records what became of the next id of index `x`. */
  ghost predicate IndexTracked<V>(r: Record<V>, before: Snapshot<V>, now: Snapshot<V>, x: nat) {
    && (x in before.next <==> x in now.next) && (x in r.oldNext ==> x in now.next)
    && (x in now.next ==> before.next[x] <= now.next[x] && before.next[x] == if x in r.oldNext then r.oldNext[x] else now.next[x])
  }

  /** `r` records exactly how `now` came from `before`. */
  ghost predicate Tracks<V>(r: Record<V>, before: Snapshot<V>, now: Snapshot<V>) {
    && Allocated(before) && Allocated(now) && Disjoint(r)
    && (forall i :: Explains(EntryOf(r, i), before, now, i)) && (forall x :: IndexTracked(r, before, now, x))
  }

  /** What undoing a record makes of a state. */
  function Restore<V>(r: Record<V>, s: Snapshot<V>): Snapshot<V> {
    Snapshot(s.objects + r.oldValues - r.newIds + r.removed, s.next + r.oldNext)
  }

  /** Undoing restores the objects and the next ids exactly. */
  lemma UndoRestores<V>(r: Record<V>, before: Snapshot<V>, now: Snapshot<V>)
    requires Tracks(r, before, now)
    ensures Restore(r, now) == before
  {
    var back := Restore(r, now);
    forall i ensures (i in back.objects <==> i in before.objects) && (i in before.objects ==> back.objects[i] == before.objects[i]) {
      assert Explains(EntryOf(r, i), before, now, i);
    }
    forall x ensures (x in back.next <==> x in before.next) && (x in before.next ==> back.next[x] == before.next[x]) {
      assert IndexTracked(r, before, now, x);
    }
    assert back.objects == before.objects && back.next == before.next;
  }

  function Blank<V>(): Record<V> {
    Record(map[], {}, map[], map[])
  }

  lemma BlankTracks<V>(s: Snapshot<V>)
    requires Allocated(s)
    ensures Tracks(Blank(), s, s)
  {
  }

  // Recording ---------------------------------------------------------------------------------

  function OnCreate<V>(r: Record<V>, i: ObjectId): Record<V> {
    r.(newIds := r.newIds + {i}, oldNext := if i.index in r.oldNext then r.oldNext else r.oldNext[i.index := i.instance])
  }

  function OnModify<V>(r: Record<V>, i: ObjectId, was: V): Record<V> {
    if i in r.newIds || i in r.oldValues then r else r.(oldValues := r.oldValues[i := was])
  }

  function OnRemove<V>(r: Record<V>, i: ObjectId, was: V): Record<V> {
    if i in r.newIds then r.(newIds := r.newIds - {i})
    else if i in r.oldValues then r.(removed := r.removed[i := r.oldValues[i]], oldValues := r.oldValues - {i})
    else if i in r.removed then r
    else r.(removed := r.removed[i := was])
  }

  function Created<V>(s: Snapshot<V>, index: nat, v: V): Snapshot<V>
    requires index in s.next
  {
    Snapshot(s.objects[ObjectId(index, s.next[index]) := v], s.next[index := s.next[index] + 1])
  }

  lemma CreateTracks<V>(r: Record<V>, before: Snapshot<V>, now: Snapshot<V>, index: nat, v: V)
    requires Tracks(r, before, now) && index in now.next
    ensures Tracks(OnCreate(r, ObjectId(index, now.next[index])), before, Created(now, index, v))
  {
    var id := ObjectId(index, now.next[index]);
    var later, r' := Created(now, index, v), OnCreate(r, id);
    assert IndexTracked(r, before, now, index) && Explains(EntryOf(r, id), before, now, id);
    forall i ensures Explains(EntryOf(r', i), before, later, i) {
      assert Explains(EntryOf(r, i), before, now, i);
    }
    forall x ensures IndexTracked(r', before, later, x) {
      assert IndexTracked(r, before, now, x);
    }
  }

  lemma ModifyTracks<V>(r: Record<V>, before: Snapshot<V>, now: Snapshot<V>, i: ObjectId, v: V)
    requires Tracks(r, before, now) && i in now.objects
    ensures Tracks(OnModify(r, i, now.objects[i]), before, now.(objects := now.objects[i := v]))
  {
    var later, r' := now.(objects := now.objects[i := v]), OnModify(r, i, now.objects[i]);
    assert Explains(EntryOf(r, i), before, now, i);
    forall j ensures Explains(EntryOf(r', j), before, later, j) {
      assert Explains(EntryOf(r, j), before, now, j);
    }
    forall x ensures IndexTracked(r', before, later, x) {
      assert IndexTracked(r, before, now, x);
    }
  }

  lemma RemoveTracks<V>(r: Record<V>, before: Snapshot<V>, now: Snapshot<V>, i: ObjectId)
    requires Tracks(r, before, now) && i in now.objects
    ensures Tracks(OnRemove(r, i, now.objects[i]), before, now.(objects := now.objects - {i}))
  {
    var later, r' := now.(objects := now.objects - {i}), OnRemove(r, i, now.objects[i]);
    assert Explains(EntryOf(r, i), before, now, i);
    forall j ensures Explains(EntryOf(r', j), before, later, j) {
      assert Explains(EntryOf(r, j), before, now, j);
    }
    forall x ensures IndexTracked(r', before, later, x) {
      assert IndexTracked(r, before, now, x);
    }
  }

  // Merging -----------------------------------------------------------------------------------

  /** The combinations of an outer and an inner entry that can occur. */
  predicate Composable<V>(a: Entry<V>, b: Entry<V>) {
    && (b.New? ==> a.Untouched?) && (a.Deleted? ==> b.Untouched?)
  }

  /** The entry of the two sessions taken as one. */
  function Compose<V>(a: Entry<V>, b: Entry<V>): Entry<V> {
    match (a, b)
    case (_, Untouched) => a
    case (Untouched, _) => b
    case (New, Deleted(_)) => Untouched
    case (Updated(was), Deleted(_)) => Deleted(was)
    case _ => a
  }

  /** `r` is the composition of `a` and `b` for all objects outside `todo`, and still `a` for those in it. */
  ghost predicate Merging<V>(a: Record<V>, b: Record<V>, r: Record<V>, todo: set<ObjectId>) {
    && Disjoint(r) && r.oldNext == a.oldNext
    && forall i :: EntryOf(r, i) == if i in todo then EntryOf(a, i) else Compose(EntryOf(a, i), EntryOf(b, i))
  }

  ghost predicate Merged<V>(a: Record<V>, b: Record<V>, r: Record<V>) {
    && Disjoint(r) && r.oldNext == b.oldNext + a.oldNext
    && forall i :: EntryOf(r, i) == Compose(EntryOf(a, i), EntryOf(b, i))
  }

  /** Consecutive sessions never meet in an impossible combination, because ids are not reused. */
  lemma SessionsCompose<V>(a: Record<V>, b: Record<V>, s0: Snapshot<V>, s1: Snapshot<V>, s2: Snapshot<V>, i: ObjectId)
    requires Tracks(a, s0, s1) && Tracks(b, s1, s2)
    ensures Composable(EntryOf(a, i), EntryOf(b, i))
  {
    assert Explains(EntryOf(a, i), s0, s1, i) && Explains(EntryOf(b, i), s1, s2, i) && IndexTracked(a, s0, s1, i.index);
  }

  lemma ReadyToMerge<V>(a: Record<V>, b: Record<V>, s0: Snapshot<V>, s1: Snapshot<V>, s2: Snapshot<V>)
    requires Tracks(a, s0, s1) && Tracks(b, s1, s2)
    ensures Disjoint(a) && Disjoint(b) && forall i :: Composable(EntryOf(a, i), EntryOf(b, i))
  {
    forall i ensures Composable(EntryOf(a, i), EntryOf(b, i)) {
      SessionsCompose(a, b, s0, s1, s2, i);
    }
  }

  /** A merged record tracks the two sessions as one: undoing it goes back to the start of the outer one. */
  lemma MergeTracks<V>(a: Record<V>, b: Record<V>, r: Record<V>, s0: Snapshot<V>, s1: Snapshot<V>, s2: Snapshot<V>)
    requires Tracks(a, s0, s1) && Tracks(b, s1, s2) && Merged(a, b, r)
    ensures Tracks(r, s0, s2)
  {
    forall i ensures Explains(EntryOf(r, i), s0, s2, i) {
      SessionsCompose(a, b, s0, s1, s2, i);
      assert Explains(EntryOf(a, i), s0, s1, i) && Explains(EntryOf(b, i), s1, s2, i) && IndexTracked(a, s0, s1, i.index);
    }
    forall x ensures IndexTracked(r, s0, s2, x) {
      assert IndexTracked(a, s0, s1, x) && IndexTracked(b, s1, s2, x);
    }
  }

  /** An update of the inner session matters only for an object the outer one had not touched. */
  lemma UpdateMerges<V>(a: Record<V>, b: Record<V>, r: Record<V>, todo: set<ObjectId>, i: ObjectId)
    requires Disjoint(b) && Merging(a, b, r, todo) && i in todo && i in b.oldValues && Composable(EntryOf(a, i), EntryOf(b, i))
    ensures i !in r.removed
    ensures var r' := if i in r.newIds || i in r.oldValues then r else r.(oldValues := r.oldValues[i := b.oldValues[i]]);
            Merging(a, b, r', todo - {i})
  {
    var r' := if i in r.newIds || i in r.oldValues then r else r.(oldValues := r.oldValues[i := b.oldValues[i]]);
    assert EntryOf(r, i) == EntryOf(a, i);
    forall j ensures EntryOf(r', j) == if j in todo - {i} then EntryOf(a, j) else Compose(EntryOf(a, j), EntryOf(b, j)) {
      assert j != i ==> EntryOf(r', j) == EntryOf(r, j);
    }
  }

  lemma CreationsMerge<V>(a: Record<V>, b: Record<V>, r: Record<V>, todo: set<ObjectId>)
    requires Disjoint(b) && Merging(a, b, r, todo) && b.newIds <= todo
    requires forall i :: i in b.newIds ==> Composable(EntryOf(a, i), EntryOf(b, i))
    ensures Merging(a, b, r.(newIds := r.newIds + b.newIds), todo - b.newIds)
  {
    var r' := r.(newIds := r.newIds + b.newIds);
    forall j ensures EntryOf(r', j) == if j in todo - b.newIds then EntryOf(a, j) else Compose(EntryOf(a, j), EntryOf(b, j)) {
      assert EntryOf(r, j) == if j in todo then EntryOf(a, j) else Compose(EntryOf(a, j), EntryOf(b, j));
    }
    forall j | j in b.newIds ensures j !in r.oldValues && j !in r.removed {
      assert EntryOf(r, j) == EntryOf(a, j);
    }
  }

  /** Removing an object the outer session created leaves nothing; otherwise its oldest known value is kept. */
  lemma RemovalMerges<V>(a: Record<V>, b: Record<V>, r: Record<V>, todo: set<ObjectId>, i: ObjectId)
    requires Disjoint(b) && Merging(a, b, r, todo) && i in todo && i in b.removed && Composable(EntryOf(a, i), EntryOf(b, i))
    ensures i !in r.removed
    ensures var r' := if i in r.newIds then r.(newIds := r.newIds - {i})
                      else if i in r.oldValues then r.(removed := r.removed[i := r.oldValues[i]], oldValues := r.oldValues - {i})
                      else r.(removed := r.removed[i := b.removed[i]]);
            Merging(a, b, r', todo - {i})
  {
    var r' := if i in r.newIds then r.(newIds := r.newIds - {i})
              else if i in r.oldValues then r.(removed := r.removed[i := r.oldValues[i]], oldValues := r.oldValues - {i})
              else r.(removed := r.removed[i := b.removed[i]]);
    assert EntryOf(r, i) == EntryOf(a, i);
    forall j ensures EntryOf(r', j) == if j in todo - {i} then EntryOf(a, j) else Compose(EntryOf(a, j), EntryOf(b, j)) {
      assert j != i ==> EntryOf(r', j) == EntryOf(r, j);
    }
  }

  /** Compose two records, going through the inner one's updates, creations and removals in turn. */
  method MergeRecords<V>(outer: Record<V>, inner: Record<V>) returns (r: Record<V>)
    requires Disjoint(outer) && Disjoint(inner) && forall i :: Composable(EntryOf(outer, i), EntryOf(inner, i))
    ensures Merged(outer, inner, r)
  {
    r := outer;
    ghost var rest := inner.newIds + inner.removed.Keys;
    assert Merging(outer, inner, r, inner.oldValues.Keys + rest);
    hide Merging, EntryOf, Composable;
    var todo := inner.oldValues.Keys;
    while todo != {}
      invariant todo <= inner.oldValues.Keys && Merging(outer, inner, r, todo + rest)
      decreases todo
    {
      var i :| i in todo;
      UpdateMerges(outer, inner, r, todo + rest, i);
      assert todo + rest - {i} == (todo - {i}) + rest;
      if i !in r.newIds && i !in r.oldValues {
        r := r.(oldValues := r.oldValues[i := inner.oldValues[i]]);
      }
      todo := todo - {i};
    }
    assert todo + rest == rest && rest - inner.newIds == inner.removed.Keys;
    CreationsMerge(outer, inner, r, rest);
    r := r.(newIds := r.newIds + inner.newIds);
    r := MergeRemovals(outer, inner, r);
  }

  method MergeRemovals<V>(outer: Record<V>, inner: Record<V>, r0: Record<V>) returns (r: Record<V>)
    requires Disjoint(inner) && forall i :: Composable(EntryOf(outer, i), EntryOf(inner, i))
    requires Merging(outer, inner, r0, inner.removed.Keys)
    ensures Merged(outer, inner, r)
  {
    r := r0;
    var todo := inner.removed.Keys;
    while todo != {}
      invariant todo <= inner.removed.Keys && Merging(outer, inner, r, todo)
      decreases todo
    {
      var i :| i in todo;
      RemovalMerges(outer, inner, r, todo, i);
      if i in r.newIds {
        r := r.(newIds := r.newIds - {i});
      } else if i in r.oldValues {
        r := r.(removed := r.removed[i := r.oldValues[i]], oldValues := r.oldValues - {i});
      } else {
        r := r.(removed := r.removed[i := inner.removed[i]]);
      }
      todo := todo - {i};
    }
    forall i ensures EntryOf(r, i) == Compose(EntryOf(outer, i), EntryOf(inner, i)) {
    }
    r := r.(oldNext := inner.oldNext + outer.oldNext);
  }

  /** Each record leads from the end of its session, which is the start of the next one, back to its start. */
  ghost predicate Stacked<V>(stack: seq<Record<V>>, starts: seq<Snapshot<V>>, now: Snapshot<V>) {
    && |starts| == |stack|
    && forall k :: 0 <= k < |stack| ==> Tracks(stack[k], starts[k], EndOf(starts, now, k))
  }

  ghost function EndOf<V>(starts: seq<Snapshot<V>>, now: Snapshot<V>, k: nat): Snapshot<V> {
    if k + 1 < |starts| then starts[k + 1] else now
  }

  /** Only the top record sees a change of the state. */
  lemma TopChanges<V>(stack: seq<Record<V>>, starts: seq<Snapshot<V>>, now: Snapshot<V>, r: Record<V>, later: Snapshot<V>)
    requires Stacked(stack, starts, now) && stack != [] && Tracks(r, starts[|starts| - 1], later)
    ensures Stacked(stack[|stack| - 1 := r], starts, later) && Allocated(later)
  {
    assert Allocated(later);
    hide Tracks;
    forall k | 0 <= k < |stack| ensures Tracks(stack[|stack| - 1 := r][k], starts[k], EndOf(starts, later, k)) {
      assert Tracks(stack[k], starts[k], EndOf(starts, now, k));
    }
  }

  lemma SessionStarts<V>(stack: seq<Record<V>>, starts: seq<Snapshot<V>>, now: Snapshot<V>)
    requires Stacked(stack, starts, now) && Allocated(now)
    ensures Stacked(stack + [Blank()], starts + [now], now)
  {
    BlankTracks(now);
    hide Tracks;
    forall k | 0 <= k < |stack| + 1 ensures Tracks((stack + [Blank()])[k], (starts + [now])[k], EndOf(starts + [now], now, k)) {
      if k < |stack| { assert Tracks(stack[k], starts[k], EndOf(starts, now, k)); }
    }
  }

  lemma TopTracks<V>(stack: seq<Record<V>>, starts: seq<Snapshot<V>>, now: Snapshot<V>)
    requires Stacked(stack, starts, now) && stack != []
    ensures |starts| == |stack| && Tracks(stack[|stack| - 1], starts[|starts| - 1], now)
    ensures Stacked(stack[..|stack| - 1], starts[..|starts| - 1], starts[|starts| - 1])
  {
    hide Tracks;
    var n := |stack| - 1;
    assert Tracks(stack[n], starts[n], EndOf(starts, now, n));
    forall k | 0 <= k < n ensures Tracks(stack[..n][k], starts[..n][k], EndOf(starts[..n], starts[n], k)) {
      assert Tracks(stack[k], starts[k], EndOf(starts, now, k));
    }
  }

  class UndoDatabase<V> {
    var objects: map<ObjectId, V>
    var next: map<nat, nat>
    var stack: seq<Record<V>>
    var active: nat
    /** The states at which the recorded sessions began. */
    ghost var starts: seq<Snapshot<V>>

    ghost function Now(): Snapshot<V>
      reads this
    {
      Snapshot(objects, next)
    }

    ghost predicate Valid()
      reads this
    {
      Allocated(Now()) && Stacked(stack, starts, Now()) && active <= |stack|
    }

    constructor (next: map<nat, nat>)
      ensures Valid() && objects == map[] && this.next == next && stack == [] && active == 0
    {
      objects, this.next, stack, active, starts := map[], next, [], 0, [];
    }

    method StartSession()
      requires Valid()
      modifies this
      ensures Valid() && Now() == old(Now()) && active == old(active) + 1
      ensures starts == old(starts) + [old(Now())]
    {
      SessionStarts(stack, starts, Now());
      stack, active := stack + [Blank()], active + 1;
      starts := starts + [Now()];
    }

    /** Without a session there is still a record to write to. */
    method EnsureRecord()
      requires Valid()
      modifies this`stack, this`starts
      ensures Valid() && stack != []
      ensures starts == if old(stack) == [] then [Now()] else old(starts)
    {
      if stack == [] {
        SessionStarts(stack, starts, Now());
        stack := [Blank()];
        starts := [Now()];
      }
    }

    method Create(index: nat, v: V) returns (i: ObjectId)
      requires Valid() && index in next
      modifies this
      ensures Valid() && i == ObjectId(index, old(next)[index]) && Now() == Created(old(Now()), index, v) && active == old(active)
      ensures starts == if old(stack) == [] then [old(Now())] else old(starts)
    {
      hide Tracks, Stacked, Allocated, OnCreate, OnModify, OnRemove;
      EnsureRecord();
      var n := |stack| - 1;
      i := ObjectId(index, next[index]);
      TopTracks(stack, starts, Now());
      CreateTracks(stack[n], starts[n], Now(), index, v);
      TopChanges(stack, starts, Now(), OnCreate(stack[n], i), Created(Now(), index, v));
      objects, next := objects[i := v], next[index := next[index] + 1];
      stack := stack[n := OnCreate(stack[n], i)];
    }

    method Modify(i: ObjectId, v: V)
      requires Valid() && i in objects
      modifies this
      ensures Valid() && Now() == old(Now()).(objects := old(objects)[i := v]) && active == old(active)
      ensures starts == if old(stack) == [] then [old(Now())] else old(starts)
    {
      hide Tracks, Stacked, Allocated, OnCreate, OnModify, OnRemove;
      EnsureRecord();
      var n := |stack| - 1;
      TopTracks(stack, starts, Now());
      ModifyTracks(stack[n], starts[n], Now(), i, v);
      TopChanges(stack, starts, Now(), OnModify(stack[n], i, objects[i]), Now().(objects := objects[i := v]));
      stack := stack[n := OnModify(stack[n], i, objects[i])];
      objects := objects[i := v];
    }

    method Remove(i: ObjectId)
      requires Valid() && i in objects
      modifies this
      ensures Valid() && Now() == old(Now()).(objects := old(objects) - {i}) && active == old(active)
      ensures starts == if old(stack) == [] then [old(Now())] else old(starts)
    {
      hide Tracks, Stacked, Allocated, OnCreate, OnModify, OnRemove;
      EnsureRecord();
      var n := |stack| - 1;
      TopTracks(stack, starts, Now());
      RemoveTracks(stack[n], starts[n], Now(), i);
      TopChanges(stack, starts, Now(), OnRemove(stack[n], i, objects[i]), Now().(objects := objects - {i}));
      stack := stack[n := OnRemove(stack[n], i, objects[i])];
      objects := objects - {i};
    }

    /** Put the recorded old values back, remove what was created, reset the next ids and insert what was removed. */
    method Revert(r: Record<V>)
      modifies this`objects, this`next
      ensures Now() == Restore(r, old(Now()))
    {
      var todo := r.oldValues.Keys;
      while todo != {}
        invariant todo <= r.oldValues.Keys && next == old(next)
        invariant objects == old(objects) + (map i | i in r.oldValues && i !in todo :: r.oldValues[i])
        decreases todo
      {
        var i :| i in todo;
        objects, todo := objects[i := r.oldValues[i]], todo - {i};
      }
      assert (map i | i in r.oldValues && i !in todo :: r.oldValues[i]) == r.oldValues;
      ghost var modified := objects;
      assert modified == old(objects) + r.oldValues;
      todo := r.newIds;
      while todo != {}
        invariant todo <= r.newIds && next == old(next) && objects == modified - (r.newIds - todo)
        decreases todo
      {
        var i :| i in todo;
        objects, todo := objects - {i}, todo - {i};
      }
      assert r.newIds - todo == r.newIds && objects == modified - r.newIds;
      next := next + r.oldNext;
      objects := objects + r.removed;
    }

    /** Drop the innermost session: everything is as it was when it began. */
    method Undo() returns (thrown: bool)
      requires Valid()
      modifies this
      ensures thrown <==> old(active) == 0
      ensures thrown ==> unchanged(this)
      ensures !thrown ==> Valid() && active == old(active) - 1 && Now() == old(starts)[|old(starts)| - 1] && starts == old(starts)[..|old(starts)| - 1]
    {
      if active == 0 {
        return true;
      }
      RevertTop();
      active := active - 1;
      return false;
    }

    method RevertTop()
      requires Valid() && stack != []
      modifies this`objects, this`next, this`stack, this`starts
      ensures Allocated(Now()) && Stacked(stack, starts, Now())
      ensures Now() == old(starts)[|old(starts)| - 1] && starts == old(starts)[..|old(starts)| - 1] && |stack| == |old(stack)| - 1
    {
      var n := |stack| - 1;
      TopTracks(stack, starts, Now());
      UndoRestores(stack[n], starts[n], Now());
      assert Allocated(starts[n]);
      hide Tracks, Stacked, Restore, Allocated;
      Revert(stack[n]);
      stack, starts := stack[..n], starts[..n];
    }

    /** Undo a committed session. */
    method PopCommit() returns (thrown: bool)
      requires Valid()
      modifies this
      ensures thrown <==> old(active) != 0 || old(stack) == []
      ensures thrown ==> unchanged(this)
      ensures !thrown ==> Valid() && active == 0 && Now() == old(starts)[|old(starts)| - 1] && starts == old(starts)[..|old(starts)| - 1]
    {
      if active != 0 || stack == [] {
        return true;
      }
      RevertTop();
      return false;
    }

    /** Keep what the innermost session recorded as it is; it can still be undone by `PopCommit`. */
    method Commit() returns (thrown: bool)
      requires Valid()
      modifies this`active
      ensures thrown <==> old(active) == 0
      ensures active == if thrown then 0 else old(active) - 1
      ensures Valid()
    {
      if active == 0 {
        return true;
      }
      active := active - 1;
      return false;
    }

    /**
     Fold the innermost session into the one around it: the state stays, and undoing then goes back to
     where the outer session began.
     */
    method Merge() returns (thrown: bool)
      requires Valid()
      modifies this
      ensures thrown <==> old(active) == 0
      ensures thrown ==> unchanged(this)
      ensures !thrown ==> Valid() && active == old(active) - 1 && Now() == old(Now()) && starts == old(starts)[..|old(starts)| - 1]
    {
      if active == 0 {
        return true;
      }
      var n := |stack| - 1;
      TopTracks(stack, starts, Now());
      if active == 1 && |stack| == 1 {
        stack, starts, active := [], [], 0;
        return false;
      }
      TopTracks(stack[..n], starts[..n], starts[n]);
      ReadyToMerge(stack[n - 1], stack[n], starts[n - 1], starts[n], Now());
      hide Tracks, Stacked, Merged, Allocated, EntryOf, Composable;
      var r := MergeRecords(stack[n - 1], stack[n]);
      MergeTracks(stack[n - 1], stack[n], r, starts[n - 1], starts[n], Now());
      TopChanges(stack[..n], starts[..n], starts[n], r, Now());
      stack, starts := stack[..n][n - 1 := r], starts[..n];
      active := active - 1;
      return false;
    }
  }
}
