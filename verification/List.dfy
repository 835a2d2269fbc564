/** rtList.c: a doubly linked list that keeps removed items on a free list. Pointers to
    user data are numbers, 0 for NULL; items are objects linked through their fields. */
module List {
  import opened Sequences

  type Pointer = nat

  const NULL: Pointer := 0
  /** rtListReuseData: push with the data the recycled item still has. */
  const REUSE_DATA: Pointer := 1

  class Item {
    var data: Pointer
    var next: Item?
    var prev: Item?

    constructor ()
      ensures data == NULL
    {
      data := NULL;
    }
  }

  function At(s: seq<Item>, i: int): Item? { if 0 <= i < |s| then s[i] else null }

  ghost predicate Apart(a: seq<Item>, b: seq<Item>) { forall x :: x in a ==> x !in b }

  ghost predicate LinkedAt(s: seq<Item>, i: int)
    requires 0 <= i < |s|
    reads {s[i]}`next, {s[i]}`prev
  {
    s[i].next == At(s, i + 1) && s[i].prev == At(s, i - 1)
  }

  /** `s` is the chain that next and prev spell out. */
  ghost predicate Linked(s: seq<Item>)
    reads s`next, s`prev
  {
    forall i {:trigger LinkedAt(s, i)} :: 0 <= i < |s| ==> LinkedAt(s, i)
  }

  ghost predicate LinkedFrom(s: seq<Item>, k: nat)
    reads s`next, s`prev
  {
    forall i {:trigger LinkedAt(s, i)} :: k <= i < |s| ==> LinkedAt(s, i)
  }

  ghost predicate ChainedAt(s: seq<Item>, i: int)
    requires 0 <= i < |s|
    reads {s[i]}`next
  {
    s[i].next == At(s, i + 1)
  }

  /** On the free list only next is kept up. */
  ghost predicate Chained(s: seq<Item>)
    reads s`next
  {
    forall i {:trigger ChainedAt(s, i)} :: 0 <= i < |s| ==> ChainedAt(s, i)
  }

  ghost function DataOf(s: seq<Item>): (r: seq<Pointer>)
    reads s`data
    ensures |r| == |s| && forall i :: 0 <= i < |s| ==> r[i] == s[i].data
  {
    if s == [] then [] else [s[0].data] + DataOf(s[1..])
  }

  /** What pushing `data` leaves in an item that had `was`. */
  function Pushed(data: Pointer, was: Pointer): Pointer { if data == REUSE_DATA then was else data }

  function InsertAt<T>(s: seq<T>, k: nat, x: T): (r: seq<T>)
    requires k <= |s|
    ensures |r| == |s| + 1
  {
    s[..k] + [x] + s[k..]
  }

  lemma InsertNew<T>(s: seq<T>, k: nat, x: T)
    requires NoDup(s) && x !in s && k <= |s|
    ensures NoDup(InsertAt(s, k, x))
    ensures forall y :: y in InsertAt(s, k, x) ==> y == x || y in s
  {
    var r := InsertAt(s, k, x);
    forall i, j | 0 <= i < j < |r| ensures r[i] != r[j] {
      assert i < k ==> r[i] == s[i];
      assert k < j ==> r[j] == s[j - 1];
      assert j < k ==> r[j] == s[j];
      assert k < i ==> r[i] == s[i - 1];
    }
  }

  lemma InsertEnds(s: seq<Item>, k: nat, item: Item)
    requires k <= |s|
    ensures At(InsertAt(s, k, item), 0) == if k == 0 then item else At(s, 0)
    ensures At(InsertAt(s, k, item), |s|) == if k == |s| then item else At(s, |s| - 1)
  {
    var r := InsertAt(s, k, item);
    assert k < |s| ==> r[|s| - 1 + 1] == s[|s| - 1];
  }

  /** The links of `s` with room made for `item` at position `k`. */
  ghost predicate GapAt(s: seq<Item>, k: nat, item: Item, i: int)
    requires 0 <= i < |s|
    reads {s[i]}`next, {s[i]}`prev
  {
    && s[i].next == (if i + 1 == k then item else At(s, i + 1))
    && s[i].prev == (if i == k then item else At(s, i - 1))
  }

  lemma GapFilled(s: seq<Item>, k: nat, item: Item)
    requires k <= |s| && item.next == At(s, k) && item.prev == At(s, k - 1)
    requires forall i {:trigger GapAt(s, k, item, i)} :: 0 <= i < |s| ==> GapAt(s, k, item, i)
    ensures Linked(InsertAt(s, k, item))
  {
    var r := InsertAt(s, k, item);
    forall i | 0 <= i < |r| ensures LinkedAt(r, i) {
      if i < k {
        assert GapAt(s, k, item, i) && r[i] == s[i];
      } else if k < i {
        assert GapAt(s, k, item, i - 1) && r[i] == s[i - 1];
      }
    }
  }

  lemma DataInserted(s: seq<Item>, k: nat, item: Item, datas: seq<Pointer>)
    requires k <= |s| == |datas| && forall i :: 0 <= i < |s| ==> s[i].data == datas[i]
    ensures DataOf(InsertAt(s, k, item)) == InsertAt(datas, k, item.data)
  {
    var r, d := InsertAt(s, k, item), InsertAt(datas, k, item.data);
    forall i | 0 <= i < |r| ensures r[i].data == d[i] {
      assert i > k ==> r[i] == s[i - 1] && d[i] == datas[i - 1];
    }
  }

  lemma WithoutApart(s: seq<Item>, k: nat)
    requires NoDup(s) && k < |s|
    ensures s[k] !in Without(s, k) && forall x :: x in Without(s, k) ==> x in s
  {
    var r := Without(s, k);
    forall i | 0 <= i < |r| ensures r[i] != s[k] && r[i] in s {
      assert i < k ==> r[i] == s[i];
      assert i >= k ==> r[i] == s[i + 1];
    }
  }

  lemma DataRemoved(s: seq<Item>, k: nat, datas: seq<Pointer>)
    requires k < |s| == |datas| && forall i :: 0 <= i < |s| && i != k ==> s[i].data == datas[i]
    ensures DataOf(Without(s, k)) == Without(datas, k)
  {
    var r, d := Without(s, k), Without(datas, k);
    forall i | 0 <= i < |r| ensures r[i].data == d[i] {}
  }

  class RtList {
    var front: Item?
    var back: Item?
    var free: Item?
    var size: nat
    /** What the cleanup function has been called on. */
    var destroyed: seq<Pointer>

    /** The items in list order and those on the free list, head first. */
    ghost var live: seq<Item>
    ghost var spare: seq<Item>

    ghost predicate LiveOk()
      reads `front, `back, `size, `live, live`next, live`prev
    {
      && NoDup(live) && Linked(live)
      && front == At(live, 0) && back == At(live, |live| - 1) && size == |live|
    }

    ghost predicate SpareOk()
      reads `free, `spare, spare`next
    {
      NoDup(spare) && Chained(spare) && free == At(spare, 0)
    }

    ghost predicate Valid()
      reads this, live, spare
    {
      LiveOk() && SpareOk() && Apart(live, spare)
    }

    ghost function Contents(): seq<Pointer>
      reads `live, live`data
    {
      DataOf(live)
    }

    constructor ()
      ensures Valid() && live == [] && spare == [] && destroyed == []
    {
      front, back, free, size, destroyed := null, null, null, 0, [];
      live, spare := [], [];
    }

    /** A recycled item with its old data, or a new one with none. */
    method GetFreeItem() returns (item: Item)
      requires Valid()
      modifies this`free, this`spare
      ensures Valid() && item !in live && item !in spare
      ensures old(spare) == [] ==> fresh(item) && item.data == NULL && spare == []
      ensures old(spare) != [] ==> old(spare) == [item] + spare
    {
      if free != null {
        item := free;
        assert ChainedAt(spare, 0);
        free := free.next;
        spare := spare[1..];
        forall i | 0 <= i < |spare| ensures ChainedAt(spare, i) { assert old(ChainedAt(spare, i + 1)); }
      } else {
        item := new Item();
      }
    }

    /** The free list before and after an item was taken for a push. */
    ghost predicate Took(item: Item, before: seq<Item>)
      reads `spare
    {
      if before == [] then spare == [] else before == [item] + spare
    }

    // ------------------------------------------------------------------- linking in

    method LinkFront(item: Item)
      requires LiveOk() && item !in live
      modifies `front, `back, `size, `live, item`next, item`prev, live`prev
      ensures LiveOk() && live == [item] + old(live)
    {
      ghost var was := live;
      item.prev := null;
      item.next := front;
      if front != null { front.prev := item; }
      front := item;
      if back == null { back := item; }
      size := size + 1;
      live := [item] + live;
      forall i | 0 <= i < |live| ensures LinkedAt(live, i) {
        if i > 0 { assert old(LinkedAt(was, i - 1)); }
      }
    }

    method LinkBack(item: Item)
      requires LiveOk() && item !in live
      modifies `front, `back, `size, `live, item`next, item`prev, live`next
      ensures LiveOk() && live == old(live) + [item]
    {
      ghost var was := live;
      item.next := null;
      item.prev := back;
      if back != null { back.next := item; }
      back := item;
      if front == null { front := item; }
      size := size + 1;
      live := live + [item];
      forall i | 0 <= i < |live| ensures LinkedAt(live, i) {
        if i < |was| { assert old(LinkedAt(was, i)); }
      }
    }

    method LinkBefore(item: Item, at: Item, ghost k: nat)
      requires LiveOk() && item !in live && k < |live| && live[k] == at
      modifies `front, `size, `live, item`next, item`prev, live`next, live`prev
      ensures LiveOk() && live == InsertAt(old(live), k, item)
    {
      ghost var was := live;
      assert LinkedAt(was, k);
      item.next := at;
      item.prev := at.prev;
      at.prev := item;
      if at == front { front := item; } else { item.prev.next := item; }
      size := size + 1;
      forall i | 0 <= i < |was| ensures GapAt(was, k, item, i) { assert old(LinkedAt(was, i)); }
      GapFilled(was, k, item);
      InsertNew(was, k, item);
      InsertEnds(was, k, item);
      live := InsertAt(was, k, item);
    }

    method LinkAfter(item: Item, at: Item, ghost k: nat)
      requires LiveOk() && item !in live && k < |live| && live[k] == at
      modifies `back, `size, `live, item`next, item`prev, live`next, live`prev
      ensures LiveOk() && live == InsertAt(old(live), k + 1, item)
    {
      ghost var was := live;
      assert LinkedAt(was, k);
      item.next := at.next;
      item.prev := at;
      at.next := item;
      if at == back { back := item; } else { item.next.prev := item; }
      size := size + 1;
      ghost var j := k + 1;
      forall i | 0 <= i < |was| ensures GapAt(was, j, item, i) { assert old(LinkedAt(was, i)); }
      GapFilled(was, j, item);
      InsertNew(was, j, item);
      InsertEnds(was, j, item);
      live := InsertAt(was, j, item);
    }

    method Unlink(item: Item, ghost k: nat)
      requires LiveOk() && k < |live| && live[k] == item
      modifies `front, `back, `size, `live, live`next, live`prev
      ensures LiveOk() && live == Without(old(live), k)
    {
      ghost var was := live;
      assert LinkedAt(was, k);
      if item.prev != null { item.prev.next := item.next; }
      if item.next != null { item.next.prev := item.prev; }
      if front == item { front := item.next; }
      if back == item { back := item.prev; }
      size := size - 1;
      live := Without(live, k);
      forall i | 0 <= i < |live| ensures LinkedAt(live, i) {
        if i < k { assert old(LinkedAt(was, i)); } else { assert old(LinkedAt(was, i + 1)); }
      }
    }

    method SetFreeItem(item: Item)
      requires SpareOk() && item !in spare
      modifies `free, `spare, item`next, item`prev, spare`prev
      ensures SpareOk() && spare == [item] + old(spare)
    {
      ghost var was := spare;
      if free != null {
        free.prev := item;
        item.next := free;
        item.prev := null;
        free := item;
      } else {
        free := item;
        free.prev, free.next := null, null;
      }
      spare := [item] + spare;
      forall i | 0 <= i < |spare| ensures ChainedAt(spare, i) {
        if i > 0 { assert old(ChainedAt(was, i - 1)); }
      }
    }

    // --------------------------------------------------------------------- pushing

    method SetData(item: Item, data: Pointer)
      requires item !in live
      modifies item`data
      ensures item.data == data && Contents() == old(Contents())
    {
      item.data := data;
    }

    /** GetFreeItem and the data handed to it. */
    method TakeItem(data: Pointer) returns (item: Item)
      requires Valid()
      modifies `free, `spare, spare`data
      ensures Valid() && item !in live && item !in spare && Took(item, old(spare)) && (old(spare) == [] ==> fresh(item))
      ensures item.data == Pushed(data, if old(spare) == [] then NULL else old(item.data))
      ensures Contents() == old(Contents())
    {
      item := GetFreeItem();
      ghost var contents := Contents();
      assert contents == old(Contents());
      if data != REUSE_DATA { SetData(item, data); }
    }

    method AttachFront(item: Item)
      requires Valid() && item !in live && item !in spare
      modifies `front, `back, `size, `live, item`next, item`prev, live`next, live`prev
      ensures Valid() && live == [item] + old(live)
      ensures Contents() == [item.data] + old(Contents())
    {
      LinkFront(item);
      forall i | 0 <= i < |spare| ensures ChainedAt(spare, i) {
        assert spare[i] in spare && spare[i] !in old(live);
        assert old(ChainedAt(spare, i));
      }
    }

    method AttachBack(item: Item)
      requires Valid() && item !in live && item !in spare
      modifies `front, `back, `size, `live, item`next, item`prev, live`next, live`prev
      ensures Valid() && live == old(live) + [item]
      ensures Contents() == old(Contents()) + [item.data]
    {
      LinkBack(item);
      forall i | 0 <= i < |spare| ensures ChainedAt(spare, i) {
        assert spare[i] in spare && spare[i] !in old(live);
        assert old(ChainedAt(spare, i));
      }
    }

    method AttachBefore(item: Item, at: Item, ghost k: nat)
      requires Valid() && item !in live && item !in spare && k < |live| && live[k] == at
      modifies `front, `size, `live, item`next, item`prev, live`next, live`prev
      ensures Valid() && live == InsertAt(old(live), k, item)
      ensures Contents() == InsertAt(old(Contents()), k, item.data)
    {
      ghost var was, datas := live, Contents();
      LinkBefore(item, at, k);
      assert SpareOk() by {
        forall i | 0 <= i < |spare| ensures ChainedAt(spare, i) {
          assert spare[i] in spare && spare[i] !in old(live);
          assert old(ChainedAt(spare, i));
        }
      }
      assert Apart(live, spare) by { InsertNew(was, k, item); }
      DataInserted(was, k, item, datas);
    }

    method AttachAfter(item: Item, at: Item, ghost k: nat)
      requires Valid() && item !in live && item !in spare && k < |live| && live[k] == at
      modifies `back, `size, `live, item`next, item`prev, live`next, live`prev
      ensures Valid() && live == InsertAt(old(live), k + 1, item)
      ensures Contents() == InsertAt(old(Contents()), k + 1, item.data)
    {
      ghost var was, datas, j := live, Contents(), k + 1;
      LinkAfter(item, at, k);
      assert SpareOk() by {
        forall i | 0 <= i < |spare| ensures ChainedAt(spare, i) {
          assert spare[i] in spare && spare[i] !in old(live);
          assert old(ChainedAt(spare, i));
        }
      }
      assert Apart(live, spare) by { InsertNew(was, j, item); }
      DataInserted(was, j, item, datas);
    }

    method PushFront(data: Pointer) returns (item: Item)
      requires Valid()
      modifies `front, `back, `size, `live, `free, `spare, live, spare
      ensures Valid() && live == [item] + old(live)
      ensures Took(item, old(spare)) && (old(spare) == [] ==> fresh(item))
      ensures item.data == Pushed(data, if old(spare) == [] then NULL else old(item.data))
      ensures Contents() == [item.data] + old(Contents())
      ensures Pool(live, spare) == old(Pool(live, spare)) + if old(spare) == [] then {item} else {}
    {
      item := TakeItem(data);
      AttachFront(item);
      assert live == InsertAt(old(live), 0, item);
      TookPool(old(live), old(spare), 0, item, spare);
    }

    method PushBack(data: Pointer) returns (item: Item)
      requires Valid()
      modifies `front, `back, `size, `live, `free, `spare, live, spare
      ensures Valid() && live == old(live) + [item]
      ensures Took(item, old(spare)) && (old(spare) == [] ==> fresh(item))
      ensures item.data == Pushed(data, if old(spare) == [] then NULL else old(item.data))
      ensures Contents() == old(Contents()) + [item.data]
      ensures Pool(live, spare) == old(Pool(live, spare)) + if old(spare) == [] then {item} else {}
    {
      item := TakeItem(data);
      AttachBack(item);
      assert live == InsertAt(old(live), |old(live)|, item);
      TookPool(old(live), old(spare), |old(live)|, item, spare);
    }

    method InsertBefore(data: Pointer, at: Item, ghost k: nat) returns (item: Item)
      requires Valid() && k < |live| && live[k] == at
      modifies `front, `size, `live, `free, `spare, live, spare
      ensures Valid() && live == InsertAt(old(live), k, item)
      ensures Took(item, old(spare)) && (old(spare) == [] ==> fresh(item))
      ensures item.data == Pushed(data, if old(spare) == [] then NULL else old(item.data))
      ensures Contents() == InsertAt(old(Contents()), k, item.data)
      ensures Pool(live, spare) == old(Pool(live, spare)) + if old(spare) == [] then {item} else {}
    {
      item := TakeItem(data);
      AttachBefore(item, at, k);
      TookPool(old(live), old(spare), k, item, spare);
    }

    method InsertAfter(data: Pointer, at: Item, ghost k: nat) returns (item: Item)
      requires Valid() && k < |live| && live[k] == at
      modifies `back, `size, `live, `free, `spare, live, spare
      ensures Valid() && live == InsertAt(old(live), k + 1, item)
      ensures Took(item, old(spare)) && (old(spare) == [] ==> fresh(item))
      ensures item.data == Pushed(data, if old(spare) == [] then NULL else old(item.data))
      ensures Contents() == InsertAt(old(Contents()), k + 1, item.data)
      ensures Pool(live, spare) == old(Pool(live, spare)) + if old(spare) == [] then {item} else {}
    {
      item := TakeItem(data);
      AttachAfter(item, at, k);
      TookPool(old(live), old(spare), k + 1, item, spare);
    }

    // -------------------------------------------------------------------- removing

    method Cleanup(item: Item, destroyer: bool)
      modifies `destroyed, item`data
      ensures item.data == if destroyer then NULL else old(item.data)
      ensures destroyed == old(destroyed) + Destroyed(destroyer, old(item.data))
    {
      if destroyer && item.data != NULL {
        destroyed := destroyed + [item.data];
        item.data := NULL;
      }
    }

    /** The item is on neither list for a moment. */
    method Detach(item: Item, ghost k: nat)
      requires Valid() && k < |live| && live[k] == item
      modifies `front, `back, `size, `live, live`next, live`prev
      ensures Valid() && live == Without(old(live), k) && item !in live && item !in spare
      ensures Contents() == Without(old(Contents()), k)
    {
      ghost var was := live;
      assert was[k] in was;
      WithoutApart(was, k);
      Unlink(item, k);
      forall i | 0 <= i < |spare| ensures ChainedAt(spare, i) {
        assert spare[i] in spare && spare[i] !in was;
        assert old(ChainedAt(spare, i));
      }
      DataRemoved(was, k, old(Contents()));
    }

    method Recycle(item: Item)
      requires Valid() && item !in live && item !in spare
      modifies `free, `spare, item`next, item`prev, spare`prev
      ensures Valid() && spare == [item] + old(spare)
    {
      SetFreeItem(item);
      forall i | 0 <= i < |live| ensures LinkedAt(live, i) {
        assert live[i] in live && live[i] !in old(spare);
        assert old(LinkedAt(live, i));
      }
    }

    method Discard(item: Item, destroyer: bool)
      requires Valid() && item !in live && item !in spare
      modifies `free, `spare, `destroyed, item, spare`prev
      ensures Valid() && spare == [item] + old(spare) && Contents() == old(Contents())
      ensures item.data == if destroyer then NULL else old(item.data)
      ensures destroyed == old(destroyed) + Destroyed(destroyer, old(item.data))
    {
      Cleanup(item, destroyer);
      Recycle(item);
    }

    method RemoveItem(item: Item, destroyer: bool, ghost k: nat)
      requires Valid() && k < |live| && live[k] == item
      modifies `front, `back, `size, `live, `free, `spare, `destroyed, live, spare`prev
      ensures Valid() && live == Without(old(live), k) && spare == [item] + old(spare)
      ensures Contents() == Without(old(Contents()), k)
      ensures item.data == if destroyer then NULL else old(item.data)
      ensures destroyed == old(destroyed) + Destroyed(destroyer, old(Contents())[k])
      ensures Pool(live, spare) == old(Pool(live, spare))
    {
      RemoveKeepsPool(live, spare, k);
      Detach(item, k);
      Discard(item, destroyer);
    }

    method FindFirst(matches: Pointer -> bool) returns (item: Item?, ghost k: nat)
      requires Valid()
      ensures k == FirstMatch(Contents(), matches) && item == At(live, k)
    {
      item, k := front, 0;
      while item != null && !matches(item.data)
        invariant k <= |live| && item == At(live, k)
        invariant forall i :: 0 <= i < k ==> !matches(Contents()[i])
        decreases |live| - k
      {
        assert LinkedAt(live, k);
        item := item.next;
        k := k + 1;
      }
      FirstMatchIs(Contents(), matches, k);
    }

    method FindWithData(data: Pointer) returns (item: Item?)
      requires Valid()
      ensures item == At(live, IndexOf(Contents(), data))
    {
      item := front;
      ghost var k: nat := 0;
      while item != null && item.data != data
        invariant k <= |live| && item == At(live, k)
        invariant data !in Contents()[..k]
        decreases |live| - k
      {
        assert LinkedAt(live, k);
        assert Contents()[..k + 1] == Contents()[..k] + [Contents()[k]];
        item := item.next;
        k := k + 1;
      }
      if k < |live| {
        IndexOfAt(Contents(), data, k);
      } else {
        assert Contents()[..k] == Contents();
      }
    }

    /** Takes out the first item with the data; RT_ERROR_INVALID_ARG when there is none. */
    method RemoveItemWithData(data: Pointer, destroyer: bool) returns (found: bool)
      requires Valid()
      modifies `front, `back, `size, `live, `free, `spare, `destroyed, live, spare`prev
      ensures Valid() && found == (data in old(Contents()))
      ensures Contents() == RemoveFirst(old(Contents()), data)
      ensures destroyed == old(destroyed) + if found then Destroyed(destroyer, data) else []
      ensures Pool(live, spare) == old(Pool(live, spare))
    {
      ghost var k := IndexOf(Contents(), data);
      var item := FindWithData(data);
      found := item != null;
      if found {
        RemoveItem(item, destroyer, k);
      }
    }

    method RemoveItemByCompare(matches: Pointer -> bool, destroyer: bool)
      requires Valid()
      modifies `front, `back, `size, `live, `free, `spare, `destroyed, live, spare`prev
      ensures Valid() && Contents() == RemoveMatch(old(Contents()), matches)
      ensures var s := old(Contents());
              var k := FirstMatch(s, matches);
              destroyed == old(destroyed) + if k < |s| then Destroyed(destroyer, s[k]) else []
      ensures Pool(live, spare) == old(Pool(live, spare))
    {
      var item, k := FindFirst(matches);
      if item != null {
        RemoveItem(item, destroyer, k);
      }
    }

    /** One round of RemoveAllItems: items before `k` are on the free list already. */
    method RecycleNext(item: Item, destroyer: bool, ghost was: seq<Item>, ghost k: nat, ghost base: seq<Item>)
      requires k < |was| && was[k] == item && NoDup(was) && Apart(was, base)
      requires SpareOk() && spare == Reversed(was[..k]) + base && LinkedFrom(was, k)
      modifies `free, `spare, `destroyed, was, base`prev
      ensures SpareOk() && spare == Reversed(was[..k + 1]) + base && LinkedFrom(was, k + 1)
      ensures forall i :: k < i < |was| ==> was[i].data == old(was[i].data)
      ensures destroyed == old(destroyed) + Destroyed(destroyer, old(item.data))
    {
      NotYetSpare(was, k, base);
      TakeOne(was, k);
      assert item !in spare && was[k] in was;
      ghost var before := spare;
      assert forall i :: 0 <= i < |before| ==> before[i] in before;
      Cleanup(item, destroyer);
      SetFreeItem(item);
      forall i | k < i < |was| ensures LinkedAt(was, i) {
        assert was[i] !in before && was[i] != item;
        assert old(LinkedAt(was, i));
      }
    }

    method RecycleAll(destroyer: bool)
      requires Valid()
      modifies `free, `spare, `destroyed, live, spare`prev
      ensures SpareOk() && spare == Reversed(live) + old(spare)
      ensures destroyed == old(destroyed) + AllDestroyed(destroyer, old(Contents()))
    {
      ghost var was, base, datas := live, spare, Contents();
      ghost var k: nat := 0;
      var item := front;
      assert LinkedFrom(was, 0);
      while item != null
        invariant k <= |was| && item == At(was, k)
        invariant SpareOk() && spare == Reversed(was[..k]) + base && LinkedFrom(was, k)
        invariant forall i :: k <= i < |was| ==> was[i].data == datas[i]
        invariant destroyed == old(destroyed) + AllDestroyed(destroyer, datas[..k])
        decreases |was| - k
      {
        assert LinkedAt(was, k);
        var next := item.next;
        DestroyOne(old(destroyed), destroyer, datas, k);
        RecycleNext(item, destroyer, was, k, base);
        k := k + 1;
        item := next;
      }
      assert was[..k] == was && datas[..k] == datas;
    }

    method RemoveAllItems(destroyer: bool)
      requires Valid()
      modifies `front, `back, `size, `live, `free, `spare, `destroyed, live, spare`prev
      ensures Valid() && live == [] && Contents() == []
      ensures spare == Reversed(old(live)) + old(spare)
      ensures destroyed == old(destroyed) + AllDestroyed(destroyer, old(Contents()))
      ensures Pool(live, spare) == old(Pool(live, spare))
    {
      RemoveAllKeepsPool(live, spare);
      RecycleAll(destroyer);
      size := 0;
      front, back := null, null;
      live := [];
    }
  }

  // ----------------------------------------------------------- sequences of pointers

  function Reversed<T>(s: seq<T>): (r: seq<T>)
    ensures |r| == |s|
  {
    if s == [] then [] else Reversed(s[1..]) + [s[0]]
  }

  lemma {:induction false} ReversedSnoc<T>(s: seq<T>, x: T)
    ensures Reversed(s + [x]) == [x] + Reversed(s)
  {
    if s == [] {
    } else {
      ReversedSnoc(s[1..], x);
      assert (s + [x])[1..] == s[1..] + [x];
    }
  }

  lemma {:induction false} ReversedMembers<T>(s: seq<T>, x: T)
    ensures x in Reversed(s) <==> x in s
  {
    if s == [] {
    } else {
      ReversedMembers(s[1..], x);
    }
  }

  lemma TakeOne(s: seq<Item>, k: nat)
    requires k < |s|
    ensures Reversed(s[..k + 1]) == [s[k]] + Reversed(s[..k])
  {
    assert s[..k + 1] == s[..k] + [s[k]];
    ReversedSnoc(s[..k], s[k]);
  }

  lemma NotYetSpare(s: seq<Item>, k: nat, spare: seq<Item>)
    requires NoDup(s) && k < |s| && Apart(s, spare)
    ensures forall i :: k <= i < |s| ==> s[i] !in Reversed(s[..k]) + spare
    ensures forall x :: x in Reversed(s[..k]) + spare ==> x in s || x in spare
  {
    forall x | x in Reversed(s[..k]) ensures x in s { ReversedMembers(s[..k], x); }
    forall i | k <= i < |s| ensures s[i] !in Reversed(s[..k]) + spare {
      ReversedMembers(s[..k], s[i]);
      assert s[i] in s;
    }
  }

  function AllDestroyed(destroyer: bool, datas: seq<Pointer>): seq<Pointer> {
    if datas == [] then [] else Destroyed(destroyer, datas[0]) + AllDestroyed(destroyer, datas[1..])
  }

  lemma {:induction false} AllDestroyedSnoc(destroyer: bool, datas: seq<Pointer>, d: Pointer)
    ensures AllDestroyed(destroyer, datas + [d]) == AllDestroyed(destroyer, datas) + Destroyed(destroyer, d)
  {
    if datas == [] {
    } else {
      AllDestroyedSnoc(destroyer, datas[1..], d);
      assert (datas + [d])[1..] == datas[1..] + [d];
    }
  }

  lemma DestroyOne(before: seq<Pointer>, destroyer: bool, datas: seq<Pointer>, k: nat)
    requires k < |datas|
    ensures before + AllDestroyed(destroyer, datas[..k]) + Destroyed(destroyer, datas[k]) ==
              before + AllDestroyed(destroyer, datas[..k + 1])
  {
    assert datas[..k + 1] == datas[..k] + [datas[k]];
    AllDestroyedSnoc(destroyer, datas[..k], datas[k]);
  }

  function Destroyed(destroyer: bool, data: Pointer): seq<Pointer> {
    if destroyer && data != NULL then [data] else []
  }

  // -------------------------------------------------------------- items owned in all

  ghost function Pool(live: seq<Item>, spare: seq<Item>): set<Item> {
    (set x | x in live) + (set x | x in spare)
  }

  /** A push that finds a spare item allocates nothing: the list owns the items it owned. */
  lemma PushKeepsPool(live: seq<Item>, spare: seq<Item>, k: nat, item: Item)
    requires k <= |live|
    ensures Pool(InsertAt(live, k, item), spare) == Pool(live, [item] + spare)
  {
    var r := InsertAt(live, k, item);
    forall x ensures x in r <==> x in live || x == item {
      if x in live {
        var i := IndexOf(live, x);
        assert i < k ==> r[i] == x;
        assert k <= i ==> r[i + 1] == x;
      }
      assert r[k] == item;
      if x in r {
        var i := IndexOf(r, x);
        assert i < k ==> live[i] == x;
        assert k < i ==> live[i - 1] == x;
      }
    }
  }

  /** So a push allocates, and the list owns one item more, only when none is spare. */
  lemma TookPool(live: seq<Item>, before: seq<Item>, k: nat, item: Item, spare: seq<Item>)
    requires k <= |live| && if before == [] then spare == [] else before == [item] + spare
    ensures Pool(InsertAt(live, k, item), spare) == Pool(live, before) + if before == [] then {item} else {}
  {
    PushKeepsPool(live, spare, k, item);
  }

  /** Removing moves an item over to the free list and loses none. */
  lemma RemoveKeepsPool(live: seq<Item>, spare: seq<Item>, k: nat)
    requires k < |live|
    ensures Pool(Without(live, k), [live[k]] + spare) == Pool(live, spare)
  {
    PushKeepsPool(Without(live, k), spare, k, live[k]);
    assert InsertAt(Without(live, k), k, live[k]) == live;
  }

  lemma RemoveAllKeepsPool(live: seq<Item>, spare: seq<Item>)
    ensures Pool([], Reversed(live) + spare) == Pool(live, spare)
  {
    forall x ensures x in Reversed(live) <==> x in live { ReversedMembers(live, x); }
  }
}
