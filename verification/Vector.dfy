/** rtVector.c: a growing array of pointers. */
module Vector {
  import opened Sequences

  const BLOCK_SIZE := 16

  /** `nil` is the null pointer of the element type. */
  class Vector<T(0, ==)> {
    var data: array?<T>
    var capacity: nat
    var count: nat
    const nil: T

    /** Once there is an array, its last slot is never used: RemoveItem reads the slot after
        the last element. */
    ghost predicate Valid()
      reads this
    {
      if data == null then capacity == 0 && count == 0
      else data.Length == capacity && count < capacity && capacity % BLOCK_SIZE == 0
    }

    ghost function Contents(): seq<T>
      requires Valid()
      reads this, data
    {
      if data == null then [] else data[..count]
    }

    constructor (nil: T)
      ensures Valid() && Contents() == [] && data == null && this.nil == nil
    {
      data, capacity, count := null, 0, 0;
      this.nil := nil;
    }

    /** realloc: the slots kept, the new ones arbitrary. */
    method Grow()
      requires Valid() && data != null
      modifies `data, `capacity
      ensures data != null && fresh(data) && data.Length == capacity == old(capacity) + BLOCK_SIZE
      ensures data[..count] == old(data[..count])
    {
      var larger := new T[capacity + BLOCK_SIZE];
      forall i | 0 <= i < capacity { larger[i] := data[i]; }
      data := larger;
      capacity := capacity + BLOCK_SIZE;
    }

    method PushBack(item: T)
      requires Valid()
      modifies `data, `capacity, `count, data
      ensures Valid() && Contents() == old(Contents()) + [item]
      ensures data == old(data) || fresh(data)
      ensures capacity ==
                old(capacity) + if old(data) == null || old(count) + 1 >= old(capacity) then BLOCK_SIZE else 0
    {
      if data == null {
        data := new T[BLOCK_SIZE](_ => nil);
        capacity := BLOCK_SIZE;
      } else if count + 1 >= capacity {
        Grow();
      }
      data[count] := item;
      count := count + 1;
    }

    /** The loop that moves everything after `k` down by one, the unused slot included. */
    method ShiftDown(k: nat)
      requires Valid() && data != null && k < count
      modifies data
      ensures data[..count - 1] == Without(old(Contents()), k)
    {
      var i := k;
      while i < count
        invariant k <= i <= count
        invariant forall j :: 0 <= j < k ==> data[j] == old(data[j])
        invariant forall j :: k <= j < i ==> data[j] == old(data[j + 1])
        invariant forall j :: i <= j < capacity ==> data[j] == old(data[j])
      {
        data[i] := data[i + 1];
        i := i + 1;
      }
      assert data[..count - 1] == Without(old(data[..count]), k);
    }

    method ClearFrom(from: nat)
      requires Valid() && data != null && count <= from <= capacity
      modifies data
      ensures Contents() == old(Contents())
      ensures forall j :: from <= j < capacity ==> data[j] == nil
    {
      var i := from;
      while i < capacity
        invariant from <= i <= capacity
        invariant data[..count] == old(data[..count])
        invariant forall j :: from <= j < i ==> data[j] == nil
      {
        data[i] := nil;
        i := i + 1;
      }
    }

    method RemoveAt(k: nat)
      requires Valid() && data != null && k < count
      modifies `count, data
      ensures Valid() && Contents() == Without(old(Contents()), k)
      ensures forall i :: count < i < capacity ==> data[i] == nil
    {
      var i := count;
      ShiftDown(k);
      count := count - 1;
      ClearFrom(i);
    }

    method RemoveItem(item: T) returns (ok: bool)
      requires Valid()
      modifies `count, data
      ensures Valid() && ok == (item in old(Contents()))
      ensures Contents() == RemoveFirst(old(Contents()), item)
    {
      if data == null { return false; }
      var i := 0;
      while i < count && data[i] != item
        invariant i <= count && item !in data[..i]
      {
        assert data[..i + 1] == data[..i] + [data[i]];
        i := i + 1;
      }
      if i == count { return false; }
      assert data[..count][..i] == data[..i];
      IndexOfAt(data[..count], item, i);
      RemoveAt(i);
      ok := true;
    }

    method RemoveItemByCompare(matches: T -> bool) returns (ok: bool)
      requires Valid()
      modifies `count, data
      ensures Valid() && ok == (FirstMatch(old(Contents()), matches) < old(count))
      ensures Contents() == RemoveMatch(old(Contents()), matches)
    {
      if data == null { return false; }
      var i := 0;
      while i < count && !matches(data[i])
        invariant i <= count && forall j :: 0 <= j < i ==> !matches(data[j])
      {
        i := i + 1;
      }
      FirstMatchIs(data[..count], matches, i);
      if i == count { return false; }
      RemoveAt(i);
      ok := true;
    }

    method Find(matches: T -> bool) returns (item: T)
      requires Valid()
      ensures var k := FirstMatch(Contents(), matches);
              item == if k < |Contents()| then Contents()[k] else nil
    {
      var i := 0;
      while i < count
        invariant i <= count && forall j :: 0 <= j < i ==> !matches(data[j])
      {
        if matches(data[i]) {
          FirstMatchIs(data[..count], matches, i);
          return data[i];
        }
        i := i + 1;
      }
      return nil;
    }

    method At(index: nat) returns (item: T)
      requires Valid()
      ensures item == if index < |Contents()| then Contents()[index] else nil
    {
      item := if index >= count then nil else data[index];
    }
  }
}
