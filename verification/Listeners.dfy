/** The listener slots of rtConnection.c. */
module Listeners {
  import opened Counters
  import opened Sequences

  const MAX_LISTENERS := 64

  type Callback = nat

  /** struct _rtListener; a slot not in use keeps nothing. */
  datatype Listener = Listener(inUse: bool, expression: string, id: nat, callback: Callback)

  const FREE := Listener(false, "", 0, 0)

  type Slots = s: seq<Listener> | |s| == MAX_LISTENERS witness FreeSlots()

  function FreeSlots(): (s: seq<Listener>)
    ensures |s| == MAX_LISTENERS && forall i :: 0 <= i < MAX_LISTENERS ==> s[i] == FREE
  {
    seq(MAX_LISTENERS, i => FREE)
  }

  /** `issued` is how often rtConnection_GetNextSubscriptionId has been called; the id is
      that count modulo 2^32, starting from 1. */
  datatype Table = Table(slots: Slots, issued: nat)

  datatype Status = Done | Exists | NoMemory | InvalidArg

  function IdOf(n: nat): nat { n % WRAP }

  // ------------------------------------------------------------------- operations

  /** First slot from `i` on in use for the expression, or the number of slots. */
  function FindExpression(s: seq<Listener>, i: nat, expression: string): (r: nat)
    requires i <= |s|
    ensures i <= r <= |s|
    ensures r < |s| ==> s[r].inUse && s[r].expression == expression
    ensures forall j :: i <= j < r ==> !(s[j].inUse && s[j].expression == expression)
    decreases |s| - i
  {
    if i == |s| || (s[i].inUse && s[i].expression == expression) then i else FindExpression(s, i + 1, expression)
  }

  function FindFree(s: seq<Listener>, i: nat): (r: nat)
    requires i <= |s|
    ensures i <= r <= |s|
    ensures r < |s| ==> !s[r].inUse
    ensures forall j :: i <= j < r ==> s[j].inUse
    decreases |s| - i
  {
    if i == |s| || !s[i].inUse then i else FindFree(s, i + 1)
  }

  /** The callback thread's search for the listener of a message. */
  function FindId(s: seq<Listener>, i: nat, id: nat): (r: nat)
    requires i <= |s|
    ensures i <= r <= |s|
    ensures r < |s| ==> s[r].inUse && s[r].id == id
    ensures forall j :: i <= j < r ==> !(s[j].inUse && s[j].id == id)
    decreases |s| - i
  {
    if i == |s| || (s[i].inUse && s[i].id == id) then i else FindId(s, i + 1, id)
  }

  function Add(t: Table, expression: string, callback: Callback): (Table, Status) {
    if FindExpression(t.slots, 0, expression) < MAX_LISTENERS then (t, Exists)
    else
      var i := FindFree(t.slots, 0);
      if i == MAX_LISTENERS then (t, NoMemory)
      else (Table(t.slots[i := Listener(true, expression, IdOf(t.issued + 1), callback)], t.issued + 1), Done)
  }

  function Remove(t: Table, expression: string): (Table, Status) {
    var i := FindExpression(t.slots, 0, expression);
    if i == MAX_LISTENERS then (t, InvalidArg) else (t.(slots := t.slots[i := FREE]), Done)
  }

  /** The callback a message with this control data runs, if any. */
  function CallbackFor(t: Table, controlData: nat): Option<Callback> {
    var i := FindId(t.slots, 0, controlData);
    if i == MAX_LISTENERS then None else Some(t.slots[i].callback)
  }

  // --------------------------------------------------------------------- invariant

  predicate UsedAt(s: seq<Listener>, i: int) { 0 <= i < |s| && s[i].inUse }

  /** Listeners in use have distinct expressions and distinct ids, all issued. */
  ghost predicate Inv(t: Table) {
    && t.issued < WRAP
    && (forall i :: UsedAt(t.slots, i) ==> 0 < t.slots[i].id <= t.issued)
    && (forall i, j :: UsedAt(t.slots, i) && UsedAt(t.slots, j) && i != j ==>
          t.slots[i].expression != t.slots[j].expression && t.slots[i].id != t.slots[j].id)
  }

  datatype Op = AddListener(expression: string, callback: Callback) | RemoveListener(expression: string)

  function Step(t: Table, op: Op): Table {
    match op
    case AddListener(e, c) => Add(t, e, c).0
    case RemoveListener(e) => Remove(t, e).0
  }

  /** Slot `k` changes to a listener that clashes with no other. */
  lemma SlotKeeps(t: Table, k: nat, l: Listener, issued: nat)
    requires Inv(t) && k < MAX_LISTENERS && t.issued <= issued < WRAP
    requires l.inUse ==> 0 < l.id <= issued && forall i :: UsedAt(t.slots, i) ==>
               t.slots[i].expression != l.expression && t.slots[i].id != l.id
    ensures Inv(Table(t.slots[k := l], issued))
  {
    var s := t.slots[k := l];
    forall i ensures UsedAt(s, i) ==> i == k || (UsedAt(t.slots, i) && s[i] == t.slots[i]) {}
  }

  lemma StepKeepsInv(t: Table, op: Op)
    requires Inv(t) && t.issued + 1 < WRAP
    ensures Inv(Step(t, op)) && t.issued <= Step(t, op).issued <= t.issued + 1
  {
    match op
    case AddListener(e, c) =>
      var i := FindFree(t.slots, 0);
      if FindExpression(t.slots, 0, e) == MAX_LISTENERS && i < MAX_LISTENERS {
        SlotKeeps(t, i, Listener(true, e, IdOf(t.issued + 1), c), t.issued + 1);
      }
    case RemoveListener(e) =>
      var i := FindExpression(t.slots, 0, e);
      if i < MAX_LISTENERS { SlotKeeps(t, i, FREE, t.issued); }
  }

  /** Every id handed out so far that no slot has any more stays without a callback. */
  ghost predicate Gone(t: Table, id: nat) {
    0 < id <= t.issued && forall i :: UsedAt(t.slots, i) ==> t.slots[i].id != id
  }

  lemma StepKeepsGone(t: Table, op: Op, id: nat)
    requires Inv(t) && t.issued + 1 < WRAP && Gone(t, id)
    ensures Gone(Step(t, op), id)
  {
    var t' := Step(t, op);
    forall i | UsedAt(t'.slots, i) ensures t'.slots[i].id != id {
      assert t'.slots[i] == t.slots[i] ==> UsedAt(t.slots, i);
    }
  }

  function Run(t: Table, ops: seq<Op>): Table
    decreases |ops|
  {
    if ops == [] then t else Run(Step(t, ops[0]), ops[1..])
  }

  lemma {:induction false} RunKeeps(t: Table, ops: seq<Op>, id: nat)
    requires Inv(t) && t.issued + |ops| < WRAP
    ensures Inv(Run(t, ops)) && (Gone(t, id) ==> Gone(Run(t, ops), id))
    decreases |ops|
  {
    if ops == [] {
    } else {
      StepKeepsInv(t, ops[0]);
      if Gone(t, id) { StepKeepsGone(t, ops[0], id); }
      RunKeeps(Step(t, ops[0]), ops[1..], id);
    }
  }

  /** Once a listener is removed, a message that still carries its id runs no callback,
      whatever is put into its slot later, as long as fewer than 2^32 ids are issued. */
  lemma RemovedNeverCalled(t: Table, expression: string, ops: seq<Op>)
    requires Inv(t) && FindExpression(t.slots, 0, expression) < MAX_LISTENERS && t.issued + 1 + |ops| < WRAP
    ensures var id := t.slots[FindExpression(t.slots, 0, expression)].id;
            CallbackFor(Run(Remove(t, expression).0, ops), id) == None
  {
    var i := FindExpression(t.slots, 0, expression);
    var id := t.slots[i].id;
    var t' := Remove(t, expression).0;
    assert UsedAt(t.slots, i);
    StepKeepsInv(t, RemoveListener(expression));
    forall j | UsedAt(t'.slots, j) ensures t'.slots[j].id != id { assert j != i && UsedAt(t.slots, j); }
    RunKeeps(t', ops, id);
    var r := FindId(Run(t', ops).slots, 0, id);
    assert r < MAX_LISTENERS ==> UsedAt(Run(t', ops).slots, r);
  }

  ghost predicate InUse(t: Table, expression: string) {
    exists i :: UsedAt(t.slots, i) && t.slots[i].expression == expression
  }

  ghost predicate Full(t: Table) { forall i :: 0 <= i < MAX_LISTENERS ==> UsedAt(t.slots, i) }

  ghost predicate TakesSlot(t: Table, t': Table, k: nat) {
    k < MAX_LISTENERS && !UsedAt(t.slots, k) && t'.slots == t.slots[k := t'.slots[k]]
  }

  ghost predicate OneSlotTaken(t: Table, t': Table) { exists k :: TakesSlot(t, t', k) }

  lemma InUseIff(t: Table, expression: string)
    ensures InUse(t, expression) <==> FindExpression(t.slots, 0, expression) < MAX_LISTENERS
  {
    var r := FindExpression(t.slots, 0, expression);
    if r < MAX_LISTENERS { assert UsedAt(t.slots, r); }
  }

  /** What AddListener returns can be told from the slots: an expression in use is refused,
      and otherwise the listener is added exactly if some slot is free. Only then does the
      table change, and in one slot that was free. */
  lemma AddReturns(t: Table, expression: string, callback: Callback)
    ensures var (t', status) := Add(t, expression, callback);
            && (status == Exists <==> InUse(t, expression))
            && (status == NoMemory <==> !InUse(t, expression) && Full(t))
            && (status == Done <==> !InUse(t, expression) && !Full(t))
            && (status != Done ==> t' == t)
            && (status == Done ==> t'.issued == t.issued + 1 && InUse(t', expression) && OneSlotTaken(t, t'))
  {
    InUseIff(t, expression);
    var k := FindFree(t.slots, 0);
    var t' := Add(t, expression, callback).0;
    if Add(t, expression, callback).1 == Done {
      assert UsedAt(t'.slots, k) && t'.slots[k].expression == expression;
      assert TakesSlot(t, t', k);
    } else if k < MAX_LISTENERS {
      assert !UsedAt(t.slots, k);
    }
  }

  /** RemoveListener succeeds exactly for an expression in use, and frees its slot and no other. */
  lemma RemoveReturns(t: Table, expression: string)
    requires Inv(t)
    ensures var (t', status) := Remove(t, expression);
            && (status == Done <==> InUse(t, expression)) && (status == InvalidArg <==> !InUse(t, expression))
            && !InUse(t', expression) && t'.issued == t.issued
            && forall i :: UsedAt(t.slots, i) && t.slots[i].expression != expression ==>
                 UsedAt(t'.slots, i) && t'.slots[i] == t.slots[i]
  {
    InUseIff(t, expression);
    var t', k := Remove(t, expression).0, FindExpression(t.slots, 0, expression);
    forall i | UsedAt(t'.slots, i) ensures t'.slots[i].expression != expression {
      if k < MAX_LISTENERS { assert UsedAt(t.slots, k) && i != k && UsedAt(t.slots, i); } else { assert t' == t; }
    }
  }

  /** A slot serves the expression under this id. */
  ghost predicate Serves(t: Table, expression: string, id: nat, callback: Callback) {
    exists i :: UsedAt(t.slots, i) && t.slots[i] == Listener(true, expression, id, callback)
  }

  lemma StepKeepsServing(t: Table, op: Op, expression: string, id: nat, callback: Callback)
    requires Serves(t, expression, id, callback) && op != RemoveListener(expression)
    ensures Serves(Step(t, op), expression, id, callback)
  {
    var i :| UsedAt(t.slots, i) && t.slots[i] == Listener(true, expression, id, callback);
    assert Step(t, op).slots[i] == t.slots[i];
    assert UsedAt(Step(t, op).slots, i);
  }

  lemma {:induction false} RunKeepsServing(t: Table, ops: seq<Op>, expression: string, id: nat, callback: Callback)
    requires Serves(t, expression, id, callback) && RemoveListener(expression) !in ops
    ensures Serves(Run(t, ops), expression, id, callback)
    decreases |ops|
  {
    if ops == [] {
    } else {
      StepKeepsServing(t, ops[0], expression, id, callback);
      RunKeepsServing(Step(t, ops[0]), ops[1..], expression, id, callback);
    }
  }

  lemma ServedIsCalled(t: Table, expression: string, id: nat, callback: Callback)
    requires Inv(t) && Serves(t, expression, id, callback)
    ensures CallbackFor(t, id) == Some(callback)
  {
    var i :| UsedAt(t.slots, i) && t.slots[i] == Listener(true, expression, id, callback);
    var r := FindId(t.slots, 0, id);
    assert r < MAX_LISTENERS ==> UsedAt(t.slots, r);
  }

  /** A listener that has been added is the one its id finds, whatever is added and removed
      afterwards, as long as it is not removed itself. */
  lemma AddedIsCalled(t: Table, expression: string, callback: Callback, ops: seq<Op>)
    requires Inv(t) && t.issued + 1 + |ops| < WRAP && Add(t, expression, callback).1 == Done
    requires RemoveListener(expression) !in ops
    ensures CallbackFor(Run(Add(t, expression, callback).0, ops), t.issued + 1) == Some(callback)
  {
    var t', id := Add(t, expression, callback).0, t.issued + 1;
    StepKeepsInv(t, AddListener(expression, callback));
    assert UsedAt(t'.slots, FindFree(t.slots, 0));
    RunKeepsServing(t', ops, expression, id, callback);
    RunKeeps(t', ops, 0);
    ServedIsCalled(Run(t', ops), expression, id, callback);
  }

  lemma StartInv()
    ensures Inv(Table(FreeSlots(), 0))
  {
    assert forall i :: !UsedAt(FreeSlots(), i);
  }

  /** Whatever is added and removed, the listeners in use have distinct expressions and
      distinct ids, as long as fewer than 2^32 calls are made. */
  lemma ReachableInv(ops: seq<Op>)
    requires |ops| < WRAP
    ensures Inv(Run(Table(FreeSlots(), 0), ops))
  {
    StartInv();
    RunKeeps(Table(FreeSlots(), 0), ops, 0);
  }

  // ------------------------------------------------------------ the slots in place

  class ListenerTable {
    const listeners: array<Listener>
    var issued: nat

    ghost predicate Valid()
      reads this
    {
      listeners.Length == MAX_LISTENERS
    }

    ghost function View(): Table
      requires Valid()
      reads this, listeners
    {
      Table(listeners[..], issued)
    }

    constructor ()
      ensures Valid() && View() == Table(FreeSlots(), 0) && fresh(listeners)
    {
      listeners := new Listener[MAX_LISTENERS](i => FREE);
      issued := 0;
    }

    method AddListener(expression: string, callback: Callback) returns (rc: Status)
      requires Valid()
      modifies this`issued, listeners
      ensures Valid() && (View(), rc) == Add(old(View()), expression, callback)
    {
      ghost var s := listeners[..];
      var i := 0;
      while i < MAX_LISTENERS
        invariant 0 <= i <= MAX_LISTENERS && FindExpression(s, i, expression) == FindExpression(s, 0, expression)
      {
        if listeners[i].inUse && listeners[i].expression == expression { return Exists; }
        i := i + 1;
      }
      i := 0;
      while i < MAX_LISTENERS && listeners[i].inUse
        invariant 0 <= i <= MAX_LISTENERS && FindFree(s, i) == FindFree(s, 0)
      {
        i := i + 1;
      }
      if i >= MAX_LISTENERS { return NoMemory; }
      issued := issued + 1;
      listeners[i] := Listener(true, expression, issued % WRAP, callback);
      rc := Done;
    }

    method RemoveListener(expression: string) returns (rc: Status, id: nat)
      requires Valid()
      modifies listeners
      ensures Valid() && (View(), rc) == Remove(old(View()), expression)
      ensures rc == Done ==> id == old(View()).slots[FindExpression(old(View()).slots, 0, expression)].id
    {
      ghost var s := listeners[..];
      var i := 0;
      while i < MAX_LISTENERS
        invariant 0 <= i <= MAX_LISTENERS && FindExpression(s, i, expression) == FindExpression(s, 0, expression)
      {
        if listeners[i].inUse && listeners[i].expression == expression {
          id := listeners[i].id;
          listeners[i] := FREE;
          return Done, id;
        }
        i := i + 1;
      }
      return InvalidArg, 0;
    }

    method FindCallback(controlData: nat) returns (callback: Option<Callback>)
      requires Valid()
      ensures callback == CallbackFor(View(), controlData)
    {
      ghost var s := listeners[..];
      var i := 0;
      while i < MAX_LISTENERS
        invariant 0 <= i <= MAX_LISTENERS && FindId(s, i, controlData) == FindId(s, 0, controlData)
      {
        if listeners[i].inUse && listeners[i].id == controlData { return Some(listeners[i].callback); }
        i := i + 1;
      }
      return None;
    }
  }
}
