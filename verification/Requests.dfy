/** The request and response side of rtConnection.c: any number of threads in
    rtConnection_SendRequestInternal and the reader matching responses to them. */
module Requests {
  import opened Counters
  import opened Sequences

  /** A request is known by its ticket, how many sequence numbers were drawn before it.
      The wire carries the ticket modulo 2^32. */
  type Ticket = nat

  function SeqOf(t: Ticket): (s: nat)
    ensures s < WRAP
  {
    t % WRAP
  }

  /** A response as the reader decodes it. `answers` is the request the peer was given:
      it is not on the wire. */
  datatype Response = Response(sequenceNumber: nat, undeliverable: bool, body: seq<int>, answers: Ticket)

  /** struct pending_request. */
  datatype Pending = Pending(posts: nat, response: Option<Response>)

  datatype Result = Answered(r: Response) | NoLongerAvailable | TimedOut | Failed

  /** `pending` lists the requests front first, `entries` their records; `results` is what
      each finished request returned. */
  datatype Table = Table(next: Ticket, pending: seq<Ticket>, entries: map<Ticket, Pending>,
                         results: map<Ticket, Result>)

  const START := Table(1, [], map[], map[])

  // ------------------------------------------------------------------------ steps

  /** Regions under con->mutex. Other: a send that is not a request. Issue: a request is
      put on the list and sent. IssueFails: sent without success and taken off again.
      Arrive: the reader has a response. Collect: the wait returned RT_OK, rightly or by a
      spurious wake-up. GiveUp: any other return of the wait. */
  datatype Event =
    | Other
    | Issue
    | IssueFails
    | Arrive(r: Response)
    | Collect(t: Ticket)
    | GiveUp(t: Ticket, result: Result)

  predicate Enabled(c: Table, e: Event) {
    match e
    case Collect(t) => t in c.entries
    case GiveUp(t, result) => t in c.entries && (result == TimedOut || result == Failed)
    case _ => true
  }

  /** The scan of rtConnection_Read: the first pending request with this number. */
  function Receiver(pending: seq<Ticket>, sequenceNumber: nat): (r: Option<Ticket>)
    ensures r.Some? ==> r.value in pending && SeqOf(r.value) == sequenceNumber
    ensures r.None? ==> forall t :: t in pending ==> SeqOf(t) != sequenceNumber
  {
    if pending == [] then None
    else if SeqOf(pending[0]) == sequenceNumber then Some(pending[0])
    else Receiver(pending[1..], sequenceNumber)
  }

  /** What a request that was woken makes of its record. */
  function Outcome(p: Pending): Result {
    match p.response
    case None => Failed
    case Some(r) => if r.undeliverable then NoLongerAvailable else Answered(r)
  }

  function Finish(c: Table, t: Ticket, result: Result): Table {
    c.(pending := RemoveFirst(c.pending, t), entries := c.entries - {t}, results := c.results[t := result])
  }

  function Deliver(c: Table, r: Response): Table {
    match Receiver(c.pending, r.sequenceNumber)
    case None => c
    case Some(t) =>
      if t in c.entries then c.(entries := c.entries[t := Pending(c.entries[t].posts + 1, Some(r))]) else c
  }

  function Next(c: Table, e: Event): Table
    requires Enabled(c, e)
  {
    match e
    case Other => c.(next := c.next + 1)
    case Issue =>
      c.(next := c.next + 1, pending := [c.next] + c.pending, entries := c.entries[c.next := Pending(0, None)])
    case IssueFails => c.(next := c.next + 1, results := c.results[c.next := Failed])
    case Arrive(r) => Deliver(c, r)
    case Collect(t) => Finish(c, t, Outcome(c.entries[t]))
    case GiveUp(t, result) => Finish(c, t, result)
  }

  // -------------------------------------------------------------------- invariant

  /** An answer carries the number of the request it is given to. */
  ghost predicate Numbered(c: Table) {
    && (forall t :: t in c.entries && c.entries[t].response.Some? ==>
          c.entries[t].response.value.sequenceNumber == SeqOf(t))
    && (forall t :: t in c.results && c.results[t].Answered? ==>
          c.results[t].r.sequenceNumber == SeqOf(t) && !c.results[t].r.undeliverable)
  }

  ghost predicate Inv(c: Table) {
    && NoDup(c.pending)
    && (forall t :: t in c.pending <==> t in c.entries)
    && (forall t :: t in c.entries ==> t < c.next && t !in c.results)
    && (forall t :: t in c.results ==> t < c.next)
    && Numbered(c)
  }

  lemma FinishKeeps(c: Table, t: Ticket, result: Result)
    requires Inv(c) && t in c.entries
    requires result.Answered? ==> result.r.sequenceNumber == SeqOf(t) && !result.r.undeliverable
    ensures Inv(Finish(c, t, result))
  {
    RemoveFirstNoDup(c.pending, t);
  }

  lemma StepKeepsInv(c: Table, e: Event)
    requires Inv(c) && Enabled(c, e)
    ensures Inv(Next(c, e))
  {
    match e
    case Other =>
    case Issue =>
      assert c.next !in c.pending;
    case IssueFails =>
    case Arrive(r) =>
    case Collect(t) => FinishKeeps(c, t, Outcome(c.entries[t]));
    case GiveUp(t, result) => FinishKeeps(c, t, result);
  }

  /** A finished request keeps its result for good. */
  lemma ResultsStay(c: Table, e: Event, t: Ticket)
    requires Inv(c) && Enabled(c, e) && t in c.results
    ensures t in Next(c, e).results && Next(c, e).results[t] == c.results[t]
  {}

  // ------------------------------------------------------------- what a call comes to

  /** Everything but the request `t` is as it was. */
  ghost predicate OthersKept(c: Table, c': Table, t: Ticket) {
    && Except(c'.pending, t) == Except(c.pending, t)
    && (forall u :: u != t ==> (u in c'.entries <==> u in c.entries))
    && (forall u :: u != t && u in c.entries ==> c'.entries[u] == c.entries[u])
    && (forall u :: u != t ==> (u in c'.results <==> u in c.results))
    && (forall u :: u != t && u in c.results ==> c'.results[u] == c.results[u])
  }

  /** The request is off the list, its record is gone, and its call has returned `result`. */
  ghost predicate Returned(c: Table, t: Ticket, result: Result) {
    t !in c.pending && t !in c.entries && t in c.results && c.results[t] == result
  }

  lemma FinishReturns(c: Table, t: Ticket, result: Result)
    requires Inv(c) && t in c.entries
    ensures var c' := Finish(c, t, result); Returned(c', t, result) && OthersKept(c, c', t) && c'.next == c.next
  {
    RemoveFirstNoDup(c.pending, t);
    RemoveFirstIsExcept(c.pending, t);
    ExceptAbsent(RemoveFirst(c.pending, t), t);
  }

  /** A call whose wait ends with an error returns that error and is forgotten; the list and
      the records of all others stay as they are. */
  lemma GivenUpReturns(c: Table, t: Ticket, result: Result)
    requires Inv(c) && Enabled(c, GiveUp(t, result))
    ensures var c' := Next(c, GiveUp(t, result)); Returned(c', t, result) && OthersKept(c, c', t) && c'.next == c.next
  {
    FinishReturns(c, t, result);
  }

  /** A call that is woken returns the response in its record, unavailable if that is flagged
      undeliverable and an error if there is none. */
  lemma CollectedReturns(c: Table, t: Ticket)
    requires Inv(c) && Enabled(c, Collect(t))
    ensures var c', r := Next(c, Collect(t)), c.entries[t].response;
            && OthersKept(c, c', t) && c'.next == c.next
            && (r.None? ==> Returned(c', t, Failed))
            && (r.Some? && r.value.undeliverable ==> Returned(c', t, NoLongerAvailable))
            && (r.Some? && !r.value.undeliverable ==> Returned(c', t, Answered(r.value)))
  {
    FinishReturns(c, t, Outcome(c.entries[t]));
  }

  /** A request that could not be sent has drawn a number and returned an error. */
  lemma FailedSendReturns(c: Table)
    requires Inv(c)
    ensures var c' := Next(c, IssueFails);
            Returned(c', c.next, Failed) && OthersKept(c, c', c.next) && c'.next == c.next + 1
  {}

  /** A request that is sent waits at the head of the list, with nothing in its record. */
  lemma IssuedWaits(c: Table)
    requires Inv(c)
    ensures var c' := Next(c, Issue);
            && c'.pending != [] && c'.pending[0] == c.next && c'.pending[1..] == c.pending && c'.next == c.next + 1
            && c.next in c'.entries && c'.entries[c.next].response.None? && c'.entries[c.next].posts == 0
            && c.next !in c'.results && OthersKept(c, c', c.next)
  {
    var rest := c.pending;
    assert c.next !in rest && ([c.next] + rest)[1..] == rest;
  }

  /** A response goes into the record of the one request it is for and posts it once. */
  lemma ArrivedIsRecorded(c: Table, r: Response, t: Ticket)
    requires Inv(c) && Receiver(c.pending, r.sequenceNumber) == Some(t)
    ensures var c' := Next(c, Arrive(r));
            && c'.pending == c.pending && c'.next == c.next && OthersKept(c, c', t) && t !in c'.results
            && c'.entries[t].response == Some(r) && c'.entries[t].posts == c.entries[t].posts + 1
  {}

  // -------------------------------------------------------------- outstanding requests

  /** Numbers drawn. */
  function Draws(es: seq<Event>): nat {
    if es == [] then 0 else (if es[0] == Other || es[0] == Issue || es[0] == IssueFails then 1 else 0) + Draws(es[1..])
  }

  /** The tickets of the requests that were sent, when `next` is drawn first. */
  function SentTickets(next: Ticket, es: seq<Event>): set<Ticket>
    decreases |es|
  {
    if es == [] then {}
    else (if es[0] == Issue then {next} else {}) + SentTickets(next + Draws([es[0]]), es[1..])
  }

  function ReturnOf(e: Event): set<Ticket> { if e.Collect? || e.GiveUp? then {e.t} else {} }

  /** The tickets of the calls that have returned after a wait. */
  function ReturnedTickets(es: seq<Event>): set<Ticket> {
    if es == [] then {} else ReturnOf(es[0]) + ReturnedTickets(es[1..])
  }

  ghost predicate Steps(c: Table, es: seq<Event>, c': Table)
    decreases |es|
  {
    if es == [] then c' == c else Enabled(c, es[0]) && Steps(Next(c, es[0]), es[1..], c')
  }

  /** Newest first. */
  predicate Descending(s: seq<Ticket>) { forall i, j :: 0 <= i < j < |s| ==> s[i] > s[j] }

  ghost function Elements(s: seq<Ticket>): set<Ticket> { set t | t in s }

  lemma StepDescends(c: Table, e: Event)
    requires Inv(c) && Descending(c.pending) && Enabled(c, e)
    ensures Descending(Next(c, e).pending)
  {
    if e.Issue? {
      forall i | 0 <= i < |c.pending| ensures c.pending[i] < c.next { assert c.pending[i] in c.entries; }
    }
    if e.Collect? || e.GiveUp? { FewerDescend(c.pending, e.t); }
  }

  lemma FewerDescend(s: seq<Ticket>, t: Ticket)
    requires Descending(s)
    ensures Descending(RemoveFirst(s, t))
  {}

  lemma StepOutstanding(c: Table, e: Event)
    requires Inv(c) && Enabled(c, e)
    ensures Next(c, e).next == c.next + Draws([e])
    ensures Elements(Next(c, e).pending) ==
              Elements(c.pending) + (if e == Issue then {c.next} else {}) - ReturnOf(e)
  {
    if e.Collect? || e.GiveUp? { RemoveFirstNoDup(c.pending, e.t); }
  }

  lemma SentStep(next: Ticket, es: seq<Event>)
    requires es != []
    ensures SentTickets(next, es) ==
              (if es[0] == Issue then {next} else {}) + SentTickets(next + Draws([es[0]]), es[1..])
    ensures ReturnedTickets(es) == ReturnOf(es[0]) + ReturnedTickets(es[1..])
    ensures Draws(es) == Draws([es[0]]) + Draws(es[1..])
  {}

  lemma Outstanding(p: set<Ticket>, s0: set<Ticket>, r0: set<Ticket>, s: set<Ticket>, r: set<Ticket>)
    requires r0 !! s0 && r0 !! s
    ensures p + s0 - r0 + s - r == p + (s0 + s) - (r0 + r)
  {}

  lemma OutstandingStep(c: Table, es: seq<Event>, c1: Table, end: set<Ticket>)
    requires Inv(c) && es != [] && Enabled(c, es[0]) && c1 == Next(c, es[0])
    requires end == Elements(c1.pending) + SentTickets(c1.next, es[1..]) - ReturnedTickets(es[1..])
    ensures end == Elements(c.pending) + SentTickets(c.next, es) - ReturnedTickets(es)
  {
    StepOutstanding(c, es[0]);
    SentStep(c.next, es);
    SentFrom(c1.next, es[1..]);
    var sent := if es[0] == Issue then {c.next} else {};
    Outstanding(Elements(c.pending), sent, ReturnOf(es[0]), SentTickets(c1.next, es[1..]), ReturnedTickets(es[1..]));
  }

  /** The list holds exactly the requests that were sent and whose calls have not returned,
      newest first, and as many numbers have been drawn as there were sends. */
  lemma {:induction false} PendingIsOutstanding(c: Table, es: seq<Event>, c': Table)
    requires Inv(c) && Descending(c.pending) && Steps(c, es, c')
    ensures Inv(c') && Descending(c'.pending) && c'.next == c.next + Draws(es)
    ensures Elements(c'.pending) == Elements(c.pending) + SentTickets(c.next, es) - ReturnedTickets(es)
    decreases |es|
  {
    if es == [] {
    } else {
      var c1 := Next(c, es[0]);
      StepKeepsInv(c, es[0]);
      StepDescends(c, es[0]);
      StepOutstanding(c, es[0]);
      SentStep(c.next, es);
      PendingIsOutstanding(c1, es[1..], c');
      OutstandingStep(c, es, c1, Elements(c'.pending));
    }
  }

  lemma ReachableOutstanding(es: seq<Event>, c: Table)
    requires Steps(START, es, c)
    ensures Inv(c) && Descending(c.pending) && c.next == 1 + Draws(es)
    ensures forall t :: t in c.pending <==> t in SentTickets(1, es) && t !in ReturnedTickets(es)
  {
    PendingIsOutstanding(START, es, c);
    forall t ensures t in c.pending <==> t in SentTickets(1, es) && t !in ReturnedTickets(es) {
      assert t in c.pending <==> t in Elements(c.pending);
    }
  }

  lemma {:induction false} SentFrom(next: Ticket, es: seq<Event>)
    ensures forall t :: t in SentTickets(next, es) ==> next <= t
    decreases |es|
  {
    if es == [] {
    } else {
      SentFrom(next + Draws([es[0]]), es[1..]);
    }
  }

  // ----------------------------------------------------------------- own answers

  /** Two tickets look alike on the wire. */
  predicate Alias(a: Ticket, b: Ticket) { a != b && SeqOf(a) == SeqOf(b) }

  lemma AliasFarApart(a: Ticket, b: Ticket)
    ensures Alias(a, b) ==> a + WRAP <= b || b + WRAP <= a
  {
    if Alias(a, b) {
      assert a == a / WRAP * WRAP + a % WRAP && b == b / WRAP * WRAP + b % WRAP;
      assert a / WRAP != b / WRAP;
    }
  }

  /** Two draws of the counter that are a multiple of 2^32 draws apart. */
  predicate WrapsApart(a: Ticket, b: Ticket) { a != b && (a as int - b) % WRAP == 0 }

  lemma AliasIffWraps(a: Ticket, b: Ticket)
    ensures Alias(a, b) <==> WrapsApart(a, b)
  {
    assert a == a / WRAP * WRAP + a % WRAP && b == b / WRAP * WRAP + b % WRAP;
  }

  /** Pending numbers are distinct exactly when no two pending requests were drawn a multiple
      of 2^32 draws apart. */
  lemma NumbersDistinctIff(c: Table)
    requires Inv(c)
    ensures NoDup(Numbers(c.pending)) <==> forall a, b :: a in c.pending && b in c.pending ==> !WrapsApart(a, b)
  {
    forall a, b ensures Alias(a, b) <==> WrapsApart(a, b) { AliasIffWraps(a, b); }
    NoAliasIff(c);
  }

  lemma NoAliasIff(c: Table)
    requires Inv(c)
    ensures NoDup(Numbers(c.pending)) <==> forall a, b :: a in c.pending && b in c.pending ==> !Alias(a, b)
  {
    var n := Numbers(c.pending);
    if NoDup(n) {
      forall a, b | a in c.pending && b in c.pending ensures !Alias(a, b) {
        var i, j := IndexOf(c.pending, a), IndexOf(c.pending, b);
        if i < j { assert n[i] != n[j]; }
        if j < i { assert n[j] != n[i]; }
      }
    }
    if forall a, b :: a in c.pending && b in c.pending ==> !Alias(a, b) {
      forall i, j | 0 <= i < j < |n| ensures n[i] != n[j] {
        assert c.pending[i] in c.pending && c.pending[j] in c.pending;
        assert !Alias(c.pending[i], c.pending[j]);
      }
    }
  }

  function Numbers(pending: seq<Ticket>): (r: seq<nat>)
    ensures |r| == |pending| && forall i :: 0 <= i < |pending| ==> r[i] == SeqOf(pending[i])
  {
    seq(|pending|, i requires 0 <= i < |pending| => SeqOf(pending[i]))
  }

  /** The peer answers with the number it was given (rtConnection_SendResponse and the
      broker copy it from the request). */
  predicate Faithful(r: Response) { r.sequenceNumber == SeqOf(r.answers) }

  /** A response goes to its own request if that is pending and no alias of it is listed
      before it; to another request exactly when that is the first alias in the list. */
  lemma ReceiverExact(pending: seq<Ticket>, r: Response)
    requires Faithful(r)
    ensures Receiver(pending, r.sequenceNumber) == Some(r.answers) || Receiver(pending, r.sequenceNumber).None? ||
            Alias(Receiver(pending, r.sequenceNumber).value, r.answers)
    ensures (forall t :: t in pending ==> !Alias(t, r.answers)) ==>
              Receiver(pending, r.sequenceNumber) == if r.answers in pending then Some(r.answers) else None
  {
    if r.answers in pending {
      assert SeqOf(r.answers) == r.sequenceNumber;
    }
  }

  /** At most 2^32 numbers have been drawn since the oldest pending request, and since
      the request this response answers. */
  predicate InFlight(c: Table, e: Event) {
    && (forall t :: t in c.pending ==> c.next <= t + WRAP)
    && (e.Arrive? ==> Faithful(e.r) && e.r.answers < c.next <= e.r.answers + WRAP)
  }

  /** Every answer given is the answer to that very request. */
  ghost predicate Own(c: Table) {
    && (forall t :: t in c.entries && c.entries[t].response.Some? ==> c.entries[t].response.value.answers == t)
    && (forall t :: t in c.results && c.results[t].Answered? ==> c.results[t].r.answers == t)
  }

  lemma StepKeepsOwn(c: Table, e: Event)
    requires Inv(c) && Own(c) && Enabled(c, e) && InFlight(c, e)
    ensures Own(Next(c, e))
  {
    if e.Arrive? {
      forall t | t in c.pending ensures !Alias(t, e.r.answers) { AliasFarApart(t, e.r.answers); }
      ReceiverExact(c.pending, e.r);
    }
  }

  ghost predicate Runs(c: Table, es: seq<Event>, c': Table)
    decreases |es|
  {
    if es == [] then c' == c
    else Enabled(c, es[0]) && InFlight(c, es[0]) && Runs(Next(c, es[0]), es[1..], c')
  }

  lemma {:induction false} RunKeeps(c: Table, es: seq<Event>, c': Table)
    requires Inv(c) && Own(c) && Runs(c, es, c')
    ensures Inv(c') && Own(c')
    decreases |es|
  {
    if es == [] {
    } else {
      StepKeepsInv(c, es[0]);
      StepKeepsOwn(c, es[0]);
      RunKeeps(Next(c, es[0]), es[1..], c');
    }
  }

  /** In every interleaving of senders and reader with fewer than 2^32 numbers in flight:
      numbers of pending requests are distinct, and whoever is given RT_OK holds the
      response to its own request, with its own number and not flagged undeliverable. */
  lemma AnswersAreOwn(es: seq<Event>, c: Table, t: Ticket)
    requires Runs(START, es, c)
    ensures Inv(c)
    ensures InFlight(c, Other) ==> NoDup(Numbers(c.pending))
    ensures t in c.results && c.results[t].Answered? ==>
              var r := c.results[t].r; r.answers == t && r.sequenceNumber == SeqOf(t) && !r.undeliverable
  {
    RunKeeps(START, es, c);
    if InFlight(c, Other) {
      forall a, b | a in c.pending && b in c.pending ensures !Alias(a, b) { AliasFarApart(a, b); }
      NoAliasIff(c);
    }
  }

  /** A response whose request has gone reaches somebody else exactly when a request waits
      that was drawn a multiple of 2^32 draws apart. */
  lemma LateResponseIff(c: Table, r: Response)
    requires Inv(c) && Faithful(r) && r.answers !in c.entries
    ensures Deliver(c, r) != c <==> exists t :: t in c.pending && WrapsApart(t, r.answers)
  {
    forall t ensures Alias(t, r.answers) <==> WrapsApart(t, r.answers) { AliasIffWraps(t, r.answers); }
    var to := Receiver(c.pending, r.sequenceNumber);
    ReceiverExact(c.pending, r);
    if to.Some? {
      assert Deliver(c, r).entries[to.value].posts == c.entries[to.value].posts + 1;
    }
  }

  lemma {:induction false} ReturnStays(c: Table, es: seq<Event>, c': Table, t: Ticket)
    requires Inv(c) && t in c.results && Runs(c, es, c')
    ensures Inv(c') && t in c'.results && c'.results[t] == c.results[t]
    decreases |es|
  {
    if es == [] {
    } else {
      StepKeepsInv(c, es[0]);
      ResultsStay(c, es[0], t);
      ReturnStays(Next(c, es[0]), es[1..], c', t);
    }
  }

  lemma NobodyElse(c: Table, r: Response)
    requires Inv(c) && r.answers !in c.entries && InFlight(c, Arrive(r))
    ensures Deliver(c, r) == c
  {
    forall u | u in c.pending ensures !WrapsApart(u, r.answers) {
      AliasFarApart(u, r.answers);
      AliasIffWraps(u, r.answers);
    }
    LateResponseIff(c, r);
  }

  lemma ReturnedIgnores(c: Table, es: seq<Event>, c': Table, r: Response)
    requires Inv(c) && r.answers in c.results && Runs(c, es, c') && InFlight(c', Arrive(r))
    ensures Deliver(c', r) == c' && r.answers in c'.results && c'.results[r.answers] == c.results[r.answers]
  {
    ReturnStays(c, es, c', r.answers);
    NobodyElse(c', r);
  }

  /** A call that has given up keeps its error for good, and a response to it that comes in
      later changes nothing, as long as fewer than 2^32 numbers are in flight. */
  lemma LateResponseIgnored(c: Table, result: Result, c1: Table, es: seq<Event>, c': Table, r: Response)
    requires Inv(c) && Enabled(c, GiveUp(r.answers, result)) && c1 == Next(c, GiveUp(r.answers, result))
    requires Runs(c1, es, c') && InFlight(c', Arrive(r))
    ensures Next(c', Arrive(r)) == c' && r.answers in c'.results && c'.results[r.answers] == result
  {
    GivenUpReturns(c, r.answers, result);
    StepKeepsInv(c, GiveUp(r.answers, result));
    ReturnedIgnores(c1, es, c', r);
  }

  // ------------------------------------------------------------ the list in place

  class RequestTable {
    var sequenceNumber: nat
    var pendingRequests: seq<Ticket>
    var entries: map<Ticket, Pending>

    ghost var next: Ticket
    ghost var results: map<Ticket, Result>

    ghost function View(): Table
      reads this
    {
      Table(next, pendingRequests, entries, results)
    }

    /** The 32-bit counter has wrapped along with the tickets. */
    ghost predicate Valid()
      reads this
    {
      sequenceNumber == SeqOf(next)
    }

    constructor ()
      ensures Valid() && View() == START
    {
      sequenceNumber, pendingRequests, entries := 1, [], map[];
      next, results := 1, map[];
    }

    /** The atomic fetch-and-add. */
    method FetchAdd() returns (drawn: nat)
      requires Valid()
      modifies `sequenceNumber, `next
      ensures drawn == SeqOf(old(next)) && next == old(next) + 1 && Valid()
    {
      drawn := sequenceNumber;
      sequenceNumber := if sequenceNumber + 1 == WRAP then 0 else sequenceNumber + 1;
      next := next + 1;
    }

    /** Up to the unlock after the send, which may fail; `id` names this call's record. */
    method Enqueue(id: Ticket, sent: bool) returns (number: nat)
      requires Valid() && id == next && id !in pendingRequests && id !in entries
      modifies this
      ensures Valid() && View() == Next(old(View()), if sent then Issue else IssueFails)
      ensures number == SeqOf(id)
    {
      number := FetchAdd();
      pendingRequests := [id] + pendingRequests;
      entries := entries[id := Pending(0, None)];
      if !sent {
        results := results[id := Failed];
        RemoveFirstCons(pendingRequests, id);
        Dequeue(id);
        assert pendingRequests == old(pendingRequests);
        assert entries == old(entries);
      }
    }

    method Dequeue(id: Ticket)
      modifies `pendingRequests, `entries
      ensures pendingRequests == RemoveFirst(old(pendingRequests), id) && entries == old(entries) - {id}
    {
      pendingRequests := RemoveFirst(pendingRequests, id);
      entries := entries - {id};
    }

    /** The reader's loop over the pending list; `taken` when a request has the response. */
    method OnResponse(r: Response) returns (taken: bool)
      requires forall t :: t in pendingRequests ==> t in entries
      modifies `entries
      ensures View() == Next(old(View()), Arrive(r))
      ensures taken == Receiver(pendingRequests, r.sequenceNumber).Some?
    {
      var i := 0;
      assert pendingRequests[0..] == pendingRequests;
      while i < |pendingRequests|
        invariant i <= |pendingRequests| && entries == old(entries)
        invariant Receiver(pendingRequests[i..], r.sequenceNumber) == Receiver(pendingRequests, r.sequenceNumber)
      {
        var id := pendingRequests[i];
        assert pendingRequests[i..][1..] == pendingRequests[i + 1..];
        if id % WRAP == r.sequenceNumber {
          entries := entries[id := Pending(entries[id].posts + 1, Some(r))];
          return true;
        }
        i := i + 1;
      }
      return false;
    }

    /** From the return of the wait on; `waited` is its error, if any. */
    method AfterWait(id: Ticket, waited: Option<Result>) returns (ret: Result)
      requires id in entries && (waited.Some? ==> waited.value == TimedOut || waited.value == Failed)
      modifies this
      ensures ret == if waited.Some? then waited.value else Outcome(old(entries)[id])
      ensures View() == Next(old(View()), if waited.Some? then GiveUp(id, ret) else Collect(id))
      ensures Valid() <==> old(Valid())
    {
      if waited.None? {
        match entries[id].response {
          case Some(r) => ret := if r.undeliverable then NoLongerAvailable else Answered(r);
          case None => ret := Failed;
        }
      } else {
        ret := waited.value;
      }
      results := results[id := ret];
      Dequeue(id);
    }
  }
}
