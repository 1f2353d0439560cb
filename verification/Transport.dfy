/** Request/response correlation of the stdio transport, as steps between suspension points. */
module Transport {
  import opened Sequences

  /** How the future of one caller ends. */
  datatype Outcome<+R> = Waiting | Replied(reply: R) | TimedOut | Stopped

  datatype Event<+R> =
    | Send                          // send_request up to the registration of its future
    | FireAndForget                 // send_request_fire_and_forget
    | Response(id: int, reply: R)   // a response read from the server, with any id
    | Expire(caller: nat)           // the timeout of a caller fires and cancels its future
    | Forget(caller: nat)           // the timed-out caller removes its pending entry
    | Stop                          // the pending-clearing part of stop

  /** Callers are numbered in the order of their requests; ids[k] is the id caller k sent. */
  datatype State<+R> = State(requestId: nat, pending: map<int, nat>, ids: seq<int>, outcomes: seq<Outcome<R>>)

  function Initial<R>(): State<R> {
    State(0, map[], [], [])
  }

  function Settle<R>(outcomes: seq<Outcome<R>>, k: nat, outcome: Outcome<R>): (r: seq<Outcome<R>>)
    ensures |r| == |outcomes|
    ensures forall j :: 0 <= j < |outcomes| ==>
      r[j] == if j == k && outcomes[j].Waiting? then outcome else outcomes[j]
  {
    if k < |outcomes| && outcomes[k].Waiting? then outcomes[k := outcome] else outcomes
  }

  function StopAll<R>(outcomes: seq<Outcome<R>>, callers: set<nat>): (r: seq<Outcome<R>>)
    ensures |r| == |outcomes|
  {
    seq(|outcomes|, k requires 0 <= k < |outcomes| =>
      if k in callers && outcomes[k].Waiting? then Stopped else outcomes[k])
  }

  function Step<R>(s: State<R>, e: Event<R>): State<R> {
    match e
    case Send =>
      var id := s.requestId + 1;
      State(id, s.pending[id := |s.ids|], s.ids + [id], s.outcomes + [Waiting])
    case FireAndForget => s.(requestId := s.requestId + 1)
    case Response(id, reply) =>
      if id !in s.pending then s
      else s.(pending := s.pending - {id}, outcomes := Settle(s.outcomes, s.pending[id], Replied(reply)))
    case Expire(k) => s.(outcomes := Settle(s.outcomes, k, TimedOut))
    case Forget(k) =>
      if k < |s.ids| && k < |s.outcomes| && s.outcomes[k] == TimedOut
      then s.(pending := s.pending - {s.ids[k]}) else s
    case Stop => s.(pending := map[], outcomes := StopAll(s.outcomes, s.pending.Values))
  }

  function Run<R>(events: seq<Event<R>>): State<R> {
    if events == [] then Initial() else Step(Run(events[..|events| - 1]), events[|events| - 1])
  }

  // ----- the class

  class StdioTransport<R(==)> {
    var requestId: nat
    var pending: map<int, nat>
    var ids: seq<int>
    var futures: seq<Outcome<R>>

    function View(): State<R>
      reads this
    {
      State(requestId, pending, ids, futures)
    }

    constructor ()
      ensures View() == Initial()
    {
      requestId, pending, ids, futures := 0, map[], [], [];
    }

    method RegisterRequest() returns (id: int)
      modifies this
      ensures View() == Step(old(View()), Send) && id == requestId
    {
      requestId := requestId + 1;
      id := requestId;
      pending := pending[id := |ids|];
      ids, futures := ids + [id], futures + [Waiting];
    }

    method NextRequestId() returns (id: int)
      modifies this
      ensures View() == Step(old(View()), FireAndForget) && id == requestId
    {
      requestId := requestId + 1;
      id := requestId;
    }

    method HandleResponse(id: int, reply: R)
      modifies this
      ensures View() == Step(old(View()), Response(id, reply))
    {
      if id !in pending {
        return;
      }
      var k := pending[id];
      pending := pending - {id};
      if k < |futures| && futures[k] == Waiting {
        futures := futures[k := Replied(reply)];
      }
    }

    method CancelOnTimeout(k: nat)
      modifies this
      ensures View() == Step(old(View()), Expire(k))
    {
      if k < |futures| && futures[k] == Waiting {
        futures := futures[k := TimedOut];
      }
    }

    method ForgetAfterTimeout(k: nat)
      modifies this
      ensures View() == Step(old(View()), Forget(k))
    {
      if k < |ids| && k < |futures| && futures[k] == TimedOut {
        pending := pending - {ids[k]};
      }
    }

    method ClearPending()
      modifies this
      ensures View() == Step(old(View()), Event<R>.Stop)
    {
      ghost var before := futures;
      for k := 0 to |futures|
        invariant |futures| == |before| && pending == old(pending)
        invariant ids == old(ids) && requestId == old(requestId)
        invariant forall j :: 0 <= j < |before| ==>
                    futures[j] == if j < k then StopAll(before, pending.Values)[j] else before[j]
      {
        if k in pending.Values && futures[k] == Waiting {
          futures := futures[k := Stopped];
        }
      }
      assert futures == StopAll(before, pending.Values);
      pending := map[];
    }
  }

  // ----- over every interleaving

  predicate Inv<R(!new)>(s: State<R>) {
    |s.outcomes| == |s.ids| &&
    (forall k :: 0 <= k < |s.ids| ==> 0 < s.ids[k] <= s.requestId) &&
    (forall j, k :: 0 <= j < k < |s.ids| ==> s.ids[j] < s.ids[k]) &&
    (forall id :: id in s.pending ==> s.pending[id] < |s.ids| && s.ids[s.pending[id]] == id) &&
    (forall k :: 0 <= k < |s.ids| && s.outcomes[k].Waiting? ==> s.ids[k] in s.pending && s.pending[s.ids[k]] == k)
  }

  lemma StepKeepsInv<R(!new)>(s: State<R>, e: Event<R>)
    requires Inv(s)
    ensures Inv(Step(s, e))
  {
    match e
    case Send => SendKeepsInv(s);
    case Response(id, reply) => ResponseKeepsInv(s, id, reply);
    case _ =>
  }

  lemma SendKeepsInv<R(!new)>(s: State<R>)
    requires Inv(s)
    ensures Inv(Step(s, Send))
  {
  }

  lemma ResponseKeepsInv<R(!new)>(s: State<R>, id: int, reply: R)
    requires Inv(s)
    ensures Inv(Step(s, Response(id, reply)))
  {
  }

  /** In every run ids are distinct and increasing, no pending id exceeds the counter, and each
      pending entry leads to the caller that sent its id. */
  lemma {:induction false} RunKeepsInv<R(!new)>(events: seq<Event<R>>)
    ensures Inv(Run(events))
  {
    if events != [] {
      RunKeepsInv(events[..|events| - 1]);
      StepKeepsInv(Run(events[..|events| - 1]), events[|events| - 1]);
    }
  }

  /** What an event means for a caller that is still waiting. */
  function SettledBy<R>(e: Event<R>, k: nat, id: int): Outcome<R> {
    match e
    case Response(i, reply) => if i == id then Replied(reply) else Waiting
    case Expire(j) => if j == k then TimedOut else Waiting
    case Stop => Stopped
    case _ => Waiting
  }

  function FirstSettlement<R>(events: seq<Event<R>>, k: nat, id: int): Outcome<R> {
    if events == [] then Waiting
    else if SettledBy(events[0], k, id).Waiting? then FirstSettlement(events[1..], k, id)
    else SettledBy(events[0], k, id)
  }

  lemma {:induction false} FirstSettlementAppend<R>(events: seq<Event<R>>, e: Event<R>, k: nat, id: int)
    ensures FirstSettlement(events + [e], k, id) ==
            if FirstSettlement(events, k, id).Waiting? then SettledBy(e, k, id) else FirstSettlement(events, k, id)
  {
    if events == [] {
      assert (events + [e])[1..] == [];
    } else {
      FirstSettlementAppend(events[1..], e, k, id);
      assert (events + [e])[1..] == events[1..] + [e];
    }
  }

  /** How many request ids a run has used. */
  function Requests<R>(events: seq<Event<R>>): nat {
    if events == [] then 0
    else Requests(events[..|events| - 1]) +
         (if events[|events| - 1].Send? || events[|events| - 1].FireAndForget? then 1 else 0)
  }

  lemma {:induction false} CounterCountsRequests<R(!new)>(events: seq<Event<R>>)
    ensures Run(events).requestId == Requests(events)
  {
    if events != [] {
      CounterCountsRequests(events[..|events| - 1]);
    }
  }

  lemma OtherEventsKeep<R(!new)>(s: State<R>, e: Event<R>, k: nat)
    requires Inv(s) && k < |s.ids|
    ensures |Step(s, e).ids| >= |s.ids| && Step(s, e).ids[k] == s.ids[k]
    ensures Step(s, e).outcomes[k] ==
            if s.outcomes[k].Waiting? then SettledBy(e, k, s.ids[k]) else s.outcomes[k]
  {
  }

  /** In every interleaving a caller is settled once, by the first of: a response with its own id,
      its own timeout, or stop. No other response, whatever its id, affects it. */
  lemma {:induction false} SettledByFirst<R(!new)>(before: seq<Event<R>>, after: seq<Event<R>>)
    ensures var k, id := |Run(before).ids|, Requests(before) + 1;
            var s := Run(before + [Send] + after);
            k < |s.ids| == |s.outcomes| && s.ids[k] == id &&
            s.outcomes[k] == FirstSettlement(after, k, id)
    decreases |after|
  {
    var k, id := |Run(before).ids|, Requests(before) + 1;
    var events := before + [Send] + after;
    CounterCountsRequests(before);
    if after == [] {
      RunKeepsInv(before);
      assert events == before + [Send];
      RunAppend(before, Send);
    } else {
      var init, e := after[..|after| - 1], after[|after| - 1];
      assert after == init + [e];
      SettledByFirst(before, init);
      Assoc(before + [Send], init, [e]);
      RunAppend(before + [Send] + init, e);
      OneMoreEvent(before + [Send] + init, e, k);
      FirstSettlementAppend(init, e, k, id);
    }
  }

  lemma RunAppend<R>(events: seq<Event<R>>, e: Event<R>)
    ensures Run(events + [e]) == Step(Run(events), e)
  {
    assert (events + [e])[..|events|] == events;
  }

  lemma OneMoreEvent<R(!new)>(events: seq<Event<R>>, e: Event<R>, k: nat)
    requires k < |Run(events).ids|
    ensures var s, t := Run(events), Step(Run(events), e);
            |s.outcomes| == |s.ids| && |t.ids| == |t.outcomes| && |t.ids| >= |s.ids| && t.ids[k] == s.ids[k] &&
            t.outcomes[k] == if s.outcomes[k].Waiting? then SettledBy(e, k, s.ids[k]) else s.outcomes[k]
  {
    RunKeepsInv(events);
    StepKeepsInv(Run(events), e);
    OtherEventsKeep(Run(events), e, k);
  }

  /** Whether the entry of a caller outlives an event: a response with its id, stop, and its own cleanup after a
      timeout remove it. */
  predicate Outlives<R>(e: Event<R>, k: nat, id: int, timedOut: bool) {
    match e
    case Response(i, _) => i != id
    case Stop => false
    case Forget(j) => j != k || !timedOut
    case _ => true
  }

  predicate Kept<R>(events: seq<Event<R>>, k: nat, id: int)
    decreases |events|
  {
    events == [] ||
    var init, e := events[..|events| - 1], events[|events| - 1];
    Kept(init, k, id) && Outlives(e, k, id, FirstSettlement(init, k, id).TimedOut?)
  }

  lemma StepKeepsEntry<R(!new)>(s: State<R>, e: Event<R>, k: nat)
    requires Inv(s) && k < |s.ids|
    ensures s.ids[k] in Step(s, e).pending <==> s.ids[k] in s.pending && Outlives(e, k, s.ids[k], s.outcomes[k].TimedOut?)
  {
    match e
    case Forget(j) =>
      if j < |s.ids| && j != k {
        assert s.ids[j] != s.ids[k];
      }
    case _ =>
  }

  lemma EntryIsOwn<R(!new)>(s: State<R>, k: nat)
    requires Inv(s) && k < |s.ids| && s.ids[k] in s.pending
    ensures s.pending[s.ids[k]] == k
  {
  }

  lemma SentIsPending<R(!new)>(before: seq<Event<R>>)
    ensures var s := Run(before + [Send]); |s.ids| > 0 && s.ids[|s.ids| - 1] in s.pending
  {
    RunAppend(before, Send);
  }

  lemma EntryAfter<R(!new)>(events: seq<Event<R>>, e: Event<R>, k: nat, id: int)
    requires k < |Run(events).ids| && Run(events).ids[k] == id
    ensures var s := Run(events);
            k < |s.outcomes| &&
            (id in Run(events + [e]).pending <==> id in s.pending && Outlives(e, k, id, s.outcomes[k].TimedOut?))
  {
    RunAppend(events, e);
    RunKeepsInv(events);
    StepKeepsEntry(Run(events), e, k);
  }

  /** In every interleaving a caller has a pending entry exactly until one of these events, and it is its own. */
  lemma {:induction false} PendingExactly<R(!new)>(before: seq<Event<R>>, after: seq<Event<R>>)
    ensures var k, id := |Run(before).ids|, Requests(before) + 1;
            var s := Run(before + [Send] + after);
            (id in s.pending <==> Kept(after, k, id)) && (id in s.pending ==> s.pending[id] == k)
    decreases |after|
  {
    var k, id := |Run(before).ids|, Requests(before) + 1;
    SettledByFirst(before, after);
    RunKeepsInv(before + [Send] + after);
    if after == [] {
      assert before + [Send] + after == before + [Send];
      SentIsPending(before);
      RunAppend(before, Send);
    } else {
      var init, e := after[..|after| - 1], after[|after| - 1];
      assert after == init + [e];
      Assoc(before + [Send], init, [e]);
      PendingExactly(before, init);
      SettledByFirst(before, init);
      EntryAfter(before + [Send] + init, e, k, id);
    }
    if id in Run(before + [Send] + after).pending {
      EntryIsOwn(Run(before + [Send] + after), k);
    }
  }
}
