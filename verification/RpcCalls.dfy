/**
 The request ids of RpcConnection.  Calls are numbered in the order they are
 made; the id of a call is its number modulo 2^32, because last_request_id_ and
 the keys of request_id_to_response_map_ are uint32.
 */
module RpcCalls {
  import opened Bytes

  /** The completion of a call was run for a response that carries id. */
  datatype Completion = Completion(call: nat, id: nat)

  /**
   calls: how many were made; waiting: request_id_to_response_map_ with the
   number of the call for its completion object; log: the completions that have
   been run, oldest first; lost: the calls whose entry went to another call.
   */
  datatype Channel = Channel(calls: nat, waiting: map<nat, nat>, log: seq<Completion>, lost: set<nat>)

  const NEW_CHANNEL: Channel := Channel(0, map[], [], {})

  function Key(n: nat): nat {
    n % TWO_TO_THE_32
  }

  /** The next call finds an entry of an earlier one under its id. */
  predicate Overlaps(c: Channel) {
    Key(c.calls) in c.waiting
  }

  function Called(c: Channel): Channel {
    var key := Key(c.calls);
    Channel(c.calls + 1, c.waiting[key := c.calls], c.log,
            if Overlaps(c) then c.lost + {c.waiting[key]} else c.lost)
  }

  function CalledTimes(c: Channel, n: nat): (r: Channel)
    ensures c.waiting.Keys <= r.waiting.Keys && r.log == c.log && r.calls == c.calls + n
  {
    if n == 0 then c else Called(CalledTimes(c, n - 1))
  }

  /** A response whose completion makes nested calls while its own entry is still in the map. */
  function Responded(c: Channel, id: nat, nested: nat): Channel {
    var key := Key(id);
    if key !in c.waiting then c
    else
      var call := c.waiting[key];
      var d := CalledTimes(c, nested);
      Channel(d.calls, d.waiting - {key}, d.log + [Completion(call, id)], d.lost + {d.waiting[key]} - {call})
  }

  datatype Event = Call | Response(id: nat, nested: nat)

  function Step(c: Channel, e: Event): Channel {
    match e
    case Call => Called(c)
    case Response(id, nested) => Responded(c, id, nested)
  }

  function Run(events: seq<Event>): Channel {
    if events == [] then NEW_CHANNEL else Step(Run(events[..|events| - 1]), events[|events| - 1])
  }

  // ---- The object ----

  class RpcChannel {
    var lastRequestId: nat
    var responseMap: map<nat, nat>
    var calls: nat // numbers the completion objects
    var log: seq<Completion>
    var lost: set<nat>

    function Value(): Channel
      reads this
    {
      Channel(calls, responseMap, log, lost)
    }

    ghost predicate Valid()
      reads this
    {
      lastRequestId == Key(calls) && Inv(Value())
    }

    constructor ()
      ensures Valid() && Value() == NEW_CHANNEL
    {
      lastRequestId, responseMap, calls, log, lost := 0, map[], 0, [], {};
    }

    method CallMethod() returns (id: nat)
      requires Valid()
      modifies this
      ensures Valid() && Value() == Called(old(Value())) && id == Key(old(calls))
    {
      CalledKeeps(Value());
      id := lastRequestId;
      KeyStep(calls);
      lastRequestId := (lastRequestId + 1) % TWO_TO_THE_32;
      if id in responseMap {
        lost := lost + {responseMap[id]};
      }
      responseMap := responseMap[id := calls];
      calls := calls + 1;
    }

    /** The calls that a completion makes while its own entry is still in the map. */
    method NestedCalls(nested: nat)
      requires Valid()
      modifies this
      ensures Valid() && Value() == CalledTimes(old(Value()), nested)
    {
      for i := 0 to nested
        invariant Valid() && Value() == CalledTimes(old(Value()), i)
      {
        var _ := CallMethod();
      }
    }

    /** OnReponseMessage: the entry of the id is erased after the completion, whoever holds it then. */
    method OnResponse(id: nat, nested: nat) returns (found: bool)
      requires Valid()
      modifies this
      ensures Valid() && Value() == Responded(old(Value()), id, nested)
      ensures found <==> Key(id) in old(responseMap)
      ensures !found ==> Value() == old(Value())
      ensures found ==> Key(id) !in responseMap && log == old(log) + [Completion(old(responseMap)[Key(id)], id)]
    {
      var key := Key(id);
      if key !in responseMap {
        return false;
      }
      RespondedKeeps(Value(), id, nested);
      var call := responseMap[key];
      NestedCalls(nested);
      log := log + [Completion(call, id)];
      lost := lost + {responseMap[key]} - {call};
      responseMap := responseMap - {key};
      return true;
    }
  }

  // ---- The invariant ----

  predicate Waits(waiting: map<nat, nat>, n: nat) {
    Key(n) in waiting && waiting[Key(n)] == n
  }

  ghost predicate Answered(log: seq<Completion>, n: nat) {
    exists i :: 0 <= i < |log| && log[i].call == n
  }

  /** Call n waits, was answered or is lost, and only one of these; a number not called yet is nowhere. */
  ghost predicate OnePlace(c: Channel, n: nat) {
    (if Waits(c.waiting, n) then 1 else 0) + (if Answered(c.log, n) then 1 else 0) + (if n in c.lost then 1 else 0)
    == if n < c.calls then 1 else 0
  }

  /** No completion is run twice, and each only for its own id modulo 2^32. */
  ghost predicate RunOnce(log: seq<Completion>) {
    && (forall i, j :: 0 <= i < j < |log| ==> log[i].call != log[j].call)
    && (forall i :: 0 <= i < |log| ==> Key(log[i].id) == Key(log[i].call))
  }

  ghost predicate Inv(c: Channel) {
    && (forall k :: k in c.waiting ==> Waits(c.waiting, c.waiting[k]) && Key(c.waiting[k]) == k)
    && (forall n: nat :: OnePlace(c, n))
    && RunOnce(c.log)
    && (c.calls <= TWO_TO_THE_32 ==> c.lost == {})
  }

  lemma KeyStep(n: nat)
    ensures Key(n + 1) == (Key(n) + 1) % TWO_TO_THE_32
  {
  }

  /** Two calls share an id only after 2^32 calls. */
  lemma SharedKey(c: nat, n: nat)
    requires c < n && Key(c) == Key(n)
    ensures n >= TWO_TO_THE_32
  {
  }

  lemma AnsweredMore(log: seq<Completion>, c: Completion, n: nat)
    ensures Answered(log + [c], n) <==> Answered(log, n) || n == c.call
  {
    var more := log + [c];
    if n == c.call {
      assert more[|log|].call == n;
    } else if Answered(log, n) {
      var i :| 0 <= i < |log| && log[i].call == n;
      assert more[i].call == n;
    }
  }

  lemma CalledKeeps(c: Channel)
    requires Inv(c)
    ensures Inv(Called(c))
  {
    var d, key := Called(c), Key(c.calls);
    if Overlaps(c) {
      assert OnePlace(c, c.waiting[key]);
      SharedKey(c.waiting[key], c.calls);
    }
    forall n: nat
      ensures OnePlace(d, n)
    {
      assert OnePlace(c, n);
    }
  }

  lemma {:induction false} CalledTimesKeeps(c: Channel, n: nat)
    requires Inv(c)
    ensures Inv(CalledTimes(c, n))
  {
    if n > 0 {
      CalledTimesKeeps(c, n - 1);
      CalledKeeps(CalledTimes(c, n - 1));
    }
  }

  /** A call that waits goes on waiting through further calls, or its entry is taken. */
  lemma {:induction false} WaitsOrLost(c: Channel, n: nat, call: nat)
    requires Inv(c) && Waits(c.waiting, call)
    ensures var d := CalledTimes(c, n); Waits(d.waiting, call) || call in d.lost
  {
    if n > 0 {
      WaitsOrLost(c, n - 1, call);
    }
  }

  lemma RespondedKeeps(c: Channel, id: nat, nested: nat)
    requires Inv(c)
    ensures Inv(Responded(c, id, nested))
  {
    var key := Key(id);
    if key in c.waiting {
      var call, d := c.waiting[key], CalledTimes(c, nested);
      CalledTimesKeeps(c, nested);
      WaitsOrLost(c, nested, call);
      RespondedPlaces(d, call, id);
      assert OnePlace(d, call);
    }
  }

  /** Running the completion of call and erasing the entry of id, seen from every call. */
  lemma RespondedPlaces(d: Channel, call: nat, id: nat)
    requires Inv(d) && Key(call) == Key(id) && Key(id) in d.waiting
    requires Waits(d.waiting, call) || call in d.lost
    ensures var e := Channel(d.calls, d.waiting - {Key(id)}, d.log + [Completion(call, id)],
                             d.lost + {d.waiting[Key(id)]} - {call});
            forall n: nat :: OnePlace(e, n)
  {
    var erased := d.waiting[Key(id)];
    var e := Channel(d.calls, d.waiting - {Key(id)}, d.log + [Completion(call, id)], d.lost + {erased} - {call});
    forall n: nat
      ensures OnePlace(e, n)
    {
      AnsweredMore(d.log, Completion(call, id), n);
      assert OnePlace(d, n);
      assert Waits(e.waiting, n) <==> Waits(d.waiting, n) && n != erased;
    }
  }

  lemma {:induction false} EveryRunKeeps(events: seq<Event>)
    ensures Inv(Run(events))
  {
    if events != [] {
      var n := |events| - 1;
      EveryRunKeeps(events[..n]);
      match events[n] {
        case Call => CalledKeeps(Run(events[..n]));
        case Response(id, nested) => RespondedKeeps(Run(events[..n]), id, nested);
      }
    }
  }

  // ---- When a call is lost ----

  /** One of n calls made one after another finds its id taken. */
  predicate OverlapsAmong(c: Channel, n: nat) {
    n > 0 && (OverlapsAmong(c, n - 1) || Overlaps(CalledTimes(c, n - 1)))
  }

  predicate OverlapsAt(c: Channel, e: Event) {
    match e
    case Call => Overlaps(c)
    case Response(id, nested) => Key(id) in c.waiting && OverlapsAmong(c, nested)
  }

  /** Some call of the run, nested or not, is made while an earlier one waits under its id. */
  predicate OverlapsIn(events: seq<Event>) {
    events != []
    && var n := |events| - 1;
       OverlapsIn(events[..n]) || OverlapsAt(Run(events[..n]), events[n])
  }

  lemma {:induction false} CallsLoseExactly(c: Channel, n: nat)
    requires Inv(c)
    ensures CalledTimes(c, n).lost != {} <==> c.lost != {} || OverlapsAmong(c, n)
  {
    if n > 0 {
      CallsLoseExactly(c, n - 1);
      var d := CalledTimes(c, n - 1);
      if Overlaps(d) {
        assert d.waiting[Key(d.calls)] in Called(d).lost;
      }
    }
  }

  lemma ResponseLosesExactly(c: Channel, id: nat, nested: nat)
    requires Inv(c)
    ensures Responded(c, id, nested).lost != {} <==> c.lost != {} || OverlapsAt(c, Response(id, nested))
  {
    var key := Key(id);
    if key in c.waiting {
      var call, d := c.waiting[key], CalledTimes(c, nested);
      var erased := d.waiting[key];
      CallsLoseExactly(c, nested);
      CalledTimesKeeps(c, nested);
      WaitsOrLost(c, nested, call);
      assert OnePlace(d, call);
      if erased == call {
        assert Responded(c, id, nested).lost == d.lost;
      } else {
        assert erased in Responded(c, id, nested).lost;
        assert call in d.lost;
      }
    }
  }

  /** A call is lost in a run if and only if one is made while an earlier one still waits under the same id. */
  lemma {:induction false} LostExactly(events: seq<Event>)
    ensures Run(events).lost != {} <==> OverlapsIn(events)
  {
    if events != [] {
      var n := |events| - 1;
      var c := Run(events[..n]);
      LostExactly(events[..n]);
      EveryRunKeeps(events[..n]);
      match events[n] {
        case Call => CallsLoseExactly(c, 1);
        case Response(id, nested) => ResponseLosesExactly(c, id, nested);
      }
    }
  }

  /** The entries of the calls 0 to n - 1 and no others. */
  ghost predicate Filled(waiting: map<nat, nat>, n: nat) {
    && (forall k: nat :: k in waiting <==> k < n)
    && (forall k: nat :: k in waiting ==> waiting[k] == k)
  }

  lemma {:induction false} FirstCalls(n: nat)
    requires n <= TWO_TO_THE_32
    ensures var c := CalledTimes(NEW_CHANNEL, n); Filled(c.waiting, n) && c.lost == {}
  {
    if n > 0 {
      FirstCalls(n - 1);
      FilledMore(CalledTimes(NEW_CHANNEL, n - 1));
    }
  }

  lemma FilledMore(c: Channel)
    requires c.calls < TWO_TO_THE_32 && Filled(c.waiting, c.calls)
    ensures Filled(Called(c).waiting, c.calls + 1) && Called(c).lost == c.lost
  {
    assert Key(c.calls) == c.calls;
  }

  /**
   The completion of call 0 makes 2^32 calls: the last of them takes id 0, whose
   entry is erased when the completion returns, so that call is never answered.
   */
  lemma NestedCallIsLost(n: nat)
    requires n == TWO_TO_THE_32
    ensures var c := Run([Call, Response(0, n)]);
            c.lost == {n} && 0 !in c.waiting && c.log == [Completion(0, 0)]
  {
    RunOfTwo(n);
    NestedResponse(n);
  }

  lemma RunOfTwo(n: nat)
    ensures Run([Call, Response(0, n)]) == Responded(CalledTimes(NEW_CHANNEL, 1), 0, n)
  {
    var events := [Call, Response(0, n)];
    assert events[..1] == [Call] && [Call][..0] == [];
    assert Run([Call]) == Step(Run([]), Call);
    assert CalledTimes(NEW_CHANNEL, 1) == Called(CalledTimes(NEW_CHANNEL, 0));
  }

  /** The call after 2^32 unanswered ones takes the entry of the first. */
  lemma WrappedCall(c: Channel)
    requires c.calls == TWO_TO_THE_32 && Filled(c.waiting, c.calls) && c.lost == {}
    ensures Called(c).lost == {0} && 0 in Called(c).waiting && Called(c).waiting[0] == c.calls
  {
    assert Key(c.calls) == 0;
    assert 0 in c.waiting && c.waiting[0] == 0;
  }

  lemma WrappingCalls(n: nat)
    requires n == TWO_TO_THE_32
    ensures var d := CalledTimes(CalledTimes(NEW_CHANNEL, 1), n);
            d.lost == {0} && 0 in d.waiting && d.waiting[0] == n
  {
    var full := CalledTimes(NEW_CHANNEL, n);
    FirstCalls(n);
    WrappedCall(full);
    TimesAdd(NEW_CHANNEL, n, 1);
    TimesAdd(NEW_CHANNEL, 1, n);
    assert CalledTimes(full, 1) == Called(CalledTimes(full, 0));
  }

  lemma NestedResponse(n: nat)
    requires n == TWO_TO_THE_32
    ensures var c := Responded(CalledTimes(NEW_CHANNEL, 1), 0, n);
            c.lost == {n} && 0 !in c.waiting && c.log == [Completion(0, 0)]
  {
    var one := CalledTimes(NEW_CHANNEL, 1);
    FirstCalls(1);
    assert 0 in one.waiting && one.waiting[0] == 0;
    WrappingCalls(n);
  }

  lemma {:induction false} TimesAdd(c: Channel, m: nat, n: nat)
    ensures CalledTimes(c, m + n) == CalledTimes(CalledTimes(c, m), n)
  {
    if n > 0 {
      TimesAdd(c, m, n - 1);
    }
  }

  /**
   Any run: no completion is run twice, each only for a response whose id is
   the call's own id modulo 2^32, every call either waits, was answered or is
   lost, and one is lost exactly when ids overlapped, which takes 2^32 calls.
   */
  method RunCalls(events: seq<Event>) returns (c: Channel)
    ensures c == Run(events)
    ensures forall i, j :: 0 <= i < j < |c.log| ==> c.log[i].call != c.log[j].call
    ensures forall i :: 0 <= i < |c.log| ==> c.log[i].call < c.calls && Key(c.log[i].id) == Key(c.log[i].call)
    ensures forall n: nat :: OnePlace(c, n)
    ensures c.lost != {} <==> OverlapsIn(events)
    ensures c.calls <= TWO_TO_THE_32 ==> c.lost == {}
  {
    var channel := new RpcChannel();
    for i := 0 to |events|
      invariant fresh(channel) && channel.Valid() && channel.Value() == Run(events[..i])
    {
      assert events[..i + 1][..i] == events[..i];
      match events[i] {
        case Call =>
          var _ := channel.CallMethod();
        case Response(id, nested) =>
          var _ := channel.OnResponse(id, nested);
      }
    }
    assert events[..|events|] == events;
    c := channel.Value();
    LostExactly(events);
    forall i | 0 <= i < |c.log|
      ensures c.log[i].call < c.calls
    {
      assert Answered(c.log, c.log[i].call);
      assert OnePlace(c, c.log[i].call);
    }
  }
}
