/**
 Calls and responses over two links: a client numbers its calls and sends
 requests on one link, the service answers the requests it was handed, in any
 order, on the other, and the client runs completions for what comes back.
 */
module RpcExchange {
  import opened Bytes
  import opened Framing
  import opened RpcConnections
  import opened Sets
  import Calls = RpcCalls
  import Link = RpcDelivery

  datatype Request<+Q> = Request(id: nat, payload: Q)

  datatype Response<+A> = Response(id: nat, result: A)

  /**
   payloads: of the calls, in order; numbers: the calls whose requests were
   accepted for sending; results: what the service answered to the requests it
   was handed, by their position; sources: which of those each accepted
   response answers.
   */
  datatype World<+Q, +A> = World(
    payloads: seq<Q>,
    channel: Calls.Channel,
    numbers: seq<nat>,
    forward: Link.Link<Request<Q>>,
    results: map<nat, A>,
    sources: seq<nat>,
    backward: Link.Link<Response<A>>)

  datatype Event<+Q, +A> =
    | Call(payload: Q, writes: seq<WriteResult>)
    | Forward(request: Link.Action<Request<Q>>)
    | Answer(position: nat, result: A, writes: seq<WriteResult>)
    | Backward(response: Link.Action<Response<A>>)

  datatype Codecs<!Q(!new), !A(!new)> = Codecs(requests: Codec<Request<Q>>, responses: Codec<Response<A>>) {
    ghost predicate Sound() {
      requests.RoundTrips() && requests.NonEmpty() && responses.RoundTrips() && responses.NonEmpty()
    }
  }

  function Start<Q, A>(): World<Q, A> {
    World([], Calls.NEW_CHANNEL, [], Link.Init(), map[], [], Link.Init())
  }

  /** OnReponseMessage for each response that is handed up. */
  function RespondAll<A>(c: Calls.Channel, responses: seq<Response<A>>): Calls.Channel {
    if responses == [] then c
    else
      var n := |responses| - 1;
      Calls.Responded(RespondAll(c, responses[..n]), responses[n].id, 0)
  }

  /** The notes about accepted messages after a send that may have been accepted. */
  function Noted<M>(notes: seq<nat>, note: nat, before: Link.Link<M>, after: Link.Link<M>): seq<nat> {
    if |before.sender.accepted| < |after.sender.accepted| then notes + [note] else notes
  }

  ghost predicate NextCall<Q(!new), A(!new)>(
    k: Codecs<Q, A>, w: World<Q, A>, payload: Q, writes: seq<WriteResult>, w': World<Q, A>)
  {
    var request := Request(Calls.Key(w.channel.calls), payload);
    && Link.Next(k.requests, w.forward, Link.Send(request, writes), w'.forward)
    && w' == w.(payloads := w.payloads + [payload], channel := Calls.Called(w.channel), forward := w'.forward,
                numbers := Noted(w.numbers, w.channel.calls, w.forward, w'.forward))
  }

  /** OnServiceDone for a request that was handed up and is not answered yet. */
  ghost predicate NextAnswer<Q(!new), A(!new)>(
    k: Codecs<Q, A>, w: World<Q, A>, position: nat, result: A, writes: seq<WriteResult>, w': World<Q, A>)
  {
    var handed := w.forward.receiver.delivered;
    if position >= |handed| || position in w.results then w' == w
    else
      && Link.Next(k.responses, w.backward, Link.Send(Response(handed[position].id, result), writes), w'.backward)
      && w' == w.(results := w.results[position := result], backward := w'.backward,
                  sources := Noted(w.sources, position, w.backward, w'.backward))
  }

  ghost predicate Next<Q(!new), A(!new)>(k: Codecs<Q, A>, w: World<Q, A>, e: Event<Q, A>, w': World<Q, A>) {
    match e
    case Call(payload, writes) => NextCall(k, w, payload, writes, w')
    case Forward(a) =>
      if a.Send? then w' == w
      else Link.Next(k.requests, w.forward, a, w'.forward) && w' == w.(forward := w'.forward)
    case Answer(position, result, writes) => NextAnswer(k, w, position, result, writes, w')
    case Backward(a) =>
      if a.Send? then w' == w
      else
        && Link.Next(k.responses, w.backward, a, w'.backward)
        && |w.backward.receiver.delivered| <= |w'.backward.receiver.delivered|
        && w' == w.(backward := w'.backward,
                    channel := RespondAll(w.channel, NewResponses(w.backward, w'.backward)))
  }

  function NewResponses<A>(before: Link.Link<Response<A>>, after: Link.Link<Response<A>>): seq<Response<A>>
    requires |before.receiver.delivered| <= |after.receiver.delivered|
  {
    after.receiver.delivered[|before.receiver.delivered|..]
  }

  // ---- The invariant ----

  /** The requests accepted for sending are those of the numbered calls, in the order of the calls. */
  ghost predicate RequestsAreCalls<Q>(
    payloads: seq<Q>, calls: nat, numbers: seq<nat>, accepted: seq<Request<Q>>)
  {
    && |payloads| == calls && |numbers| == |accepted|
    && (forall i :: 0 <= i < |numbers| ==> numbers[i] < calls)
    && (forall i, j :: 0 <= i < j < |numbers| ==> numbers[i] < numbers[j])
    && (forall i :: 0 <= i < |accepted| ==> accepted[i] == Request(Calls.Key(numbers[i]), payloads[numbers[i]]))
  }

  /** Each accepted response answers a request that was handed up, and no two the same one. */
  ghost predicate ResponsesAreAnswers<Q, A>(
    handed: seq<Request<Q>>, results: map<nat, A>, sources: seq<nat>, accepted: seq<Response<A>>)
  {
    && |sources| == |accepted|
    && (forall p :: p in results ==> p < |handed|)
    && (forall i, j :: 0 <= i < j < |sources| ==> sources[i] != sources[j])
    && (forall i :: 0 <= i < |sources| ==> sources[i] in results)
    && (forall i :: 0 <= i < |sources| ==> accepted[i] == Response(handed[sources[i]].id, results[sources[i]]))
  }

  /** The k-th completion was run for the k-th response handed up. */
  ghost predicate CompletionsFollow<A>(c: Calls.Channel, delivered: seq<Response<A>>) {
    c.calls <= TWO_TO_THE_32 ==>
      && |c.log| == |delivered|
      && forall i :: 0 <= i < |c.log| ==> c.log[i] == Calls.Completion(delivered[i].id, delivered[i].id)
  }

  /** What is on the links comes from calls and answers. */
  ghost predicate Genuine<Q(!new), A(!new)>(k: Codecs<Q, A>, w: World<Q, A>) {
    && Link.Conserved(k.requests, w.forward) && Link.Conserved(k.responses, w.backward)
    && RequestsAreCalls(w.payloads, w.channel.calls, w.numbers, w.forward.sender.accepted)
    && ResponsesAreAnswers(w.forward.receiver.delivered, w.results, w.sources, w.backward.sender.accepted)
  }

  ghost predicate Inv<Q(!new), A(!new)>(k: Codecs<Q, A>, w: World<Q, A>) {
    Genuine(k, w) && Calls.Inv(w.channel) && CompletionsFollow(w.channel, w.backward.receiver.delivered)
  }

  lemma DeliveredIsPrefix<M(!new)>(codec: Codec<M>, l: Link.Link<M>)
    requires codec.RoundTrips() && codec.NonEmpty() && Link.Conserved(codec, l)
    ensures l.receiver.delivered <= l.sender.accepted
    ensures l.sender.unsent == [] && l.wire == [] ==> l.receiver.delivered == l.sender.accepted
  {
    Link.ConservedDelivers(codec, l);
  }

  /** A response handed up comes from a call, and different ones from different calls. */
  lemma ResponseComesFromCall<Q(!new), A(!new)>(k: Codecs<Q, A>, w: World<Q, A>, i: nat)
    requires k.Sound() && Genuine(k, w) && w.channel.calls <= TWO_TO_THE_32 && i < |w.backward.receiver.delivered|
    ensures i < |w.sources| && w.backward.receiver.delivered[i] == w.backward.sender.accepted[i]
    ensures w.sources[i] < |w.forward.receiver.delivered| <= |w.numbers|
    ensures var call := w.numbers[w.sources[i]];
            && call < w.channel.calls && w.backward.receiver.delivered[i].id == call
            && w.forward.receiver.delivered[w.sources[i]] == Request(call, w.payloads[call])
            && w.sources[i] in w.results && w.backward.receiver.delivered[i].result == w.results[w.sources[i]]
  {
    DeliveredIsPrefix(k.requests, w.forward);
    DeliveredIsPrefix(k.responses, w.backward);
    AnswerOfCall(w.payloads, w.channel.calls, w.numbers, w.forward.sender.accepted,
                 w.forward.receiver.delivered, w.results, w.sources, w.backward.sender.accepted, i);
  }

  /** The i-th accepted response answers the request of a call, by the notes alone. */
  lemma AnswerOfCall<Q, A>(
    payloads: seq<Q>, calls: nat, numbers: seq<nat>, requests: seq<Request<Q>>,
    handed: seq<Request<Q>>, results: map<nat, A>, sources: seq<nat>, responses: seq<Response<A>>, i: nat)
    requires RequestsAreCalls(payloads, calls, numbers, requests) && handed <= requests
    requires ResponsesAreAnswers(handed, results, sources, responses)
    requires calls <= TWO_TO_THE_32 && i < |responses|
    ensures sources[i] < |handed| <= |numbers| && sources[i] in results
    ensures var call := numbers[sources[i]];
            && call < calls && handed[sources[i]] == Request(call, payloads[call])
            && responses[i] == Response(call, results[sources[i]])
  {
    var j := sources[i];
    assert handed[j] == requests[j];
    assert Calls.Key(numbers[j]) == numbers[j];
  }

  lemma ResponsesDiffer<Q(!new), A(!new)>(k: Codecs<Q, A>, w: World<Q, A>, i: nat, j: nat)
    requires k.Sound() && Genuine(k, w) && w.channel.calls <= TWO_TO_THE_32
    requires i < j < |w.backward.receiver.delivered|
    ensures w.backward.receiver.delivered[i].id != w.backward.receiver.delivered[j].id
  {
    ResponseComesFromCall(k, w, i);
    ResponseComesFromCall(k, w, j);
    var a, b := w.sources[i], w.sources[j];
    assert a != b;
    assert w.numbers[a] != w.numbers[b];
  }

  /** The response to a call that was made and not answered runs that call's completion. */
  lemma RespondOne(c: Calls.Channel, id: nat)
    requires Calls.Inv(c) && c.calls <= TWO_TO_THE_32 && id < c.calls && !Calls.Answered(c.log, id)
    ensures var d := Calls.Responded(c, id, 0);
            Calls.Inv(d) && d.calls == c.calls && d.log == c.log + [Calls.Completion(id, id)]
  {
    Calls.RespondedKeeps(c, id, 0);
    assert Calls.OnePlace(c, id);
  }

  /** The responses after the first n, one after another. */
  lemma {:induction false} RespondRest<A>(c: Calls.Channel, delivered: seq<Response<A>>, n: nat, m: nat)
    requires Calls.Inv(c) && c.calls <= TWO_TO_THE_32 && n <= m <= |delivered|
    requires CompletionsFollow(c, delivered[..n])
    requires forall i :: 0 <= i < |delivered| ==> delivered[i].id < c.calls
    requires forall i, j :: 0 <= i < j < |delivered| ==> delivered[i].id != delivered[j].id
    ensures var d := RespondAll(c, delivered[n..m]);
            Calls.Inv(d) && d.calls == c.calls && CompletionsFollow(d, delivered[..m])
    decreases m
  {
    if n < m {
      RespondRest(c, delivered, n, m - 1);
      var part := delivered[n..m];
      assert part[..|part| - 1] == delivered[n..m - 1];
      assert part[|part| - 1] == delivered[m - 1];
      RespondNext(RespondAll(c, delivered[n..m - 1]), delivered, m - 1);
    }
  }

  /** One more response completes its call. */
  lemma RespondNext<A>(c: Calls.Channel, delivered: seq<Response<A>>, n: nat)
    requires Calls.Inv(c) && c.calls <= TWO_TO_THE_32 && n < |delivered|
    requires CompletionsFollow(c, delivered[..n]) && delivered[n].id < c.calls
    requires forall i :: 0 <= i < n ==> delivered[i].id != delivered[n].id
    ensures var d := Calls.Responded(c, delivered[n].id, 0);
            Calls.Inv(d) && d.calls == c.calls && CompletionsFollow(d, delivered[..n + 1])
  {
    assert !Calls.Answered(c.log, delivered[n].id);
    RespondOne(c, delivered[n].id);
  }

  /** Responses never change how many calls there are, and keep the channel's invariant. */
  lemma {:induction false} RespondAllKeeps<A>(c: Calls.Channel, responses: seq<Response<A>>)
    requires Calls.Inv(c)
    ensures Calls.Inv(RespondAll(c, responses)) && RespondAll(c, responses).calls == c.calls
  {
    if responses != [] {
      var n := |responses| - 1;
      RespondAllKeeps(c, responses[..n]);
      Calls.RespondedKeeps(RespondAll(c, responses[..n]), responses[n].id, 0);
    }
  }

  // ---- Every event keeps it ----

  /** A send adds its message to the accepted ones or leaves them, and the receiver alone. */
  lemma SendAccepts<M(!new)>(
    codec: Codec<M>, l: Link.Link<M>, m: M, writes: seq<WriteResult>, l': Link.Link<M>)
    requires Link.Next(codec, l, Link.Send(m, writes), l')
    ensures l'.receiver == l.receiver
    ensures l'.sender.accepted == l.sender.accepted || l'.sender.accepted == l.sender.accepted + [m]
  {
  }

  /** One more call, whose request was accepted or was not. */
  lemma RequestsMore<Q>(
    payloads: seq<Q>, calls: nat, numbers: seq<nat>, accepted: seq<Request<Q>>, payload: Q)
    requires RequestsAreCalls(payloads, calls, numbers, accepted)
    ensures RequestsAreCalls(payloads + [payload], calls + 1, numbers, accepted)
    ensures RequestsAreCalls(payloads + [payload], calls + 1, numbers + [calls],
                             accepted + [Request(Calls.Key(calls), payload)])
  {
    assert forall i :: 0 <= i < |numbers| ==> (payloads + [payload])[numbers[i]] == payloads[numbers[i]];
  }

  /** One more answer, whose response was accepted or was not. */
  lemma ResponsesMore<Q, A>(
    handed: seq<Request<Q>>, results: map<nat, A>, sources: seq<nat>, accepted: seq<Response<A>>,
    position: nat, result: A)
    requires ResponsesAreAnswers(handed, results, sources, accepted) && position < |handed| && position !in results
    ensures ResponsesAreAnswers(handed, results[position := result], sources, accepted)
    ensures ResponsesAreAnswers(handed, results[position := result], sources + [position],
                                accepted + [Response(handed[position].id, result)])
  {
  }

  lemma CallKeeps<Q(!new), A(!new)>(
    k: Codecs<Q, A>, w: World<Q, A>, payload: Q, writes: seq<WriteResult>, w': World<Q, A>)
    requires k.Sound() && Inv(k, w) && NextCall(k, w, payload, writes, w')
    ensures Inv(k, w')
  {
    var request := Request(Calls.Key(w.channel.calls), payload);
    Link.NextConserves(k.requests, w.forward, Link.Send(request, writes), w'.forward);
    SendAccepts(k.requests, w.forward, request, writes, w'.forward);
    RequestsMore(w.payloads, w.channel.calls, w.numbers, w.forward.sender.accepted, payload);
    Calls.CalledKeeps(w.channel);
    assert w'.backward == w.backward && w'.channel.log == w.channel.log;
  }

  lemma ForwardKeeps<Q(!new), A(!new)>(
    k: Codecs<Q, A>, w: World<Q, A>, a: Link.Action<Request<Q>>, w': World<Q, A>)
    requires k.Sound() && Inv(k, w) && !a.Send?
    requires Link.Next(k.requests, w.forward, a, w'.forward) && w' == w.(forward := w'.forward)
    ensures Inv(k, w')
  {
    Link.NextConserves(k.requests, w.forward, a, w'.forward);
    Link.NextExtends(k.requests, w.forward, a, w'.forward);
  }

  lemma AnswerKeeps<Q(!new), A(!new)>(
    k: Codecs<Q, A>, w: World<Q, A>, position: nat, result: A, writes: seq<WriteResult>, w': World<Q, A>)
    requires k.Sound() && Inv(k, w) && NextAnswer(k, w, position, result, writes, w')
    ensures Inv(k, w')
  {
    var handed := w.forward.receiver.delivered;
    if position < |handed| && position !in w.results {
      var response := Response(handed[position].id, result);
      Link.NextConserves(k.responses, w.backward, Link.Send(response, writes), w'.backward);
      SendAccepts(k.responses, w.backward, response, writes, w'.backward);
      ResponsesMore(handed, w.results, w.sources, w.backward.sender.accepted, position, result);
      assert w'.forward == w.forward && w'.channel == w.channel;
    }
  }

  lemma BackwardKeeps<Q(!new), A(!new)>(
    k: Codecs<Q, A>, w: World<Q, A>, a: Link.Action<Response<A>>, w': World<Q, A>)
    requires k.Sound() && Inv(k, w) && !a.Send? && Next(k, w, Backward(a), w')
    ensures Inv(k, w')
  {
    Link.NextConserves(k.responses, w.backward, a, w'.backward);
    Link.NextExtends(k.responses, w.backward, a, w'.backward);
    RespondAllKeeps(w.channel, NewResponses(w.backward, w'.backward));
    assert w'.forward == w.forward && w'.results == w.results && w'.sources == w.sources;
    assert w'.backward.sender.accepted == w.backward.sender.accepted;
    assert Genuine(k, w.(backward := w'.backward));
    NewResponsesComplete(k, w, w'.backward);
  }

  /** The responses that a read hands up run the completions of their calls. */
  lemma NewResponsesComplete<Q(!new), A(!new)>(k: Codecs<Q, A>, w: World<Q, A>, b: Link.Link<Response<A>>)
    requires k.Sound() && Calls.Inv(w.channel) && Genuine(k, w.(backward := b))
    requires CompletionsFollow(w.channel, w.backward.receiver.delivered)
    requires w.backward.receiver.delivered <= b.receiver.delivered
    ensures CompletionsFollow(RespondAll(w.channel, NewResponses(w.backward, b)), b.receiver.delivered)
  {
    var n, delivered := |w.backward.receiver.delivered|, b.receiver.delivered;
    RespondAllKeeps(w.channel, delivered[n..]);
    if w.channel.calls <= TWO_TO_THE_32 {
      ResponsesComeFromCalls(k, w.(backward := b));
      assert delivered[..n] == w.backward.receiver.delivered;
      RespondRest(w.channel, delivered, n, |delivered|);
      assert delivered[n..|delivered|] == delivered[n..] && delivered[..|delivered|] == delivered;
    }
  }

  /** All responses handed up come from calls, and from different ones. */
  lemma ResponsesComeFromCalls<Q(!new), A(!new)>(k: Codecs<Q, A>, w: World<Q, A>)
    requires k.Sound() && Genuine(k, w) && w.channel.calls <= TWO_TO_THE_32
    ensures var delivered := w.backward.receiver.delivered;
            && (forall i :: 0 <= i < |delivered| ==> delivered[i].id < w.channel.calls)
            && (forall i, j :: 0 <= i < j < |delivered| ==> delivered[i].id != delivered[j].id)
  {
    var delivered := w.backward.receiver.delivered;
    forall i | 0 <= i < |delivered|
      ensures delivered[i].id < w.channel.calls
    {
      ResponseComesFromCall(k, w, i);
    }
    forall i, j | 0 <= i < j < |delivered|
      ensures delivered[i].id != delivered[j].id
    {
      ResponsesDiffer(k, w, i, j);
    }
  }

  lemma NextKeeps<Q(!new), A(!new)>(k: Codecs<Q, A>, w: World<Q, A>, e: Event<Q, A>, w': World<Q, A>)
    requires k.Sound() && Inv(k, w) && Next(k, w, e, w')
    ensures Inv(k, w')
  {
    match e {
      case Call(payload, writes) => CallKeeps(k, w, payload, writes, w');
      case Forward(a) =>
        if !a.Send? {
          ForwardKeeps(k, w, a, w');
        }
      case Answer(position, result, writes) => AnswerKeeps(k, w, position, result, writes, w');
      case Backward(a) =>
        if !a.Send? {
          BackwardKeeps(k, w, a, w');
        }
    }
  }

  // ---- Runs ----

  ghost predicate StepAt<Q(!new), A(!new)>(
    k: Codecs<Q, A>, events: seq<Event<Q, A>>, worlds: seq<World<Q, A>>, i: nat)
    requires i < |events| && |worlds| == |events| + 1
  {
    Next(k, worlds[i], events[i], worlds[i + 1])
  }

  ghost predicate IsRun<Q(!new), A(!new)>(k: Codecs<Q, A>, events: seq<Event<Q, A>>, worlds: seq<World<Q, A>>) {
    && |worlds| == |events| + 1
    && worlds[0] == Start()
    && forall i: nat :: i < |events| ==> StepAt(k, events, worlds, i)
  }

  lemma StartInv<Q(!new), A(!new)>(k: Codecs<Q, A>)
    ensures Inv(k, Start<Q, A>())
  {
    Link.InitConserved(k.requests);
    Link.InitConserved(k.responses);
  }

  lemma {:induction false} EveryRunKeeps<Q(!new), A(!new)>(
    k: Codecs<Q, A>, events: seq<Event<Q, A>>, worlds: seq<World<Q, A>>, i: nat)
    requires k.Sound() && IsRun(k, events, worlds) && i < |worlds|
    ensures Inv(k, worlds[i])
  {
    if i == 0 {
      StartInv(k);
    } else {
      EveryRunKeeps(k, events, worlds, i - 1);
      assert StepAt(k, events, worlds, i - 1);
      NextKeeps(k, worlds[i - 1], events[i - 1], worlds[i]);
    }
  }

  /** The i-th completion was run for the answer to the request of its own call. */
  ghost predicate Completes<Q, A>(w: World<Q, A>, i: nat)
    requires i < |w.channel.log| == |w.backward.receiver.delivered| && i < |w.sources|
  {
    var call, position := w.channel.log[i].call, w.sources[i];
    && position < |w.forward.receiver.delivered| && call < |w.payloads|
    && w.forward.receiver.delivered[position] == Request(call, w.payloads[call])
    && position in w.results
    && w.backward.receiver.delivered[i] == Response(call, w.results[position])
  }

  /** Each response handed up has completed a call, each with the answer to its own request, none twice. */
  ghost predicate AllGenuine<Q, A>(w: World<Q, A>) {
    && |w.channel.log| == |w.backward.receiver.delivered| <= |w.sources|
    && (forall i :: 0 <= i < |w.channel.log| ==> Completes(w, i))
    && (forall i, j :: 0 <= i < j < |w.channel.log| ==> w.channel.log[i].call != w.channel.log[j].call)
  }

  /**
   In every state of every run with at most 2^32 calls, however the links cut up
   the bytes and in whatever order the service answers: each response that is
   handed up completes exactly one call, with the service's answer to the very
   request that this call sent, and no call is completed twice.
   */
  lemma CompletionsAreGenuine<Q(!new), A(!new)>(
    k: Codecs<Q, A>, events: seq<Event<Q, A>>, worlds: seq<World<Q, A>>, n: nat)
    requires k.Sound() && IsRun(k, events, worlds) && n < |worlds|
    requires worlds[n].channel.calls <= TWO_TO_THE_32
    ensures AllGenuine(worlds[n])
  {
    var w := worlds[n];
    EveryRunKeeps(k, events, worlds, n);
    DeliveredIsPrefix(k.responses, w.backward);
    forall i | 0 <= i < |w.channel.log|
      ensures Completes(w, i)
    {
      ResponseComesFromCall(k, w, i);
    }
  }

  /** When nothing is under way and every call was accepted and answered, every call has been completed. */
  lemma AllCallsComplete<Q(!new), A(!new)>(
    k: Codecs<Q, A>, events: seq<Event<Q, A>>, worlds: seq<World<Q, A>>, n: nat, call: nat)
    requires k.Sound() && IsRun(k, events, worlds) && n < |worlds|
    requires worlds[n].channel.calls <= TWO_TO_THE_32 && call < worlds[n].channel.calls
    requires |worlds[n].sources| == worlds[n].channel.calls
    requires worlds[n].backward.sender.unsent == [] && worlds[n].backward.wire == []
    ensures Calls.Answered(worlds[n].channel.log, call)
  {
    var w := worlds[n];
    EveryRunKeeps(k, events, worlds, n);
    DeliveredIsPrefix(k.responses, w.backward);
    ResponsesComeFromCalls(k, w);
    var calls := seq(|w.channel.log|, i requires 0 <= i < |w.channel.log| => w.channel.log[i].call);
    AllNumbersOccur(calls, call);
    var i :| 0 <= i < |calls| && calls[i] == call;
    assert w.channel.log[i].call == call;
  }

  // ---- Every accepted answer arrives ----

  /** On the way back the kernel never takes zero bytes. */
  predicate NoZeroBack<Q(==), A(==)>(e: Event<Q, A>) {
    match e
    case Answer(_, _, writes) => Wrote(0) !in writes
    case Backward(a) => Link.NoZeroWrite(a)
    case _ => true
  }

  lemma {:induction false} BackwardFlows<Q(!new), A(!new)>(
    k: Codecs<Q, A>, events: seq<Event<Q, A>>, worlds: seq<World<Q, A>>, i: nat)
    requires IsRun(k, events, worlds) && i < |worlds|
    requires forall j :: 0 <= j < i ==> NoZeroBack(events[j])
    ensures Link.Flowing(worlds[i].backward)
  {
    if i > 0 {
      BackwardFlows(k, events, worlds, i - 1);
      assert StepAt(k, events, worlds, i - 1);
      assert NoZeroBack(events[i - 1]);
    }
  }

  /** Events i to j - 1 all make progress on the way back. */
  ghost predicate AllBack<Q(!new), A(!new)>(events: seq<Event<Q, A>>, i: nat, j: nat)
    requires i <= j <= |events|
  {
    forall n :: i <= n < j ==> events[n].Backward? && Link.Progresses(events[n].response)
  }

  function BackWrites<Q, A>(events: seq<Event<Q, A>>, i: nat, j: nat): nat
    requires i <= j <= |events|
  {
    if i == j then 0
    else
      var e := events[j - 1];
      BackWrites(events, i, j - 1) + if e.Backward? && e.response.Writable? then 1 else 0
  }

  function BackReads<Q, A>(events: seq<Event<Q, A>>, i: nat, j: nat): nat
    requires i <= j <= |events|
  {
    if i == j then 0
    else
      var e := events[j - 1];
      BackReads(events, i, j - 1) + if e.Backward? && e.response.Readable? then 1 else 0
  }

  /** The way back is up, with the same answers accepted and calls made as in w. */
  ghost predicate BackUp<Q(!new), A(!new)>(w: World<Q, A>, v: World<Q, A>) {
    Link.Up(v.backward) && v.sources == w.sources && v.channel.calls == w.channel.calls
  }

  lemma BackStep<Q(!new), A(!new)>(
    k: Codecs<Q, A>, w: World<Q, A>, a: Link.Action<Response<A>>, w': World<Q, A>, unsent: nat, unread: nat)
    requires Calls.Inv(w.channel) && Next(k, w, Backward(a), w') && Link.Progresses(a)
    requires Link.Up(w.backward) && Link.Within(w.backward, unsent, unread)
    ensures BackUp(w, w') && Link.Within(w'.backward, unsent, unread)
    ensures a.Writable? && unsent > 0 ==> Link.Within(w'.backward, unsent - 1, unread)
    ensures a.Readable? && unsent == 0 && unread > 0 ==> Link.Within(w'.backward, 0, unread - 1)
  {
    Link.ProgressStep(k.responses, w.backward, a, w'.backward, unsent, unread);
    RespondAllKeeps(w.channel, NewResponses(w.backward, w'.backward));
  }

  lemma {:induction false} BackWritesDrain<Q(!new), A(!new)>(
    k: Codecs<Q, A>, events: seq<Event<Q, A>>, worlds: seq<World<Q, A>>, i: nat, j: nat)
    requires k.Sound() && IsRun(k, events, worlds) && i <= j <= |events|
    requires Link.Up(worlds[i].backward) && AllBack(events, i, j)
    ensures BackUp(worlds[i], worlds[j])
    ensures var l := worlds[i].backward;
            Link.Within(worlds[j].backward, Link.Max(0, |l.sender.unsent| - BackWrites(events, i, j)),
                        |l.sender.unsent| + |l.wire|)
    decreases j
  {
    if i < j {
      BackWritesDrain(k, events, worlds, i, j - 1);
      assert StepAt(k, events, worlds, j - 1);
      EveryRunKeeps(k, events, worlds, j - 1);
      var l := worlds[i].backward;
      BackStep(k, worlds[j - 1], events[j - 1].response, worlds[j],
               Link.Max(0, |l.sender.unsent| - BackWrites(events, i, j - 1)), |l.sender.unsent| + |l.wire|);
    }
  }

  lemma {:induction false} BackReadsDrain<Q(!new), A(!new)>(
    k: Codecs<Q, A>, events: seq<Event<Q, A>>, worlds: seq<World<Q, A>>, i: nat, j: nat, unread: nat)
    requires k.Sound() && IsRun(k, events, worlds) && i <= j <= |events|
    requires Link.Up(worlds[i].backward) && AllBack(events, i, j) && Link.Within(worlds[i].backward, 0, unread)
    ensures BackUp(worlds[i], worlds[j])
    ensures Link.Within(worlds[j].backward, 0, Link.Max(0, unread - BackReads(events, i, j)))
    decreases j
  {
    if i < j {
      BackReadsDrain(k, events, worlds, i, j - 1, unread);
      assert StepAt(k, events, worlds, j - 1);
      EveryRunKeeps(k, events, worlds, j - 1);
      BackStep(k, worlds[j - 1], events[j - 1].response, worlds[j], 0,
               Link.Max(0, unread - BackReads(events, i, j - 1)));
    }
  }

  /**
   From any state of a run without zero writes on the way back, whose two ends
   are up: after as many write events as bytes are unsent there, and then as
   many read events as bytes have not been read, every accepted answer has
   completed the call whose request it answers.
   */
  lemma AnswersComplete<Q(!new), A(!new)>(
    k: Codecs<Q, A>, events: seq<Event<Q, A>>, worlds: seq<World<Q, A>>, i: nat, j: nat, n: nat)
    requires k.Sound() && IsRun(k, events, worlds) && i <= j <= n <= |events|
    requires forall m :: 0 <= m < i ==> NoZeroBack(events[m])
    requires !worlds[i].backward.sender.down && !worlds[i].backward.receiver.down && AllBack(events, i, n)
    requires BackWrites(events, i, j) >= |worlds[i].backward.sender.unsent|
    requires BackReads(events, j, n) >= |worlds[i].backward.sender.unsent| + |worlds[i].backward.wire|
    requires worlds[i].channel.calls <= TWO_TO_THE_32
    ensures var w := worlds[n];
            && w.sources == worlds[i].sources
            && |w.channel.log| == |w.backward.receiver.delivered| == |w.sources|
            && forall m :: 0 <= m < |w.sources| ==> Completes(w, m)
  {
    var l := worlds[i].backward;
    BackwardFlows(k, events, worlds, i);
    BackWritesDrain(k, events, worlds, i, j);
    BackReadsDrain(k, events, worlds, j, n, |l.sender.unsent| + |l.wire|);
    EveryRunKeeps(k, events, worlds, n);
    DeliveredIsPrefix(k.responses, worlds[n].backward);
    CompletionsAreGenuine(k, events, worlds, n);
  }
}
