/** The streaming-response mock of packages/runtime/src/isolate/runtime.ts
    (`mockStreamResponse`). Calling `streamResponse(readableStream)` in the
    sandbox takes a reader of the stream and builds a second ReadableStream
    whose `start` pulls: each resolved read either ends the pull (close the
    second stream, send `done = true` to the host) or enqueues the chunk into
    the second stream, sends `(false, chunk)` to the host and pulls again.

    The reader is modelled by the sequence of what its results resolve to. */
module RuntimeStream {
  import opened Common

  type Bytes = seq<bv8>

  /** What one `reader.read()` settles to: a chunk, the end of the stream, or
      a rejection (which the source's `.then` does not handle). */
  datatype ReadResult = Chunk(value: Bytes) | Done | Failed

  /** One call of the host's `onReceiveStream(deployment, done, chunk)`. */
  datatype SinkEvent = SinkEvent(deploymentId: string, done: bool, chunk: Option<Bytes>)

  /** The effects of the pull loop, in the order they happen. */
  datatype Effect = Enqueue(chunk: Bytes) | Close | Emit(event: SinkEvent)

  /** What the handler of one settled read does. */
  function StepEffects(deploymentId: string, r: ReadResult): seq<Effect> {
    match r
    case Chunk(c) => [Enqueue(c), Emit(SinkEvent(deploymentId, false, Some(c)))]
    case Done => [Close, Emit(SinkEvent(deploymentId, true, None))]
    case Failed => []
  }

  /** The effects of pulling through `results`: the loop goes on after a chunk
      and stops after the end or a rejection. Reads that never settle are
      simply absent from the sequence. */
  function PullEffects(deploymentId: string, results: seq<ReadResult>): seq<Effect> {
    if results == [] then []
    else if results[0].Chunk? then StepEffects(deploymentId, results[0]) + PullEffects(deploymentId, results[1..])
    else StepEffects(deploymentId, results[0])
  }

  /** The calls the host sink receives. */
  function SinkEvents(effects: seq<Effect>): seq<SinkEvent> {
    if effects == [] then [] else EventOf(effects[0]) + SinkEvents(effects[1..])
  }

  function EventOf(e: Effect): seq<SinkEvent> {
    if e.Emit? then [e.event] else []
  }

  /** The chunks enqueued into the second stream. */
  function Enqueued(effects: seq<Effect>): seq<Bytes> {
    if effects == [] then [] else ChunkOf(effects[0]) + Enqueued(effects[1..])
  }

  function ChunkOf(e: Effect): seq<Bytes> {
    if e.Enqueue? then [e.chunk] else []
  }

  /** How many events carry `done = true`. */
  function TerminalCount(events: seq<SinkEvent>): nat {
    if events == [] then 0
    else (if events[0].done then 1 else 0) + TerminalCount(events[1..])
  }

  /** A producer that yields the chunks `cs`. */
  function Chunks(cs: seq<Bytes>): (results: seq<ReadResult>)
    ensures |results| == |cs|
    ensures forall i :: 0 <= i < |cs| ==> results[i] == Chunk(cs[i])
  {
    seq(|cs|, i requires 0 <= i < |cs| => Chunk(cs[i]))
  }

  /** The host events for the chunks `cs`, forwarded in order. */
  function Forwarded(deploymentId: string, cs: seq<Bytes>): (events: seq<SinkEvent>)
    ensures |events| == |cs|
    ensures forall i :: 0 <= i < |cs| ==> events[i] == SinkEvent(deploymentId, false, Some(cs[i]))
  {
    seq(|cs|, i requires 0 <= i < |cs| => SinkEvent(deploymentId, false, Some(cs[i])))
  }

  predicate AllChunks(results: seq<ReadResult>) {
    forall j :: 0 <= j < |results| ==> results[j].Chunk?
  }

  // ---- algebra of the projections -------------------------------------------

  lemma {:induction false} SinkEventsAppend(a: seq<Effect>, b: seq<Effect>)
    ensures SinkEvents(a + b) == SinkEvents(a) + SinkEvents(b)
    decreases |a|
  {
    if a == [] {
      assert a + b == b;
    } else {
      assert (a + b)[0] == a[0];
      assert (a + b)[1..] == a[1..] + b;
      SinkEventsAppend(a[1..], b);
    }
  }

  lemma {:induction false} EnqueuedAppend(a: seq<Effect>, b: seq<Effect>)
    ensures Enqueued(a + b) == Enqueued(a) + Enqueued(b)
    decreases |a|
  {
    if a == [] {
      assert a + b == b;
    } else {
      assert (a + b)[0] == a[0];
      assert (a + b)[1..] == a[1..] + b;
      EnqueuedAppend(a[1..], b);
    }
  }

  lemma {:induction false} TerminalCountAppend(a: seq<SinkEvent>, b: seq<SinkEvent>)
    ensures TerminalCount(a + b) == TerminalCount(a) + TerminalCount(b)
    decreases |a|
  {
    if a == [] {
      assert a + b == b;
    } else {
      assert (a + b)[0] == a[0];
      assert (a + b)[1..] == a[1..] + b;
      TerminalCountAppend(a[1..], b);
    }
  }

  /** What the host and the second stream see of one handled read. */
  lemma StepProjections(deploymentId: string, r: ReadResult)
    ensures SinkEvents(StepEffects(deploymentId, r)) ==
      match r
      case Chunk(c) => [SinkEvent(deploymentId, false, Some(c))]
      case Done => [SinkEvent(deploymentId, true, None)]
      case Failed => []
    ensures Enqueued(StepEffects(deploymentId, r)) == if r.Chunk? then [r.value] else []
  {
    var step := StepEffects(deploymentId, r);
    if step != [] {
      var second := step[1..];
      assert second == [step[1]] && second[1..] == [];
      assert SinkEvents(second) == EventOf(step[1]) + SinkEvents([]);
      assert Enqueued(second) == ChunkOf(step[1]) + Enqueued([]);
      assert SinkEvents(step) == EventOf(step[0]) + SinkEvents(second);
      assert Enqueued(step) == ChunkOf(step[0]) + Enqueued(second);
    }
  }

  /** The effects of handling the chunks `cs` one after the other. */
  function ChunkEffects(deploymentId: string, cs: seq<Bytes>): seq<Effect> {
    if cs == [] then [] else StepEffects(deploymentId, Chunk(cs[0])) + ChunkEffects(deploymentId, cs[1..])
  }

  /** Handling chunks enqueues each and forwards each, and neither closes the
      second stream nor sends a terminal event. */
  lemma {:induction false} ChunkEffectsProject(deploymentId: string, cs: seq<Bytes>)
    ensures SinkEvents(ChunkEffects(deploymentId, cs)) == Forwarded(deploymentId, cs)
    ensures Enqueued(ChunkEffects(deploymentId, cs)) == cs
    ensures Close !in ChunkEffects(deploymentId, cs)
    ensures TerminalCount(Forwarded(deploymentId, cs)) == 0
    decreases |cs|
  {
    if cs != [] {
      ChunkEffectsProject(deploymentId, cs[1..]);
      var step := StepEffects(deploymentId, Chunk(cs[0]));
      SinkEventsAppend(step, ChunkEffects(deploymentId, cs[1..]));
      EnqueuedAppend(step, ChunkEffects(deploymentId, cs[1..]));
      StepProjections(deploymentId, Chunk(cs[0]));
      assert Forwarded(deploymentId, cs) == [SinkEvent(deploymentId, false, Some(cs[0]))] + Forwarded(deploymentId, cs[1..]);
      assert Forwarded(deploymentId, cs)[1..] == Forwarded(deploymentId, cs[1..]);
    }
  }

  /** Pulling through chunks and then more: the chunks' effects come first. */
  lemma {:induction false} PullChunksThen(deploymentId: string, cs: seq<Bytes>, rest: seq<ReadResult>)
    ensures PullEffects(deploymentId, Chunks(cs) + rest)
         == ChunkEffects(deploymentId, cs) + PullEffects(deploymentId, rest)
    decreases |cs|
  {
    if cs == [] {
      assert Chunks(cs) + rest == rest;
    } else {
      var results := Chunks(cs) + rest;
      assert results[0] == Chunk(cs[0]);
      assert results[1..] == Chunks(cs[1..]) + rest;
      PullChunksThen(deploymentId, cs[1..], rest);
    }
  }

  // ---- the properties of the pull loop --------------------------------------

  /** For a stream of chunks c1..cn that then ends, the host receives exactly
      (false, c1) .. (false, cn), (true), in production order; the second
      stream holds exactly c1..cn and is closed. Whatever the reader would
      yield after the end is never pulled. */
  lemma EndedStream(deploymentId: string, cs: seq<Bytes>, rest: seq<ReadResult>)
    ensures var effects := PullEffects(deploymentId, Chunks(cs) + [Done] + rest);
      && SinkEvents(effects) == Forwarded(deploymentId, cs) + [SinkEvent(deploymentId, true, None)]
      && Enqueued(effects) == cs
      && Close in effects
  {
    assert Chunks(cs) + [Done] + rest == Chunks(cs) + ([Done] + rest);
    PullChunksThen(deploymentId, cs, [Done] + rest);
    ChunkEffectsProject(deploymentId, cs);
    var tail := PullEffects(deploymentId, [Done] + rest);
    assert tail == [Close, Emit(SinkEvent(deploymentId, true, None))];
    assert ([Done] + rest)[0] == Done;
    StepProjections(deploymentId, Done);
    SinkEventsAppend(ChunkEffects(deploymentId, cs), tail);
    EnqueuedAppend(ChunkEffects(deploymentId, cs), tail);
    assert Close in ChunkEffects(deploymentId, cs) + tail by {
      assert tail[0] == Close;
    }
  }

  /** An empty stream yields only the terminal event. */
  lemma EmptyStream(deploymentId: string, rest: seq<ReadResult>)
    ensures PullEffects(deploymentId, [Done] + rest) == [Close, Emit(SinkEvent(deploymentId, true, None))]
    ensures SinkEvents(PullEffects(deploymentId, [Done] + rest)) == [SinkEvent(deploymentId, true, None)]
  {
    assert ([Done] + rest)[0] == Done;
    StepProjections(deploymentId, Done);
  }

  /** A read rejected after the chunks c1..cn ends the pull silently: the host
      gets (false, c1) .. (false, cn) and no terminal event, and the second
      stream holds c1..cn and is never closed. The same holds while the next
      read has not settled. */
  lemma StalledStream(deploymentId: string, cs: seq<Bytes>, rest: seq<ReadResult>)
    requires rest == [] || rest[0].Failed?
    ensures var effects := PullEffects(deploymentId, Chunks(cs) + rest);
      && SinkEvents(effects) == Forwarded(deploymentId, cs)
      && TerminalCount(SinkEvents(effects)) == 0
      && Enqueued(effects) == cs
      && Close !in effects
  {
    PullChunksThen(deploymentId, cs, rest);
    ChunkEffectsProject(deploymentId, cs);
    assert PullEffects(deploymentId, rest) == [];
    assert ChunkEffects(deploymentId, cs) + [] == ChunkEffects(deploymentId, cs);
  }

  /** At most one terminal event is ever sent, and when it is sent it is the
      last event: nothing reaches the host after `done = true`. */
  lemma {:induction false} AtMostOneTerminal(deploymentId: string, results: seq<ReadResult>)
    ensures var events := SinkEvents(PullEffects(deploymentId, results));
      && TerminalCount(events) <= 1
      && (forall i :: 0 <= i < |events| && events[i].done ==> i == |events| - 1)
    decreases |results|
  {
    if results != [] {
      var step := StepEffects(deploymentId, results[0]);
      var tail := PullEffects(deploymentId, results[1..]);
      if results[0].Chunk? {
        AtMostOneTerminal(deploymentId, results[1..]);
        SinkEventsAppend(step, tail);
        StepProjections(deploymentId, results[0]);
        TerminalCountAppend(SinkEvents(step), SinkEvents(tail));
      } else {
        StepProjections(deploymentId, results[0]);
      }
    }
  }

  /** The effect at `i`, if it is a call of the host sink, is preceded by its
      cause: the enqueue of the same chunk, or the close of the second stream
      for the terminal event. */
  predicate EmitFollowsCause(deploymentId: string, e: seq<Effect>, i: nat) {
    i < |e| && e[i].Emit? ==>
      && i > 0
      && e[i].event.deploymentId == deploymentId
      && (e[i].event.done ==> e[i - 1] == Close && e[i].event.chunk.None?)
      && (!e[i].event.done ==> e[i].event.chunk.Some? && e[i - 1] == Enqueue(e[i].event.chunk.value))
  }

  /** Each chunk is enqueued into the second stream just before it is sent
      to the host, and the second stream is closed just before the terminal
      event. */
  lemma {:induction false} EnqueueBeforeForward(deploymentId: string, results: seq<ReadResult>)
    ensures forall i: nat :: EmitFollowsCause(deploymentId, PullEffects(deploymentId, results), i)
    decreases |results|
  {
    var e := PullEffects(deploymentId, results);
    if results != [] && results[0].Chunk? {
      EnqueueBeforeForward(deploymentId, results[1..]);
      var tail := PullEffects(deploymentId, results[1..]);
      var c := results[0].value;
      assert e == [Enqueue(c), Emit(SinkEvent(deploymentId, false, Some(c)))] + tail;
      forall i: nat ensures EmitFollowsCause(deploymentId, e, i) {
        if 2 <= i < |e| {
          assert EmitFollowsCause(deploymentId, tail, i - 2);
          assert e[i] == tail[i - 2];
          if i > 2 {
            assert e[i - 1] == tail[i - 3];
          }
        }
      }
    } else if results != [] && results[0].Done? {
      assert e == [Close, Emit(SinkEvent(deploymentId, true, None))];
    }
  }

  // ---- the pull loop as the source runs it ------------------------------------

  /** The state `streamResponse` sets up: the reader, the controller of the
      second stream and the host sink. */
  class StreamBridge {
    const deploymentId: string
    /** What the reader's successive results settle to. */
    const results: seq<ReadResult>
    /** How many results have settled and been handled. */
    var position: nat
    /** Whether the pull loop has returned without pulling again. */
    var stopped: bool
    /** The chunks enqueued into the second stream. */
    var queue: seq<Bytes>
    var closed: bool
    /** The calls made to the host sink. */
    var events: seq<SinkEvent>
    /** All effects so far, in order. */
    ghost var effects: seq<Effect>

    ghost predicate Valid()
      reads this
    {
      && position <= |results|
      && (stopped <==> position > 0 && !results[position - 1].Chunk?)
      && AllChunks(results[..if stopped then position - 1 else position])
      && effects == PullEffects(deploymentId, results[..position])
      && queue == Enqueued(effects)
      && closed == (Close in effects)
      && events == SinkEvents(effects)
    }

    /** `streamResponse(readableStream)` before the first read settles. */
    constructor (deploymentId: string, results: seq<ReadResult>)
      ensures Valid()
      ensures this.deploymentId == deploymentId && this.results == results
      ensures position == 0 && !stopped && queue == [] && !closed && events == [] && effects == []
    {
      this.deploymentId := deploymentId;
      this.results := results;
      position := 0;
      stopped := false;
      queue := [];
      closed := false;
      events := [];
      effects := [];
    }

    /** The handler of one settled `reader.read()`. */
    method Push()
      requires Valid() && !stopped && position < |results|
      modifies this
      ensures Valid()
      ensures position == old(position) + 1
      ensures effects == old(effects) + StepEffects(deploymentId, results[old(position)])
    {
      PullSnoc(deploymentId, results[..position], results[position]);
      assert results[..position + 1] == results[..position] + [results[position]];
      var step := StepEffects(deploymentId, results[position]);
      SinkEventsAppend(effects, step);
      EnqueuedAppend(effects, step);
      StepProjections(deploymentId, results[position]);
      match results[position] {
        case Done =>
          closed := true;
          events := events + [SinkEvent(deploymentId, true, None)];
          stopped := true;
        case Chunk(c) =>
          queue := queue + [c];
          events := events + [SinkEvent(deploymentId, false, Some(c))];
        case Failed =>
          stopped := true;
      }
      effects := effects + step;
      position := position + 1;
    }

    /** The `start` callback: pull until the loop returns or no further read
      settles. */
    method Start()
      requires Valid() && position == 0
      modifies this
      ensures Valid()
      ensures effects == PullEffects(deploymentId, results)
      ensures queue == Enqueued(PullEffects(deploymentId, results))
      ensures events == SinkEvents(PullEffects(deploymentId, results))
    {
      while !stopped && position < |results|
        invariant Valid()
        decreases |results| - position
      {
        Push();
      }
      PullPrefix(deploymentId, results, position, stopped);
    }
  }

  lemma {:induction false} PullSnoc(deploymentId: string, results: seq<ReadResult>, r: ReadResult)
    requires AllChunks(results)
    ensures PullEffects(deploymentId, results + [r]) == PullEffects(deploymentId, results) + StepEffects(deploymentId, r)
    decreases |results|
  {
    if results == [] {
      assert [r][1..] == [];
    } else {
      assert (results + [r])[1..] == results[1..] + [r];
      PullSnoc(deploymentId, results[1..], r);
    }
  }

  /** The loop stops where its effects are already those of the whole reader. */
  lemma {:induction false} PullPrefix(deploymentId: string, results: seq<ReadResult>, k: nat, stopped: bool)
    requires k <= |results|
    requires stopped <==> k > 0 && !results[k - 1].Chunk?
    requires AllChunks(results[..if stopped then k - 1 else k])
    requires stopped || k == |results|
    ensures PullEffects(deploymentId, results[..k]) == PullEffects(deploymentId, results)
    decreases k
  {
    if k == |results| {
      assert results[..k] == results;
    } else if results[0].Chunk? {
      assert results[0] == results[..k - 1][0];
      assert results[..k][1..] == results[1..][..k - 1];
      assert results[1..][..k - 2] == results[..k - 1][1..];
      PullPrefix(deploymentId, results[1..], k - 1, stopped);
    } else {
      assert k == 1;
    }
  }
}
