/**
 * Events from the realtime voice service and their demultiplexing into the
 * handler's output queue: the body of the `async for` loop in
 * `OpenAIHandler.start_up`.
 */
module Events {
  import opened Wrappers
  import opened Codec

  /** The handler's output sample rate, 24 kHz. */
  const SAMPLE_RATE: int := 24000

  const AUDIO_TRANSCRIPT_DONE: string := "response.audio_transcript.done"
  const AUDIO_DELTA: string := "response.audio.delta"

  /** The `type` of every other event the service may send; the loop ignores them. */
  type OtherType = t: string | t != AUDIO_TRANSCRIPT_DONE && t != AUDIO_DELTA
    witness "session.created"

  /** An event of the realtime connection, tagged by its `type`. */
  datatype ServerEvent =
    | AudioTranscriptDone(transcript: string)
    | AudioDelta(delta: string)      // base64 text of 16-bit PCM samples
    | Other(eventType: OtherType)

  /** The event's `type` string as it appears on the wire; it determines the variant. */
  function TypeOf(e: ServerEvent): (t: string)
    ensures t == AUDIO_TRANSCRIPT_DONE <==> e.AudioTranscriptDone?
    ensures t == AUDIO_DELTA <==> e.AudioDelta?
  {
    match e
    case AudioTranscriptDone(_) => AUDIO_TRANSCRIPT_DONE
    case AudioDelta(_) => AUDIO_DELTA
    case Other(t) => t
  }

  /** What the handler's `emit` hands to the transport. */
  datatype OutputItem =
    | AudioChunk(sampleRate: int, buffer: seq<seq<Int16>>)  // (rate, array of shape 1 x n)
    | AdditionalOutputs(event: ServerEvent)                  // side channel, e.g. the chat transcript

  /** The effect of one event on the loop: queue an item, do nothing, or raise. */
  datatype Routing = Put(item: OutputItem) | Ignore | Raise(error: CodecError)

  /**
   * One iteration of the event loop. A finished transcript is queued as a
   * side-channel item wrapping the event; an audio delta is decoded and
   * queued as a one-row buffer at the output rate, or raises when it does not
   * decode; every other event type is ignored.
   */
  function Route(e: ServerEvent): (r: Routing)
    ensures e.AudioTranscriptDone? ==> r == Put(AdditionalOutputs(e))
    ensures r.Raise? ==> e.AudioDelta?
    ensures r.Ignore? <==> e.Other?
    ensures r.Put? ==> WellFormed(r.item)
  {
    match e
    case AudioTranscriptDone(_) => Put(AdditionalOutputs(e))
    case AudioDelta(delta) =>
      (match DecodeAudio(delta)
       case Success(samples) => Put(AudioChunk(SAMPLE_RATE, [samples]))
       case Failure(err) => Raise(err))
    case Other(_) => Ignore
  }

  /**
   * Routing is decided by the event's `type` string alone: the transcript and
   * audio types are handled as above, and every other type is ignored.
   */
  lemma RouteByType(e: ServerEvent)
    ensures TypeOf(e) == AUDIO_TRANSCRIPT_DONE ==> Route(e) == Put(AdditionalOutputs(e))
    ensures TypeOf(e) == AUDIO_DELTA ==>
      match DecodeAudio(e.delta)
      case Success(samples) => Route(e) == Put(AudioChunk(SAMPLE_RATE, [samples]))
      case Failure(err) => Route(e) == Raise(err)
    ensures TypeOf(e) != AUDIO_TRANSCRIPT_DONE && TypeOf(e) != AUDIO_DELTA ==> Route(e) == Ignore
  {
  }

  /** An item the loop can queue: side-channel items, or one-row audio at the output rate. */
  ghost predicate WellFormed(item: OutputItem)
  {
    item.AudioChunk? ==> item.sampleRate == SAMPLE_RATE && |item.buffer| == 1
  }

  /** The items a run of the loop queued, and the error that ended it, if any. */
  datatype Drained = Drained(queued: seq<OutputItem>, raised: Option<CodecError>)

  /**
   * The loop over a finite sequence of events: items are queued in event
   * order, one per transcript or audio event, until an event raises; the
   * events after that one are never read.
   */
  function Drain(events: seq<ServerEvent>): (d: Drained)
    ensures |d.queued| <= |events|
    ensures forall item <- d.queued :: WellFormed(item)
  {
    if events == [] then Drained([], None)
    else
      match Route(events[0])
      case Ignore => Drain(events[1..])
      case Raise(err) => Drained([], Some(err))
      case Put(item) =>
        var rest := Drain(events[1..]);
        Drained([item] + rest.queued, rest.raised)
  }

  /**
   * Running the loop over `p` and then over `q` is running it over `p + q`:
   * the queue grows by concatenation, and after a raise nothing more happens.
   */
  lemma {:induction false} DrainAppend(p: seq<ServerEvent>, q: seq<ServerEvent>)
    ensures Drain(p).raised.Some? ==> Drain(p + q) == Drain(p)
    ensures Drain(p).raised.None? ==>
      Drain(p + q) == Drained(Drain(p).queued + Drain(q).queued, Drain(q).raised)
  {
    if p == [] {
      assert p + q == q;
    } else {
      ConsAppend(p, q);
      DrainAppend(p[1..], q);
      match Route(p[0]) {
        case Ignore =>
        case Raise(_) =>
        case Put(item) =>
          ConsAssoc(item, Drain(p[1..]).queued, Drain(q).queued);
      }
    }
  }

  lemma ConsAppend<T>(p: seq<T>, q: seq<T>)
    requires p != []
    ensures (p + q)[0] == p[0] && (p + q)[1..] == p[1..] + q
  {
  }

  lemma ConsAssoc<T>(x: T, p: seq<T>, q: seq<T>)
    ensures [x] + (p + q) == ([x] + p) + q
  {
  }

  /** One event moves the loop by exactly what `Route` says. */
  lemma DrainOne(e: ServerEvent)
    ensures Drain([e]) == match Route(e)
      case Put(item) => Drained([item], None)
      case Ignore => Drained([], None)
      case Raise(err) => Drained([], Some(err))
  {
    assert [e][1..] == [];
  }

  lemma PrefixSnoc<T>(s: seq<T>, i: nat)
    requires i < |s|
    ensures s[..i] + [s[i]] == s[..i + 1]
  {
  }

  lemma PrefixSuffix<T>(s: seq<T>, i: nat)
    requires i <= |s|
    ensures s[..i] + s[i..] == s
  {
  }

  /**
   * The loop after the first `i + 1` events, from the loop after the first
   * `i`: one more item, no change, or a raise that ends the whole run.
   */
  lemma DrainStep(events: seq<ServerEvent>, i: nat)
    requires i < |events| && Drain(events[..i]).raised == None
    ensures match Route(events[i])
      case Put(item) =>
        WellFormed(item) &&
        Drain(events[..i + 1]) == Drained(Drain(events[..i]).queued + [item], None)
      case Ignore => Drain(events[..i + 1]) == Drain(events[..i])
      case Raise(err) => Drain(events) == Drained(Drain(events[..i]).queued, Some(err))
  {
    match Route(events[i]) {
      case Put(item) => DrainStepPut(events, i, item);
      case Ignore => DrainStepIgnore(events, i);
      case Raise(err) => DrainStepRaise(events, i, err);
    }
  }

  lemma DrainStepPut(events: seq<ServerEvent>, i: nat, item: OutputItem)
    requires i < |events| && Drain(events[..i]).raised == None
    requires Route(events[i]) == Put(item)
    ensures WellFormed(item)
    ensures Drain(events[..i + 1]) == Drained(Drain(events[..i]).queued + [item], None)
  {
    PrefixSnoc(events, i);
    DrainAppend(events[..i], [events[i]]);
    DrainOne(events[i]);
    assert item in Drain([events[i]]).queued;
  }

  lemma DrainStepIgnore(events: seq<ServerEvent>, i: nat)
    requires i < |events| && Drain(events[..i]).raised == None
    requires Route(events[i]) == Ignore
    ensures Drain(events[..i + 1]) == Drain(events[..i])
  {
    PrefixSnoc(events, i);
    DrainAppend(events[..i], [events[i]]);
    DrainOne(events[i]);
    assert Drain(events[..i]).queued + [] == Drain(events[..i]).queued;
  }

  lemma DrainStepRaise(events: seq<ServerEvent>, i: nat, err: CodecError)
    requires i < |events| && Drain(events[..i]).raised == None
    requires Route(events[i]) == Raise(err)
    ensures Drain(events) == Drained(Drain(events[..i]).queued, Some(err))
  {
    var front := events[..i + 1];
    PrefixSnoc(events, i);
    DrainAppend(events[..i], [events[i]]);
    DrainOne(events[i]);
    assert Drain(front) == Drained(Drain(events[..i]).queued, Some(err));
    DrainAppend(front, events[i + 1..]);
    PrefixSuffix(events, i + 1);
  }

  /**
   * When every event queues an item (transcripts and decodable audio), the
   * queue holds exactly one item per event, the k-th for the k-th event.
   */
  lemma {:induction false} DrainInOrder(events: seq<ServerEvent>)
    requires forall e <- events :: Route(e).Put?
    ensures Drain(events).raised == None
    ensures |Drain(events).queued| == |events|
    ensures forall k :: 0 <= k < |events| ==> Route(events[k]) == Put(Drain(events).queued[k])
  {
    if events != [] {
      assert events[0] in events;
      assert forall e <- events[1..] :: e in events;
      DrainInOrder(events[1..]);
      var rest := Drain(events[1..]).queued;
      assert Drain(events).queued == [Route(events[0]).item] + rest;
      forall k | 1 <= k < |events|
        ensures Route(events[k]) == Put(Drain(events).queued[k])
      {
        assert events[k] == events[1..][k - 1];
      }
    }
  }

  /** Every audio message the handler sends, delivered back as a delta, is queued as the same samples. */
  lemma RouteEncodedAudio(samples: seq<Int16>)
    ensures Route(AudioDelta(EncodeAudio(samples))) == Put(AudioChunk(SAMPLE_RATE, [samples]))
  {
    AudioRoundTrip(samples);
  }

  /** A delta whose text decodes to an odd number of bytes stops the loop with OddBufferSize. */
  lemma RouteOddDelta(delta: string)
    requires DecodeText(delta).Success? && |DecodeText(delta).value| % 2 == 1
    ensures Route(AudioDelta(delta)) == Raise(OddBufferSize)
  {
  }

  /** A finished transcript, then the delta for [200, -200], queue their two items in that order. */
  lemma DrainExample()
    ensures Drain([AudioTranscriptDone("hello"), AudioDelta("yAA4/w==")])
         == Drained([AdditionalOutputs(AudioTranscriptDone("hello")), AudioChunk(SAMPLE_RATE, [[200, -200]])], None)
  {
    var events := [AudioTranscriptDone("hello"), AudioDelta("yAA4/w==")];
    DeltaExample();
    RouteEncodedAudio([200, -200]);
    DrainInOrder(events);
  }
}
