/**
 * `OpenAIHandler`, the per-session stream handler that bridges the media
 * transport and the realtime voice service, and the part of the service's
 * connection object it uses.
 *
 * The coroutines of the handler run one after another here: `StartUp` feeds
 * a finite sequence of events (those received so far) through the loop and
 * returns with the loop waiting for the next one.
 */
module Handler {
  import opened Wrappers
  import opened Codec
  import opened Events

  /** The session option sent on connect: the service detects the end of an utterance. */
  const SERVER_VAD: string := "server_vad"

  /** A frame from the transport: its sample rate and a channels x samples buffer. */
  datatype AudioFrame = AudioFrame(sampleRate: int, buffer: seq<seq<Int16>>)

  /**
   * `array.squeeze()` followed by `tobytes()` reads the buffer row by row:
   * the samples of the frame in memory order. A mono frame gives its one row.
   */
  function Flatten(buffer: seq<seq<Int16>>): (samples: seq<Int16>)
    ensures |buffer| == 1 ==> samples == buffer[0]
  {
    if buffer == [] then [] else buffer[0] + Flatten(buffer[1..])
  }

  /** Where row `r` starts in memory order: the total length of the rows before it. */
  function RowStart(buffer: seq<seq<Int16>>, r: nat): nat
    requires r <= |buffer|
  {
    if r == 0 then 0 else |buffer[0]| + RowStart(buffer[1..], r - 1)
  }

  /** The flattened frame is as long as all the rows together. */
  lemma {:induction false} FlattenLength(buffer: seq<seq<Int16>>)
    ensures |Flatten(buffer)| == RowStart(buffer, |buffer|)
  {
    if buffer != [] {
      FlattenLength(buffer[1..]);
      assert Flatten(buffer) == buffer[0] + Flatten(buffer[1..]);
    }
  }

  /**
   * The flattened frame reads the buffer in memory order: the sample at row
   * `r`, column `j` sits at `RowStart(buffer, r) + j`.
   */
  lemma {:induction false} FlattenAt(buffer: seq<seq<Int16>>, r: nat, j: nat)
    requires r < |buffer| && j < |buffer[r]|
    ensures RowStart(buffer, r) + j < |Flatten(buffer)|
    ensures Flatten(buffer)[RowStart(buffer, r) + j] == buffer[r][j]
    decreases r
  {
    var rest := buffer[1..];
    assert Flatten(buffer) == buffer[0] + Flatten(rest);
    if r > 0 {
      assert rest[r - 1] == buffer[r];
      FlattenAt(rest, r - 1, j);
    }
  }

  /**
   * The realtime connection as the handler sees it. Only its effects are
   * recorded: the session option set, the audio messages appended to the
   * service's input buffer, in order, and the number of close calls.
   */
  class Connection {
    ghost var turnDetection: Option<string>
    ghost var inputAudio: seq<string>
    ghost var closeCalls: nat

    constructor Connect()
      ensures turnDetection == None && inputAudio == [] && closeCalls == 0
    {
      turnDetection, inputAudio, closeCalls := None, [], 0;
    }

    /** `session.update(session={"turn_detection": {"type": mode}})` */
    method UpdateSession(mode: string)
      modifies this
      ensures turnDetection == Some(mode)
      ensures inputAudio == old(inputAudio) && closeCalls == old(closeCalls)
    {
      turnDetection := Some(mode);
    }

    /** `input_audio_buffer.append(audio=audio)` */
    method AppendInputAudio(audio: string)
      modifies this
      ensures inputAudio == old(inputAudio) + [audio]
      ensures turnDetection == old(turnDetection) && closeCalls == old(closeCalls)
    {
      inputAudio := inputAudio + [audio];
    }

    /** `close()` */
    method Close()
      modifies this
      ensures closeCalls == old(closeCalls) + 1
      ensures turnDetection == old(turnDetection) && inputAudio == old(inputAudio)
    {
      closeCalls := closeCalls + 1;
    }
  }

  class OpenAIHandler {
    /** The open connection, or null before `StartUp` and after `Shutdown`. */
    var connection: Connection?
    /** The output queue, oldest item first. */
    var outputQueue: seq<OutputItem>

    /** Every queued item is one the event loop can produce. */
    ghost predicate Valid()
      reads this
    {
      forall item <- outputQueue :: WellFormed(item)
    }

    constructor ()
      ensures Valid()
      ensures connection == null && outputQueue == []
    {
      connection := null;
      outputQueue := [];
    }

    /** A fresh handler for another session: no connection and an empty queue of its own. */
    method Copy() returns (h: OpenAIHandler)
      ensures fresh(h) && h.Valid()
      ensures h.connection == null && h.outputQueue == []
    {
      h := new OpenAIHandler();
    }

    /**
     * Connects, turns on server-side voice activity detection, and only then
     * publishes the connection; then feeds `events` through the loop. The
     * queue grows by what `Drain` says. When an event raises, or when the
     * stream ends after `events` (`streamEnded`, the remote side closed it),
     * the loop stops, leaving the `async with` block closes the connection,
     * and the handler still refers to it. Otherwise the loop is left waiting
     * for the next event with the connection open.
     */
    method StartUp(events: seq<ServerEvent>, streamEnded: bool) returns (raised: Option<CodecError>)
      requires Valid()
      modifies this
      ensures Valid()
      ensures connection != null && fresh(connection)
      ensures connection.turnDetection == Some(SERVER_VAD) && connection.inputAudio == []
      ensures outputQueue == old(outputQueue) + Drain(events).queued
      ensures raised == Drain(events).raised
      ensures connection.closeCalls == if raised.Some? || streamEnded then 1 else 0
    {
      var conn := new Connection.Connect();
      conn.UpdateSession(SERVER_VAD);
      connection := conn;
      raised := None;
      var i := 0;
      while i < |events|
        invariant 0 <= i <= |events|
        invariant connection == conn && fresh(conn)
        invariant conn.turnDetection == Some(SERVER_VAD) && conn.inputAudio == [] && conn.closeCalls == 0
        invariant Drain(events[..i]).raised == None
        invariant outputQueue == old(outputQueue) + Drain(events[..i]).queued
        invariant Valid()
      {
        DrainStep(events, i);
        match Route(events[i]) {
          case Put(item) =>
            outputQueue := outputQueue + [item];
          case Ignore =>
          case Raise(err) =>
            conn.Close();
            raised := Some(err);
            return;
        }
        i := i + 1;
      }
      assert events[..i] == events;
      if streamEnded {
        conn.Close();
      }
    }

    /**
     * Drops the frame when there is no connection; otherwise sends the base64
     * text of its samples as one message to the service's input buffer. The
     * frame's sample rate is not used.
     */
    method Receive(frame: AudioFrame)
      modifies connection
      ensures connection == old(connection) && outputQueue == old(outputQueue)
      ensures connection != null ==>
        && connection.inputAudio == old(connection.inputAudio) + [EncodeAudio(Flatten(frame.buffer))]
        && connection.turnDetection == old(connection.turnDetection)
        && connection.closeCalls == old(connection.closeCalls)
    {
      if connection == null {
        return;
      }
      var samples := Flatten(frame.buffer);
      var message := EncodeAudio(samples);
      connection.AppendInputAudio(message);
    }

    /**
     * `wait_for_item(self.output_queue)`: the oldest queued item, removed from
     * the queue; None when the queue is empty (the wait timed out).
     */
    method Emit() returns (item: Option<OutputItem>)
      requires Valid()
      modifies this`outputQueue
      ensures Valid()
      ensures old(outputQueue) == [] ==> item == None && outputQueue == []
      ensures old(outputQueue) != [] ==>
        item == Some(old(outputQueue)[0]) && outputQueue == old(outputQueue)[1..]
    {
      if outputQueue == [] {
        item := None;
      } else {
        item := Some(outputQueue[0]);
        outputQueue := outputQueue[1..];
      }
    }

    /** Closes the connection if there is one and forgets it; the queue is kept. */
    method Shutdown()
      modifies this`connection, connection
      ensures connection == null && outputQueue == old(outputQueue)
      ensures old(connection) != null ==>
        && old(connection).closeCalls == old(connection.closeCalls) + 1
        && old(connection).inputAudio == old(connection.inputAudio)
        && old(connection).turnDetection == old(connection.turnDetection)
    {
      if connection != null {
        connection.Close();
        connection := null;
      }
    }
  }

  /** A second `Shutdown` does nothing: the connection is closed exactly once. */
  method ShutdownTwice(h: OpenAIHandler)
    modifies h`connection, h.connection
    ensures h.connection == null && h.outputQueue == old(h.outputQueue)
    ensures old(h.connection) != null ==>
      && old(h.connection).closeCalls == old(h.connection.closeCalls) + 1
      && old(h.connection).inputAudio == old(h.connection.inputAudio)
      && old(h.connection).turnDetection == old(h.connection.turnDetection)
  {
    h.Shutdown();
    h.Shutdown();
  }

  /**
   * A session whose event stream ends: leaving the `async with` block closes
   * the connection once, and a later `Shutdown` closes it again and forgets
   * it, the two closes the source makes when `shutdown` ends the stream.
   */
  method EndedSession(events: seq<ServerEvent>) returns (h: OpenAIHandler, conn: Connection)
    ensures h.connection == null && conn.closeCalls == 2
    ensures h.outputQueue == Drain(events).queued
  {
    h := new OpenAIHandler();
    var raised := h.StartUp(events, true);
    conn := h.connection;
    h.Shutdown();
  }

  /**
   * The transport side of a session: a frame that arrives before start-up is
   * dropped; once the handler is connected, a frame is sent as one message
   * holding the base64 text of its samples.
   */
  method SendScenario() returns (h: OpenAIHandler)
    ensures h.connection != null && h.connection.inputAudio == ["ZACc/zIAzv8="]
  {
    h := new OpenAIHandler();
    var frame := AudioFrame(SAMPLE_RATE, [[100, -100, 50, -50]]);
    h.Receive(frame);
    assert h.connection == null && h.outputQueue == [];

    var raised := h.StartUp([], false);
    EncodeExample();
    h.Receive(frame);
  }

  /**
   * The service side of a session: the items for a finished transcript and an
   * audio delta come out of `Emit` in arrival order, then nothing.
   */
  method EmitScenario() returns (first: Option<OutputItem>, second: Option<OutputItem>, third: Option<OutputItem>)
    ensures first == Some(AdditionalOutputs(AudioTranscriptDone("hello")))
    ensures second == Some(AudioChunk(SAMPLE_RATE, [[200, -200]]))
    ensures third == None
  {
    var h := new OpenAIHandler();
    var events := [AudioTranscriptDone("hello"), AudioDelta("yAA4/w==")];
    DrainExample();
    var raised := h.StartUp(events, false);
    first := h.Emit();
    second := h.Emit();
    third := h.Emit();
  }
}
