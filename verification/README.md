# OpenAI realtime voice handler: a verified model

This project models the per-session stream handler of a small voice-chat
server. The server bridges a WebRTC media transport to OpenAI's realtime
speech API. The handler, `OpenAIHandler` in `app.py`, does four things:

- it opens a realtime connection, turns on server-side voice activity
  detection, and then demultiplexes the service's events into an output
  queue (`start_up`);
- it forwards every microphone frame to the service as one base64 message
  of 16-bit little-endian PCM (`receive`);
- it hands queued items, oldest first, to the transport (`emit`);
- it closes the connection (`shutdown`).

A small helper, `update_chatbot`, appends each finished assistant
transcript to the chat history.

The model has five modules:

- `Wrappers`: `Option` and `Result`.
- `Codec`: the audio wire format.
  - `ndarray.tobytes()` on int16 samples is `ToBytes`, and
    `np.frombuffer(..., dtype=np.int16)` is `FromBuffer`.
  - `base64.b64encode` and `base64.b64decode` are `Base64Encode` and
    `Base64Decode`, written out per section 4 of RFC 4648. `DecodeText` is
    `b64decode` applied to a `str`: the text must be ASCII before it is
    decoded.
  - The two compositions the handler uses are `EncodeAudio` and
    `DecodeAudio`.
- `Events`: the service's events as a tagged datatype.
  - `Route` is one iteration of the `async for` loop.
  - `Drain` is the loop over a finite sequence of events.
- `Handler`:
  - `Connection` stands in for the realtime connection object. It keeps
    ghost logs of the session option, the appended audio messages and the
    close calls.
  - `OpenAIHandler` is a class with the fields `connection` and
    `outputQueue`.
- `Chat`: the chat history as a `Chatbot` object whose message list
  `UpdateChatbot` appends to in place.

`StartUp`'s loop is proved against `Drain`. Its invariant says that the
queue is the old queue followed by what `Drain` produced for the events
read so far. The properties of `Drain` are proved as lemmas:

- concatenation;
- one step at a time;
- in-order, one item per event.

The codec is proved to round-trip in both directions:

- decoding what `receive` sends gives back the samples;
- a decodable text with zero pad bits is the encoding of what it decodes to.

## Model

| member | source | states |
|---|---|---|
| Codec.Unsigned | app.py:92 | a sample's 16-bit two's-complement pattern: in [0, 65536) and congruent to the sample modulo 2^16 |
| Codec.Word | app.py:81 | the sample read from a low and a high byte has exactly that little-endian bit pattern |
| Codec.ToBytes | app.py:92 | `tobytes()` gives two bytes per sample, low byte first, whose little-endian value is the sample's bit pattern |
| Codec.Words | app.py:81 | an even-sized buffer holds half as many samples, the i-th with the bit pattern of bytes 2i and 2i+1 |
| Codec.WordsPack | app.py:81 | packing the samples read from an even-sized buffer gives the buffer back |
| Codec.FromBuffer | app.py:80-81 | `frombuffer` fails with a size error exactly when the byte count is odd; otherwise it yields bytes/2 samples that pack back to the bytes |
| Codec.PackRoundTrip | app.py:81-92 | reading back the packed bytes of any samples gives exactly those samples |
| Codec.Base64Value | app.py:81 | a character's value, if any, is one whose alphabet character is that character; `=` has no value |
| Codec.ValueOfChar | app.py:81 | every alphabet character decodes to the value it encodes |
| Codec.OctetsOfSextets | app.py:81-92 | three bytes split into four 6-bit groups merge back into the same bytes |
| Codec.SextetsOfOctets | app.py:81-92 | four 6-bit groups merged into three bytes split back into the same groups |
| Codec.Base64Encode | app.py:92 | `b64encode` output is 4·⌈n/3⌉ characters for n bytes, a multiple of four |
| Codec.DecodeLast | app.py:81 | a final quantum decodes to 1 to 3 bytes or fails with the base64 error |
| Codec.Base64Decode | app.py:81 | the decoding step of `b64decode` on ASCII text fails when the length is not a multiple of four; its only error is the base64 error; a text that decodes has length 4·⌈m/3⌉ for m decoded bytes |
| Codec.DecodeText | app.py:81 | `b64decode` on a `str` raises the non-ASCII ValueError exactly when the text has a non-ASCII character; it succeeds exactly when the text is ASCII and decodes, with the decoded bytes |
| Codec.NonAsciiExample | app.py:81 | "ABéD" is refused with the non-ASCII error, not the base64 error |
| Codec.EncodeAscii | app.py:81-92 | every text `b64encode` produces is ASCII |
| Codec.Base64RoundTrip | app.py:81-92 | decoding the encoding of any bytes gives back exactly those bytes |
| Codec.EncodeDecode | app.py:81-92 | a text that decodes and has zero pad bits is exactly the encoding of its decoded bytes |
| Codec.EncodeAudio | app.py:92 | the message for n samples is 4·⌈2n/3⌉ characters |
| Codec.DecodeAudio | app.py:80-81 | a delta fails with the error `b64decode` raises on it (non-ASCII or invalid base64); otherwise it fails with the size error exactly when the byte count is odd, and yields bytes/2 samples that pack back to the bytes |
| Codec.AudioRoundTrip | app.py:81-92 | the delta decoder applied to the message sent for any samples yields exactly those samples |
| Codec.PackExample | app.py:92 | [100, -100, 50, -50] packs to 64 00 9C FF 32 00 CE FF |
| Codec.EncodeExample | app.py:92 | the frame [100, -100, 50, -50] is sent as "ZACc/zIAzv8=" |
| Codec.DeltaExample | app.py:92 | the samples [200, -200] are sent as "yAA4/w==" |
| Events.TypeOf | app.py:72-75 | the event's type string is the transcript or the delta type exactly for those two variants |
| Events.Route | app.py:72-84 | one pass of the loop body: a transcript-done event queues a side-channel item wrapping it, only an audio delta can raise, exactly the other event types are ignored, and every queued item is well formed; the decoder outcomes are stated by `RouteByType` |
| Events.RouteByType | app.py:72-84 | a transcript-done event queues one side-channel item wrapping it; a delta queues (24000, one row of the decoded samples) or raises the decoder's error; any other type is ignored |
| Events.Drain | app.py:71-84 | the loop over a sequence of events queues at most one item per event, each a side-channel item or a one-row buffer at 24000 Hz |
| Events.DrainAppend | app.py:71-84 | running the loop over p and then q is running it over p + q; after a raise, later events change nothing |
| Events.DrainOne | app.py:72-84 | a single event queues what `Route` says, or raises |
| Events.DrainStep | app.py:71-84 | one more event appends its item, changes nothing, or ends the run with the queue so far and the error |
| Events.DrainInOrder | app.py:71-84 | when every event queues an item, the queue has one item per event, the k-th for the k-th event, and nothing is raised |
| Events.RouteEncodedAudio | app.py:75-92 | a delta carrying the message sent for some samples is queued as (24000, [those samples]) |
| Events.RouteOddDelta | app.py:80-81 | a delta whose bytes are odd in number raises the size error |
| Events.DrainExample | app.py:71-84 | a transcript followed by the delta "yAA4/w==" queues the side-channel item, then (24000, [[200, -200]]) |
| Handler.Flatten | app.py:90-92 | a mono frame gives its one row |
| Handler.FlattenLength | app.py:90-92 | `squeeze()` and `tobytes()` keep every sample: the result is as long as all the rows together |
| Handler.FlattenAt | app.py:90-92 | the samples are read in memory order: row r, column j lands at the start of row r plus j |
| Handler.Connection.Connect | app.py:64 | a new connection has no session option, no audio and no close calls |
| Handler.Connection.UpdateSession | app.py:66-68 | the session option is set to the given mode; nothing else changes |
| Handler.Connection.AppendInputAudio | app.py:93 | exactly one message is appended to the service's input buffer; nothing else changes |
| Handler.Connection.Close | app.py:102 | the close count grows by one; nothing else changes |
| Handler.OpenAIHandler.constructor | app.py:40-51 | a new handler has no connection and an empty queue |
| Handler.OpenAIHandler.Copy | app.py:53-55 | the copy is a fresh handler with no connection and an empty queue; the original is not modified |
| Handler.OpenAIHandler.StartUp | app.py:57-84 | a fresh connection with server VAD on and no audio is published; the queue becomes the old queue followed by `Drain(events)`; on a raise, or when the stream ends after the events, the loop stops and the connection is closed once; otherwise the loop waits with the connection open; the handler keeps its reference in every case |
| Handler.OpenAIHandler.Receive | app.py:86-93 | without a connection nothing happens; with one, exactly one message, the base64 of the frame's samples, is appended; the sample rate is ignored and the queue is unchanged |
| Handler.OpenAIHandler.Emit | app.py:95-97 | the oldest item is returned and only it is removed; an empty queue gives None |
| Handler.OpenAIHandler.Shutdown | app.py:99-103 | an open connection is closed exactly once and forgotten; the queue is unchanged |
| Handler.ShutdownTwice | app.py:99-103 | two shutdowns end as one does: the connection closed once, its audio and session logs unchanged, no connection left, the queue unchanged |
| Handler.EndedSession | app.py:64-103 | after the stream ends and `shutdown` runs, the connection has been closed twice, none is left, and the queue holds what the loop queued |
| Handler.SendScenario | app.py:86-93 | a frame before start-up is dropped; the same frame after start-up is sent as "ZACc/zIAzv8=" |
| Handler.EmitScenario | app.py:57-97 | after a transcript and a delta, `emit` yields the side-channel item, then (24000, [[200, -200]]), then None |
| Chat.UpdateChatbot | app.py:106-110 | the same list is returned, one entry longer, its earlier entries unchanged and its last entry the assistant's transcript |

## Left out

- The OpenAI client, `realtime.connect` and the network (app.py:62-68) are not modelled. The connection is the `Connection` class, whose ghost fields record only the effects the handler has on it. The `self.client` field is not modelled.
- Asyncio concurrency is not modelled. `StartUp` runs the loop over a finite sequence of events, the ones received so far, and returns where the live loop would wait for the next event. The other coroutines run one after another.
- Handler.OpenAIHandler.Emit: returns None at once on an empty queue, where `wait_for_item` first waits up to its timeout for an item to arrive. That function is not part of this model.
- Handler.OpenAIHandler.StartUp: a transport error that ends the event stream by raising is not modelled; the model covers the stream ending normally (`streamEnded`) and a decoding error. When `shutdown` ends the stream while the loop runs, the source closes the connection twice, once in `shutdown` and once on leaving the `async with` block. The model runs the coroutines one after another: `StartUp` with `streamEnded` followed by `Shutdown` makes the same two close calls and leaves no connection (`Handler.EndedSession`).
- Codec.Base64Decode: rejects every non-alphabet character. CPython's `b64decode` in its default non-validating mode discards such characters first, and it ignores data after a complete padding group. The model accepts non-zero pad bits, as CPython does.
- Codec.ToBytes: fixes the native byte order of `tobytes()` and `frombuffer` to little-endian.
- Handler.Flatten: models `squeeze()` followed by `tobytes()` as reading the rows of the frame in order. Other NumPy shapes are not modelled.
- Sending on a connection that has been closed is not modelled as an error. After a decoding error the `async with` block closes the connection, but `self.connection` still refers to it. The model keeps that reference, as the code does.
- The fastrtc base-class parameters (app.py:44-49) are not modelled: layout, frame size and input rate. The Gradio UI and the `Stream` wiring are not modelled. Neither are the FastAPI routes, TURN credentials, environment loading, logging or the server launch. They are configuration and I/O with no local logic.
