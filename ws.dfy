/** The websocket handler of src/ws.rs: the classification of one received
    frame (`process_message`) and the receive loop of a connection
    (`ws_callback`). The socket is a sequence of receive results; the end of
    the sequence is the end of the stream, and the outcome of the initial ping
    is a parameter. */
module Ws {
  import opened Base

  /** A parsed JSON document. `JInt` is a number serde_json reads as an
      integer; `JFloat` is one it reads as a float: a number written with a
      fraction or an exponent, `-0`, and an integer outside the ranges of
      `i64` and `u64`. */
  datatype Json =
    | JNull
    | JBool(b: bool)
    | JInt(i: int)
    | JFloat
    | JString(s: string)
    | JArray(items: seq<Json>)
    | JObject(fields: map<string, Json>)

  /** The text of a Text frame, seen through the JSON parser. */
  datatype JsonText = Unparsable | Parsed(value: Json)

  datatype CloseFrame = CloseFrame(code: u16, reason: string)

  /** axum's `Message`. */
  datatype Message =
    | Text(payload: JsonText)
    | Binary(data: seq<u8>)
    | Ping(data: seq<u8>)
    | Pong(data: seq<u8>)
    | Close(frame: Option<CloseFrame>)

  /** One result of `socket.recv()` that is not the end of the stream. */
  datatype Received = Ok(msg: Message) | Err

  /** `WsMessage`, serialised with an internal tag named "type". */
  datatype WsMessage = StartGame(userId: u64)

  /** What serde writes for a `WsMessage`. */
  function EncodeWsMessage(m: WsMessage): (j: Json)
    ensures j.JObject? && "type" in j.fields && j.fields["type"] == JString("StartGame")
    ensures "user_id" in j.fields && j.fields["user_id"] == JInt(m.userId as int)
    ensures |j.fields| == 2
  {
    var f := map["type" := JString("StartGame"), "user_id" := JInt(m.userId as int)];
    assert f.Keys == {"type", "user_id"};
    JObject(f)
  }

  /** The entries of `small` all occur, with the same values, in `big`. */
  predicate SubMap(small: map<string, Json>, big: map<string, Json>) {
    forall k :: k in small ==> k in big && big[k] == small[k]
  }

  /** `serde_json::from_str::<WsMessage>`: the document must be an object whose
      "type" is the string "StartGame" and whose "user_id" is an integer in the
      range of `u64`; any other fields are ignored. */
  function DecodeWsMessage(t: JsonText): (r: Option<WsMessage>)
    ensures r.Some? ==> t.Parsed? && t.value.JObject? && SubMap(EncodeWsMessage(r.value).fields, t.value.fields)
  {
    match t
    case Unparsable => None
    case Parsed(JObject(f)) =>
      if "type" in f && f["type"] == JString("StartGame") && "user_id" in f && f["user_id"].JInt?
         && 0 <= f["user_id"].i < 0x1_0000_0000_0000_0000
      then Some(StartGame(f["user_id"].i as u64))
      else None
    case Parsed(_) => None
  }

  /** Decoding succeeds exactly on the objects that contain the encoding of a
      message, and then yields that message. */
  lemma DecodeCharacterised(t: JsonText, m: WsMessage)
    ensures DecodeWsMessage(t) == Some(m) <==> t.Parsed? && t.value.JObject? && SubMap(EncodeWsMessage(m).fields, t.value.fields)
  {
  }

  /** What the server writes, it reads back. */
  lemma WsMessageRoundTrip(m: WsMessage)
    ensures DecodeWsMessage(Parsed(EncodeWsMessage(m))) == Some(m)
  {
  }

  /** `ControlFlow` of `process_message`, plus the panic of its `unwrap`. */
  datatype Flow = Continue | Break | Panic

  /** `process_message`: a Close frame, with or without a close frame body,
      stops the connection; a Text frame whose JSON does not decode as a
      `WsMessage` panics; every other frame lets the loop continue. */
  function ProcessMessage(m: Message): (r: Flow)
    ensures r == Break <==> m.Close?
    ensures r == Panic <==> m.Text? && DecodeWsMessage(m.payload).None?
    ensures r == Continue <==> !m.Close? && (m.Text? ==> DecodeWsMessage(m.payload).Some?)
  {
    match m
    case Text(t) => if DecodeWsMessage(t).Some? then Continue else Panic
    case Binary(_) => Continue
    case Close(_) => Break
    case Pong(_) => Continue
    case Ping(_) => Continue
  }

  /** The frame the page sends on its start button,
      `{"StartGame": {"token": …, "game_id": …}}`, has no "type" tag, so the
      handler in src/ws.rs panics on it, whatever the token and the game id are. */
  lemma ClientStartGameFrameRejected(token: Json, gameId: Json)
    ensures ProcessMessage(Text(Parsed(JObject(map["StartGame" := JObject(map["token" := token, "game_id" := gameId])])))) == Panic
  {
  }

  /** The join frame the page sends when the socket opens, `{token, channel}`,
      is rejected the same way. */
  lemma ClientConnectFrameRejected(token: Json, channel: Json)
    ensures ProcessMessage(Text(Parsed(JObject(map["token" := token, "channel" := channel])))) == Panic
  {
  }

  /** How a connection's handler ends. */
  datatype Ending = PingFailed | ClientClosed | ReceiveFailed | StreamEnded | Panicked

  /** The frames handed to `process_message`, in order, and how the handler ended. */
  datatype Session = Session(processed: seq<Message>, ending: Ending)

  /** The receive loop over the remaining inputs: a receive error ends it
      before anything more is processed; a frame is processed and ends it when
      it is a Close or panics. */
  function Drain(inputs: seq<Received>): (s: Session)
    ensures |s.processed| <= |inputs|
  {
    if inputs == [] then Session([], StreamEnded)
    else match inputs[0]
      case Err => Session([], ReceiveFailed)
      case Ok(m) =>
        match ProcessMessage(m)
        case Break => Session([m], ClientClosed)
        case Panic => Session([m], Panicked)
        case Continue =>
          var rest := Drain(inputs[1..]);
          Session([m] + rest.processed, rest.ending)
  }

  /** The frames processed are the leading inputs, received without error,
      in the order received. */
  lemma {:induction false} DrainProcessesPrefix(inputs: seq<Received>)
    ensures forall i :: 0 <= i < |Drain(inputs).processed| ==> inputs[i] == Ok(Drain(inputs).processed[i])
  {
    if inputs != [] && Continues(inputs[0]) {
      var rest := Drain(inputs[1..]);
      DrainProcessesPrefix(inputs[1..]);
      forall i | 0 <= i < |Drain(inputs).processed| ensures inputs[i] == Ok(Drain(inputs).processed[i]) {
        if i > 0 {
          assert Drain(inputs).processed[i] == rest.processed[i - 1];
        }
      }
    }
  }

  /** `ws_callback` as a function of the ping outcome and the received inputs. */
  function Callback(pingSent: bool, inputs: seq<Received>): (s: Session)
    ensures !pingSent ==> s == Session([], PingFailed)
    ensures pingSent ==> s.ending != PingFailed
  {
    if pingSent then DrainNeverPingFails(inputs); Drain(inputs) else Session([], PingFailed)
  }

  lemma {:induction false} DrainNeverPingFails(inputs: seq<Received>)
    ensures Drain(inputs).ending != PingFailed
  {
    if inputs != [] && inputs[0].Ok? && ProcessMessage(inputs[0].msg) == Continue {
      DrainNeverPingFails(inputs[1..]);
    }
  }

  /** An input that lets the loop go on to the next one. */
  predicate Continues(r: Received) {
    r.Ok? && ProcessMessage(r.msg) == Continue
  }

  /** The loop runs up to the first input that stops it and no further: every
      input before it is processed once, in order; a stopping frame is
      processed itself, a receive error is not; with no stopping input the
      whole stream is processed and the stream simply ends. */
  lemma {:induction false} DrainUpToFirstStop(inputs: seq<Received>, n: nat)
    requires n <= |inputs|
    requires forall i :: 0 <= i < n ==> Continues(inputs[i])
    requires n < |inputs| ==> !Continues(inputs[n])
    ensures n == |inputs| ==> |Drain(inputs).processed| == n && Drain(inputs).ending == StreamEnded
    ensures n < |inputs| && inputs[n] == Err ==>
      |Drain(inputs).processed| == n && Drain(inputs).ending == ReceiveFailed
    ensures n < |inputs| && inputs[n].Ok? && inputs[n].msg.Close? ==>
      |Drain(inputs).processed| == n + 1 && Drain(inputs).ending == ClientClosed
    ensures n < |inputs| && inputs[n].Ok? && !inputs[n].msg.Close? ==>
      |Drain(inputs).processed| == n + 1 && Drain(inputs).ending == Panicked
  {
    if n > 0 {
      assert Continues(inputs[0]);
      forall i | 0 <= i < n - 1 ensures Continues(inputs[1..][i]) {
        assert inputs[1..][i] == inputs[i + 1];
      }
      DrainUpToFirstStop(inputs[1..], n - 1);
    }
  }

  /** How each ending shows in the inputs: every processed frame but the last
      let the loop go on, and the last one, or the input after it, is what
      ended the loop. */
  lemma {:induction false} DrainEnding(inputs: seq<Received>)
    ensures var s := Drain(inputs);
      && (forall i :: 0 <= i < |s.processed| - 1 ==> ProcessMessage(s.processed[i]) == Continue)
      && (s.ending == StreamEnded ==> |s.processed| == |inputs|)
      && (s.ending == ReceiveFailed ==> |s.processed| < |inputs| && inputs[|s.processed|] == Err)
      && (s.ending == ClientClosed ==> s.processed != [] && s.processed[|s.processed| - 1].Close?)
      && (s.ending == Panicked ==> s.processed != [] && ProcessMessage(s.processed[|s.processed| - 1]) == Panic)
      && s.ending != PingFailed
  {
    if inputs != [] && Continues(inputs[0]) {
      DrainEnding(inputs[1..]);
    }
  }

  /** One turn of the receive loop: a receive error stops it, and a frame is
      processed and then stops it or lets it go on with the rest. */
  lemma DrainStep(inputs: seq<Received>, i: nat)
    requires i < |inputs|
    ensures var s := Drain(inputs[i..]);
      if inputs[i].Err? then s == Session([], ReceiveFailed)
      else
        var m := inputs[i].msg;
        match ProcessMessage(m)
        case Break => s == Session([m], ClientClosed)
        case Panic => s == Session([m], Panicked)
        case Continue => s == Session([m] + Drain(inputs[i + 1..]).processed, Drain(inputs[i + 1..]).ending)
  {
    assert inputs[i..][1..] == inputs[i + 1..];
  }

  /** A turn of the loop that lets it go on moves the processed frame from
      the rest of the session to the frames processed so far. */
  lemma DrainContinues(inputs: seq<Received>, i: nat, processed: seq<Message>)
    requires i < |inputs| && Continues(inputs[i])
    requires Drain(inputs).processed == processed + Drain(inputs[i..]).processed
    requires Drain(inputs).ending == Drain(inputs[i..]).ending
    ensures Drain(inputs).processed == (processed + [inputs[i].msg]) + Drain(inputs[i + 1..]).processed
    ensures Drain(inputs).ending == Drain(inputs[i + 1..]).ending
  {
    var m := inputs[i].msg;
    var tail := Drain(inputs[i + 1..]);
    assert inputs[i..][0] == inputs[i] && inputs[i..][1..] == inputs[i + 1..];
    assert Drain(inputs[i..]) == Session([m] + tail.processed, tail.ending);
    assert processed + ([m] + tail.processed) == (processed + [m]) + tail.processed;
  }

  /** `ws_callback`: send the ping, give up if that fails, then receive and
      process frames until a Close, a panic, a receive error or the end of
      the stream. */
  method WsCallback(pingSent: bool, inputs: seq<Received>) returns (processed: seq<Message>, ending: Ending)
    ensures Session(processed, ending) == Callback(pingSent, inputs)
    ensures |processed| <= |inputs|
    ensures forall i :: 0 <= i < |processed| ==> inputs[i] == Ok(processed[i])
  {
    processed := [];
    if !pingSent {
      ending := PingFailed;
      return;
    }
    DrainProcessesPrefix(inputs);
    var i := 0;
    assert inputs[0..] == inputs;
    while i < |inputs|
      invariant 0 <= i <= |inputs| && |processed| == i
      invariant Drain(inputs).processed == processed + Drain(inputs[i..]).processed
      invariant Drain(inputs).ending == Drain(inputs[i..]).ending
    {
      DrainStep(inputs, i);
      if inputs[i].Err? {
        ending := ReceiveFailed;
        assert processed + [] == processed;
        return;
      }
      var m := inputs[i].msg;
      var flow := ProcessMessage(m);
      if flow == Break {
        processed := processed + [m];
        ending := ClientClosed;
        return;
      } else if flow == Panic {
        processed := processed + [m];
        ending := Panicked;
        return;
      }
      DrainContinues(inputs, i, processed);
      processed := processed + [m];
      i := i + 1;
    }
    assert processed + [] == processed;
    ending := StreamEnded;
  }
}
