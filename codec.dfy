/**
 * The message frame of pimployee/switchboard_client.py as values: how
 * `Message.serialize_message` builds a frame, and one call of `Message.read`
 * as a function of the message's fields and of what the socket delivers.
 * The classes in module Channel are proved against these functions.
 *
 * A frame is a 1024-byte meta header (the JSON text of the meta mapping,
 * right-padded with spaces), then `payload_length` payload bytes when the
 * meta declares them, then one passed descriptor when the meta declares
 * `has_fd`.
 */
module Codec {
  import opened Wire

  // ---------------------------------------------------------------------------
  // Encoding
  // ---------------------------------------------------------------------------

  /**
   * The mapping `serialize_message` encodes: the caller's meta with
   * `payload_length` added when the payload is non-empty and `has_fd` added
   * when a descriptor will follow.
   */
  function Declared(meta: Meta, payload: seq<byte>, hasFd: bool): (d: Meta)
    ensures |payload| > 0 ==> PAYLOAD_LENGTH in d && d[PAYLOAD_LENGTH] == Int(|payload|)
    ensures hasFd ==> HAS_FD in d && d[HAS_FD] == Bool(true)
    // a key that is not injected keeps whatever the caller's dict holds, present or absent
    ensures |payload| == 0 ==>
      && (PAYLOAD_LENGTH in d <==> PAYLOAD_LENGTH in meta)
      && (PAYLOAD_LENGTH in meta ==> d[PAYLOAD_LENGTH] == meta[PAYLOAD_LENGTH])
    ensures !hasFd ==>
      && (HAS_FD in d <==> HAS_FD in meta)
      && (HAS_FD in meta ==> d[HAS_FD] == meta[HAS_FD])
    ensures forall k :: k in meta && k != PAYLOAD_LENGTH && k != HAS_FD ==> k in d && d[k] == meta[k]
    ensures forall k :: k in d && k != PAYLOAD_LENGTH && k != HAS_FD ==> k in meta
  {
    var withLength := if |payload| > 0 then meta[PAYLOAD_LENGTH := Int(|payload|)] else meta;
    if hasFd then withLength[HAS_FD := Bool(true)] else withLength
  }

  /**
   * What `serialize_message` produces: the frame, or None where it raises
   * "Message is longer than maximum allowed by protocol", together with the
   * caller's meta mapping as the call leaves it (the method adds keys to the
   * caller's dict and deletes them again only on success).
   */
  datatype Serialized = Serialized(frame: Option<seq<byte>>, callerMeta: Meta)

  function SerializeMessage(c: JsonCodec, meta: Meta, payload: seq<byte>, hasFd: bool): (r: Serialized)
    // the encoded header must fit in META_LENGTH bytes, otherwise the call raises
    ensures r.frame.Some? <==> |c.dumps(Declared(meta, payload, hasFd))| <= META_LENGTH
    // a frame is the encoded header, space padding up to META_LENGTH, then the payload
    ensures r.frame.Some? ==>
      var text := c.dumps(Declared(meta, payload, hasFd));
      && |r.frame.value| == META_LENGTH + |payload|
      && r.frame.value[..|text|] == text
      && (forall i :: |text| <= i < META_LENGTH ==> r.frame.value[i] == SPACE)
      && r.frame.value[META_LENGTH..] == payload
    // on success the injected keys are removed again; on the error they stay
    ensures r.frame.Some? ==>
      r.callerMeta == Declared(meta, payload, hasFd)
                      - (if |payload| > 0 then {PAYLOAD_LENGTH} else {})
                      - (if hasFd then {HAS_FD} else {})
    ensures r.frame.None? ==> r.callerMeta == Declared(meta, payload, hasFd)
  {
    var declared := Declared(meta, payload, hasFd);
    var text := c.dumps(declared);
    if |text| > META_LENGTH then
      Serialized(None, declared)
    else
      var header := Pad(text, META_LENGTH);
      var afterLength := if |payload| > 0 then declared - {PAYLOAD_LENGTH} else declared;
      var after := if hasFd then afterLength - {HAS_FD} else afterLength;
      assert (header + payload)[..|text|] == header[..|text|];
      Serialized(Some(header + payload), after)
  }

  /**
   * A caller whose meta does not already use the two reserved keys sees no
   * change to its mapping when serialization succeeds.
   */
  lemma SerializeLeavesCallerMeta(c: JsonCodec, meta: Meta, payload: seq<byte>, hasFd: bool)
    requires PAYLOAD_LENGTH !in meta && HAS_FD !in meta
    requires SerializeMessage(c, meta, payload, hasFd).frame.Some?
    ensures SerializeMessage(c, meta, payload, hasFd).callerMeta == meta
  {
    var r := SerializeMessage(c, meta, payload, hasFd);
    var d := Declared(meta, payload, hasFd);
    var removed := (if |payload| > 0 then {PAYLOAD_LENGTH} else {}) + (if hasFd then {HAS_FD} else {});
    assert r.callerMeta == d - removed;
    forall k | k in meta ensures k in r.callerMeta && r.callerMeta[k] == meta[k] {
      assert k != PAYLOAD_LENGTH && k != HAS_FD;
    }
    forall k | k in r.callerMeta ensures k in meta {
      assert k !in removed;
    }
  }

  // ---------------------------------------------------------------------------
  // The receive side of the socket
  // ---------------------------------------------------------------------------

  /** The bytes of a sequence of received chunks, in order. */
  function Flatten(chunks: seq<seq<byte>>): seq<byte> {
    if chunks == [] then [] else chunks[0] + Flatten(chunks[1..])
  }

  /** A measure of what the inbox still holds: its bytes plus one per chunk. */
  function Size(chunks: seq<seq<byte>>): nat {
    if chunks == [] then 0 else |chunks[0]| + 1 + Size(chunks[1..])
  }

  datatype Received = Received(data: seq<byte>, rest: seq<seq<byte>>)

  /**
   * `socket.recv(n)` on an inbox of chunks: at most `n` bytes from the head
   * chunk; the rest of that chunk stays for the next call. An empty inbox
   * yields nothing (the peer has closed), and so does an empty chunk.
   */
  function Recv(inbox: seq<seq<byte>>, n: nat): (r: Received)
    ensures |r.data| <= n
    ensures Flatten(inbox) == r.data + Flatten(r.rest)
    ensures Size(r.rest) <= Size(inbox)
    ensures n > 0 && inbox != [] ==> Size(r.rest) < Size(inbox)
    ensures inbox == [] ==> r == Received([], [])
    ensures inbox != [] && inbox[0] == [] ==> r == Received([], inbox[1..])
  {
    if inbox == [] then Received([], [])
    else
      var chunk := inbox[0];
      if n < |chunk| then
        var rest := [chunk[n..]] + inbox[1..];
        assert rest[0] == chunk[n..] && rest[1..] == inbox[1..];
        assert chunk == chunk[..n] + chunk[n..];
        Received(chunk[..n], rest)
      else
        Received(chunk, inbox[1..])
  }

  // ---------------------------------------------------------------------------
  // Decoding: the fields of a Message and one call of Message.read
  // ---------------------------------------------------------------------------

  /** Message.STATE_META, STATE_PAYLOAD, STATE_FD, STATE_READY. */
  datatype ParseState = MetaState | PayloadState | FdState | ReadyState

  /** Position along META -> PAYLOAD -> FD -> READY. */
  function Rank(s: ParseState): nat {
    match s
    case MetaState => 0
    case PayloadState => 1
    case FdState => 2
    case ReadyState => 3
  }

  /**
   * The attribute `self.meta`: the header bytes received so far, replaced by
   * the decoded mapping once all META_LENGTH of them are in.
   */
  datatype MetaField = Raw(text: seq<byte>) | Decoded(fields: Meta)

  /** The fields of a Message: `state`, `meta`, `payload` and the `ready` event. */
  datatype Parser = Parser(state: ParseState, meta: MetaField, payload: seq<byte>, ready: bool)

  /** `Message()`: nothing received yet. */
  const Fresh: Parser := Parser(MetaState, Raw([]), [], false)

  /** Why a call of `Message.read` raises. */
  datatype ReadError =
    | MalformedMeta      // json.loads rejects the header, or it is not a JSON object
    | BadPayloadLength   // payload_length is truthy but not a non-negative integer

  /** The outcome of one call of `Message.read`. */
  datatype Step = Step(msg: Parser, rest: seq<seq<byte>>, error: Option<ReadError>)

  /** The state a complete header leads to. */
  function AfterMeta(fields: Meta): (s: ParseState)
    ensures s == PayloadState <==> KeyTruthy(fields, PAYLOAD_LENGTH)
    ensures s == FdState <==> !KeyTruthy(fields, PAYLOAD_LENGTH) && KeyTruthy(fields, HAS_FD)
    ensures s != MetaState
  {
    if KeyTruthy(fields, PAYLOAD_LENGTH) then PayloadState
    else if KeyTruthy(fields, HAS_FD) then FdState
    else ReadyState
  }

  /**
   * The parser's invariant between calls: `ready` is set exactly in READY;
   * FD is never left standing (the descriptor is taken in the call that
   * enters FD); the header buffer stays below META_LENGTH bytes (it is
   * decoded in the call that completes it); in PAYLOAD `payload_length` is a
   * positive integer (any other truthy value makes the call that enters
   * PAYLOAD raise) and the payload buffer is shorter than it; in READY the
   * payload buffer holds exactly `payload_length` bytes.
   */
  ghost predicate Inv(p: Parser) {
    && (p.ready <==> p.state == ReadyState)
    && p.state != FdState
    && (p.state == MetaState <==> p.meta.Raw?)
    && (p.meta.Raw? ==> |p.meta.text| < META_LENGTH && p.payload == [])
    && (p.state == PayloadState ==>
          && KeyTruthy(p.meta.fields, PAYLOAD_LENGTH)
          && match AsInt(p.meta.fields[PAYLOAD_LENGTH])
             case Some(n) => |p.payload| < n
             case None => false)
    && (p.state == ReadyState ==>
          if KeyTruthy(p.meta.fields, PAYLOAD_LENGTH)
          then AsInt(p.meta.fields[PAYLOAD_LENGTH]) == Some(|p.payload|)
          else p.payload == [])
  }

  /** Bytes the parser has taken from the socket so far. */
  function Absorbed(p: Parser): nat {
    match p.meta
    case Raw(text) => |text|
    case Decoded(_) => META_LENGTH + |p.payload|
  }

  /** The first branch of Message.read: collect the header, decode it when complete. */
  function MetaPhase(c: JsonCodec, p: Parser, inbox: seq<seq<byte>>): Step
    requires p.state == MetaState ==> p.meta.Raw? && |p.meta.text| <= META_LENGTH
  {
    if p.state != MetaState then Step(p, inbox, None)
    else
      var got := Recv(inbox, META_LENGTH - |p.meta.text|);
      var buf := p.meta.text + got.data;
      if |buf| < META_LENGTH then
        Step(p.(meta := Raw(buf)), got.rest, None)
      else
        match c.loads(buf)
        case None => Step(p.(meta := Raw(buf)), got.rest, Some(MalformedMeta))
        case Some(fields) =>
          var next := AfterMeta(fields);
          Step(p.(meta := Decoded(fields), state := next, ready := p.ready || next == ReadyState), got.rest, None)
  }

  /** The second branch: collect `payload_length` payload bytes. */
  function PayloadPhase(p: Parser, inbox: seq<seq<byte>>): Step
    requires p.state == PayloadState ==> p.meta.Decoded? && PAYLOAD_LENGTH in p.meta.fields
  {
    if p.state != PayloadState then Step(p, inbox, None)
    else
      match AsInt(p.meta.fields[PAYLOAD_LENGTH])
      // `payload_length - len(payload)` raises TypeError
      case None => Step(p, inbox, Some(BadPayloadLength))
      case Some(n) =>
        // `recv` of a negative count raises ValueError
        if n - |p.payload| < 0 then Step(p, inbox, Some(BadPayloadLength))
        else
          var got := Recv(inbox, n - |p.payload|);
          var payload := p.payload + got.data;
          if |payload| == n then
            var next := if KeyTruthy(p.meta.fields, HAS_FD) then FdState else ReadyState;
            Step(p.(payload := payload, state := next, ready := p.ready || next == ReadyState), got.rest, None)
          else
            Step(p.(payload := payload), got.rest, None)
  }

  /** The third branch: take the passed descriptor `fd` and record it as `fileno`. */
  function FdPhase(p: Parser, fd: int): Parser
    requires p.state == FdState ==> p.meta.Decoded?
  {
    if p.state != FdState then p
    else p.(meta := Decoded(p.meta.fields[FILENO := Int(fd)]), state := ReadyState, ready := true)
  }

  /** The payload and descriptor branches, run one after the other. */
  function Tail(p: Parser, inbox: seq<seq<byte>>, fd: int): Step
    requires p.state == PayloadState ==> p.meta.Decoded? && PAYLOAD_LENGTH in p.meta.fields
    requires p.state == FdState ==> p.meta.Decoded?
  {
    var s := PayloadPhase(p, inbox);
    if s.error.Some? then s
    else
      assert s.msg.state == FdState ==> s.msg.meta.Decoded?;
      Step(FdPhase(s.msg, fd), s.rest, None)
  }

  /**
   * One call of `Message.read`: the three branches in sequence, so that one
   * call may pass through several states. `fd` is the descriptor that
   * `passfd.recvfd` delivers if the call reaches FD.
   */
  function ReadStep(c: JsonCodec, p: Parser, inbox: seq<seq<byte>>, fd: int): Step
    requires Inv(p)
  {
    var s := MetaPhase(c, p, inbox);
    if s.error.Some? then s
    else Tail(s.msg, s.rest, fd)
  }

  /** Every call that does not raise keeps the invariant, and with it both buffer bounds. */
  lemma ReadStepKeepsInv(c: JsonCodec, p: Parser, inbox: seq<seq<byte>>, fd: int)
    requires Inv(p)
    ensures var r := ReadStep(c, p, inbox, fd); r.error.None? ==> Inv(r.msg)
  {
    if p.state == MetaState {
      MetaCallKeepsInv(c, p, inbox, fd);
    } else if p.state == PayloadState {
      TailKeepsInv(p, inbox, fd);
    }
  }

  /** A call that starts in META: the header is still incomplete, or decoded and followed by the tail. */
  lemma MetaCallKeepsInv(c: JsonCodec, p: Parser, inbox: seq<seq<byte>>, fd: int)
    requires Inv(p) && p.state == MetaState
    ensures var r := ReadStep(c, p, inbox, fd); r.error.None? ==> Inv(r.msg)
  {
    var s := MetaPhase(c, p, inbox);
    if s.error.None? && s.msg.state != MetaState {
      assert s.msg.payload == [];
      if s.msg.state == PayloadState {
        TailKeepsInv(s.msg, s.rest, fd);
      }
    }
  }

  /**
   * The payload and descriptor branches keep the invariant from PAYLOAD
   * state with an empty or a consistent partial payload.
   */
  lemma TailKeepsInv(p: Parser, inbox: seq<seq<byte>>, fd: int)
    requires p.state == PayloadState && !p.ready && p.meta.Decoded?
    requires KeyTruthy(p.meta.fields, PAYLOAD_LENGTH)
    requires AsInt(p.meta.fields[PAYLOAD_LENGTH]).Some? && AsInt(p.meta.fields[PAYLOAD_LENGTH]).value > 0 ==>
      |p.payload| < AsInt(p.meta.fields[PAYLOAD_LENGTH]).value
    requires AsInt(p.meta.fields[PAYLOAD_LENGTH]).Some? && AsInt(p.meta.fields[PAYLOAD_LENGTH]).value <= 0 ==> p.payload == []
    ensures var r := Tail(p, inbox, fd); r.error.None? ==> Inv(r.msg)
  {
  }

  /**
   * A call never puts bytes back, and a call that does not raise on a
   * non-empty socket takes something from it.
   */
  lemma ReadStepProgress(c: JsonCodec, p: Parser, inbox: seq<seq<byte>>, fd: int)
    requires Inv(p)
    ensures var r := ReadStep(c, p, inbox, fd);
      && Size(r.rest) <= Size(inbox)
      && (r.error.None? && !p.ready && inbox != [] ==> Size(r.rest) < Size(inbox))
  {
  }

  /**
   * States only move forward along META -> PAYLOAD -> FD -> READY; READY is
   * final; a call that raises has taken no payload bytes.
   */
  lemma ReadStepForward(c: JsonCodec, p: Parser, inbox: seq<seq<byte>>, fd: int)
    requires Inv(p)
    ensures var r := ReadStep(c, p, inbox, fd);
      && Rank(p.state) <= Rank(r.msg.state)
      && (p.ready ==> r == Step(p, inbox, None))
      && (r.error.Some? ==> r.msg.payload == p.payload)
  {
  }

  /** The bytes a call takes from the socket are exactly the bytes the message absorbs. */
  lemma ReadStepConserves(c: JsonCodec, p: Parser, inbox: seq<seq<byte>>, fd: int)
    requires Inv(p)
    ensures var r := ReadStep(c, p, inbox, fd);
      r.error.None? ==> |Flatten(inbox)| - |Flatten(r.rest)| == Absorbed(r.msg) - Absorbed(p)
  {
  }

  /** A recv that returns nothing changes nothing: there is no end-of-stream detection. */
  lemma ReadStepEmptyRecv(c: JsonCodec, p: Parser, inbox: seq<seq<byte>>, fd: int)
    requires Inv(p) && !p.ready
    requires inbox == [] || inbox[0] == []
    ensures ReadStep(c, p, inbox, fd) == Step(p, if inbox == [] then [] else inbox[1..], None)
  {
  }

  // ---------------------------------------------------------------------------
  // Reading until a message is ready
  // ---------------------------------------------------------------------------

  /** How `UnixDomainSocketClient.read(blocking=True)` ends for the message being parsed. */
  datatype Outcome =
      // the message reached READY; `rest` is what the socket still holds
    | Delivered(msg: Parser, rest: seq<seq<byte>>)
      // the socket has nothing more to give: every later recv returns nothing
      // and the loop keeps calling Message.read without end
    | Stalled(msg: Parser)
      // Message.read raised, and the exception leaves the loop
    | Failed(error: ReadError, msg: Parser, rest: seq<seq<byte>>)

  /** The `while True` loop of the blocking read: step the parser until it is ready. */
  function Run(c: JsonCodec, p: Parser, inbox: seq<seq<byte>>, fd: int): (r: Outcome)
    requires Inv(p) && !p.ready
    decreases Size(inbox)
    ensures r.Delivered? ==> Inv(r.msg) && r.msg.ready && r.msg.state == ReadyState
    ensures r.Stalled? ==> Inv(r.msg) && !r.msg.ready
  {
    var s := ReadStep(c, p, inbox, fd);
    ReadStepKeepsInv(c, p, inbox, fd);
    ReadStepProgress(c, p, inbox, fd);
    if s.error.Some? then Failed(s.error.value, s.msg, s.rest)
    else if s.msg.ready then Delivered(s.msg, s.rest)
    else if s.rest == [] then Stalled(s.msg)
    else Run(c, s.msg, s.rest, fd)
  }

  /** A stalled read is stuck for good: the next call of Message.read on an empty socket is a no-op. */
  lemma StalledStaysStalled(c: JsonCodec, p: Parser, inbox: seq<seq<byte>>, fd: int)
    requires Inv(p) && !p.ready
    requires Run(c, p, inbox, fd).Stalled?
    ensures var m := Run(c, p, inbox, fd).msg;
      ReadStep(c, m, [], fd) == Step(m, [], None) && Run(c, m, [], fd) == Stalled(m)
  {
    ReadStepEmptyRecv(c, Run(c, p, inbox, fd).msg, [], fd);
  }

  // ---------------------------------------------------------------------------
  // Round trip: a serialized frame, fed in any chunking, decodes to its input
  // ---------------------------------------------------------------------------

  /** The meta a receiver ends with: the declared mapping plus the passed descriptor as `fileno`. */
  function WithDescriptor(d: Meta, fd: int): Meta {
    if KeyTruthy(d, HAS_FD) then d[FILENO := Int(fd)] else d
  }

  /** What the receiver of `serialize_message(meta, payload, has_fd)` holds once READY. */
  function Delivers(meta: Meta, payload: seq<byte>, hasFd: bool, fd: int): Meta {
    WithDescriptor(Declared(meta, payload, hasFd), fd)
  }

  /**
   * A `recv` for the rest of `src`, on an inbox that holds the rest of `src`
   * (and possibly more), takes a further prefix of `src`.
   */
  lemma RecvTakesPrefix(src: seq<byte>, k: nat, tail: seq<byte>, inbox: seq<seq<byte>>) returns (next: nat)
    requires k <= |src|
    requires Flatten(inbox) == src[k..] + tail
    ensures var got := Recv(inbox, |src| - k);
      && k <= next <= |src|
      && src[..k] + got.data == src[..next]
      && Flatten(got.rest) == src[next..] + tail
      && (next < |src| ==> got.rest != [])
  {
    var got := Recv(inbox, |src| - k);
    var data := got.data;
    assert data == src[k..k + |data|] by {
      assert data == Flatten(inbox)[..|data|];
      assert Flatten(inbox)[..|data|] == src[k..][..|data|];
    }
    next := k + |data|;
    assert src[..k] + data == src[..next];
    assert Flatten(got.rest) == src[next..] + tail by {
      assert src[k..] == data + src[next..];
    }
    if next < |src| {
      assert Flatten(got.rest) != [];
    }
  }

  /**
   * One call in PAYLOAD state on an inbox that holds the rest of the payload
   * (and possibly more): it takes only payload bytes, and either completes
   * the message or stops at a longer payload prefix `next`.
   */
  lemma {:induction false} PayloadStep(d: Meta, payload: seq<byte>, extra: seq<byte>, j: nat,
                                       inbox: seq<seq<byte>>, fd: int) returns (next: nat)
    requires j < |payload|
    requires PAYLOAD_LENGTH in d && d[PAYLOAD_LENGTH] == Int(|payload|)
    requires Flatten(inbox) == payload[j..] + extra
    ensures var s := Tail(Parser(PayloadState, Decoded(d), payload[..j], false), inbox, fd);
      && s.error.None?
      && (s.msg.ready ==>
            s.msg == Parser(ReadyState, Decoded(WithDescriptor(d, fd)), payload, true) && Flatten(s.rest) == extra)
      && (!s.msg.ready ==>
            && j <= next < |payload|
            && s.msg == Parser(PayloadState, Decoded(d), payload[..next], false)
            && Flatten(s.rest) == payload[next..] + extra
            && s.rest != [])
  {
    next := RecvTakesPrefix(payload, j, extra, inbox);
    if next == |payload| {
      assert payload[..next] == payload;
    }
  }

  /** From PAYLOAD state with a payload prefix in, the blocking read delivers exactly the payload. */
  lemma {:induction false} RunFromPayload(c: JsonCodec, d: Meta, payload: seq<byte>, extra: seq<byte>, j: nat,
                                          inbox: seq<seq<byte>>, fd: int)
    requires j < |payload|
    requires PAYLOAD_LENGTH in d && d[PAYLOAD_LENGTH] == Int(|payload|)
    requires Flatten(inbox) == payload[j..] + extra
    ensures Inv(Parser(PayloadState, Decoded(d), payload[..j], false))
    ensures var r := Run(c, Parser(PayloadState, Decoded(d), payload[..j], false), inbox, fd);
      && r.Delivered?
      && r.msg == Parser(ReadyState, Decoded(WithDescriptor(d, fd)), payload, true)
      && Flatten(r.rest) == extra
    decreases Size(inbox)
  {
    var p := Parser(PayloadState, Decoded(d), payload[..j], false);
    assert Inv(p);
    var next := PayloadStep(d, payload, extra, j, inbox, fd);
    var s := ReadStep(c, p, inbox, fd);
    assert s == Tail(p, inbox, fd);
    if !s.msg.ready {
      RunFromPayload(c, d, payload, extra, next, s.rest, fd);
    }
  }

  /**
   * One call in META state on an inbox that holds the rest of a 1024-byte
   * header (and possibly more): it takes only header bytes, reaching the
   * header prefix of length `next`, and decodes the header once complete.
   */
  lemma {:induction false} MetaStep(c: JsonCodec, header: seq<byte>, tail: seq<byte>, k: nat,
                                    inbox: seq<seq<byte>>) returns (next: nat)
    requires |header| == META_LENGTH && k < META_LENGTH
    requires Flatten(inbox) == header[k..] + tail
    ensures var got := Recv(inbox, META_LENGTH - k);
      var s := MetaPhase(c, Parser(MetaState, Raw(header[..k]), [], false), inbox);
      && k <= next <= META_LENGTH
      && s.rest == got.rest
      && Flatten(got.rest) == header[next..] + tail
      && (next < META_LENGTH ==>
            s == Step(Parser(MetaState, Raw(header[..next]), [], false), got.rest, None) && got.rest != [])
      && (next == META_LENGTH && c.loads(header).Some? ==>
            var d := c.loads(header).value;
            s == Step(Parser(AfterMeta(d), Decoded(d), [], AfterMeta(d) == ReadyState), got.rest, None))
  {
    next := RecvTakesPrefix(header, k, tail, inbox);
    if next == META_LENGTH {
      assert header[..next] == header;
    }
  }

  /**
   * The call that completes the header of a serialized frame, from the end
   * of the header on: when a payload is declared it continues in PAYLOAD in
   * the same call, and the blocking read ends by delivering the message.
   */
  lemma {:induction false} AfterHeader(c: JsonCodec, d: Meta, payload: seq<byte>, extra: seq<byte>,
                                       rest: seq<seq<byte>>, fd: int)
    requires KeyTruthy(d, PAYLOAD_LENGTH) <==> |payload| > 0
    requires |payload| > 0 ==> d[PAYLOAD_LENGTH] == Int(|payload|)
    requires Flatten(rest) == payload + extra
    ensures var s := Tail(Parser(AfterMeta(d), Decoded(d), [], AfterMeta(d) == ReadyState), rest, fd);
      && s.error.None?
      && (s.msg.ready ==>
            s.msg == Parser(ReadyState, Decoded(WithDescriptor(d, fd)), payload, true) && Flatten(s.rest) == extra)
      && (!s.msg.ready ==>
            && Inv(s.msg) && s.rest != []
            && var r := Run(c, s.msg, s.rest, fd);
               r.Delivered? && r.msg == Parser(ReadyState, Decoded(WithDescriptor(d, fd)), payload, true)
               && Flatten(r.rest) == extra)
  {
    var p1 := Parser(AfterMeta(d), Decoded(d), [], AfterMeta(d) == ReadyState);
    var s := Tail(p1, rest, fd);
    if |payload| > 0 {
      assert payload[..0] == [] && payload[0..] == payload;
      var next := PayloadStep(d, payload, extra, 0, rest, fd);
      if !s.msg.ready {
        RunFromPayload(c, d, payload, extra, next, s.rest, fd);
      }
    }
  }

  /**
   * From META state with the first `k` header bytes of a serialized frame in,
   * the blocking read delivers the declared meta and the payload, and leaves
   * exactly what followed the frame.
   */
  lemma {:induction false} RunFromMeta(c: JsonCodec, meta: Meta, payload: seq<byte>, hasFd: bool, fd: int,
                                       extra: seq<byte>, k: nat, inbox: seq<seq<byte>>)
    requires RoundTrips(c)
    requires PAYLOAD_LENGTH !in meta && HAS_FD !in meta
    requires |c.dumps(Declared(meta, payload, hasFd))| <= META_LENGTH
    requires k < META_LENGTH
    requires Flatten(inbox) == Pad(c.dumps(Declared(meta, payload, hasFd)), META_LENGTH)[k..] + (payload + extra)
    ensures Inv(Parser(MetaState, Raw(Pad(c.dumps(Declared(meta, payload, hasFd)), META_LENGTH)[..k]), [], false))
    ensures var r := Run(c, Parser(MetaState, Raw(Pad(c.dumps(Declared(meta, payload, hasFd)), META_LENGTH)[..k]), [], false), inbox, fd);
      && r.Delivered?
      && r.msg == Parser(ReadyState, Decoded(Delivers(meta, payload, hasFd, fd)), payload, true)
      && Flatten(r.rest) == extra
    decreases Size(inbox)
  {
    var d := Declared(meta, payload, hasFd);
    var header := Pad(c.dumps(d), META_LENGTH);
    var p := Parser(MetaState, Raw(header[..k]), [], false);
    assert Inv(p);
    var next := MetaStep(c, header, payload + extra, k, inbox);
    var got := Recv(inbox, META_LENGTH - k);
    if next < META_LENGTH {
      RunFromMeta(c, meta, payload, hasFd, fd, extra, next, got.rest);
    } else {
      assert c.loads(header) == Some(d);
      assert KeyTruthy(d, HAS_FD) <==> hasFd;
      AfterHeader(c, d, payload, extra, got.rest, fd);
    }
  }

  /**
   * Round trip: feeding the frame `serialize_message(meta, payload, has_fd)`
   * to a fresh Message, cut into chunks in any way and followed by any
   * further bytes, reaches READY after exactly the META_LENGTH + |payload|
   * bytes of the frame; the decoded meta is the caller's plus
   * `payload_length` (when the payload is non-empty) and `has_fd`/`fileno`
   * (when a descriptor is declared), and the payload is the caller's.
   */
  lemma RoundTrip(c: JsonCodec, meta: Meta, payload: seq<byte>, hasFd: bool, fd: int,
                  inbox: seq<seq<byte>>, extra: seq<byte>)
    requires RoundTrips(c)
    requires PAYLOAD_LENGTH !in meta && HAS_FD !in meta
    requires SerializeMessage(c, meta, payload, hasFd).frame.Some?
    requires Flatten(inbox) == SerializeMessage(c, meta, payload, hasFd).frame.value + extra
    ensures var r := Run(c, Fresh, inbox, fd);
      && r.Delivered?
      && r.msg.meta == Decoded(Delivers(meta, payload, hasFd, fd))
      && r.msg.payload == payload
      && Flatten(r.rest) == extra
      && |Flatten(inbox)| - |Flatten(r.rest)| == META_LENGTH + |payload|
  {
    var header := Pad(c.dumps(Declared(meta, payload, hasFd)), META_LENGTH);
    assert header[..0] == [] && header[0..] == header;
    assert Flatten(inbox) == header + (payload + extra);
    RunFromMeta(c, meta, payload, hasFd, fd, extra, 0, inbox);
  }
}
