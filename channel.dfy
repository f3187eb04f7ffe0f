/**
 * The objects of pimployee/switchboard_client.py: a socket, the `Message`
 * whose `read` fills its buffers field by field, and the
 * `UnixDomainSocketClient` that steps its current message until it is ready
 * and writes frames. Each method is proved against the functions of module
 * Codec.
 */
module Channel {
  import opened Wire
  import opened Codec

  /** What the worker writes to the socket: frame bytes, or a passed descriptor. */
  datatype Out = Bytes(data: seq<byte>) | Descriptor(fd: int)

  /**
   * The socket: the chunks the peer's data will arrive in, and everything
   * written so far, in order.
   */
  class Socket {
    var inbox: seq<seq<byte>>
    var sent: seq<Out>

    constructor (inbox: seq<seq<byte>>)
      ensures this.inbox == inbox && sent == []
    {
      this.inbox := inbox;
      sent := [];
    }

    /** `recv(n)` */
    method Recv(n: nat) returns (data: seq<byte>)
      modifies this
      ensures Codec.Recv(old(inbox), n) == Received(data, inbox)
      ensures sent == old(sent)
    {
      var got := Codec.Recv(inbox, n);
      data, inbox := got.data, got.rest;
    }

    /** `sendall(data)` */
    method SendAll(data: seq<byte>)
      modifies this
      ensures sent == old(sent) + [Bytes(data)] && inbox == old(inbox)
    {
      sent := sent + [Bytes(data)];
    }

    /** `passfd.sendfd(socket, fd, '*')` */
    method SendFd(fd: int)
      modifies this
      ensures sent == old(sent) + [Descriptor(fd)] && inbox == old(inbox)
    {
      sent := sent + [Descriptor(fd)];
    }
  }

  /** One message being received. */
  class Message {
    var state: ParseState
    var meta: MetaField
    var payload: seq<byte>
    var ready: bool

    /** The fields as a value. */
    function Snapshot(): Parser
      reads this
    {
      Parser(state, meta, payload, ready)
    }

    ghost predicate Valid()
      reads this
    {
      Inv(Snapshot())
    }

    constructor ()
      ensures Snapshot() == Fresh && Valid()
    {
      state, meta, payload, ready := MetaState, Raw([]), [], false;
    }

    /** `is_ready()` */
    function IsReady(): (r: bool)
      requires Valid()
      reads this
      ensures r <==> state == ReadyState
    {
      ready
    }

    /**
     * `read(socket)`: the META, PAYLOAD and FD branches in sequence.
     * `fd` is what `passfd.recvfd` yields if FD is reached. A raised
     * exception is returned as `error`, with the fields as the exception
     * leaves them.
     */
    method Read(sock: Socket, c: JsonCodec, fd: int) returns (error: Option<ReadError>)
      requires Valid()
      modifies this, sock
      ensures ReadStep(c, old(Snapshot()), old(sock.inbox), fd) == Step(Snapshot(), sock.inbox, error)
      ensures error.None? ==> Valid()
      ensures sock.sent == old(sock.sent)
    {
      ReadStepKeepsInv(c, Snapshot(), sock.inbox, fd);
      error := ReadMeta(sock, c);
      if error.Some? {
        return;
      }
      error := ReadPayload(sock);
      if error.Some? {
        return;
      }
      ReadFd(fd);
    }

    /** The META branch of `read`. */
    method ReadMeta(sock: Socket, c: JsonCodec) returns (error: Option<ReadError>)
      requires state == MetaState ==> meta.Raw? && |meta.text| <= META_LENGTH
      modifies this, sock
      ensures MetaPhase(c, old(Snapshot()), old(sock.inbox)) == Step(Snapshot(), sock.inbox, error)
      ensures sock.sent == old(sock.sent)
    {
      if state == MetaState {
        ghost var got := Codec.Recv(sock.inbox, META_LENGTH - |meta.text|);
        var data := sock.Recv(META_LENGTH - |meta.text|);
        assert data == got.data && sock.inbox == got.rest;
        meta := Raw(meta.text + data);
        if |meta.text| == META_LENGTH {
          error := DecodeMeta(c);
          return;
        }
      }
      return None;
    }

    /** The complete header: `json.loads`, then the state it leads to. */
    method DecodeMeta(c: JsonCodec) returns (error: Option<ReadError>)
      requires state == MetaState && meta.Raw?
      modifies this
      ensures old(c.loads(meta.text)).None? ==> error == Some(MalformedMeta) && Snapshot() == old(Snapshot())
      ensures old(c.loads(meta.text)).Some? ==>
        var fields := old(c.loads(meta.text)).value;
        && error.None?
        && Snapshot() == old(Snapshot()).(meta := Decoded(fields), state := AfterMeta(fields),
                                          ready := old(ready) || AfterMeta(fields) == ReadyState)
    {
      var decoded := c.loads(meta.text);
      if decoded.None? {
        return Some(MalformedMeta);
      }
      meta := Decoded(decoded.value);
      if KeyTruthy(meta.fields, PAYLOAD_LENGTH) {
        state := PayloadState;
      } else if KeyTruthy(meta.fields, HAS_FD) {
        state := FdState;
      } else {
        state := ReadyState;
        ready := true;
      }
      return None;
    }

    /** The PAYLOAD branch of `read`. */
    method ReadPayload(sock: Socket) returns (error: Option<ReadError>)
      requires state == PayloadState ==> meta.Decoded? && PAYLOAD_LENGTH in meta.fields
      modifies this, sock
      ensures PayloadPhase(old(Snapshot()), old(sock.inbox)) == Step(Snapshot(), sock.inbox, error)
      ensures sock.sent == old(sock.sent)
    {
      if state == PayloadState {
        var length := AsInt(meta.fields[PAYLOAD_LENGTH]);
        if length.None? || length.value - |payload| < 0 {
          return Some(BadPayloadLength);
        }
        var data := sock.Recv(length.value - |payload|);
        payload := payload + data;
        if |payload| == length.value {
          if KeyTruthy(meta.fields, HAS_FD) {
            state := FdState;
          } else {
            state := ReadyState;
            ready := true;
          }
        }
      }
      return None;
    }

    /** The FD branch of `read`. */
    method ReadFd(fd: int)
      requires state == FdState ==> meta.Decoded?
      modifies this
      ensures Snapshot() == FdPhase(old(Snapshot()), fd)
    {
      if state == FdState {
        meta := Decoded(meta.fields[FILENO := Int(fd)]);
        state := ReadyState;
        ready := true;
      }
    }
  }

  /** What `UnixDomainSocketClient.read` does. */
  datatype Delivery =
    | Got(msg: Message)        // returns a READY message
    | NotReady                 // non-blocking call: returns None
    | Blocked                  // blocking call on a socket with nothing more: never returns
    | Raised(error: ReadError) // Message.read raised

  /**
   * The bytes and descriptor that `send(meta, payload, fileno)` writes, or
   * None when `serialize_message` raises and nothing is written. `has_fd`
   * is declared when `fileno is not None`, but the descriptor is passed
   * only when `fileno` is truthy.
   */
  function Transmission(c: JsonCodec, meta: Meta, payload: seq<byte>, fileno: Option<int>): Option<seq<Out>> {
    var s := SerializeMessage(c, meta, payload, fileno.Some?);
    if s.frame.None? then None
    else Some([Bytes(s.frame.value)] + if fileno.Some? && fileno.value != 0 then [Descriptor(fileno.value)] else [])
  }

  /**
   * A descriptor that is passed travels after its frame, and the frame
   * declares it.
   */
  lemma DescriptorFollowsFrame(c: JsonCodec, meta: Meta, payload: seq<byte>, fileno: Option<int>)
    requires Transmission(c, meta, payload, fileno).Some?
    ensures var t := Transmission(c, meta, payload, fileno).value;
      && 1 <= |t| <= 2
      && t[0].Bytes?
      && (|t| == 2 <==> fileno.Some? && fileno.value != 0)
      && (|t| == 2 ==> t[1] == Descriptor(fileno.value))
      && (fileno.Some? ==> KeyTruthy(Declared(meta, payload, true), HAS_FD))
  {
  }

  /**
   * Descriptor 0 is declared in the frame (`fileno != None`) but never
   * passed (`if fileno:` is false), so the receiver waits in FD for a
   * descriptor that does not come.
   */
  lemma DescriptorZeroDeclaredNotPassed(c: JsonCodec, meta: Meta, payload: seq<byte>)
    requires Transmission(c, meta, payload, Some(0)).Some?
    ensures var t := Transmission(c, meta, payload, Some(0)).value;
      && (forall i :: 0 <= i < |t| ==> !t[i].Descriptor?)
      && AfterMeta(Declared(meta, payload, true)) in {FdState, PayloadState}
  {
  }

  /** The worker's end of the connection to the boss. */
  class UnixDomainSocketClient {
    const socket: Socket
    const codec: JsonCodec
    var current: Message

    /** The message being received is consistent and never left READY. */
    ghost predicate Valid()
      reads this, current
    {
      current.Valid() && !current.ready
    }

    constructor (socket: Socket, codec: JsonCodec)
      ensures this.socket == socket && this.codec == codec
      ensures fresh(current) && current.Snapshot() == Fresh && Valid()
    {
      this.socket := socket;
      this.codec := codec;
      current := new Message();
    }

    /**
     * `read(blocking)`: step the current message until it is ready, then
     * return it and start a fresh one. Without blocking, return after one
     * step. The blocking loop has no end-of-stream test; where the socket
     * has nothing more to give the source loops forever, and the model
     * returns `Blocked` instead.
     */
    method Read(blocking: bool, fd: int) returns (r: Delivery)
      requires Valid()
      modifies this, current, socket
      // a raised exception leaves the current message broken; otherwise it is consistent
      ensures !r.Raised? ==> Valid()
      ensures socket.sent == old(socket.sent)
      ensures r.Got? ==> r.msg == old(current) && r.msg.state == ReadyState && r.msg.ready
                         && fresh(current) && current.Snapshot() == Fresh
      ensures !r.Got? ==> current == old(current)
      ensures blocking ==>
        match Run(codec, old(current.Snapshot()), old(socket.inbox), fd)
        case Delivered(m, rest) => r.Got? && r.msg.Snapshot() == m && socket.inbox == rest
        case Stalled(m) => r == Blocked && current.Snapshot() == m && socket.inbox == []
        case Failed(e, m, rest) => r == Raised(e) && current.Snapshot() == m && socket.inbox == rest
      ensures !blocking ==>
        var s := ReadStep(codec, old(current.Snapshot()), old(socket.inbox), fd);
        && socket.inbox == s.rest
        && (s.error.Some? ==> r == Raised(s.error.value) && current.Snapshot() == s.msg)
        && (s.error.None? && s.msg.ready ==> r.Got? && r.msg.Snapshot() == s.msg)
        && (s.error.None? && !s.msg.ready ==> r == NotReady && current.Snapshot() == s.msg)
    {
      var message := current;
      while true
        invariant current == message && message.Valid() && !message.ready
        invariant socket.sent == old(socket.sent)
        invariant blocking ==>
          Run(codec, message.Snapshot(), socket.inbox, fd) == Run(codec, old(current.Snapshot()), old(socket.inbox), fd)
        invariant !blocking ==> message.Snapshot() == old(current.Snapshot()) && socket.inbox == old(socket.inbox)
        decreases Size(socket.inbox)
      {
        ghost var before, inboxBefore := message.Snapshot(), socket.inbox;
        ReadStepProgress(codec, before, inboxBefore, fd);
        var error := message.Read(socket, codec, fd);
        if error.Some? {
          return Raised(error.value);
        }
        if message.IsReady() {
          current := new Message();
          return Got(message);
        } else if !blocking {
          return NotReady;
        }
        if socket.inbox == [] {
          // every further recv returns nothing and the step changes nothing
          return Blocked;
        }
      }
    }

    /**
     * `send(meta, payload, fileno)`: write the frame, then pass the
     * descriptor. Returns the caller's meta as the call leaves it and
     * whether `serialize_message` raised (then nothing is written).
     */
    method Send(meta: Meta, payload: seq<byte>, fileno: Option<int>) returns (callerMeta: Meta, raised: bool)
      modifies socket
      ensures callerMeta == SerializeMessage(codec, meta, payload, fileno.Some?).callerMeta
      ensures raised <==> Transmission(codec, meta, payload, fileno).None?
      ensures raised ==> socket.sent == old(socket.sent)
      ensures !raised ==> socket.sent == old(socket.sent) + Transmission(codec, meta, payload, fileno).value
      ensures socket.inbox == old(socket.inbox)
    {
      var s := SerializeMessage(codec, meta, payload, fileno.Some?);
      callerMeta := s.callerMeta;
      if s.frame.None? {
        return callerMeta, true;
      }
      socket.SendAll(s.frame.value);
      if fileno.Some? && fileno.value != 0 {
        socket.SendFd(fileno.value);
      }
      raised := false;
    }
  }
}
