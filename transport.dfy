/**
 * The TCP link between the bridge and the HAN-FUN base: every chunk read from
 * the socket is one frame, a big-endian uint16 length (`nbytes`, which counts
 * the primitive and the data), a uint16 primitive, and the data.  A HELLO frame
 * carries the peer's interface versions and UID; a DATA frame carries a HAN-FUN
 * message for the node's stack.
 */
module Transport {
  import opened Wrappers
  import opened Text

  const NoneMsg: uint16 := 0xFFFF
  const HelloMsg: uint16 := 0x0101
  const DataMsg: uint16 := 0x0201

  /** Header bytes of a frame: `nbytes` and `primitive`. */
  const MinSize: nat := 4

  /** Bytes of a HELLO body before the UID: core, profiles and interfaces versions. */
  const HelloMinSize: nat := 3

  // ---------------------------------------------------------------------
  // The ByteArray uint16 codec
  // ---------------------------------------------------------------------

  /**
   * The two bytes HAN-FUN's `ByteArray::write` stores for a uint16: network
   * byte order, most significant first.
   */
  function EncodeU16(v: uint16): (r: seq<uint8>)
    ensures |r| == 2 && DecodeU16(r, 0) == v
  {
    [v / 256, v % 256]
  }

  /** The uint16 `ByteArray::read` finds at `at`. */
  function DecodeU16(b: seq<uint8>, at: nat): uint16
    requires at + 2 <= |b|
  {
    (b[at] as int) * 256 + (b[at + 1] as int)
  }

  /** Reading two bytes and writing them back reproduces them. */
  lemma EncodeDecodeU16(b: seq<uint8>, at: nat)
    requires at + 2 <= |b|
    ensures EncodeU16(DecodeU16(b, at)) == b[at..at + 2]
  {
  }

  // ---------------------------------------------------------------------
  // Frames
  // ---------------------------------------------------------------------

  /** The bytes `Message::pack` writes: nbytes = 2 + |data| as a uint16, the primitive, the data. */
  function Encoded(primitive: uint16, data: seq<uint8>): (r: seq<uint8>)
    ensures |r| == MinSize + |data|
    ensures r[MinSize..] == data
  {
    (EncodeU16(ToU16(2 + |data|)) + EncodeU16(primitive)) + data
  }

  /** A frame as `Message::unpack` leaves it, with the value unpack returns. */
  datatype Decoded = Decoded(read: nat, nbytes: uint16, primitive: uint16, data: seq<uint8>)

  /**
   * `Message::unpack` with the data bound checked: None (unpack returns 0 and
   * leaves the message alone) unless the four header bytes and the
   * `nbytes - 2` data bytes (a uint16 difference) are all present.
   */
  function DecodeAt(buf: seq<uint8>, offset: nat): (r: Option<Decoded>)
    ensures r.Some? ==> r.value.read == MinSize
    ensures r.Some? ==> |r.value.data| == ToU16(r.value.nbytes as int - 2)
    ensures r.Some? ==> offset + MinSize + |r.value.data| <= |buf|
    ensures r.Some? ==> r.value.data == buf[offset + MinSize..offset + MinSize + |r.value.data|]
  {
    if offset + MinSize > |buf| then None
    else
      var nbytes := DecodeU16(buf, offset);
      var size := ToU16(nbytes as int - 2);
      if offset + MinSize + size > |buf| then None
      else Some(Decoded(MinSize, nbytes, DecodeU16(buf, offset + 2), buf[offset + MinSize..offset + MinSize + size]))
  }

  /** What `Message::unpack` does as written: the data copy is not bound checked. */
  datatype ReadAsWritten = TooShort | OverRead(missing: nat) | Read(frame: Decoded)

  function UnpackAsWritten(buf: seq<uint8>, offset: nat): (r: ReadAsWritten)
    ensures r.OverRead? ==> r.missing > 0
  {
    if offset + MinSize > |buf| then TooShort
    else
      var nbytes := DecodeU16(buf, offset);
      var size := ToU16(nbytes as int - 2);
      if offset + MinSize + size > |buf| then OverRead(offset + MinSize + size - |buf|)
      else Read(Decoded(MinSize, nbytes, DecodeU16(buf, offset + 2), buf[offset + MinSize..offset + MinSize + size]))
  }

  /**
   * A four-byte DATA chunk announcing sixteen bytes: as written, unpack copies
   * fourteen bytes from beyond the end of the payload.
   */
  lemma UnpackOverReadsAsWritten()
    ensures UnpackAsWritten([0x00, 0x10, 0x02, 0x01], 0) == OverRead(14)
    ensures DecodeAt([0x00, 0x10, 0x02, 0x01], 0) == None
  {
    assert DecodeU16([0x00, 0x10, 0x02, 0x01], 0) == 16;
  }

  /** The checked unpack agrees with the code as written wherever the latter stays in bounds. */
  lemma DecodeAgreesAsWritten(buf: seq<uint8>, offset: nat)
    ensures UnpackAsWritten(buf, offset).Read? <==> DecodeAt(buf, offset).Some?
    ensures UnpackAsWritten(buf, offset).Read? ==> DecodeAt(buf, offset) == Some(UnpackAsWritten(buf, offset).frame)
  {
  }

  /** Unpacking what pack wrote anywhere in a buffer recovers the primitive and the data. */
  lemma {:induction false} DecodeEncoded(prefix: seq<uint8>, primitive: uint16, data: seq<uint8>, suffix: seq<uint8>)
    requires MinSize + |data| < 65536
    ensures DecodeAt((prefix + Encoded(primitive, data)) + suffix, |prefix|)
         == Some(Decoded(MinSize, 2 + |data|, primitive, data))
  {
    var e := Encoded(primitive, data);
    var a := (prefix + e) + suffix;
    var o := |prefix|;
    assert a[o..o + |e|] == e;
    assert a[o..o + 2] == EncodeU16(2 + |data|);
    assert a[o + 2..o + 4] == EncodeU16(primitive);
    assert DecodeU16(a, o) == DecodeU16(EncodeU16(2 + |data|), 0);
    assert DecodeU16(a, o + 2) == DecodeU16(EncodeU16(primitive), 0);
    assert a[o + MinSize..o + MinSize + |data|] == e[MinSize..] == data;
  }

  /** `after` is `before` with `bytes` written from `offset` on. */
  ghost predicate WrittenAt(after: seq<uint8>, before: seq<uint8>, offset: nat, bytes: seq<uint8>, upto: nat)
    requires upto <= |bytes|
  {
    && |after| == |before|
    && forall k :: 0 <= k < |after| ==>
         after[k] == (if offset <= k < offset + upto then bytes[k - offset] else before[k])
  }

  lemma WrittenAtIsSplice(after: seq<uint8>, before: seq<uint8>, offset: nat, bytes: seq<uint8>)
    requires offset + |bytes| <= |before|
    requires WrittenAt(after, before, offset, bytes, |bytes|)
    ensures after == (before[..offset] + bytes) + before[offset + |bytes|..]
  {
    var s := (before[..offset] + bytes) + before[offset + |bytes|..];
    assert |s| == |after|;
    forall k | 0 <= k < |after| ensures after[k] == s[k] {
      if k < offset {
      } else if k < offset + |bytes| {
      } else {
      }
    }
  }

  /** The frame of the bridge's link: `Message` in the source. */
  class Message {
    var nbytes: uint16
    var primitive: uint16
    var data: seq<uint8>

    /** `Message msg(primitive)` with `data`; the default primitive is NONE and nbytes is left 0. */
    constructor (primitive: uint16, data: seq<uint8>)
      ensures this.nbytes == 0 && this.primitive == primitive && this.data == data
    {
      this.nbytes := 0;
      this.primitive := primitive;
      this.data := data;
    }

    /** `size()`: header plus data, as a uint16. */
    function Size(): (r: uint16)
      reads this
      ensures MinSize + |data| < 65536 ==> r == MinSize + |data|
    {
      ToU16(MinSize + |data|)
    }

    /**
     * `pack`: 0 and nothing written unless `size()` bytes fit from `offset`;
     * otherwise the encoded frame is written there and the header length, 4,
     * is returned.
     */
    method Pack(buf: array<uint8>, offset: nat) returns (n: nat)
      requires MinSize + |data| < 65536
      modifies buf
      ensures offset + Size() > buf.Length ==> n == 0 && buf[..] == old(buf[..])
      ensures offset + Size() <= buf.Length ==>
                n == MinSize
                && buf[..] == (old(buf[..])[..offset] + Encoded(primitive, data)) + old(buf[..])[offset + Size()..]
    {
      if offset + Size() > buf.Length {
        return 0;
      }
      ghost var before := buf[..];
      ghost var bytes := Encoded(primitive, data);
      var temp := EncodeU16(ToU16(2 + |data|));
      buf[offset] := temp[0];
      buf[offset + 1] := temp[1];
      var prim := EncodeU16(primitive);
      buf[offset + 2] := prim[0];
      buf[offset + 3] := prim[1];
      var i := 0;
      while i < |data|
        invariant 0 <= i <= |data|
        invariant WrittenAt(buf[..], before, offset, bytes, MinSize + i)
      {
        buf[offset + MinSize + i] := data[i];
        i := i + 1;
      }
      WrittenAtIsSplice(buf[..], before, offset, bytes);
      n := MinSize;
    }

    /**
     * `unpack` with the data bound checked: on a frame that is all present the
     * fields take the decoded values and 4 is returned; otherwise 0 is
     * returned and the message is left alone.
     */
    method Unpack(buf: seq<uint8>, offset: nat) returns (n: nat)
      modifies this
      ensures DecodeAt(buf, offset).None? ==>
                n == 0 && nbytes == old(nbytes) && primitive == old(primitive) && data == old(data)
      ensures DecodeAt(buf, offset).Some? ==>
                var d := DecodeAt(buf, offset).value;
                n == d.read && nbytes == d.nbytes && primitive == d.primitive && data == d.data
    {
      if offset + MinSize > |buf| {
        return 0;
      }
      var length := DecodeU16(buf, offset);
      var size := ToU16(length as int - 2);
      if offset + MinSize + size > |buf| {
        return 0;
      }
      nbytes := length;
      primitive := DecodeU16(buf, offset + 2);
      data := buf[offset + MinSize..offset + MinSize + size];
      n := MinSize;
    }
  }

  /** `send_message`: a buffer of `size()` bytes, the frame packed into it, handed to the stream. */
  method SendMessage(msg: Message) returns (payload: array<uint8>)
    requires MinSize + |msg.data| < 65536
    ensures payload[..] == Encoded(msg.primitive, msg.data)
  {
    payload := new uint8[msg.Size()](_ => 0);
    var n := msg.Pack(payload, 0);
  }

  // ---------------------------------------------------------------------
  // HELLO
  // ---------------------------------------------------------------------

  /** The bytes `HelloMessage::pack` writes, with the UID's own packing given as `uidPack`. */
  function HelloEncoded<U>(core: uint8, profiles: uint8, interfaces: uint8, uid: U, uidPack: U -> seq<uint8>): (r: seq<uint8>)
    ensures |r| == HelloMinSize + |uidPack(uid)|
    ensures r[HelloMinSize..] == uidPack(uid)
  {
    [core, profiles, interfaces] + uidPack(uid)
  }

  /** A HELLO body as `HelloMessage::unpack` leaves it. */
  datatype Hello<U> = Hello(core: uint8, profiles: uint8, interfaces: uint8, uid: U)

  /**
   * `HelloMessage::unpack`: None (0 returned, defaults kept) when fewer than
   * three bytes remain; otherwise the three versions, the UID that `uidUnpack`
   * reads from the rest, and 3 returned: the UID's bytes are not counted.
   */
  function HelloDecodeAt<U>(buf: seq<uint8>, offset: nat, uidUnpack: seq<uint8> -> U): (r: Option<(nat, Hello<U>)>)
    ensures r.Some? <==> offset + HelloMinSize <= |buf|
    ensures r.Some? ==> r.value.0 == HelloMinSize && r.value.1.uid == uidUnpack(buf[offset + HelloMinSize..])
  {
    if offset + HelloMinSize > |buf| then None
    else Some((HelloMinSize, Hello(buf[offset], buf[offset + 1], buf[offset + 2], uidUnpack(buf[offset + HelloMinSize..]))))
  }

  /** Unpacking a packed HELLO recovers it whenever the UID's own codec round-trips. */
  lemma HelloDecodeEncoded<U>(h: Hello<U>, uidPack: U -> seq<uint8>, uidUnpack: seq<uint8> -> U)
    requires uidUnpack(uidPack(h.uid)) == h.uid
    ensures HelloDecodeAt(HelloEncoded(h.core, h.profiles, h.interfaces, h.uid, uidPack), 0, uidUnpack)
         == Some((HelloMinSize, h))
  {
    var e := HelloEncoded(h.core, h.profiles, h.interfaces, h.uid, uidPack);
    assert e[HelloMinSize..] == uidPack(h.uid);
  }

  /** `HelloMessage`: the link announcement each side sends on connecting. */
  class HelloMessage<U> {
    var core: uint8
    var profiles: uint8
    var interfaces: uint8
    var uid: U

    /** A HELLO with the stack's version constants, which are parameters here. */
    constructor (core: uint8, profiles: uint8, interfaces: uint8, uid: U)
      ensures this.core == core && this.profiles == profiles && this.interfaces == interfaces && this.uid == uid
    {
      this.core := core;
      this.profiles := profiles;
      this.interfaces := interfaces;
      this.uid := uid;
    }

    /** `size()`: three version bytes and the UID, as a uint16. */
    function Size(uidPack: U -> seq<uint8>): (r: uint16)
      reads this
      ensures HelloMinSize + |uidPack(uid)| < 65536 ==> r == HelloMinSize + |uidPack(uid)|
    {
      ToU16(HelloMinSize + |uidPack(uid)|)
    }

    /** `pack`: 0 unless `size()` bytes fit; otherwise the body is written and its length returned. */
    method Pack(buf: array<uint8>, offset: nat, uidPack: U -> seq<uint8>) returns (n: nat)
      requires HelloMinSize + |uidPack(uid)| < 65536
      modifies buf
      ensures offset + Size(uidPack) > buf.Length ==> n == 0 && buf[..] == old(buf[..])
      ensures offset + Size(uidPack) <= buf.Length ==>
                n == Size(uidPack)
                && buf[..] == (old(buf[..])[..offset] + HelloEncoded(core, profiles, interfaces, uid, uidPack))
                                + old(buf[..])[offset + Size(uidPack)..]
    {
      if offset + Size(uidPack) > buf.Length {
        return 0;
      }
      ghost var before := buf[..];
      ghost var bytes := HelloEncoded(core, profiles, interfaces, uid, uidPack);
      buf[offset] := core;
      buf[offset + 1] := profiles;
      buf[offset + 2] := interfaces;
      var packed := uidPack(uid);
      var i := 0;
      while i < |packed|
        invariant 0 <= i <= |packed|
        invariant WrittenAt(buf[..], before, offset, bytes, HelloMinSize + i)
      {
        buf[offset + HelloMinSize + i] := packed[i];
        i := i + 1;
      }
      WrittenAtIsSplice(buf[..], before, offset, bytes);
      n := HelloMinSize + |packed|;
    }

    /** `unpack`: the fields take what `HelloDecodeAt` finds, and its count is returned. */
    method Unpack(buf: seq<uint8>, offset: nat, uidUnpack: seq<uint8> -> U) returns (n: nat)
      modifies this
      ensures HelloDecodeAt(buf, offset, uidUnpack).None? ==>
                n == 0 && core == old(core) && profiles == old(profiles)
                && interfaces == old(interfaces) && uid == old(uid)
      ensures HelloDecodeAt(buf, offset, uidUnpack).Some? ==>
                var (read, h) := HelloDecodeAt(buf, offset, uidUnpack).value;
                n == read && core == h.core && profiles == h.profiles && interfaces == h.interfaces && uid == h.uid
    {
      if offset + HelloMinSize > |buf| {
        return 0;
      }
      core := buf[offset];
      profiles := buf[offset + 1];
      interfaces := buf[offset + 2];
      uid := uidUnpack(buf[offset + HelloMinSize..]);
      n := HelloMinSize;
    }
  }

  /**
   * A HELLO sent by `send_hello` and unpacked by the peer's `on_read` and
   * `handle_message` gives the peer the sender's versions and UID.
   */
  lemma HelloFrameRoundTrip<U>(h: Hello<U>, uidPack: U -> seq<uint8>, uidUnpack: seq<uint8> -> U)
    requires uidUnpack(uidPack(h.uid)) == h.uid
    requires MinSize + HelloMinSize + |uidPack(h.uid)| < 65536
    ensures var body := HelloEncoded(h.core, h.profiles, h.interfaces, h.uid, uidPack);
            var frame := DecodeAt(Encoded(HelloMsg, body), 0);
            && frame == Some(Decoded(MinSize, 2 + |body|, HelloMsg, body))
            && HelloDecodeAt(frame.value.data, 0, uidUnpack) == Some((HelloMinSize, h))
  {
    var body := HelloEncoded(h.core, h.profiles, h.interfaces, h.uid, uidPack);
    DecodeEncoded([], HelloMsg, body, []);
    assert ([] + Encoded(HelloMsg, body)) + [] == Encoded(HelloMsg, body);
    HelloDecodeEncoded(h, uidPack, uidUnpack);
  }

  // ---------------------------------------------------------------------
  // Links and dispatch
  // ---------------------------------------------------------------------

  /** A connected stream; `uid` is the peer's UID once its HELLO arrived. */
  class Link<U> {
    var uid: Option<U>

    constructor ()
      ensures uid == None
    {
      uid := None;
    }
  }

  /**
   * The node's transport as seen by the link code: the links added to it and
   * the DATA payloads handed to the HAN-FUN stack, in order.
   */
  class Transport<U> {
    var links: set<Link<U>>
    var received: seq<(Link<U>, seq<uint8>)>

    constructor ()
      ensures links == {} && received == []
    {
      links := {};
      received := [];
    }

    /**
     * `handle_message`: HELLO gives the link the UID of the unpacked body
     * (the defaults of a fresh HELLO when the body is short) and adds the
     * link; DATA hands the data to the stack; anything else is ignored.
     */
    method HandleMessage(link: Link<U>, primitive: uint16, data: seq<uint8>,
                         defaults: Hello<U>, uidUnpack: seq<uint8> -> U)
      modifies this, link
      ensures primitive == HelloMsg ==>
                && link.uid == Some(HelloDecodeAt(data, 0, uidUnpack).GetOr((0, defaults)).1.uid)
                && links == old(links) + {link} && received == old(received)
      ensures primitive == DataMsg ==>
                && link.uid == old(link.uid) && links == old(links)
                && received == old(received) + [(link, data)]
      ensures primitive != HelloMsg && primitive != DataMsg ==>
                link.uid == old(link.uid) && links == old(links) && received == old(received)
    {
      if primitive == HelloMsg {
        var hello := new HelloMessage(defaults.core, defaults.profiles, defaults.interfaces, defaults.uid);
        var n := hello.Unpack(data, 0, uidUnpack);
        link.uid := Some(hello.uid);
        links := links + {link};
      } else if primitive == DataMsg {
        received := received + [(link, data)];
      }
    }

    /**
     * `on_read`: a negative count closes the link and removes it; a positive
     * count unpacks the chunk as one frame into a fresh message (primitive
     * NONE unless the frame decodes) and dispatches it.
     */
    method OnRead(link: Link<U>, nread: int, buf: seq<uint8>, defaults: Hello<U>, uidUnpack: seq<uint8> -> U)
      requires nread <= |buf|
      modifies this, link
      ensures nread < 0 ==> links == old(links) - {link} && received == old(received) && link.uid == old(link.uid)
      ensures nread == 0 ==> links == old(links) && received == old(received) && link.uid == old(link.uid)
      ensures nread > 0 && DecodeAt(buf[..nread], 0).None? ==>
                links == old(links) && received == old(received) && link.uid == old(link.uid)
      ensures nread > 0 && DecodeAt(buf[..nread], 0).Some? && DecodeAt(buf[..nread], 0).value.primitive == DataMsg ==>
                links == old(links) && received == old(received) + [(link, DecodeAt(buf[..nread], 0).value.data)]
                && link.uid == old(link.uid)
      ensures nread > 0 && DecodeAt(buf[..nread], 0).Some? && DecodeAt(buf[..nread], 0).value.primitive == HelloMsg ==>
                var hello := HelloDecodeAt(DecodeAt(buf[..nread], 0).value.data, 0, uidUnpack);
                links == old(links) + {link} && received == old(received)
                && link.uid == Some(hello.GetOr((0, defaults)).1.uid)
    {
      if nread < 0 {
        links := links - {link};
      } else if nread > 0 {
        var payload := buf[..nread];
        var msg := new Message(NoneMsg, []);
        var n := msg.Unpack(payload, 0);
        HandleMessage(link, msg.primitive, msg.data, defaults, uidUnpack);
      }
    }
  }

  /** `Link::send`: the array goes out as the data of a DATA frame. */
  method Send(buf: seq<uint8>) returns (wire: array<uint8>)
    requires MinSize + |buf| < 65536
    ensures DecodeAt(wire[..], 0) == Some(Decoded(MinSize, 2 + |buf|, DataMsg, buf))
  {
    var msg := new Message(DataMsg, buf);
    wire := SendMessage(msg);
    DecodeEncoded([], DataMsg, buf, []);
    assert ([] + Encoded(DataMsg, buf)) + [] == Encoded(DataMsg, buf);
  }

  /** `send_hello`: a HELLO frame whose data is the packed HELLO body. */
  method SendHello<U>(core: uint8, profiles: uint8, interfaces: uint8, uid: U, uidPack: U -> seq<uint8>)
    returns (wire: array<uint8>)
    requires MinSize + HelloMinSize + |uidPack(uid)| < 65536
    ensures wire[..] == Encoded(HelloMsg, HelloEncoded(core, profiles, interfaces, uid, uidPack))
  {
    var hello := new HelloMessage(core, profiles, interfaces, uid);
    var body := new uint8[hello.Size(uidPack)](_ => 0);
    var n := hello.Pack(body, 0, uidPack);
    assert body[..] == HelloEncoded(core, profiles, interfaces, uid, uidPack);
    var msg := new Message(HelloMsg, body[..]);
    wire := SendMessage(msg);
  }
}
