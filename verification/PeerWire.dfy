/**
  The peer wire protocol of the client (FINAL/src/network.c, FINAL/src/peer.c): messages over a stream that arrives in
  pieces of any size, framed as BEP 3 describes.
 */
module PeerWire {
  import opened Bits
  import opened PieceBits
  import opened Wrappers

  // ---------- numbers in network order ----------

  function Ntohl(b: seq<Byte>): nat
    requires |b| == 4
  {
    var b0: nat, b1: nat, b2: nat, b3: nat := b[0], b[1], b[2], b[3];
    0x100_0000 * b0 + 0x1_0000 * b1 + 0x100 * b2 + b3
  }

  function Htonl(v: nat): (b: seq<Byte>)
    requires v < 0x1_0000_0000
    ensures |b| == 4
  {
    [v / 0x100_0000, v / 0x1_0000 % 0x100, v / 0x100 % 0x100, v % 0x100]
  }

  lemma TopDigits(v: nat)
    ensures v / 0x1_0000 == 0x100 * (v / 0x100_0000) + v / 0x1_0000 % 0x100
  {
  }

  lemma LowDigits(v: nat)
    ensures v == 0x1_0000 * (v / 0x1_0000) + 0x100 * (v / 0x100 % 0x100) + v % 0x100
  {
  }

  lemma NtohlHtonl(v: nat)
    requires v < 0x1_0000_0000
    ensures Ntohl(Htonl(v)) == v
  {
    TopDigits(v);
    LowDigits(v);
    var b := Htonl(v);
    var b0: nat, b1: nat, b2: nat, b3: nat := b[0], b[1], b[2], b[3];
    assert b0 == v / 0x100_0000 && b1 == v / 0x1_0000 % 0x100 && b2 == v / 0x100 % 0x100 && b3 == v % 0x100;
  }

  // ---------- frames ----------

  /** What a frame carries: nothing, or a message id and its payload. */
  datatype Frame = KeepAlive | Message(id: Byte, payload: seq<Byte>)

  /** The first frame of a stream and what follows it, if the frame is complete. */
  function NextFrame(data: seq<Byte>): (r: Option<(Frame, seq<Byte>)>)
    ensures r.Some? ==> |r.value.1| < |data|
  {
    if |data| < 4 then None
    else
      var len := Ntohl(data[..4]);
      if |data| < 4 + len then None
      else if len == 0 then Some((KeepAlive, data[4..]))
      else Some((Message(data[4], data[5..4 + len]), data[4 + len..]))
  }

  /** The complete frames of a stream, in order. */
  function FramesOf(data: seq<Byte>): seq<Frame>
    decreases |data|
  {
    var next := NextFrame(data);
    if next.None? then [] else [next.value.0] + FramesOf(next.value.1)
  }

  /** What `peer_read_message` hands out: the id, the payload unless its pointer is NULL, and its length. */
  datatype Reading = Reading(id: Byte, payload: Option<seq<Byte>>, length: nat)

  /** An empty payload has no pointer, and a keep-alive gets the id 255. */
  function ReadingOf(f: Frame): Reading {
    match f
    case KeepAlive => Reading(255, None, 0)
    case Message(id, payload) => Reading(id, if payload == [] then None else Some(payload), |payload|)
  }

  /**
    A reading determines the frame exactly when that is neither a keep-alive nor a message of id 255 without payload.
   */
  lemma ReadingDetermines(f: Frame)
    ensures (forall g {:trigger ReadingOf(g)} :: ReadingOf(g) == ReadingOf(f) ==> g == f) <==>
            f != KeepAlive && f != Message(255, [])
  {
    assert ReadingOf(KeepAlive) == ReadingOf(Message(255, []));
    if f != KeepAlive && f != Message(255, []) {
      forall g | ReadingOf(g) == ReadingOf(f) ensures g == f {}
    }
  }

  const IDLE_BYTES: seq<Byte> := [0, 0, 0, 0]
  const ODD_BYTES: seq<Byte> := [0, 0, 0, 1, 0xFF]

  /** 00 00 00 01 FF is a message of id 255; it is read as if it were the keep-alive 00 00 00 00. */
  lemma MistakenForKeepAlive()
    ensures NextFrame(ODD_BYTES) == Some((Message(0xFF, []), [])) && NextFrame(IDLE_BYTES) == Some((KeepAlive, []))
    ensures ReadingOf(Message(0xFF, [])) == ReadingOf(KeepAlive)
  {
    assert Ntohl(ODD_BYTES[..4]) == 1 && ODD_BYTES[5..5] == [] && ODD_BYTES[5..] == [];
    assert Ntohl(IDLE_BYTES[..4]) == 0 && IDLE_BYTES[4..] == [];
  }

  // ---------- the socket ----------

  /**
    A connection: the bytes that will still arrive, and how many can still be sent if that is limited, before it fails
    or the program is stopped; and at most how many each coming `recv` or `send` transfers at once.
   */
  class Socket {
    var incoming: seq<Byte>
    var outgoing: seq<Byte>
    var room: Option<nat>
    var sizes: seq<nat>

    constructor (incoming: seq<Byte>, room: Option<nat>, sizes: seq<nat>)
      ensures this.incoming == incoming && this.outgoing == [] && this.room == room && this.sizes == sizes
    {
      this.incoming := incoming;
      this.outgoing := [];
      this.room := room;
      this.sizes := sizes;
    }

    method NextSize(want: nat) returns (n: nat)
      requires want > 0
      modifies this`sizes
      ensures 0 < n <= want
    {
      n := want;
      if |sizes| > 0 {
        if 0 < sizes[0] < want { n := sizes[0]; }
        sizes := sizes[1..];
      }
    }

    /** `recv`: some of what is wanted, or nothing when the connection fails. */
    method Recv(want: nat) returns (chunk: seq<Byte>)
      requires want > 0
      modifies this`incoming, this`sizes
      ensures |chunk| <= want && old(incoming) == chunk + incoming
      ensures chunk == [] <==> old(incoming) == []
    {
      var n := NextSize(want);
      if n > |incoming| { n := |incoming|; }
      chunk := incoming[..n];
      incoming := incoming[n..];
    }

    /** `recv_full_timeout`: all bytes asked for, however they are cut up, or failure when there are too few. */
    method RecvFull(len: nat) returns (ok: bool, buf: seq<Byte>)
      modifies this`incoming, this`sizes
      ensures ok <==> |old(incoming)| >= len
      ensures ok ==> old(incoming) == buf + incoming && |buf| == len
    {
      buf := [];
      while |buf| < len
        invariant |buf| <= len
        invariant old(incoming) == buf + incoming
        decreases len - |buf|
      {
        var chunk := Recv(len - |buf|);
        if chunk == [] { return false, buf; }
        buf := buf + chunk;
      }
      ok := true;
    }

    /** `send`: some of what is given, or nothing when the connection fails. */
    method Send(buf: seq<Byte>) returns (n: nat)
      requires buf != []
      modifies this`outgoing, this`room, this`sizes
      ensures n <= |buf| && outgoing == old(outgoing) + buf[..n] && (n == 0 <==> old(room) == Some(0))
      ensures room == if old(room).None? then None else Some(old(room).value - n)
      ensures old(room).Some? ==> n <= old(room).value
    {
      n := NextSize(|buf|);
      if room.Some? {
        if n > room.value { n := room.value; }
        room := Some(room.value - n);
      }
      outgoing := outgoing + buf[..n];
    }

    /** `send_full_timeout`: all bytes, in order, or as many as the connection takes. */
    method SendFull(buf: seq<Byte>) returns (ok: bool)
      modifies this`outgoing, this`room, this`sizes
      ensures ok <==> old(room).None? || |buf| <= old(room).value
      ensures outgoing == old(outgoing) + if ok then buf else buf[..old(room).value]
      ensures room == if old(room).None? then None else if ok then Some(old(room).value - |buf|) else Some(0)
    {
      var sent := 0;
      while sent < |buf|
        invariant sent <= |buf|
        invariant outgoing == old(outgoing) + buf[..sent]
        invariant room == if old(room).None? then None else Some(old(room).value - sent)
        invariant old(room).Some? ==> sent <= old(room).value
        decreases |buf| - sent
      {
        var n := Send(buf[sent..]);
        assert buf[..sent + n] == buf[..sent] + buf[sent..][..n];
        if n == 0 { return false; }
        sent := sent + n;
      }
      assert buf[..sent] == buf;
      ok := true;
    }

    /** `recv_message`: the bytes of the next frame behind its length prefix, none of them for a keep-alive. */
    method RecvMessage() returns (ok: bool, msg: seq<Byte>)
      modifies this`incoming, this`sizes
      ensures ok <==> NextFrame(old(incoming)).Some?
      ensures ok ==>
        var frame := if msg == [] then KeepAlive else Message(msg[0], msg[1..]);
        NextFrame(old(incoming)) == Some((frame, incoming))
    {
      ghost var data := incoming;
      msg := [];
      var prefix;
      ok, prefix := RecvFull(4);
      if !ok { return; }
      assert data[..4] == prefix && data[4..] == incoming;
      var msgLen := Ntohl(prefix);
      if msgLen == 0 { return; }
      ok, msg := RecvFull(msgLen);
      if !ok { return; }
      assert data == prefix + (msg + incoming);
      FrameOf(data, prefix, msg, incoming);
    }

    /**
      `peer_read_message`: what it makes of exactly the next frame of the stream, or failure when that is not complete.
     */
    method ReadMessage() returns (ok: bool, r: Reading)
      modifies this`incoming, this`sizes
      ensures ok <==> NextFrame(old(incoming)).Some?
      ensures ok ==> r == ReadingOf(NextFrame(old(incoming)).value.0) && NextFrame(old(incoming)).value.1 == incoming
    {
      var msg;
      r := Reading(255, None, 0);
      ok, msg := RecvMessage();
      if !ok || msg == [] { return; }
      r := Reading(msg[0], if |msg| > 1 then Some(msg[1..]) else None, |msg| - 1);
    }
  }

  lemma FrameOf(data: seq<Byte>, prefix: seq<Byte>, msg: seq<Byte>, rest: seq<Byte>)
    requires data == prefix + (msg + rest) && |prefix| == 4 && |msg| == Ntohl(prefix) > 0
    ensures NextFrame(data) == Some((Message(msg[0], msg[1..]), rest))
  {
    assert data[..4] == prefix && data[4 + |msg|..] == rest;
    assert data[4] == msg[0] && data[5..4 + |msg|] == msg[1..];
  }

  // ---------- requests ----------

  function RequestBytes(index: nat, begin: nat, length: nat): seq<Byte>
    requires index < 0x1_0000_0000 && begin < 0x1_0000_0000 && length < 0x1_0000_0000
  {
    Htonl(13) + ([6] + Htonl(index) + Htonl(begin) + Htonl(length))
  }

  /** `peer_send_request` */
  method SendRequest(s: Socket, index: nat, begin: nat, length: nat) returns (ok: bool)
    requires index < 0x1_0000_0000 && begin < 0x1_0000_0000 && length < 0x1_0000_0000
    modifies s`outgoing, s`room, s`sizes
    ensures ok <==> old(s.room).None? || 17 <= old(s.room).value
    ensures ok ==> s.outgoing == old(s.outgoing) + RequestBytes(index, begin, length)
    ensures !ok ==> s.outgoing == old(s.outgoing) + RequestBytes(index, begin, length)[..old(s.room).value]
    ensures s.room == if old(s.room).None? then None else if ok then Some(old(s.room).value - 17) else Some(0)
  {
    var msg := Htonl(13);
    msg := msg + ([6] + Htonl(index) + Htonl(begin) + Htonl(length));
    ok := s.SendFull(msg);
  }

  /** What is sent reads back as one request message with the three arguments, whatever follows it. */
  lemma RequestReadsBack(index: nat, begin: nat, length: nat, rest: seq<Byte>)
    requires index < 0x1_0000_0000 && begin < 0x1_0000_0000 && length < 0x1_0000_0000
    ensures var next := NextFrame(RequestBytes(index, begin, length) + rest);
            && next.Some? && next.value.1 == rest
            && next.value.0.Message? && next.value.0.id == 6 && |next.value.0.payload| == 12
            && Ntohl(next.value.0.payload[..4]) == index
            && Ntohl(next.value.0.payload[4..8]) == begin
            && Ntohl(next.value.0.payload[8..]) == length
  {
    var prefix, msg := Htonl(13), [6] + Htonl(index) + Htonl(begin) + Htonl(length);
    NtohlHtonl(13);
    NtohlHtonl(index);
    NtohlHtonl(begin);
    NtohlHtonl(length);
    assert RequestBytes(index, begin, length) + rest == prefix + (msg + rest);
    FrameOf(prefix + (msg + rest), prefix, msg, rest);
    var payload := msg[1..];
    assert payload[..4] == Htonl(index) && payload[4..8] == Htonl(begin) && payload[8..] == Htonl(length);
  }

  // ---------- the handshake ----------

  const HANDSHAKE_SIZE: nat := 68
  const PROTOCOL: seq<Byte> := [
    66, 105, 116, 84, 111, 114, 114, 101, 110, 116, 32, 112, 114, 111, 116, 111, 99, 111, 108]

  function HandshakeBytes(infoHash: seq<Byte>, peerId: seq<Byte>): seq<Byte> {
    [19] + PROTOCOL + Zeros(8) + infoHash + peerId
  }

  /** The peer speaks the protocol and means this torrent. */
  predicate Greets(data: seq<Byte>, infoHash: seq<Byte>) {
    |data| >= HANDSHAKE_SIZE && data[0] == 19 && data[1..20] == PROTOCOL && data[28..48] == infoHash
  }

  /** The protocol is named by its nineteen letters. */
  lemma ProtocolName(k: nat)
    requires k < 19
    ensures |PROTOCOL| == 19 && PROTOCOL[k] == "BitTorrent protocol"[k] as int
  {
  }

  /** What is sent greets a peer of the same torrent, names this client behind that, and is 68 bytes long. */
  lemma HandshakeGreets(infoHash: seq<Byte>, peerId: seq<Byte>)
    requires |infoHash| == 20 && |peerId| == 20
    ensures var sent := HandshakeBytes(infoHash, peerId);
      |sent| == 68 && Greets(sent, infoHash) && sent[20..28] == Zeros(8) && sent[48..68] == peerId
  {
    var sent := HandshakeBytes(infoHash, peerId);
    assert sent[1..20] == PROTOCOL && sent[20..28] == Zeros(8) && sent[28..48] == infoHash && sent[48..68] == peerId;
  }

  /**
    A peer that checks as this client does takes the handshake of every client for the same torrent, and of no other.
   */
  lemma HandshakeTaken(infoHash: seq<Byte>, peerId: seq<Byte>, other: seq<Byte>)
    requires |infoHash| == 20 && |peerId| == 20 && |other| == 20
    ensures Greets(HandshakeBytes(infoHash, peerId), other) <==> infoHash == other
  {
    HandshakeGreets(infoHash, peerId);
  }

  /** `peer_handshake`, and `peer_send_interested` behind it. */
  method Handshake(s: Socket, infoHash: seq<Byte>, peerId: seq<Byte>) returns (ok: bool)
    requires |infoHash| == 20 && |peerId| == 20
    modifies s
    ensures ok <==> Greets(old(s.incoming), infoHash) && (old(s.room).None? || HANDSHAKE_SIZE + 5 <= old(s.room).value)
    ensures ok ==> s.incoming == old(s.incoming)[HANDSHAKE_SIZE..]
    ensures ok ==> s.outgoing == old(s.outgoing) + HandshakeBytes(infoHash, peerId) + [0, 0, 0, 1, 2]
    ensures Greets(HandshakeBytes(infoHash, peerId), infoHash) && HandshakeBytes(infoHash, peerId)[48..] == peerId
    ensures old(s.room).None? ==> s.room.None?
  {
    HandshakeGreets(infoHash, peerId);
    var hsOut := HandshakeBytes(infoHash, peerId);
    ok := s.SendFull(hsOut);
    if !ok { return; }
    ghost var data := s.incoming;
    var hsIn;
    ok, hsIn := s.RecvFull(HANDSHAKE_SIZE);
    if !ok { return; }
    assert data[1..20] == hsIn[1..20] && data[28..48] == hsIn[28..48];
    if hsIn[0] != 19 || hsIn[1..20] != PROTOCOL || hsIn[28..48] != infoHash { return false; }
    ok := s.SendFull([0, 0, 0, 1, 2]);
  }

  // ---------- waiting for unchoke ----------

  /** What is known of the pieces a peer has: nothing, or a field of bits. */
  type Bitfield = Option<seq<Byte>>

  /** `bitfield[index / 8] |= 1 << (7 - index % 8)` */
  function SetBit(field: seq<Byte>, index: nat): (r: seq<Byte>)
    requires index / 8 < |field|
    ensures |r| == |field|
  {
    OrStaysByte(field[index / 8], 7 - index % 8);
    field[index / 8 := Or(field[index / 8], Shl(1, 7 - index % 8))]
  }

  /** The effect of one message on the bit field. */
  function Noted(b: Bitfield, f: Frame): Bitfield {
    if f.KeepAlive? then b
    else if f.id == 4 && |f.payload| >= 4 && b.Some? then
      var index := Ntohl(f.payload[..4]);
      if index / 8 < |b.value| then Some(SetBit(b.value, index)) else b
    else if f.id == 5 then Some(f.payload)
    else b
  }

  predicate Unchoke(f: Frame) {
    f.Message? && f.id == 1
  }

  /** The bit field after these frames. */
  function NotedAll(b: Bitfield, frames: seq<Frame>): Bitfield
    decreases frames
  {
    if frames == [] then b else NotedAll(Noted(b, frames[0]), frames[1..])
  }

  /** The first place of a frame that unchokes, or the number of frames. */
  function FirstUnchoke(frames: seq<Frame>): (i: nat)
    ensures i <= |frames|
    ensures i < |frames| ==> Unchoke(frames[i])
    ensures forall j :: 0 <= j < i ==> !Unchoke(frames[j])
  {
    if frames == [] then 0 else if Unchoke(frames[0]) then 0 else 1 + FirstUnchoke(frames[1..])
  }

  /** `peer_connection_t` */
  class PeerConnection {
    const sock: Socket
    var choked: bool
    var bitfield: Bitfield

    constructor (sock: Socket)
      ensures this.sock == sock && choked && bitfield == None
    {
      this.sock := sock;
      choked := true;
      bitfield := None;
    }

    /**
      `peer_wait_for_unchoke`: without reading anything when the peer has unchoked; otherwise it succeeds exactly when
      an unchoke frame comes before the stream fails, and has then noted the frames in front of it and left what follows
      it unread.
     */
    method WaitForUnchoke() returns (ok: bool)
      modifies this, sock`incoming, sock`sizes
      ensures !old(choked) ==> ok && !choked && bitfield == old(bitfield) && sock.incoming == old(sock.incoming)
      ensures old(choked) ==>
        (ok <==> exists i :: 0 <= i < |FramesOf(old(sock.incoming))| && Unchoke(FramesOf(old(sock.incoming))[i]))
      ensures ok <==> !choked
      ensures old(choked) && ok ==>
        var frames := FramesOf(old(sock.incoming));
        var i := FirstUnchoke(frames);
        && i < |frames|
        && bitfield == NotedAll(old(bitfield), frames[..i])
        && FramesOf(sock.incoming) == frames[i + 1..]
    {
      ghost var frames := FramesOf(sock.incoming);
      ghost var n := 0;
      assert frames[..0] == [] && frames[0..] == frames;
      while choked
        invariant 0 <= n <= |frames| && FramesOf(sock.incoming) == frames[n..]
        invariant choked ==> n <= FirstUnchoke(frames) && bitfield == NotedAll(old(bitfield), frames[..n])
        invariant old(choked) && !choked ==>
          n > 0 && FirstUnchoke(frames) == n - 1 && bitfield == NotedAll(old(bitfield), frames[..n - 1])
        invariant !old(choked) ==> !choked && bitfield == old(bitfield) && sock.incoming == old(sock.incoming)
        decreases |frames| - n, if choked then 1 else 0
      {
        var got, r := sock.ReadMessage();
        if !got {
          assert n == |frames|;
          return false;
        }
        assert r == ReadingOf(frames[n]) && frames[n..][1..] == frames[n + 1..];
        Handle(r, frames[n]);
        if choked { NotedSnoc(old(bitfield), frames, n); } else { UnchokeIs(frames, n); }
        n := n + 1;
      }
      ok := true;
    }

    /** The test for a keep-alive and the switch over the message ids. */
    method Handle(r: Reading, ghost f: Frame)
      requires choked && r == ReadingOf(f)
      modifies this
      ensures choked <==> !Unchoke(f)
      ensures bitfield == Noted(old(bitfield), f)
    {
      if r.id == 0xFF {
      } else if r.id == 0 {
        choked := true;
      } else if r.id == 1 {
        choked := false;
      } else if r.id == 4 {
        if r.length >= 4 {
          var index := Ntohl(r.payload.value[..4]);
          if bitfield.Some? {
            var byte := index / 8;
            if byte < |bitfield.value| {
              bitfield := Some(SetBit(bitfield.value, index));
            }
          }
        }
      } else if r.id == 5 {
        bitfield := Some(if r.payload.None? then [] else r.payload.value);
      }
    }

    /** `peer_has_piece`: without a bit field every piece is taken to be there. */
    method HasPiece(index: nat) returns (has: bool)
      ensures has == Offers(bitfield, index)
    {
      if bitfield.None? { return true; }
      var byte := index / 8;
      if byte >= |bitfield.value| { return false; }
      has := And(Shr(bitfield.value[byte], 7 - index % 8), 1) == 1;
      LowestBit(bitfield.value[byte], 7 - index % 8);
    }
  }

  lemma LowestBit(b: nat, k: nat)
    ensures And(Shr(b, k), 1) == Bit(b, k)
  {
    AndMask(Shr(b, k), 1);
    BitOfShr(b, k, 0);
  }

  lemma UnchokeIs(frames: seq<Frame>, n: nat)
    requires n < |frames| && Unchoke(frames[n]) && n <= FirstUnchoke(frames)
    ensures FirstUnchoke(frames) == n
  {
  }

  lemma {:induction false} NotedSnoc(b: Bitfield, frames: seq<Frame>, n: nat)
    requires n < |frames|
    ensures NotedAll(b, frames[..n + 1]) == Noted(NotedAll(b, frames[..n]), frames[n])
    decreases n
  {
    if n == 0 {
      assert frames[..1][1..] == [] && frames[..0] == [];
    } else {
      NotedSnoc(Noted(b, frames[0]), frames[1..], n - 1);
      assert frames[..n + 1][1..] == frames[1..][..n] && frames[..n][1..] == frames[1..][..n - 1];
    }
  }

  predicate Offers(b: Bitfield, index: nat) {
    b.None? || (index / 8 < |b.value| && Marked(b.value, index))
  }

  // ---------- what the bit field means ----------

  predicate IsBitfield(f: Frame) {
    f.Message? && f.id == 5
  }

  /** A have message that names this piece. */
  predicate Has(f: Frame, index: nat) {
    f.Message? && f.id == 4 && |f.payload| >= 4 && Ntohl(f.payload[..4]) == index
  }

  /** The place behind the last bitfield message, or zero. */
  function AfterBitfield(frames: seq<Frame>): (k: nat)
    ensures k <= |frames|
    ensures k > 0 ==> IsBitfield(frames[k - 1])
    ensures forall j :: k <= j < |frames| ==> !IsBitfield(frames[j])
    decreases |frames|
  {
    if frames == [] then 0
    else if IsBitfield(frames[|frames| - 1]) then |frames|
    else AfterBitfield(frames[..|frames| - 1])
  }

  /**
    A piece is offered if no bitfield message came, or if its bit lies in the last one and was set there or by a later
    have message.
   */
  predicate Meant(frames: seq<Frame>, index: nat) {
    var k := AfterBitfield(frames);
    k == 0 ||
    (index / 8 < |frames[k - 1].payload| &&
     (Marked(frames[k - 1].payload, index) || exists j :: k <= j < |frames| && Has(frames[j], index)))
  }

  lemma SetBitMarks(field: seq<Byte>, named: nat, index: nat)
    requires named / 8 < |field| && index / 8 < |field|
    ensures Marked(SetBit(field, named), index) <==> Marked(field, index) || named == index
  {
    SameBit(named, index);
    if index / 8 == named / 8 {
      OrBit(field[named / 8], 7 - named % 8, 7 - index % 8);
    }
  }

  /** The bit field that was noted offers exactly the pieces the messages meant. */
  lemma {:induction false} NotedMeans(frames: seq<Frame>, index: nat)
    ensures NotedAll(None, frames).None? <==> AfterBitfield(frames) == 0
    ensures AfterBitfield(frames) > 0 ==>
              |NotedAll(None, frames).value| == |frames[AfterBitfield(frames) - 1].payload|
    ensures Offers(NotedAll(None, frames), index) <==> Meant(frames, index)
    decreases |frames|
  {
    if frames != [] {
      var n := |frames| - 1;
      var before, f := frames[..n], frames[n];
      NotedMeans(before, index);
      NotedSnoc(None, frames, n);
      assert frames[..n + 1] == frames;
      var b := NotedAll(None, before);
      NotedOne(b, f, index);
      if !IsBitfield(f) {
        var k := AfterBitfield(before);
        if k > 0 {
          assert frames[k - 1] == before[k - 1];
          assert (exists j :: k <= j < |frames| && Has(frames[j], index)) <==>
                 (exists j :: k <= j < |before| && Has(before[j], index)) || Has(f, index) by {
            HasSplit(frames, k, index);
          }
        }
      }
    }
  }

  lemma HasSplit(frames: seq<Frame>, k: nat, index: nat)
    requires |frames| > 0 && k <= |frames| - 1
    ensures var n := |frames| - 1;
            (exists j :: k <= j < |frames| && Has(frames[j], index)) <==>
            (exists j :: k <= j < n && Has(frames[..n][j], index)) || Has(frames[n], index)
  {
    var n := |frames| - 1;
    assert forall j :: 0 <= j < n ==> frames[..n][j] == frames[j];
  }

  /** The effect of one message on one piece. */
  lemma NotedOne(b: Bitfield, f: Frame, index: nat)
    ensures !IsBitfield(f) ==> (Noted(b, f).None? <==> b.None?) && (b.Some? ==> |Noted(b, f).value| == |b.value|)
    ensures !IsBitfield(f) && b.Some? && index / 8 < |b.value| ==>
              (Marked(Noted(b, f).value, index) <==> Marked(b.value, index) || Has(f, index))
    ensures IsBitfield(f) ==> Noted(b, f) == Some(f.payload)
  {
    if b.Some? && f.Message? && f.id == 4 && |f.payload| >= 4 {
      var named := Ntohl(f.payload[..4]);
      if named / 8 < |b.value| && index / 8 < |b.value| { SetBitMarks(b.value, named, index); }
    }
  }

  // ---------- receiving a block ----------

  /** A piece message that answers this request. */
  predicate Answers(f: Frame, index: nat, begin: nat, length: nat) {
    f.Message? && f.id == 7 && |f.payload| == 8 + length &&
    Ntohl(f.payload[..4]) == index && Ntohl(f.payload[4..8]) == begin
  }

  /** A message that ends the waiting: a choke, or a piece message too short for its header. */
  predicate Breaks(f: Frame) {
    f.Message? && (f.id == 0 || (f.id == 7 && |f.payload| < 8))
  }

  /** The first frame that decides the outcome, or the number of frames. */
  function Deciding(frames: seq<Frame>, index: nat, begin: nat, length: nat): (i: nat)
    ensures i <= |frames|
    ensures i < |frames| ==> Answers(frames[i], index, begin, length) || Breaks(frames[i])
  {
    if frames == [] then 0
    else if Answers(frames[0], index, begin, length) || Breaks(frames[0]) then 0
    else 1 + Deciding(frames[1..], index, begin, length)
  }

  /** No frame before the deciding one decides. */
  lemma {:induction false} BeforeDeciding(frames: seq<Frame>, index: nat, begin: nat, length: nat, j: nat)
    requires j < Deciding(frames, index, begin, length)
    ensures !Answers(frames[j], index, begin, length) && !Breaks(frames[j])
    decreases j
  {
    if j > 0 { BeforeDeciding(frames[1..], index, begin, length, j - 1); }
  }

  /**
    `peer_receive_block`: it succeeds exactly when the frame that decides is a piece message with the expected index,
    begin and length, and then the buffer holds its data and nothing behind it has been read; otherwise the buffer is
    as it was.
   */
  method ReceiveBlock(s: Socket, index: nat, begin: nat, buffer: array<Byte>, at: nat, length: nat) returns (ok: bool)
    requires at + length <= buffer.Length
    modifies s`incoming, s`sizes, buffer
    ensures ok <==> var frames := FramesOf(old(s.incoming));
                    var i := Deciding(frames, index, begin, length);
                    i < |frames| && Answers(frames[i], index, begin, length)
    ensures ok ==> var frames := FramesOf(old(s.incoming));
                   var i := Deciding(frames, index, begin, length);
                   && i < |frames|
                   && buffer[at..at + length] == frames[i].payload[8..]
                   && FramesOf(s.incoming) == frames[i + 1..]
    ensures forall k :: 0 <= k < buffer.Length && !(ok && at <= k < at + length) ==> buffer[k] == old(buffer[k])
  {
    ghost var frames := FramesOf(s.incoming);
    ghost var n := 0;
    assert frames[0..] == frames;
    while true
      invariant 0 <= n <= |frames| && FramesOf(s.incoming) == frames[n..]
      invariant n <= Deciding(frames, index, begin, length)
      invariant buffer[..] == old(buffer[..])
      decreases |frames| - n
    {
      var got, r := s.ReadMessage();
      if !got {
        assert n == |frames|;
        return false;
      }
      assert r == ReadingOf(frames[n]) && frames[n..][1..] == frames[n + 1..];
      if n < Deciding(frames, index, begin, length) { BeforeDeciding(frames, index, begin, length, n); }
      if r.id == 7 {
        if r.length < 8 {
          return false;
        }
        var payload := r.payload.value;
        var blockLen := r.length - 8;
        if Ntohl(payload[..4]) == index && Ntohl(payload[4..8]) == begin && blockLen == length {
          forall k | 0 <= k < length { buffer[at + k] := payload[8 + k]; }
          return true;
        }
      } else if r.id == 0 {
        return false;
      }
      n := n + 1;
    }
  }

  /** The ids of BEP 3: 0 chokes, 1 unchokes, 4 names a piece, 5 is a bit field, 7 carries a block. */
  lemma MessageIds(index: nat, begin: nat, data: seq<Byte>, id: Byte, payload: seq<Byte>)
    requires index < 0x1_0000_0000 && begin < 0x1_0000_0000
    ensures Breaks(Message(0, payload)) && (Unchoke(Message(id, payload)) <==> id == 1)
    ensures Has(Message(4, Htonl(index)), index) && (IsBitfield(Message(id, payload)) <==> id == 5)
    ensures Answers(Message(7, Htonl(index) + Htonl(begin) + data), index, begin, |data|)
    ensures id != 0 && id != 7 ==> !Breaks(Message(id, payload)) && !Answers(Message(id, payload), index, begin, |data|)
  {
    var block := Htonl(index) + Htonl(begin) + data;
    assert Htonl(index)[..4] == Htonl(index);
    assert block[..4] == Htonl(index) && block[4..8] == Htonl(begin);
    NtohlHtonl(index);
    NtohlHtonl(begin);
  }

  /**
    Frames with one reading have one effect: waiting for unchoke and for a block do not depend on which of them came.
   */
  lemma MistakeHarmless(f: Frame, g: Frame, b: Bitfield, index: nat, begin: nat, length: nat)
    requires ReadingOf(f) == ReadingOf(g)
    ensures Unchoke(f) == Unchoke(g) && Noted(b, f) == Noted(b, g)
    ensures Answers(f, index, begin, length) == Answers(g, index, begin, length) && Breaks(f) == Breaks(g)
  {
  }
}
