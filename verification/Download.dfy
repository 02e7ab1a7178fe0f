/** The download loop (FINAL/src/main.c: `download_pieces`) over the two output back ends. */
module PieceBits {
  import opened Bits

  /** `IS_DONE`: bit `i` of the field, the highest bit of each byte first. */
  predicate Marked(field: seq<Byte>, i: nat)
    requires i / 8 < |field|
  {
    Bit(field[i / 8], 7 - i % 8) == 1
  }

  /** How many of the first `n` bits are clear. */
  function Clear(field: seq<Byte>, n: nat): nat
    requires n <= 8 * |field|
    decreases n
  {
    if n == 0 then 0 else Clear(field, n - 1) + (if Marked(field, n - 1) then 0 else 1)
  }

  const BIT_VALUES: seq<nat> := [128, 64, 32, 16, 8, 4, 2, 1]

  /** Piece 0 has the highest bit of the first byte, piece 7 its lowest one, and so on in the bytes behind. */
  lemma MarkedIs(field: seq<Byte>, i: nat)
    requires i / 8 < |field|
    ensures Marked(field, i) <==> field[i / 8] / BIT_VALUES[i % 8] % 2 == 1
  {
    LowBits(field[i / 8]);
    HighBits(field[i / 8]);
  }

  lemma LowBits(v: nat)
    ensures Bit(v, 0) == v / 1 % 2 && Bit(v, 1) == v / 2 % 2 && Bit(v, 2) == v / 4 % 2 && Bit(v, 3) == v / 8 % 2
  {
    assert v / 2 / 2 == v / 4 && v / 4 / 2 == v / 8;
    assert Bit(v / 2, 1) == Bit(v / 4, 0) && Bit(v / 2, 2) == Bit(v / 4, 1) == Bit(v / 8, 0);
  }

  lemma HighBits(v: nat)
    ensures Bit(v, 4) == v / 16 % 2 && Bit(v, 5) == v / 32 % 2 && Bit(v, 6) == v / 64 % 2 && Bit(v, 7) == v / 128 % 2
  {
    FourMore(v, 0);
    FourMore(v, 1);
    FourMore(v, 2);
    FourMore(v, 3);
    LowBits(v / 16);
    assert v / 16 / 2 == v / 32 && v / 16 / 4 == v / 64 && v / 16 / 8 == v / 128;
  }

  lemma FourMore(v: nat, i: nat)
    ensures Bit(v, i + 4) == Bit(v / 16, i)
  {
    assert v / 2 / 2 == v / 4 && v / 4 / 2 == v / 8 && v / 8 / 2 == v / 16;
    assert Bit(v, i + 4) == Bit(v / 2, i + 3) == Bit(v / 4, i + 2);
    assert Bit(v / 4, i + 2) == Bit(v / 8, i + 1) == Bit(v / 16, i);
  }

  lemma {:induction false} ClearWhole(field: seq<Byte>, n: nat)
    requires n <= 8 * |field|
    requires forall i {:trigger Marked(field, i)} :: 0 <= i < n ==> !Marked(field, i)
    ensures Clear(field, n) == n
    decreases n
  {
    if n > 0 { ClearWhole(field, n - 1); }
  }

  lemma {:induction false} NoneClear(field: seq<Byte>, n: nat)
    requires n <= 8 * |field| && Clear(field, n) == 0
    ensures forall i {:trigger Marked(field, i)} :: 0 <= i < n ==> Marked(field, i)
    decreases n
  {
    if n > 0 { NoneClear(field, n - 1); }
  }

  /** Marking a clear bit lowers the count by one. */
  lemma {:induction false} ClearMark(before: seq<Byte>, after: seq<Byte>, n: nat, m: nat)
    requires |before| == |after| && n <= 8 * |before| && m < 8 * |before|
    requires forall i {:trigger Marked(after, i)} :: 0 <= i < n ==> (Marked(after, i) <==> Marked(before, i) || i == m)
    requires !Marked(before, m)
    ensures Clear(after, n) == Clear(before, n) - (if m < n then 1 else 0)
    decreases n
  {
    if n > 0 { ClearMark(before, after, n - 1, m); }
  }

  lemma SameBit(i: nat, j: nat)
    ensures i / 8 == j / 8 && 7 - i % 8 == 7 - j % 8 ==> i == j
  {
  }

  class BitField {
    var bytes: array<Byte>

    constructor (n: nat)
      ensures fresh(bytes) && bytes.Length == (n + 7) / 8
      ensures forall i {:trigger Marked(bytes[..], i)} :: 0 <= i < n ==> !Marked(bytes[..], i)
    {
      bytes := new Byte[(n + 7) / 8](_ => 0);
      new;
      forall i {:trigger Marked(bytes[..], i)} | 0 <= i < n ensures !Marked(bytes[..], i) {
        BitOfZero(7 - i % 8);
      }
    }

    method IsDone(i: nat) returns (done: bool)
      requires i / 8 < bytes.Length
      ensures done == Marked(bytes[..], i)
    {
      done := And(bytes[i / 8], Shl(1, 7 - i % 8)) != 0;
      Pow2IsShl(7 - i % 8);
      AndSingleBit(bytes[i / 8], 7 - i % 8);
    }

    method MarkDone(i: nat)
      requires i / 8 < bytes.Length
      modifies bytes
      ensures forall j {:trigger Marked(bytes[..], j)} :: 0 <= j < 8 * bytes.Length ==>
                (Marked(bytes[..], j) <==> old(Marked(bytes[..], j)) || j == i)
    {
      ghost var before := bytes[..];
      var k := 7 - i % 8;
      OrStaysByte(bytes[i / 8], k);
      bytes[i / 8] := Or(bytes[i / 8], Shl(1, k));
      forall j {:trigger Marked(bytes[..], j)} | 0 <= j < 8 * bytes.Length
        ensures Marked(bytes[..], j) <==> Marked(before, j) || j == i
      {
        SameBit(i, j);
        if j / 8 == i / 8 { OrBit(before[i / 8], k, 7 - j % 8); }
      }
    }
  }

  lemma OrStaysByte(b: Byte, k: nat)
    requires k < 8
    ensures Or(b, Shl(1, k)) < 256
  {
    Pow2IsShl(k);
    Pow2Mono(k, 7);
    Pow2Values();
    OrBelow(b, Shl(1, k), 8);
  }

  lemma OrBit(b: nat, k: nat, j: nat)
    ensures Bit(Or(b, Shl(1, k)), j) == if j == k || Bit(b, j) == 1 then 1 else 0
  {
    BitOfOr(b, Shl(1, k), j);
    BitOfShl(1, k, j);
    BitIsBinary(b, j);
    if j > k { BitOfZero(j - k - 1); }
  }
}

module Download {
  import opened Bits
  import opened Wrappers
  import opened Torrent
  import opened Storage
  import opened PeerWire
  import opened PieceBits
  import opened TarEntries
  import opened TarWriter
  import TarReader

  /** The fields of a torrent that number and measure pieces are 32 bits wide. */
  ghost predicate Sized(tor: Layout) {
    tor.numPieces <= 0x1_0000_0000 && tor.pieceLength < 0x1_0000_0000
  }

  lemma PieceSizeBelow(tor: Layout, i: nat)
    requires Sized(tor)
    ensures PieceSize(tor, i) < 0x1_0000_0000
  {
  }

  const BLOCK_SIZE: nat := 16384

  function BlockLen(offset: nat, size: nat): (n: nat)
    requires offset < size
    ensures 0 < n <= size - offset && n <= 0x4000 && (n < 0x4000 ==> n == size - offset)
  {
    if size - offset > BLOCK_SIZE then BLOCK_SIZE else size - offset
  }

  // ---------- one piece ----------

  datatype Blocks = NoBlocks | Blocks(data: seq<Byte>, rest: seq<Frame>)

  /**
    The data of a piece of which `acc` has come: for each block in turn the first frame that answers its request, when
    no frame before it breaks off the waiting, and the frames behind the last one.
   */
  function BlocksFrom(frames: seq<Frame>, index: nat, size: nat, acc: seq<Byte>): (r: Blocks)
    requires |acc| <= size
    ensures r.Blocks? ==> |r.data| == size
    decreases size - |acc|
  {
    if |acc| == size then Blocks(acc, frames)
    else
      var n := BlockLen(|acc|, size);
      var i := Deciding(frames, index, |acc|, n);
      if i >= |frames| || !Answers(frames[i], index, |acc|, n) then NoBlocks
      else BlocksFrom(frames[i + 1..], index, size, acc + frames[i].payload[8..])
  }

  /** The requests for the blocks of a piece from `offset` on. */
  function RequestsFrom(index: nat, offset: nat, size: nat): seq<Byte>
    requires index < 0x1_0000_0000 && offset <= size < 0x1_0000_0000
    decreases size - offset
  {
    if offset == size then []
    else
      var n := BlockLen(offset, size);
      RequestBytes(index, offset, n) + RequestsFrom(index, offset + n, size)
  }

  lemma BlocksStep(frames: seq<Frame>, index: nat, size: nat, acc: seq<Byte>, n: nat, i: nat, data: seq<Byte>,
                   all: seq<Byte>, rest: seq<Frame>)
    requires |acc| < size && n == BlockLen(|acc|, size) && i == Deciding(frames, index, |acc|, n)
    requires i < |frames| && Answers(frames[i], index, |acc|, n) && data == frames[i].payload[8..]
    requires all == acc + data && rest == frames[i + 1..]
    ensures BlocksFrom(frames, index, size, acc) == BlocksFrom(rest, index, size, all)
  {
  }

  lemma RequestsHead(index: nat, offset: nat, n: nat, size: nat) returns (first: seq<Byte>, later: seq<Byte>)
    requires index < 0x1_0000_0000 && offset < size < 0x1_0000_0000 && n == BlockLen(offset, size)
    ensures first == RequestBytes(index, offset, n) && later == RequestsFrom(index, offset + n, size)
    ensures RequestsFrom(index, offset, size) == first + later
  {
    first, later := RequestBytes(index, offset, n), RequestsFrom(index, offset + n, size);
  }

  lemma Regrouped(a: seq<Byte>, b: seq<Byte>, c: seq<Byte>)
    ensures (a + b) + c == a + (b + c)
  {
  }

  /** The request for the block at `offset`, of all that will have been sent for the piece. */
  method Request(s: Socket, i: nat, offset: nat, n: nat, ghost size: nat, ghost sent: seq<Byte>) returns (ok: bool)
    requires i < 0x1_0000_0000 && offset < size < 0x1_0000_0000 && n == BlockLen(offset, size)
    requires sent == s.outgoing + RequestsFrom(i, offset, size)
    modifies s`outgoing, s`room, s`sizes
    ensures ok ==> sent == s.outgoing + RequestsFrom(i, offset + n, size)
    ensures if ok then old(s.room).None? ==> s.room.None? else s.room == Some(0) && old(s.room).Some?
  {
    ghost var first, later := RequestsHead(i, offset, n, size);
    Regrouped(s.outgoing, first, later);
    ok := SendRequest(s, i, offset, n);
  }

  /** The answer to the request for the block at `offset`, behind the data that the buffer holds before it. */
  method ReceiveNext(s: Socket, i: nat, buf: array<Byte>, offset: nat, n: nat, ghost target: Blocks) returns (ok: bool)
    requires offset < buf.Length && n == BlockLen(offset, buf.Length)
    requires target == BlocksFrom(FramesOf(s.incoming), i, buf.Length, buf[..offset])
    modifies s`incoming, s`sizes, buf
    ensures if ok then target == BlocksFrom(FramesOf(s.incoming), i, buf.Length, buf[..offset + n])
            else target == NoBlocks
  {
    ghost var frames, acc, before := FramesOf(s.incoming), buf[..offset], buf[..];
    ok := ReceiveBlock(s, i, offset, buf, offset, n);
    if ok {
      ghost var k := Deciding(frames, i, offset, n);
      ghost var data, all := frames[k].payload[8..], buf[..offset + n];
      assert all == acc + data by {
        assert buf[..offset] == before[..offset];
        assert all == buf[..offset] + buf[offset..offset + n];
      }
      BlocksStep(frames, i, buf.Length, acc, n, k, data, all, FramesOf(s.incoming));
    }
  }

  /** With `acc` in the buffer: what the whole piece will be, and what will have been sent for it. */
  ghost predicate Halfway(frames: seq<Frame>, outgoing: seq<Byte>, index: nat, size: nat, acc: seq<Byte>,
                          target: Blocks, sent: seq<Byte>)
  {
    && index < 0x1_0000_0000 && |acc| <= size < 0x1_0000_0000
    && target == BlocksFrom(frames, index, size, acc) && sent == outgoing + RequestsFrom(index, |acc|, size)
  }

  lemma HalfwayDone(frames: seq<Frame>, outgoing: seq<Byte>, index: nat, size: nat, acc: seq<Byte>, target: Blocks,
                    sent: seq<Byte>)
    requires Halfway(frames, outgoing, index, size, acc, target, sent) && |acc| == size
    ensures target == Blocks(acc, frames) && sent == outgoing
  {
  }

  /** One turn of the loop over the blocks of a piece: a request, and the wait for its answer. */
  method FetchBlock(s: Socket, i: nat, buf: array<Byte>, offset: nat, ghost target: Blocks, ghost sent: seq<Byte>)
    returns (ok: bool, next: nat)
    requires i < 0x1_0000_0000 && offset < buf.Length < 0x1_0000_0000
    requires Halfway(FramesOf(s.incoming), s.outgoing, i, buf.Length, buf[..offset], target, sent)
    modifies s, buf
    ensures ok ==> offset < next <= buf.Length
    ensures ok ==> Halfway(FramesOf(s.incoming), s.outgoing, i, buf.Length, buf[..next], target, sent)
    ensures !ok ==> target == NoBlocks || s.room == Some(0)
    ensures old(s.room).None? ==> s.room.None?
  {
    var blockLen := if buf.Length - offset > BLOCK_SIZE then BLOCK_SIZE else buf.Length - offset;
    next := offset + blockLen;
    ok := Request(s, i, offset, blockLen, buf.Length, sent);
    if ok { ok := ReceiveNext(s, i, buf, offset, blockLen, target); }
  }

  /**
    The loop over the blocks of a piece. `ticks` counts how often `running` will still be found set. Unless it is
    stopped, the loop requests block after block and leaves in the buffer the data of the frames that answer.
   */
  method FetchBlocks(s: Socket, i: nat, buf: array<Byte>, ticks: nat) returns (ok: bool, left: nat)
    requires i < 0x1_0000_0000 && buf.Length < 0x1_0000_0000
    modifies s, buf
    ensures left <= ticks
    ensures ok && left > 0 ==>
      && BlocksFrom(FramesOf(old(s.incoming)), i, buf.Length, []) == Blocks(buf[..], FramesOf(s.incoming))
      && s.outgoing == old(s.outgoing) + RequestsFrom(i, 0, buf.Length)
    ensures !ok ==> BlocksFrom(FramesOf(old(s.incoming)), i, buf.Length, []) == NoBlocks || s.room == Some(0)
    ensures old(s.room).None? ==> s.room.None?
  {
    ok, left := true, ticks;
    var offset := 0;
    ghost var target := BlocksFrom(FramesOf(s.incoming), i, buf.Length, []);
    ghost var sent := s.outgoing + RequestsFrom(i, 0, buf.Length);
    assert buf[..0] == [];
    while offset < buf.Length && ok && left > 0
      invariant 0 <= offset <= buf.Length && left <= ticks
      invariant ok ==> Halfway(FramesOf(s.incoming), s.outgoing, i, buf.Length, buf[..offset], target, sent)
      invariant !ok ==> target == NoBlocks || s.room == Some(0)
      invariant old(s.room).None? ==> s.room.None?
      decreases left
    {
      left := left - 1;
      var next;
      ok, next := FetchBlock(s, i, buf, offset, target, sent);
      if ok { offset := next; }
    }
    if ok && offset == buf.Length {
      HalfwayDone(FramesOf(s.incoming), s.outgoing, i, buf.Length, buf[..offset], target, sent);
      assert buf[..offset] == buf[..];
    }
  }

  /** `verify_piece`, with the hash left uninterpreted. */
  predicate Verified(tor: Layout, hashes: seq<seq<Byte>>, hash: seq<Byte> -> seq<Byte>, index: nat, data: seq<Byte>) {
    index < tor.numPieces && index < |hashes| && |data| == PieceSize(tor, index) && hash(data) == hashes[index]
  }

  datatype Fetched = Piece(data: seq<Byte>) | NotFetched

  /** One attempt at one piece: a fresh buffer of arbitrary content, the block loop, and the check of the hash. */
  method TryPiece(tor: Layout, hashes: seq<seq<Byte>>, hash: seq<Byte> -> seq<Byte>, s: Socket, i: nat, ticks: nat)
    returns (r: Fetched, left: nat)
    requires i < tor.numPieces == |hashes| && Sized(tor)
    modifies s
    ensures left <= ticks
    ensures r.Piece? ==> Verified(tor, hashes, hash, i, r.data)
    ensures r.Piece? && left > 0 ==>
      BlocksFrom(FramesOf(old(s.incoming)), i, PieceSize(tor, i), []) == Blocks(r.data, FramesOf(s.incoming))
    ensures r.NotFetched? && left > 0 ==>
      var b := BlocksFrom(FramesOf(old(s.incoming)), i, PieceSize(tor, i), []);
      b.NoBlocks? || s.room == Some(0) || hash(b.data) != hashes[i]
    ensures old(s.room).None? ==> s.room.None?
  {
    PieceSizeBelow(tor, i);
    var buf := new Byte[PieceSize(tor, i)];
    var ok;
    ok, left := FetchBlocks(s, i, buf, ticks);
    if ok && hash(buf[..]) == hashes[i] {
      r := Piece(buf[..]);
    } else {
      r := NotFetched;
    }
  }

  // ---------- what holds between attempts ----------

  /** The pieces written so far, in the order of writing. */
  type Log = seq<(nat, seq<Byte>)>

  ghost predicate Logged(log: Log, i: nat) {
    exists k {:trigger log[k]} :: 0 <= k < |log| && log[k].0 == i
  }

  /** The log holds only whole pieces of this torrent. */
  ghost predicate Pieces(tor: Layout, log: Log) {
    forall k {:trigger log[k]} :: 0 <= k < |log| ==> log[k].0 < tor.numPieces && |log[k].1| == PieceSize(tor, log[k].0)
  }

  /** Every logged piece was verified, none is logged twice, and the bit field and the count agree with the log. */
  ghost predicate Progress(tor: Layout, hashes: seq<seq<Byte>>, hash: seq<Byte> -> seq<Byte>, field: seq<Byte>,
                           left: nat, log: Log) {
    && |field| == (tor.numPieces + 7) / 8
    && (forall k {:trigger log[k]} :: 0 <= k < |log| ==> Verified(tor, hashes, hash, log[k].0, log[k].1))
    && (forall j, k {:trigger log[j], log[k]} :: 0 <= j < k < |log| ==> log[j].0 != log[k].0)
    && (forall i {:trigger Marked(field, i)} :: 0 <= i < tor.numPieces ==> (Marked(field, i) <==> Logged(log, i)))
    && left == Clear(field, tor.numPieces)
    && |log| + left == tor.numPieces
  }

  lemma {:induction false} ProgressStarts(tor: Layout, hashes: seq<seq<Byte>>, hash: seq<Byte> -> seq<Byte>,
                                          field: seq<Byte>)
    requires |field| == (tor.numPieces + 7) / 8
    requires forall i {:trigger Marked(field, i)} :: 0 <= i < tor.numPieces ==> !Marked(field, i)
    ensures Progress(tor, hashes, hash, field, tor.numPieces, [])
  {
    ClearWhole(field, tor.numPieces);
  }

  lemma {:induction false} ProgressStep(tor: Layout, hashes: seq<seq<Byte>>, hash: seq<Byte> -> seq<Byte>,
                                        before: seq<Byte>, after: seq<Byte>, left: nat, log: Log, i: nat,
                                        data: seq<Byte>)
    requires Progress(tor, hashes, hash, before, left, log)
    requires Verified(tor, hashes, hash, i, data) && !Marked(before, i)
    requires |after| == |before|
    requires forall j {:trigger Marked(after, j)} :: 0 <= j < 8 * |before| ==> (Marked(after, j) <==>
      Marked(before, j) || j == i)
    ensures left > 0 && Progress(tor, hashes, hash, after, left - 1, log + [(i, data)])
  {
    ClearMark(before, after, tor.numPieces, i);
    var now := log + [(i, data)];
    forall j {:trigger Marked(after, j)} | 0 <= j < tor.numPieces ensures Marked(after, j) <==> Logged(now, j) {
      if j == i {
        assert now[|log|].0 == i;
      } else if Logged(log, j) {
        var k :| 0 <= k < |log| && log[k].0 == j;
        assert now[k].0 == j;
      }
    }
    forall j, k | 0 <= j < k < |now| ensures now[j].0 != now[k].0 {
      if k == |log| {
        assert now[j] == log[j];
        assert Logged(log, log[j].0);
      }
    }
  }

  // ---------- random-access output ----------

  /** Nothing but zeros has been put where the `size` bytes at `start` belong. */
  ghost predicate Blank(files: seq<FileInfo>, start: nat, size: nat) {
    forall i, j: nat {:trigger Peek(files[i].content, j)} ::
      0 <= i < |files| && j < files[i].length && start <= files[i].offset + j < start + size
      ==> Peek(files[i].content, j) == -1 || Peek(files[i].content, j) == 0
  }

  /** The files show every logged piece in its place, and nothing where the other pieces belong. */
  ghost predicate Stored(tor: Layout, files: seq<FileInfo>, log: Log) {
    && (forall k {:trigger log[k]} :: 0 <= k < |log| ==> Shows(files, PieceStart(tor.pieceLength, log[k].0), log[k].1))
    && (forall i: nat {:trigger Logged(log, i)} :: i < tor.numPieces && !Logged(log, i) ==>
          Blank(files, PieceStart(tor.pieceLength, i), PieceSize(tor, i)))
  }

  lemma WriteKeepsBlank(before: seq<FileInfo>, after: seq<FileInfo>, start: nat, data: seq<Byte>, other: nat, size: nat)
    requires |before| == |after|
    requires forall i :: 0 <= i < |after| ==> after[i].offset == before[i].offset && after[i].length == before[i].length
    requires forall i {:trigger after[i]} :: 0 <= i < |after| ==>
               Written(before[i].content, after[i].content, after[i].offset, after[i].length, start, data)
    requires Blank(before, other, size)
    requires other + size <= start || start + |data| <= other
    ensures Blank(after, other, size)
  {
    forall i, j: nat | 0 <= i < |after| && j < after[i].length && other <= after[i].offset + j < other + size
      ensures Peek(after[i].content, j) == -1 || Peek(after[i].content, j) == 0
    {
      assert Peek(before[i].content, j) == -1 || Peek(before[i].content, j) == 0;
    }
  }

  /** Two different pieces lie apart in the stream. */
  lemma PiecesApart(tor: Layout, i: nat, j: nat)
    requires WellFormed(tor) && i < tor.numPieces && j < tor.numPieces && i != j
    ensures PieceStart(tor.pieceLength, i) + PieceSize(tor, i) <= PieceStart(tor.pieceLength, j) ||
            PieceStart(tor.pieceLength, j) + PieceSize(tor, j) <= PieceStart(tor.pieceLength, i)
  {
    PiecesTile(tor, i);
    PiecesTile(tor, j);
    if i < j { PieceStartMono(tor.pieceLength, i + 1, j); } else { PieceStartMono(tor.pieceLength, j + 1, i); }
  }

  lemma StoredStep(tor: Layout, before: seq<FileInfo>, after: seq<FileInfo>, log: Log, i: nat, data: seq<Byte>)
    requires WellFormed(tor) && i < tor.numPieces && |data| == PieceSize(tor, i) && !Logged(log, i)
    requires Pieces(tor, log)
    requires |before| == |after|
    requires forall k :: 0 <= k < |after| ==> after[k].offset == before[k].offset && after[k].length == before[k].length
    requires forall k {:trigger after[k]} :: 0 <= k < |after| ==>
               Written(before[k].content, after[k].content, after[k].offset, after[k].length,
                       PieceStart(tor.pieceLength, i), data)
    requires Stored(tor, before, log)
    ensures Stored(tor, after, log + [(i, data)])
  {
    var start, now := PieceStart(tor.pieceLength, i), log + [(i, data)];
    forall k {:trigger now[k]} | 0 <= k < |now| ensures Shows(after, PieceStart(tor.pieceLength, now[k].0), now[k].1) {
      if k == |log| {
        WriteShows(before, after, start, data);
      } else {
        assert now[k] == log[k] && Logged(log, log[k].0);
        PiecesApart(tor, i, log[k].0);
        WriteKeeps(before, after, start, data, PieceStart(tor.pieceLength, log[k].0), log[k].1);
      }
    }
    forall j: nat {:trigger Logged(now, j)} | j < tor.numPieces && !Logged(now, j)
      ensures Blank(after, PieceStart(tor.pieceLength, j), PieceSize(tor, j))
    {
      assert now[|log|].0 == i;
      assert forall k {:trigger log[k]} :: 0 <= k < |log| ==> now[k] == log[k];
      assert !Logged(log, j);
      PiecesApart(tor, i, j);
      WriteKeepsBlank(before, after, start, data, PieceStart(tor.pieceLength, j), PieceSize(tor, j));
    }
  }

  /** The piece with index `i` in a log that has it. */
  ghost function PieceOfLog(log: Log, i: nat): seq<Byte>
    requires Logged(log, i)
  {
    var k :| 0 <= k < |log| && log[k].0 == i;
    log[k].1
  }

  ghost predicate HasAll(log: Log, n: nat) {
    forall i: nat {:trigger Logged(log, i)} :: i < n ==> Logged(log, i)
  }

  /** The first `n` pieces of a log that has them, joined in index order. */
  ghost function Joined(log: Log, n: nat): seq<Byte>
    requires HasAll(log, n)
    decreases n
  {
    if n == 0 then [] else assert Logged(log, n - 1); Joined(log, n - 1) + PieceOfLog(log, n - 1)
  }

  lemma {:induction false} JoinedAt(tor: Layout, log: Log, n: nat, p: nat, t: nat)
    requires WellFormed(tor) && p < n <= tor.numPieces && HasAll(log, n)
    requires Pieces(tor, log)
    requires t < PieceSize(tor, p)
    ensures |Joined(log, n)| == Reach(tor, n)
    ensures Logged(log, p) && |PieceOfLog(log, p)| == PieceSize(tor, p)
    ensures PieceStart(tor.pieceLength, p) + t < |Joined(log, n)|
    ensures Joined(log, n)[PieceStart(tor.pieceLength, p) + t] == PieceOfLog(log, p)[t]
    decreases n
  {
    PiecesTile(tor, n - 1);
    if n > 1 {
      PiecesTile(tor, n - 2);
      if p < n - 1 { JoinedAt(tor, log, n - 1, p, t); } else { JoinedAt(tor, log, n - 1, n - 2, 0); }
    }
  }

  ghost function Contents(files: seq<FileInfo>): (contents: seq<seq<Byte>>)
    ensures |contents| == |files|
    ensures forall i {:trigger contents[i]} :: 0 <= i < |files| ==> contents[i] == files[i].content
  {
    seq(|files|, i requires 0 <= i < |files| => files[i].content)
  }

  /** A place of a file shows the byte of the joined pieces at its place in the stream. */
  lemma PlaceShows(tor: Layout, st: seq<FileInfo>, log: Log, i: nat, j: nat)
    requires WellFormed(tor) && Laid(tor, st) && Stored(tor, st, log) && HasAll(log, tor.numPieces)
    requires Pieces(tor, log)
    requires i < |st| && j < st[i].length
    ensures |Joined(log, tor.numPieces)| == tor.totalLength
    ensures st[i].offset + j < tor.totalLength
    ensures Peek(st[i].content, j) == Joined(log, tor.numPieces)[st[i].offset + j]
  {
    var g := st[i].offset + j;
    FileStartMono(tor.files, i + 1, |tor.files|);
    var p := Torrent.PieceOf(tor, g, tor.numPieces);
    var t := g - PieceStart(tor.pieceLength, p);
    JoinedAt(tor, log, tor.numPieces, p, t);
    var k :| 0 <= k < |log| && log[k].0 == p && log[k].1 == PieceOfLog(log, p);
    assert Shows(st, PieceStart(tor.pieceLength, log[k].0), log[k].1);
    assert Peek(st[i].content, j) == log[k].1[g - PieceStart(tor.pieceLength, p)];
  }

  ghost predicate Laid(tor: Layout, files: seq<FileInfo>) {
    && |files| == |tor.files|
    && forall i {:trigger files[i]} :: 0 <= i < |files| ==>
         files[i].offset == FileStart(tor.files, i) && files[i].length == tor.files[i] &&
           |files[i].content| <= files[i].length
  }

  lemma FilesWhole(tor: Layout, st: seq<FileInfo>, log: Log)
    requires WellFormed(tor) && Laid(tor, st) && Stored(tor, st, log) && HasAll(log, tor.numPieces) && Pieces(tor, log)
    ensures forall i {:trigger st[i]} :: 0 <= i < |st| ==> |st[i].content| == tor.files[i]
  {
    forall i {:trigger st[i]} | 0 <= i < |st| ensures |st[i].content| == tor.files[i] {
      if st[i].length > 0 { PlaceShows(tor, st, log, i, st[i].length - 1); }
    }
  }

  lemma FilesMatch(tor: Layout, st: seq<FileInfo>, log: Log)
    requires WellFormed(tor) && Laid(tor, st) && Stored(tor, st, log) && HasAll(log, tor.numPieces) && Pieces(tor, log)
    ensures ShowStream(tor.files, Contents(st), Joined(log, tor.numPieces))
  {
    var stream, contents := Joined(log, tor.numPieces), Contents(st);
    forall i: nat, j: nat {:trigger contents[i][j]} |
      i < |contents| && i < |tor.files| && j < |contents[i]| && FileStart(tor.files, i) + j < |stream|
      ensures contents[i][j] == stream[FileStart(tor.files, i) + j]
    {
      PlaceShows(tor, st, log, i, j);
    }
  }

  /** When every piece is logged, the files one after the other are the pieces one after the other. */
  lemma FilesArePieces(tor: Layout, st: seq<FileInfo>, log: Log)
    requires WellFormed(tor) && Laid(tor, st) && Stored(tor, st, log) && HasAll(log, tor.numPieces) && Pieces(tor, log)
    ensures Concat(Contents(st)) == Joined(log, tor.numPieces)
  {
    var stream, contents := Joined(log, tor.numPieces), Contents(st);
    FilesWhole(tor, st, log);
    PiecesTile(tor, 0);
    JoinedAt(tor, log, tor.numPieces, 0, 0);
    FilesMatch(tor, st, log);
    FilesAreStream(tor.files, contents, stream, |st|);
    assert contents[..|st|] == contents;
    assert stream[..|stream|] == stream;
  }

  // ---------- the loop ----------

  /** `out_ctx`: either back end. */
  class Output {
    const useTar: bool
    const tar: TarStream
    const storage: StorageWriter

    constructor (useTar: bool, tar: TarStream, storage: StorageWriter)
      ensures this.useTar == useTar && this.tar == tar && this.storage == storage
    {
      this.useTar := useTar;
      this.tar := tar;
      this.storage := storage;
    }

    /** The back end in use belongs to this torrent. */
    ghost predicate Valid(tor: Layout)
      reads storage`files
    {
      && tar.Valid() && tar.plan.lengths == tor.files && tar.pieceLength == tor.pieceLength
      && storage.lengths == tor.files && storage.pieceLength == tor.pieceLength && storage.Valid()
    }

    /** The back end in use has been given exactly the logged pieces, in the order of the log. */
    ghost predicate Has(tor: Layout, log: Log)
      requires Complete(tar.plan)
      reads storage`files, tar
    {
      if useTar then tar.Now() == AfterPieces(tar.plan, tor.pieceLength, AsInts(log))
        else Stored(tor, storage.files, log)
    }

    method Write(tor: Layout, i: nat, data: seq<Byte>, ghost log: Log)
      requires Valid(tor) && Has(tor, log)
      requires WellFormed(tor) && i < tor.numPieces && |data| == PieceSize(tor, i) && !Logged(log, i)
      requires Pieces(tor, log)
      modifies tar, storage
      ensures Valid(tor) && Has(tor, log + [(i, data)])
    {
      if useTar {
        tar.Write(i, data);
        AsIntsSnoc(log, i, data);
      } else {
        ghost var before := storage.files;
        storage.Write(i, data);
        StoredStep(tor, before, storage.files, log, i, data);
      }
    }
  }

  function AsInts(log: Log): (ints: seq<(nat, seq<int>)>)
    ensures |ints| == |log|
    ensures forall k {:trigger ints[k]} :: 0 <= k < |log| ==> ints[k].0 == log[k].0 && ints[k].1 == log[k].1
  {
    seq(|log|, k requires 0 <= k < |log| => (log[k].0, log[k].1))
  }

  lemma AsIntsSnoc(log: Log, i: nat, data: seq<Byte>)
    ensures AsInts(log + [(i, data)]) == AsInts(log) + [(i, data)]
    ensures AsInts(log + [(i, data)])[..|log|] == AsInts(log)
  {
  }

  lemma {:induction false} CurrentStays(a: Plan, s: State, n: nat, start: nat, data: seq<int>)
    requires Complete(a) && n <= |a.lengths| && s.current < |a.lengths|
    ensures PieceTurn(a, s, n, start, data).current < |a.lengths|
    decreases n
  {
    if n > 0 { CurrentStays(a, s, n - 1, start, data); }
  }

  lemma {:induction false} CurrentIsFile(a: Plan, pieceLength: nat, log: seq<(nat, seq<int>)>)
    requires Complete(a)
    ensures AfterPieces(a, pieceLength, log).current < |a.lengths|
    decreases |log|
  {
    if log != [] {
      var (index, data) := log[|log| - 1];
      CurrentIsFile(a, pieceLength, log[..|log| - 1]);
      CurrentStays(a, AfterPieces(a, pieceLength, log[..|log| - 1]), |a.lengths|, PieceStart(pieceLength, index), data);
    }
  }

  /** Pieces were written with growing indices. */
  ghost predicate Ascending(log: Log) {
    forall j, k {:trigger log[j], log[k]} :: 0 <= j < k < |log| ==> log[j].0 < log[k].0
  }

  ghost predicate Below(log: Log, i: nat) {
    forall k {:trigger log[k]} :: 0 <= k < |log| ==> log[k].0 < i
  }

  // ---------- one peer ----------

  /** The frames answer the requests for piece `i` with the right data, and `rest` is behind them. */
  ghost predicate Supplies(tor: Layout, hashes: seq<seq<Byte>>, hash: seq<Byte> -> seq<Byte>, i: nat,
                           frames: seq<Frame>, rest: seq<Frame>)
    requires i < |hashes|
  {
    var b := BlocksFrom(frames, i, PieceSize(tor, i), []);
    b.Blocks? && hash(b.data) == hashes[i] && b.rest == rest
  }

  /** `course[i]` are the frames still to come when `i` pieces have come in index order. */
  ghost predicate Serves(tor: Layout, hashes: seq<seq<Byte>>, hash: seq<Byte> -> seq<Byte>, course: seq<seq<Frame>>)
    requires |hashes| == tor.numPieces
  {
    && |course| == tor.numPieces + 1
    && forall i: nat {:trigger Supplies(tor, hashes, hash, i, course[i], course[i + 1])} ::
         i < tor.numPieces ==> Supplies(tor, hashes, hash, i, course[i], course[i + 1])
  }

  /** The piece message of BEP 3 for one block. */
  function AnswerFrame(index: nat, begin: nat, data: seq<Byte>): Frame
    requires index < 0x1_0000_0000 && begin < 0x1_0000_0000
  {
    Message(7, Htonl(index) + Htonl(begin) + data)
  }

  lemma AnswerAnswers(index: nat, begin: nat, data: seq<Byte>)
    requires index < 0x1_0000_0000 && begin < 0x1_0000_0000
    ensures var f := AnswerFrame(index, begin, data); Answers(f, index, begin, |data|) && f.payload[8..] == data
  {
    var payload := AnswerFrame(index, begin, data).payload;
    assert payload[..4] == Htonl(index) && payload[4..8] == Htonl(begin) && payload[8..] == data;
    NtohlHtonl(index);
    NtohlHtonl(begin);
  }

  /** The answers to the requests for a piece from `offset` on. */
  function AnswerFrames(index: nat, data: seq<Byte>, offset: nat): seq<Frame>
    requires index < 0x1_0000_0000 && offset <= |data| < 0x1_0000_0000
    decreases |data| - offset
  {
    if offset == |data| then []
    else
      var n := BlockLen(offset, |data|);
      [AnswerFrame(index, offset, data[offset..offset + n])] + AnswerFrames(index, data, offset + n)
  }

  lemma AnswersHead(index: nat, data: seq<Byte>, offset: nat, rest: seq<Frame>, size: nat)
    returns (next: nat, frames: seq<Frame>, later: seq<Frame>, acc: seq<Byte>, all: seq<Byte>)
    requires index < 0x1_0000_0000 && offset < |data| == size < 0x1_0000_0000
    ensures offset < next <= |data| && acc == data[..offset] && all == data[..next]
    ensures frames == AnswerFrames(index, data, offset) + rest && later == AnswerFrames(index, data, next) + rest
    ensures BlocksFrom(frames, index, size, acc) == BlocksFrom(later, index, size, all)
  {
    var n := BlockLen(offset, size);
    next := offset + n;
    frames, later := AnswerFrames(index, data, offset) + rest, AnswerFrames(index, data, next) + rest;
    acc, all := data[..offset], data[..next];
    var block := data[offset..next];
    assert frames == [AnswerFrame(index, offset, block)] + later;
    AnswerFirst(frames, index, size, offset, acc, block, all, later);
  }

  lemma {:induction false} AnswersFetched(index: nat, data: seq<Byte>, offset: nat, rest: seq<Frame>, size: nat)
    requires index < 0x1_0000_0000 && offset <= |data| == size < 0x1_0000_0000
    ensures BlocksFrom(AnswerFrames(index, data, offset) + rest, index, size, data[..offset]) == Blocks(data, rest)
    decreases size - offset
  {
    if offset == size {
      assert [] + rest == rest && data[..offset] == data;
    } else {
      var next, frames, later, acc, all := AnswersHead(index, data, offset, rest, size);
      AnswersFetched(index, data, next, rest, size);
    }
  }

  lemma AnswerFirst(frames: seq<Frame>, index: nat, size: nat, offset: nat, acc: seq<Byte>, block: seq<Byte>,
                    all: seq<Byte>, later: seq<Frame>)
    requires index < 0x1_0000_0000 && |acc| == offset < size < 0x1_0000_0000 && |block| == BlockLen(offset, size)
    requires frames == [AnswerFrame(index, offset, block)] + later && all == acc + block
    ensures BlocksFrom(frames, index, size, acc) == BlocksFrom(later, index, size, all)
  {
    AnswerAnswers(index, offset, block);
    assert frames[1..] == later;
    BlocksStep(frames, index, size, acc, |block|, 0, block, all, later);
  }

  /** Pieces of the right sizes with the right hashes. */
  ghost predicate Genuine(tor: Layout, hashes: seq<seq<Byte>>, hash: seq<Byte> -> seq<Byte>, pieces: seq<seq<Byte>>)
    requires |hashes| == tor.numPieces
  {
    && |pieces| == tor.numPieces
    && forall i {:trigger pieces[i]} :: 0 <= i < |pieces| ==>
         |pieces[i]| == PieceSize(tor, i) && hash(pieces[i]) == hashes[i]
  }

  /** The answers to the requests for all pieces from `i` on. */
  function AllAnswers(pieces: seq<seq<Byte>>, i: nat): seq<Frame>
    requires i <= |pieces| <= 0x1_0000_0000
    requires forall k {:trigger pieces[k]} :: 0 <= k < |pieces| ==> |pieces[k]| < 0x1_0000_0000
    decreases |pieces| - i
  {
    if i == |pieces| then [] else AnswerFrames(i, pieces[i], 0) + AllAnswers(pieces, i + 1)
  }

  /** A peer that answers every request with a genuine block, in order, serves every piece. */
  lemma AnswersServe(tor: Layout, hashes: seq<seq<Byte>>, hash: seq<Byte> -> seq<Byte>, pieces: seq<seq<Byte>>)
    requires |hashes| == tor.numPieces && Sized(tor) && Genuine(tor, hashes, hash, pieces)
    ensures forall k {:trigger pieces[k]} :: 0 <= k < |pieces| ==> |pieces[k]| < 0x1_0000_0000
    ensures exists course :: Serves(tor, hashes, hash, course) && course[0] == AllAnswers(pieces, 0)
  {
    forall k {:trigger pieces[k]} | 0 <= k < |pieces| ensures |pieces[k]| < 0x1_0000_0000 { PieceSizeBelow(tor, k); }
    var n := tor.numPieces;
    var course := seq(n + 1, i requires 0 <= i <= n => AllAnswers(pieces, i));
    forall i: nat {:trigger Supplies(tor, hashes, hash, i, course[i], course[i + 1])} | i < n
      ensures Supplies(tor, hashes, hash, i, course[i], course[i + 1])
    {
      PieceSupplied(tor, hashes, hash, pieces, i, course[i], course[i + 1]);
    }
    assert Serves(tor, hashes, hash, course);
  }

  lemma PieceSupplied(tor: Layout, hashes: seq<seq<Byte>>, hash: seq<Byte> -> seq<Byte>, pieces: seq<seq<Byte>>, i: nat,
                      frames: seq<Frame>, rest: seq<Frame>)
    requires |hashes| == tor.numPieces && Sized(tor) && Genuine(tor, hashes, hash, pieces) && i < tor.numPieces
    requires |pieces[i]| < 0x1_0000_0000 && frames == AnswerFrames(i, pieces[i], 0) + rest
    ensures Supplies(tor, hashes, hash, i, frames, rest)
  {
    AnswersFetched(i, pieces[i], 0, rest, |pieces[i]|);
    assert pieces[i][..0] == [];
  }

  predicate OffersAll(b: Bitfield, n: nat) {
    forall i: nat :: i < n ==> Offers(b, i)
  }

  /** A piece that the peer offers is fetched when it is missing and the frames answer its requests with its data. */
  method OfferPiece(tor: Layout, hashes: seq<seq<Byte>>, hash: seq<Byte> -> seq<Byte>, peer: PeerConnection,
                    field: BitField, piecesLeft: nat, out: Output, i: nat, ticks: nat, ghost log: Log)
    returns (left: nat, ticksLeft: nat, ghost now: Log)
    requires WellFormed(tor) && |hashes| == tor.numPieces && i < tor.numPieces && Sized(tor)
    requires Progress(tor, hashes, hash, field.bytes[..], piecesLeft, log)
    requires out.Valid(tor) && out.Has(tor, log)
    modifies field.bytes, out.tar, out.storage, peer.sock
    ensures Progress(tor, hashes, hash, field.bytes[..], left, now)
    ensures out.Valid(tor) && out.Has(tor, now)
    ensures ticksLeft <= ticks
    ensures now == log || (|now| == |log| + 1 && log <= now && now[|log|].0 == i)
    ensures Logged(log, i) || !Offers(peer.bitfield, i) ==> now == log && peer.sock.incoming == old(peer.sock.incoming)
    ensures !Logged(log, i) && Offers(peer.bitfield, i) && ticksLeft > 0 && old(peer.sock.room).None? ==>
      var b := BlocksFrom(FramesOf(old(peer.sock.incoming)), i, PieceSize(tor, i), []);
      if b.Blocks? && hash(b.data) == hashes[i] then
        now == log + [(i, b.data)] && FramesOf(peer.sock.incoming) == b.rest
      else now == log
    ensures old(peer.sock.room).None? ==> peer.sock.room.None?
  {
    left, ticksLeft, now := piecesLeft, ticks, log;
    var done := field.IsDone(i);
    if done { return; }
    var has := peer.HasPiece(i);
    if !has { return; }
    var fetched;
    fetched, ticksLeft := TryPiece(tor, hashes, hash, peer.sock, i, ticks);
    if fetched.Piece? {
      ghost var before := field.bytes[..];
      out.Write(tor, i, fetched.data, log);
      field.MarkDone(i);
      ProgressStep(tor, hashes, hash, before, field.bytes[..], piecesLeft, log, i, fetched.data);
      left := piecesLeft - 1;
      now := log + [(i, fetched.data)];
    }
  }

  /** The peer has supplied the first `i` pieces and follows its course. */
  ghost predicate OnTrack(peer: PeerConnection, log: Log, i: nat, course: seq<seq<Frame>>)
    reads peer, peer.sock
  {
    && i < |course| && FramesOf(peer.sock.incoming) == course[i] && peer.sock.room.None?
    && |log| == i && Below(log, i)
  }

  /** After the pieces up to `i`, one peer has added to the log, in ascending order when that was empty. */
  ghost predicate Grown(start: Log, log: Log, i: nat) {
    start <= log && (start == [] ==> Ascending(log) && Below(log, i))
  }

  lemma GrownStep(start: Log, log: Log, now: Log, i: nat)
    requires Grown(start, log, i) && (now == log || (|now| == |log| + 1 && log <= now && now[|log|].0 == i))
    ensures Grown(start, now, i + 1)
  {
  }

  /** The next piece, offered by a peer that may have supplied all before it. */
  method OfferNext(tor: Layout, hashes: seq<seq<Byte>>, hash: seq<Byte> -> seq<Byte>, peer: PeerConnection,
                   field: BitField, piecesLeft: nat, out: Output, i: nat, ticks: nat, ghost start: Log, ghost log: Log,
                   ghost serves: bool, ghost course: seq<seq<Frame>>)
    returns (left: nat, ticksLeft: nat, ghost now: Log)
    requires WellFormed(tor) && |hashes| == tor.numPieces && i < tor.numPieces && Sized(tor)
    requires Progress(tor, hashes, hash, field.bytes[..], piecesLeft, log)
    requires out.Valid(tor) && out.Has(tor, log)
    requires Grown(start, log, i)
    requires serves ==> Serves(tor, hashes, hash, course) && OffersAll(peer.bitfield, tor.numPieces)
    requires serves ==> OnTrack(peer, log, i, course)
    modifies field.bytes, out.tar, out.storage, peer.sock
    ensures Progress(tor, hashes, hash, field.bytes[..], left, now)
    ensures out.Valid(tor) && out.Has(tor, now)
    ensures ticksLeft <= ticks
    ensures Grown(start, now, i + 1)
    ensures serves && ticksLeft > 0 ==> OnTrack(peer, now, i + 1, course)
  {
    assert serves ==> Supplies(tor, hashes, hash, i, course[i], course[i + 1]);
    left, ticksLeft, now := OfferPiece(tor, hashes, hash, peer, field, piecesLeft, out, i, ticks, log);
    GrownStep(start, log, now, i);
  }

  /** The loop over the pieces one peer may supply. */
  method OfferPieces(tor: Layout, hashes: seq<seq<Byte>>, hash: seq<Byte> -> seq<Byte>, peer: PeerConnection,
                     field: BitField, piecesLeft: nat, out: Output, ticks: nat, ghost log: Log, ghost serves: bool,
                     ghost course: seq<seq<Frame>>)
    returns (left: nat, ticksLeft: nat, ghost now: Log)
    requires WellFormed(tor) && |hashes| == tor.numPieces && Sized(tor)
    requires Progress(tor, hashes, hash, field.bytes[..], piecesLeft, log)
    requires out.Valid(tor) && out.Has(tor, log)
    requires serves ==> Serves(tor, hashes, hash, course) && OffersAll(peer.bitfield, tor.numPieces)
    requires serves ==> OnTrack(peer, log, 0, course)
    modifies field.bytes, out.tar, out.storage, peer.sock
    ensures Progress(tor, hashes, hash, field.bytes[..], left, now)
    ensures out.Valid(tor) && out.Has(tor, now)
    ensures ticksLeft <= ticks
    ensures log == [] ==> Ascending(now)
    ensures serves && ticksLeft > 0 ==> left == 0
  {
    left, ticksLeft, now := piecesLeft, ticks, log;
    var i := 0;
    while i < tor.numPieces && left > 0 && ticksLeft > 0
      invariant 0 <= i <= tor.numPieces && ticksLeft <= ticks
      invariant Progress(tor, hashes, hash, field.bytes[..], left, now)
      invariant out.Valid(tor) && out.Has(tor, now)
      invariant Grown(log, now, i)
      invariant serves && ticksLeft > 0 ==> OnTrack(peer, now, i, course)
    {
      left, ticksLeft, now := OfferNext(tor, hashes, hash, peer, field, left, out, i, ticksLeft - 1, log, now, serves,
                                        course);
      i := i + 1;
    }
  }

  // ---------- all peers ----------

  /** A peer as it turns out: whether it can be connected, what then arrives, and how much can be sent. */
  datatype Remote = Remote(reachable: bool, incoming: seq<Byte>, room: Option<nat>, sizes: seq<nat>)

  /** What a torrent names: its layout, the hashes of its pieces, and its own. */
  datatype Names = Names(tor: Layout, hashes: seq<seq<Byte>>, infoHash: seq<Byte>)

  ghost predicate Named(names: Names) {
    && WellFormed(names.tor) && Sized(names.tor) && |names.hashes| == names.tor.numPieces && |names.infoHash| == 20
  }

  /**
    A peer that keeps the protocol and has everything: it greets, sooner or later unchokes, offers every piece, and then
    answers the requests for the pieces in index order with the right data. Other messages may come in between.
   */
  ghost predicate Cooperative(names: Names, hash: seq<Byte> -> seq<Byte>, r: Remote)
    requires Named(names)
  {
    && r.reachable && r.room.None? && Greets(r.incoming, names.infoHash)
    && var frames := FramesOf(r.incoming[HANDSHAKE_SIZE..]);
       var u := FirstUnchoke(frames);
       && u < |frames|
       && OffersAll(NotedAll(None, frames[..u]), names.tor.numPieces)
       && exists course :: Serves(names.tor, names.hashes, hash, course) && course[0] == frames[u + 1..]
  }

  ghost function CourseOf(names: Names, hash: seq<Byte> -> seq<Byte>, r: Remote): (course: seq<seq<Frame>>)
    requires Named(names) && Cooperative(names, hash, r)
    ensures Serves(names.tor, names.hashes, hash, course)
    ensures var frames := FramesOf(r.incoming[HANDSHAKE_SIZE..]); course[0] == frames[FirstUnchoke(frames) + 1..]
  {
    var frames := FramesOf(r.incoming[HANDSHAKE_SIZE..]);
    var u := FirstUnchoke(frames);
    var course :| Serves(names.tor, names.hashes, hash, course) && course[0] == frames[u + 1..];
    course
  }

  /** `tcp_connect_timeout`, the handshake and the wait for unchoke. */
  method Connect(names: Names, r: Remote, peerId: seq<Byte>) returns (ok: bool, peer: PeerConnection)
    requires Named(names) && |peerId| == 20
    ensures fresh(peer) && fresh(peer.sock)
    ensures r.room.None? ==> peer.sock.room.None?
    ensures r.room.None? && r.reachable && Greets(r.incoming, names.infoHash) ==>
      var frames := FramesOf(r.incoming[HANDSHAKE_SIZE..]);
      var u := FirstUnchoke(frames);
      u < |frames| ==>
        ok && peer.bitfield == NotedAll(None, frames[..u]) && FramesOf(peer.sock.incoming) == frames[u + 1..]
  {
    var sock := new Socket(r.incoming, r.room, r.sizes);
    peer := new PeerConnection(sock);
    if !r.reachable { return false, peer; }
    ok := Handshake(sock, names.infoHash, peerId);
    if !ok { return; }
    ok := peer.WaitForUnchoke();
  }

  /** The loop over the peers. */
  method TryPeers(names: Names, hash: seq<Byte> -> seq<Byte>, peers: seq<Remote>, peerId: seq<Byte>, out: Output,
                  ticks: nat)
    returns (left: nat, running: nat, ghost log: Log)
    requires Named(names) && |peerId| == 20
    requires out.Valid(names.tor) && out.Has(names.tor, [])
    modifies out.tar, out.storage
    ensures exists field :: Progress(names.tor, names.hashes, hash, field, left, log)
    ensures out.Valid(names.tor) && out.Has(names.tor, log)
    ensures |peers| == 1 ==> Ascending(log)
    ensures peers != [] && Cooperative(names, hash, peers[0]) && running > 0 ==> left == 0
  {
    var tor, hashes := names.tor, names.hashes;
    var piecesDone := new BitField(tor.numPieces);
    left, running, log := tor.numPieces, ticks, [];
    ProgressStarts(tor, hashes, hash, piecesDone.bytes[..]);
    var peerIdx := 0;
    while peerIdx < |peers| && left > 0 && running > 0
      invariant 0 <= peerIdx <= |peers|
      invariant fresh(piecesDone.bytes)
      invariant Progress(tor, hashes, hash, piecesDone.bytes[..], left, log)
      invariant out.Valid(tor) && out.Has(tor, log)
      invariant peerIdx == 0 ==> log == []
      invariant peerIdx <= 1 ==> Ascending(log)
      invariant peerIdx > 0 && Cooperative(names, hash, peers[0]) && running > 0 ==> left == 0
    {
      running := running - 1;
      var ok, peer := Connect(names, peers[peerIdx], peerId);
      if ok {
        ghost var serves, course := peerIdx == 0 && Cooperative(names, hash, peers[0]), [];
        if serves { course := CourseOf(names, hash, peers[0]); }
        left, running, log := OfferPieces(tor, hashes, hash, peer, piecesDone, left, out, running, log, serves, course);
      }
      peerIdx := peerIdx + 1;
    }
  }

  /** The k-th piece written is the k-th piece. */
  ghost predicate InIndexOrder(log: Log) {
    forall k {:trigger log[k]} :: 0 <= k < |log| ==> log[k].0 == k
  }

  lemma AscendingIsInOrder(log: Log, n: nat)
    requires Ascending(log) && Below(log, n) && |log| == n
    ensures InIndexOrder(log)
  {
    forall k {:trigger log[k]} | 0 <= k < n ensures log[k].0 == k {
      AtLeast(log, k);
      AtMost(log, n, k);
    }
  }

  lemma {:induction false} AtLeast(log: Log, k: nat)
    requires Ascending(log) && k < |log|
    ensures log[k].0 >= k
  {
    if k > 0 { AtLeast(log, k - 1); }
  }

  lemma {:induction false} AtMost(log: Log, n: nat, k: nat)
    requires Ascending(log) && Below(log, n) && k < |log| == n
    ensures log[k].0 <= k
    decreases n - k
  {
    if k + 1 < n { AtMost(log, n, k + 1); }
  }

  /** No path component holds a NUL. */
  ghost predicate NoNul(files: seq<TarFile>) {
    forall i, k {:trigger files[i].path[k]} :: 0 <= i < |files| && 0 <= k < |files[i].path| ==> 0 !in files[i].path[k]
  }

  /**
    A reader recovers the files that are not empty, cut from the joined pieces, exactly when each is portable; if no
    component of a path holds a slash, their names, cut at the slashes, are the paths.
   */
  ghost predicate ReadsBack(tor: Layout, files: seq<TarFile>, archive: seq<int>, log: Log)
    requires HasAll(log, tor.numPieces)
  {
    && |files| == |tor.files|
    && FileStart(tor.files, |tor.files|) <= |Joined(log, tor.numPieces)|
    && (TarReader.Read(archive) ==
        Some(TarReader.Members(Entries(files), tor.files, Joined(log, tor.numPieces), 0)) <==>
        TarReader.AllPortable(Entries(files), 0))
    && (TarReader.AllPortable(Entries(files), 0) && NoSlashes(files) ==>
        TarReader.Read(archive).Some? && NamesAre(TarReader.Read(archive).value, Paths(files, 0)))
  }

  lemma ArchiveOfLog(tor: Layout, plan: Plan, files: seq<TarFile>, log: Log)
    requires WellFormed(tor) && HasAll(log, tor.numPieces) && Pieces(tor, log) && |log| == tor.numPieces
    requires InIndexOrder(log) && NoNul(files) && Complete(plan) && plan.lengths == tor.files
    requires |plan.lengths| == |files|
    requires forall i {:trigger files[i]} :: 0 <= i < |files| ==>
               plan.lengths[i] == files[i].length && plan.headers[i] == TarReader.HeaderOf(EntryOf(files[i]))
    ensures AfterPieces(plan, tor.pieceLength, AsInts(log)).current < |plan.lengths|
    ensures ReadsBack(tor, files, Closed(plan, AfterPieces(plan, tor.pieceLength, AsInts(log))), log)
  {
    forall i {:trigger files[i]} | 0 <= i < |files| ensures 0 !in FullPath(files[i].path) {
      NulFree(files[i].path);
    }
    PlanDescribes(plan, files);
    TarDownloadReadsBack(tor, plan, Entries(files), log);
    if TarReader.AllPortable(Entries(files), 0) && NoSlashes(files) {
      MembersNamed(files, tor.files, Joined(log, tor.numPieces), 0);
    }
  }

  /**
    `download_pieces`, for every list of peers, whatever arrives from them and whenever it is stopped; `running` is
    positive if it was not. The result is the number of pieces that were not written; each other piece was written once,
    from data that matched its hash.
   */
  method DownloadPieces(names: Names, hash: seq<Byte> -> seq<Byte>, peers: seq<Remote>, peerId: seq<Byte>, out: Output,
                        ticks: nat)
    returns (left: nat, ghost running: nat, ghost log: Log)
    requires Named(names) && |peerId| == 20
    requires out.Valid(names.tor) && out.Has(names.tor, [])
    modifies out.tar, out.storage
    ensures exists field :: Progress(names.tor, names.hashes, hash, field, left, log)
    ensures left == 0 ==> HasAll(log, names.tor.numPieces)
    ensures !out.useTar ==> Stored(names.tor, out.storage.files, log)
    ensures !out.useTar && left == 0 ==> Concat(Contents(out.storage.files)) == Joined(log, names.tor.numPieces)
    ensures out.useTar ==>
              var s := AfterPieces(out.tar.plan, names.tor.pieceLength, AsInts(log));
              s.current < |out.tar.plan.lengths| && out.tar.out == Closed(out.tar.plan, s)
    ensures out.useTar && left == 0 && InIndexOrder(log) && NoNul(out.tar.files) ==>
              ReadsBack(names.tor, out.tar.files, out.tar.out, log)
    ensures |peers| == 1 && left == 0 ==> InIndexOrder(log)
    ensures peers != [] && Cooperative(names, hash, peers[0]) && running > 0 ==> left == 0
  {
    ghost var tor := names.tor;
    var stillRunning;
    left, stillRunning, log := TryPeers(names, hash, peers, peerId, out, ticks);
    running := stillRunning;
    ghost var field :| Progress(tor, names.hashes, hash, field, left, log);
    if left == 0 {
      AllMarked(tor, names.hashes, hash, field, log);
      if |peers| == 1 { AscendingIsInOrder(log, tor.numPieces); }
    }
    if out.useTar {
      CurrentIsFile(out.tar.plan, tor.pieceLength, AsInts(log));
      out.tar.Close();
      if left == 0 && InIndexOrder(log) && NoNul(out.tar.files) {
        ArchiveOfLog(tor, out.tar.plan, out.tar.files, log);
      }
    } else if left == 0 {
      FilesArePieces(tor, out.storage.files, log);
    }
  }

  lemma {:induction false} AllMarked(tor: Layout, hashes: seq<seq<Byte>>, hash: seq<Byte> -> seq<Byte>,
                                     field: seq<Byte>, log: Log)
    requires Progress(tor, hashes, hash, field, 0, log)
    ensures HasAll(log, tor.numPieces) && Pieces(tor, log)
  {
    NoneClear(field, tor.numPieces);
    forall i: nat {:trigger Logged(log, i)} | i < tor.numPieces ensures Logged(log, i) {
      assert Marked(field, i);
    }
  }

  /** A log in index order gives the writer the pieces of the joined stream in index order. */
  lemma LogInOrder(tor: Layout, log: Log)
    requires WellFormed(tor) && HasAll(log, tor.numPieces) && Pieces(tor, log) && |log| == tor.numPieces
    requires forall k {:trigger log[k]} :: 0 <= k < |log| ==> log[k].0 == k
    ensures |Joined(log, tor.numPieces)| == tor.totalLength
    ensures InOrder(tor, Joined(log, tor.numPieces), AsInts(log))
  {
    var stream, ints := Joined(log, tor.numPieces), AsInts(log);
    PiecesTile(tor, 0);
    JoinedAt(tor, log, tor.numPieces, 0, 0);
    forall i {:trigger ints[i]} | 0 <= i < |ints|
      ensures ints[i].0 == i && |ints[i].1| == PieceSize(tor, i)
      ensures LiesAt(ints[i].1, stream, PieceStart(tor.pieceLength, i))
    {
      PieceLies(tor, log, i);
    }
  }

  lemma PieceLies(tor: Layout, log: Log, i: nat)
    requires WellFormed(tor) && HasAll(log, tor.numPieces) && Pieces(tor, log) && i < |log| == tor.numPieces
    requires forall k {:trigger log[k]} :: 0 <= k < |log| ==> log[k].0 == k
    ensures LiesAt(log[i].1, Joined(log, tor.numPieces), PieceStart(tor.pieceLength, i))
  {
    var stream, data, start := Joined(log, tor.numPieces), log[i].1, PieceStart(tor.pieceLength, i);
    assert |data| == PieceSize(tor, i) > 0 by { PiecesTile(tor, i); }
    assert start + |data| <= |stream| by { JoinedAt(tor, log, tor.numPieces, i, |data| - 1); }
    assert Logged(log, i) && PieceOfLog(log, i) == data;
    forall t {:trigger data[t]} | 0 <= t < |data| ensures data[t] == stream[start + t] {
      JoinedAt(tor, log, tor.numPieces, i, t);
    }
  }

  /**
    A download to a tar stream that wrote every piece, in index order: a reader of the output gets back the files that
    are not empty, cut from the verified pieces, if and only if each of them is portable.
   */
  lemma TarDownloadReadsBack(tor: Layout, plan: Plan, files: seq<TarReader.Entry>, log: Log)
    requires WellFormed(tor) && HasAll(log, tor.numPieces) && Pieces(tor, log) && |log| == tor.numPieces
    requires forall k {:trigger log[k]} :: 0 <= k < |log| ==> log[k].0 == k
    requires Complete(plan) && plan.lengths == tor.files && TarReader.Describes(plan, files)
    ensures |Joined(log, tor.numPieces)| == tor.totalLength
    ensures AfterPieces(plan, tor.pieceLength, AsInts(log)).current < |plan.lengths|
    ensures TarReader.Read(Closed(plan, AfterPieces(plan, tor.pieceLength, AsInts(log)))) ==
            Some(TarReader.Members(files, plan.lengths, Joined(log, tor.numPieces), 0)) <==>
            TarReader.AllPortable(files, 0)
  {
    LogInOrder(tor, log);
    ArchiveReadsBack(plan, tor, files, Joined(log, tor.numPieces), AsInts(log));
  }
}
