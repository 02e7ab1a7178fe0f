/**
  The layout of a torrent (FINAL/src/torrent.c: `piece_size`) and the random-access output back end
  (FINAL/src/storage.c: `storage_open`, `storage_write`).

  A torrent is one stream of bytes, cut into pieces of equal length and, independently, into files.
 */
module Torrent {
  import opened Bits

  /** `files[i]` is the length of the i-th file. */
  datatype Layout = Layout(pieceLength: nat, numPieces: nat, totalLength: nat, files: seq<nat>)

  /** Where the i-th file begins in the stream. */
  function FileStart(files: seq<nat>, i: nat): (offset: nat)
    requires i <= |files|
  {
    if i == 0 then 0 else FileStart(files, i - 1) + files[i - 1]
  }

  /** Where the i-th piece begins in the stream. */
  function PieceStart(pieceLength: nat, i: nat): nat
    decreases i
  {
    if i == 0 then 0 else PieceStart(pieceLength, i - 1) + pieceLength
  }

  /** What the loader leaves unchecked but the download relies on. */
  ghost predicate WellFormed(t: Layout) {
    && t.pieceLength > 0
    && t.numPieces > 0
    && PieceStart(t.pieceLength, t.numPieces - 1) < t.totalLength <= PieceStart(t.pieceLength, t.numPieces)
    && t.totalLength == FileStart(t.files, |t.files|)
  }

  function PieceSize(t: Layout, index: nat): nat {
    if index < t.numPieces - 1 then t.pieceLength
    else if index == t.numPieces - 1 && t.pieceLength > 0 then
      var last := t.totalLength % t.pieceLength;
      if last != 0 then last else t.pieceLength
    else 0
  }

  lemma {:induction false} PieceStartIsProduct(pieceLength: nat, i: nat)
    ensures i * pieceLength == PieceStart(pieceLength, i)
    decreases i
  {
    if i > 0 {
      PieceStartIsProduct(pieceLength, i - 1);
      assert i * pieceLength == (i - 1) * pieceLength + pieceLength;
    }
  }

  lemma {:induction false} PieceStartMono(pieceLength: nat, i: nat, j: nat)
    requires i <= j
    ensures PieceStart(pieceLength, i) <= PieceStart(pieceLength, j)
    decreases j
  {
    if i < j { PieceStartMono(pieceLength, i, j - 1); }
  }

  lemma Remainder(pieceLength: nat, n: nat, r: nat)
    requires r < pieceLength
    ensures (PieceStart(pieceLength, n) + r) % pieceLength == r
  {
    PieceStartIsProduct(pieceLength, n);
    QuotientUnique(PieceStart(pieceLength, n) + r, pieceLength, n, r);
  }

  /** The pieces follow one another without gap or overlap and end where the stream ends. */
  lemma PiecesTile(t: Layout, i: nat)
    requires WellFormed(t) && i < t.numPieces
    ensures PieceSize(t, i) > 0
    ensures PieceStart(t.pieceLength, i) + PieceSize(t, i) ==
            if i == t.numPieces - 1 then t.totalLength else PieceStart(t.pieceLength, i + 1)
  {
    if i == t.numPieces - 1 {
      var r := t.totalLength - PieceStart(t.pieceLength, i);
      if r < t.pieceLength {
        Remainder(t.pieceLength, i, r);
      } else {
        Remainder(t.pieceLength, i + 1, 0);
      }
    }
  }

  /** The piece that holds position `g` of the stream. */
  lemma {:induction false} PieceOf(t: Layout, g: nat, n: nat) returns (p: nat)
    requires WellFormed(t)
    requires n <= t.numPieces && g < t.totalLength && g < PieceStart(t.pieceLength, n)
    ensures p < n && PieceStart(t.pieceLength, p) <= g < PieceStart(t.pieceLength, p) + PieceSize(t, p)
    decreases n
  {
    if PieceStart(t.pieceLength, n - 1) <= g {
      p := n - 1;
      PiecesTile(t, p);
    } else {
      p := PieceOf(t, g, n - 1);
    }
  }

  lemma {:induction false} FileStartMono(files: seq<nat>, i: nat, j: nat)
    requires i <= j <= |files|
    ensures FileStart(files, i) <= FileStart(files, j)
  {
    if i < j { FileStartMono(files, i, j - 1); }
  }

  function Concat<T>(parts: seq<seq<T>>): seq<T> {
    if parts == [] then [] else Concat(parts[..|parts| - 1]) + parts[|parts| - 1]
  }

  /** Each byte of a file is the byte at its place in the stream. */
  ghost predicate ShowStream<T(!new)>(files: seq<nat>, contents: seq<seq<T>>, stream: seq<T>) {
    forall i: nat, j: nat {:trigger contents[i][j]} ::
      i < |contents| && i < |files| && j < |contents[i]| && FileStart(files, i) + j < |stream|
      ==> contents[i][j] == stream[FileStart(files, i) + j]
  }

  /** Files that show every part of a stream are, one after the other, the stream. */
  lemma {:induction false} FilesAreStream<T(!new)>(files: seq<nat>, contents: seq<seq<T>>, stream: seq<T>, n: nat)
    requires n <= |files| == |contents|
    requires FileStart(files, n) <= |stream|
    requires forall i {:trigger contents[i]} :: 0 <= i < n ==> |contents[i]| == files[i]
    requires ShowStream(files, contents, stream)
    ensures Concat(contents[..n]) == stream[..FileStart(files, n)]
  {
    if n > 0 {
      FilesAreStream(files, contents, stream, n - 1);
      assert contents[..n][..n - 1] == contents[..n - 1];
      var from, to := FileStart(files, n - 1), FileStart(files, n);
      forall j | 0 <= j < files[n - 1] ensures contents[n - 1][j] == stream[from..to][j] {
      }
      assert contents[n - 1] == stream[from..to];
      assert stream[..to] == stream[..from] + stream[from..to];
    }
  }
}

module Storage {
  import opened Bits
  import opened Torrent

  /** One output file: its place in the stream and what has been written to it. */
  datatype FileInfo = FileInfo(offset: nat, length: nat, content: seq<Byte>)

  /** `fseek` to `at` and `fwrite` of `data`: a gap past the end reads as zeros. */
  function Patched(content: seq<Byte>, at: nat, data: seq<Byte>): seq<Byte>
  {
    var padded := if |content| < at then content + seq(at - |content|, _ => 0) else content;
    padded[..at] + data + if at + |data| < |padded| then padded[at + |data|..] else []
  }

  /** The byte that file position `g` of the stream shows after a write of `data` at `start`. */
  function ByteAfter(before: seq<Byte>, fileStart: nat, j: nat, start: nat, data: seq<Byte>): Byte {
    if start <= fileStart + j < start + |data| then data[fileStart + j - start]
    else if j < |before| then before[j]
    else 0
  }

  /** What one `storage_write` leaves in a file at `offset` of length `length`. */
  ghost predicate Written(before: seq<Byte>, after: seq<Byte>, offset: nat, length: nat, start: nat, data: seq<Byte>) {
    var from := if start > offset then start else offset;
    var to := if start + |data| < offset + length then start + |data| else offset + length;
    && |after| == (if from < to && |before| < to - offset then to - offset else |before|)
    && forall j :: 0 <= j < |after| ==>
         after[j] == (if j < length then ByteAfter(before, offset, j, start, data) else before[j])
  }

  /** The byte at place `j` of a file, if it has been written that far. */
  function Peek(content: seq<Byte>, j: nat): int {
    if j < |content| then content[j] else -1
  }

  /** Every byte of `data`, placed at `start` of the stream, is in the file it belongs to. */
  ghost predicate Shows(files: seq<FileInfo>, start: nat, data: seq<Byte>) {
    forall i, j: nat {:trigger Peek(files[i].content, j)} ::
      0 <= i < |files| && j < files[i].length && start <= files[i].offset + j < start + |data|
      ==> Peek(files[i].content, j) == data[files[i].offset + j - start]
  }

  /** The loop of `storage_open`: each file begins where the one before it ends. */
  method OpenFiles(lengths: seq<nat>) returns (files: seq<FileInfo>)
    ensures |files| == |lengths|
    ensures forall k {:trigger files[k]} :: 0 <= k < |files| ==>
      files[k] == FileInfo(FileStart(lengths, k), lengths[k], [])
  {
    var currentOffset, i := 0, 0;
    files := [];
    while i < |lengths|
      invariant 0 <= i == |files| <= |lengths|
      invariant currentOffset == FileStart(lengths, i)
      invariant forall k {:trigger files[k]} :: 0 <= k < i ==>
        files[k] == FileInfo(FileStart(lengths, k), lengths[k], [])
    {
      files := files + [FileInfo(currentOffset, lengths[i], [])];
      currentOffset := currentOffset + lengths[i];
      i := i + 1;
    }
  }

  class StorageWriter {
    var files: seq<FileInfo>
    const pieceLength: nat
    ghost const lengths: seq<nat>

    ghost predicate Valid()
      reads this`files
    {
      && |files| == |lengths|
      && forall i {:trigger files[i]} :: 0 <= i < |files| ==>
           files[i].offset == FileStart(lengths, i) && files[i].length == lengths[i] &&
           |files[i].content| <= files[i].length
    }

    /** `storage_open`, with every directory and file created. */
    constructor (tor: Layout)
      ensures Valid() && lengths == tor.files && pieceLength == tor.pieceLength
      ensures forall i :: 0 <= i < |files| ==> files[i].content == []
    {
      var created := OpenFiles(tor.files);
      files := created;
      pieceLength := tor.pieceLength;
      lengths := tor.files;
    }

    /** `storage_write`: exactly the bytes of the piece's range change, each in the file it belongs to. */
    method Write(pieceIndex: nat, data: seq<Byte>)
      requires Valid()
      modifies this`files
      ensures Valid()
      ensures forall i {:trigger files[i]} :: 0 <= i < |files| ==>
                Written(old(files[i].content), files[i].content, files[i].offset, files[i].length,
                        PieceStart(pieceLength, pieceIndex), data)
    {
      var pieceStart := pieceIndex * pieceLength;
      PieceStartIsProduct(pieceLength, pieceIndex);
      var i := 0;
      while i < |files|
        invariant 0 <= i <= |files| == |old(files)|
        invariant Valid()
        invariant forall k {:trigger files[k]} :: 0 <= k < i ==>
                    Written(old(files[k].content), files[k].content, files[k].offset, files[k].length, pieceStart, data)
        invariant forall k {:trigger files[k]} :: i <= k < |files| ==> files[k] == old(files[k])
      {
        WriteFile(i, pieceStart, data);
        i := i + 1;
      }
    }

    /** The body of the loop over files. */
    method WriteFile(i: nat, pieceStart: nat, data: seq<Byte>)
      requires Valid() && i < |files|
      modifies this`files
      ensures Valid() && |files| == |old(files)|
      ensures forall k {:trigger files[k]} :: 0 <= k < |files| && k != i ==> files[k] == old(files[k])
      ensures Written(old(files[i].content), files[i].content, files[i].offset, files[i].length, pieceStart, data)
    {
      var fi := files[i];
      var pieceEnd := pieceStart + |data|;
      var fileStart, fileEnd := fi.offset, fi.offset + fi.length;
      var overlapStart := if pieceStart > fileStart then pieceStart else fileStart;
      var overlapEnd := if pieceEnd < fileEnd then pieceEnd else fileEnd;
      if overlapStart < overlapEnd {
        var offsetInFile := overlapStart - fileStart;
        var offsetInPiece := overlapStart - pieceStart;
        var bytesToWrite := overlapEnd - overlapStart;
        var content := Patched(fi.content, offsetInFile, data[offsetInPiece..offsetInPiece + bytesToWrite]);
        files := files[i := fi.(content := content)];
      }
    }
  }

  /** A write shows its own bytes. */
  lemma WriteShows(before: seq<FileInfo>, after: seq<FileInfo>, start: nat, data: seq<Byte>)
    requires |before| == |after|
    requires forall i {:trigger after[i]} :: 0 <= i < |after| ==>
               Written(before[i].content, after[i].content, after[i].offset, after[i].length, start, data)
    ensures Shows(after, start, data)
  {
  }

  /** A write elsewhere in the stream disturbs nothing that was shown. */
  lemma WriteKeeps(before: seq<FileInfo>, after: seq<FileInfo>, start: nat, data: seq<Byte>, other: nat,
                   shown: seq<Byte>)
    requires |before| == |after|
    requires forall i :: 0 <= i < |after| ==> after[i].offset == before[i].offset && after[i].length == before[i].length
    requires forall i {:trigger after[i]} :: 0 <= i < |after| ==>
               Written(before[i].content, after[i].content, after[i].offset, after[i].length, start, data)
    requires Shows(before, other, shown)
    requires other + |shown| <= start || start + |data| <= other
    ensures Shows(after, other, shown)
  {
    forall i, j: nat | 0 <= i < |after| && j < after[i].length && other <= after[i].offset + j < other + |shown|
      ensures Peek(after[i].content, j) == shown[after[i].offset + j - other]
    {
      assert Peek(before[i].content, j) == shown[before[i].offset + j - other];
    }
  }
}
