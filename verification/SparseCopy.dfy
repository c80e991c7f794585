/** copySparse (internal/diskfile/copy.go): copying a disk file without writing
    its holes. */
module SparseCopy {
  import opened Wrappers

  newtype byte = b: int | 0 <= b < 256

  /** copyChunkSize. */
  const CHUNK := 0x10_0000

  /** What seeking for data answers: where there is some, that there is none from
      here on (ENXIO), or that the filesystem cannot say. */
  datatype Seek = At(position: nat) | NoData | Unsupported

  /** The filesystem's answers for the input: SEEK_DATA, SEEK_HOLE (None is an
      error), and after how many bytes a read at an offset fails, if it does; and for
      the output: whether a write at an offset succeeds, and whether sizing it does. */
  datatype Device = Device(
    seekData: nat -> Seek,
    seekHole: nat -> Option<nat>,
    readFails: nat -> Option<nat>,
    writeOk: nat -> bool,
    sizeOk: bool
  )

  predicate AllZero(block: seq<byte>) {
    forall i :: 0 <= i < |block| ==> block[i] == 0
  }

  function Zeros(n: nat): (z: seq<byte>)
    ensures |z| == n && AllZero(z)
  {
    seq(n, i => 0)
  }

  /** The contract of SEEK_DATA and SEEK_HOLE: what is skipped reads as zeroes, and
      a hole after data is past it and within the file. */
  ghost predicate Honours(d: Device, data: seq<byte>) {
    forall offset :: 0 <= offset < |data| ==>
      match d.seekData(offset)
      case At(p) =>
        && offset <= p < |data| && AllZero(data[offset..p])
        && (d.seekHole(p).Some? ==> p < d.seekHole(p).value <= |data|)
      case NoData => AllZero(data[offset..])
      case Unsupported => true
  }

  /** The output has the input's first bytes, and the rest of the input up to here
      is zeroes. */
  predicate CopiedTo(data: seq<byte>, out: seq<byte>, upto: nat) {
    && |out| <= upto <= |data| && out == data[..|out|]
    && AllZero(data[|out|..upto])
  }

  method IsZero(block: seq<byte>) returns (zero: bool)
    ensures zero == AllZero(block)
  {
    for i := 0 to |block|
      invariant forall j :: 0 <= j < i ==> block[j] == 0
    {
      if block[i] != 0 {
        return false;
      }
    }
    return true;
  }

  class Output {
    var bytes: seq<byte>

    constructor ()
      ensures bytes == []
    {
      bytes := [];
    }

    /** Writing past the end leaves a hole, which reads as zeroes. */
    method WriteAt(block: seq<byte>, offset: nat)
      modifies this
      ensures |bytes| == if block == [] || offset + |block| < |old(bytes)| then |old(bytes)| else offset + |block|
      ensures forall i :: 0 <= i < |bytes| ==>
                bytes[i] == if offset <= i < offset + |block| then block[i - offset] else ByteAt(old(bytes), i)
    {
      if block == [] {
        return;
      }
      var padded := if |bytes| < offset then bytes + Zeros(offset - |bytes|) else bytes;
      var after := if offset + |block| < |padded| then padded[offset + |block|..] else [];
      bytes := padded[..offset] + block + after;
    }

    method Truncate(size: nat)
      modifies this
      ensures |bytes| == size && forall i :: 0 <= i < size ==> bytes[i] == ByteAt(old(bytes), i)
    {
      bytes := if size <= |bytes| then bytes[..size] else bytes + Zeros(size - |bytes|);
    }
  }

  /** What a file reads at an offset once it is long enough. */
  function ByteAt(bytes: seq<byte>, i: nat): byte {
    if i < |bytes| then bytes[i] else 0
  }

  // ---------------------------------------------------------------- Lemmas

  lemma SkipZeroes(data: seq<byte>, out: seq<byte>, upto: nat, next: nat)
    requires CopiedTo(data, out, upto) && upto <= next <= |data| && AllZero(data[upto..next])
    ensures CopiedTo(data, out, next)
  {
    assert data[|out|..next] == data[|out|..upto] + data[upto..next];
  }

  /** Up to where it is copied, the output reads as the input. */
  lemma ReadsAsInput(data: seq<byte>, out: seq<byte>, upto: nat, i: nat)
    requires CopiedTo(data, out, upto) && i < upto
    ensures ByteAt(out, i) == data[i]
  {
    if i >= |out| {
      assert data[i] == data[|out|..upto][i - |out|];
    }
  }

  lemma WriteBlock(data: seq<byte>, out: seq<byte>, upto: nat, next: nat, written: seq<byte>)
    requires CopiedTo(data, out, upto) && upto < next <= |data| && |written| == next
    requires forall i :: 0 <= i < next ==> written[i] == if upto <= i then data[i] else ByteAt(out, i)
    ensures written == data[..next] && CopiedTo(data, written, next)
  {
    forall i | 0 <= i < next
      ensures written[i] == data[i]
    {
      if i < upto {
        ReadsAsInput(data, out, upto, i);
      }
    }
  }

  lemma ResizeCompletes(data: seq<byte>, out: seq<byte>)
    requires CopiedTo(data, out, |data|)
    ensures forall i :: 0 <= i < |data| ==> ByteAt(out, i) == data[i]
  {
    forall i | 0 <= i < |data|
      ensures ByteAt(out, i) == data[i]
    {
      ReadsAsInput(data, out, |data|, i);
    }
  }

  /** Where the last chunk read from start on begins. */
  function LastChunk(start: nat, end: nat): (last: nat)
    requires start < end
    ensures start <= last < end
    decreases end - start
  {
    if end - start <= CHUNK then start else LastChunk(start + CHUNK, end)
  }

  // ---------------------------------------------------------------- What the device decides

  function NextChunk(start: nat, end: nat): (next: nat)
    requires start < end
    ensures start < next <= end
  {
    if end - start < CHUNK then end else start + CHUNK
  }

  /** Every chunk of the range can be read, and written unless it is all zeroes. */
  predicate WritesOk(d: Device, data: seq<byte>, start: nat, end: nat)
    requires start <= end <= |data|
    decreases end - start
  {
    start == end ||
    (&& d.readFails(start).None? && (AllZero(data[start..NextChunk(start, end)]) || d.writeOk(start))
     && WritesOk(d, data, NextChunk(start, end), end))
  }

  /** The range is read in chunks of a mebibyte from its start on; each can be read, and
      written unless it is all zeroes. */
  lemma {:induction false} WritesOkIff(d: Device, data: seq<byte>, start: nat, end: nat)
    requires start <= end <= |data|
    ensures WritesOk(d, data, start, end) <==>
            forall k: nat :: start + k * 0x10_0000 < end ==> ChunkOk(d, data, start + k * 0x10_0000, end)
    decreases end - start
  {
    hide ChunkOk, AllZero;
    if start < end {
      var next := NextChunk(start, end);
      WritesOkIff(d, data, next, end);
      FirstChunk(d, data, start, end);
      var all := forall k: nat :: start + k * 0x10_0000 < end ==> ChunkOk(d, data, start + k * 0x10_0000, end);
      if all {
        assert ChunkOk(d, data, start + 0 * 0x10_0000, end);
        forall k: nat | next + k * 0x10_0000 < end
          ensures ChunkOk(d, data, next + k * 0x10_0000, end)
        {
          assert ChunkOk(d, data, start + (k + 1) * 0x10_0000, end);
        }
      }
      if WritesOk(d, data, start, end) {
        forall k: nat | start + k * 0x10_0000 < end
          ensures ChunkOk(d, data, start + k * 0x10_0000, end)
        {
          if k > 0 {
            assert ChunkOk(d, data, next + (k - 1) * 0x10_0000, end);
          }
        }
      }
    }
  }

  predicate ChunkOk(d: Device, data: seq<byte>, at: nat, end: nat)
    requires at < end <= |data|
  {
    && d.readFails(at) == None
    && (d.writeOk(at) || forall i :: at <= i < end && i < at + 0x10_0000 ==> data[i] == 0)
  }

  lemma FirstChunk(d: Device, data: seq<byte>, start: nat, end: nat)
    requires start < end <= |data|
    ensures WritesOk(d, data, start, end) <==>
            ChunkOk(d, data, start, end) && WritesOk(d, data, NextChunk(start, end), end)
  {
    var chunk := data[start..NextChunk(start, end)];
    assert forall i :: start <= i < NextChunk(start, end) ==> data[i] == chunk[i - start];
  }

  lemma {:induction false} LastChunkIs(start: nat, end: nat, k: nat)
    requires start + k * 0x10_0000 < end <= start + (k + 1) * 0x10_0000
    ensures LastChunk(start, end) == start + k * 0x10_0000
    decreases k
  {
    if k > 0 {
      LastChunkIs(start + 0x10_0000, end, k - 1);
    }
  }

  /** Where the data found at start ends; a filesystem that cannot say means all. */
  function DataEnd(d: Device, data: seq<byte>, start: nat): nat {
    match d.seekHole(start) case Some(end) => end case None => |data|
  }

  /** How copySparse ends from an offset on: with the file sized, or by reading
      everything from an offset on, which returns before the file is sized. */
  datatype Ending = Sized | ReadAll(from: nat)

  ghost function EndingOf(d: Device, data: seq<byte>, offset: nat): (ending: Ending)
    requires Honours(d, data) && offset <= |data|
    ensures ending.ReadAll? ==> ending.from < |data|
    decreases |data| - offset
  {
    if offset == |data| then Sized
    else
      match d.seekData(offset)
      case NoData => Sized
      case Unsupported => ReadAll(offset)
      case At(start) => EndingOf(d, data, DataEnd(d, data, start))
  }

  /** Whether every read and write the copy makes from an offset on succeeds. */
  ghost predicate CanCopy(d: Device, data: seq<byte>, offset: nat)
    requires Honours(d, data) && offset <= |data|
    decreases |data| - offset
  {
    if offset == |data| then d.sizeOk
    else
      match d.seekData(offset)
      case NoData => d.sizeOk
      case Unsupported => WritesOk(d, data, offset, |data|)
      case At(start) =>
        && WritesOk(d, data, start, DataEnd(d, data, start))
        && CanCopy(d, data, DataEnd(d, data, start))
  }

  /** Whether what is copied is the whole input: the file is sized, or the last
      chunk read is not all zeroes. */
  ghost predicate Exact(data: seq<byte>, ending: Ending)
    requires ending.ReadAll? ==> ending.from < |data|
  {
    match ending
    case Sized => true
    case ReadAll(from) => !AllZero(data[LastChunk(from, |data|)..])
  }

  // ---------------------------------------------------------------- The copy

  /** copyRange. It fails only if a read or a write does; the output reaches the end of the
      range exactly when the last chunk of it was written, being not all zeroes. */
  method CopyRange(d: Device, data: seq<byte>, out: Output, start: nat, end: nat) returns (ok: bool)
    requires start <= end <= |data| && CopiedTo(data, out.bytes, start)
    modifies out
    ensures ok <==> WritesOk(d, data, start, end)
    ensures ok ==> CopiedTo(data, out.bytes, end)
    ensures ok && start < end ==>
              (|out.bytes| == end <==> !AllZero(data[LastChunk(start, end)..end]))
  {
    hide AllZero;
    var offset := start;
    while offset < end
      invariant start <= offset <= end && CopiedTo(data, out.bytes, offset)
      invariant WritesOk(d, data, start, end) == WritesOk(d, data, offset, end)
      invariant start < end && offset < end ==> LastChunk(offset, end) == LastChunk(start, end)
      invariant start < end && offset == end ==>
                  (|out.bytes| == end <==> !AllZero(data[LastChunk(start, end)..end]))
    {
      var next := NextChunk(offset, end);
      if d.readFails(offset).Some? {
        WriteSome(d, data[offset..next], d.readFails(offset).value, out, offset);
        return false;
      }
      var block := data[offset..next];
      var zero := IsZero(block);
      if zero {
        SkipZeroes(data, out.bytes, offset, next);
      } else {
        if !d.writeOk(offset) {
          return false;
        }
        ghost var before := out.bytes;
        out.WriteAt(block, offset);
        WriteBlock(data, before, offset, next, out.bytes);
      }
      offset := next;
    }
    return true;
  }

  /** What a failed read got is written too, before the copy gives up. */
  method WriteSome(d: Device, chunk: seq<byte>, got: nat, out: Output, offset: nat)
    modifies out
    ensures |out.bytes| >= |old(out.bytes)|
    ensures forall i :: 0 <= i < |out.bytes| && !(offset <= i < offset + |chunk|) ==>
              out.bytes[i] == ByteAt(old(out.bytes), i)
  {
    var block := if got < |chunk| then chunk[..got] else chunk;
    var zero := IsZero(block);
    if !zero && d.writeOk(offset) {
      out.WriteAt(block, offset);
    }
  }

  /** copySparse into an empty output. It succeeds exactly if its reads and writes do. The
      output is then a prefix of the input, short of zeroes only, and the whole
      input exactly if the device's answers lead to sizing the file, or the last
      chunk read is not all zeroes. */
  method CopyAll(d: Device, data: seq<byte>, out: Output) returns (ok: bool)
    requires out.bytes == [] && Honours(d, data)
    modifies out
    ensures ok <==> CanCopy(d, data, 0)
    ensures ok ==> CopiedTo(data, out.bytes, |data|)
    ensures ok ==> (out.bytes == data <==> Exact(data, EndingOf(d, data, 0)))
  {
    hide AllZero, WritesOk;
    NoZeroes();
    assert data[0..0] == [];
    var offset := 0;
    while offset < |data|
      invariant offset <= |data| && CopiedTo(data, out.bytes, offset)
      invariant EndingOf(d, data, 0) == EndingOf(d, data, offset)
      invariant CanCopy(d, data, 0) == CanCopy(d, data, offset)
    {
      match d.seekData(offset) {
        case NoData =>
          assert data[offset..|data|] == data[offset..];
          SkipZeroes(data, out.bytes, offset, |data|);
          break;
        case Unsupported =>
          ok := CopyRange(d, data, out, offset, |data|);
          assert data[..|data|] == data;
          assert data[LastChunk(offset, |data|)..|data|] == data[LastChunk(offset, |data|)..];
          return ok;
        case At(start) =>
          SkipZeroes(data, out.bytes, offset, start);
          var end := DataEnd(d, data, start);
          ok := CopyRange(d, data, out, start, end);
          if !ok {
            return false;
          }
          offset := end;
      }
    }
    if !d.sizeOk {
      return false;
    }
    ResizeCompletes(data, out.bytes);
    out.Truncate(|data|);
    assert out.bytes == data;
    assert data[..|data|] == data && data[|data|..|data|] == [];
    return true;
  }

  lemma NoZeroes()
    ensures AllZero([])
  {
  }

  /** The shortest input the fallback loses: on a filesystem that cannot say where
      data is, the copy of one zero byte succeeds and is empty. */
  method FallbackLosesTrailingZeroes(writeOk: nat -> bool) returns (out: Output, ok: bool)
    ensures fresh(out) && ok && out.bytes == []
  {
    var d := Device(offset => Unsupported, start => None, offset => None, writeOk, true);
    out := new Output();
    ok := CopyAll(d, [0], out);
    assert EndingOf(d, [0], 0) == ReadAll(0);
    assert NextChunk(0, 1) == 1 && LastChunk(0, 1) == 0 && AllZero([0][0..1]) && AllZero([0][0..]);
    assert WritesOk(d, [0], 1, 1) && WritesOk(d, [0], 0, 1);
    assert CanCopy(d, [0], 0);
  }
}
