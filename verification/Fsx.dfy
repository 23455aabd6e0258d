/** fsx: a data-integrity fuzzer that keeps a shadow image of one file. Every operation
    is applied to the shadow in place and to the real file; what is read back, and the
    file size, are compared with the shadow.

    The module first says what each operation does to a file as a sequence of bytes, then
    gives the shadow as a class over an array, and proves that the shadow is that file
    after every run. */
module Fsx {
  import opened Common

  newtype Byte = x: int | 0 <= x < 256

  type File = seq<Byte>

  // ---------- what the operations do to a file ----------

  function Zeros(n: nat): (f: File)
    ensures |f| == n
  {
    seq(n, _ => 0)
  }

  function Min(a: nat, b: nat): (m: nat)
    ensures m <= a && m <= b && (m == a || m == b)
  {
    if a < b then a else b
  }

  /** Truncation: bytes that come into being are zero. */
  function Resize(f: File, n: nat): (g: File)
    ensures |g| == n
  {
    if n <= |f| then f[..n] else f + Zeros(n - |f|)
  }

  /** The bytes from `off` replaced by `data`. */
  function Splice(f: File, off: nat, data: File): (g: File)
    requires off + |data| <= |f|
    ensures |g| == |f|
  {
    f[..off] + data + f[off + |data|..]
  }

  /** A positional write; a gap between the end of the file and `off` reads as zero. */
  function PWrite(f: File, off: nat, data: File): (g: File)
    ensures |g| == Max(|f|, off + |data|)
  {
    Splice(Resize(f, Max(|f|, off + |data|)), off, data)
  }

  function PunchHole(f: File, off: nat, len: nat): (g: File)
    ensures |g| == |f|
  {
    if off >= |f| then f else Splice(f, off, Zeros(Min(len, |f| - off)))
  }

  function ZeroRange(f: File, off: nat, len: nat, keepSize: bool): File {
    if keepSize then PunchHole(f, off, len) else PWrite(f, off, Zeros(len))
  }

  function Fallocate(f: File, off: nat, len: nat, keepSize: bool): File {
    if keepSize then f else Resize(f, Max(|f|, off + len))
  }

  function CollapseRange(f: File, off: nat, len: nat): File
    requires off + len <= |f|
  {
    f[..off] + f[off + len..]
  }

  function InsertRange(f: File, off: nat, len: nat): File
    requires off <= |f|
  {
    f[..off] + Zeros(len) + f[off..]
  }

  function CopyRange(f: File, src: nat, len: nat, dest: nat): File
    requires src + len <= |f|
  {
    PWrite(f, dest, f[src..src + len])
  }

  // ---------- arguments ----------

  function RoundDown(v: nat, bdy: nat): (w: nat)
    ensures w <= v
  {
    if bdy == 0 then v else v - v % bdy
  }

  lemma Multiples(a: int, b: int, n: int)
    requires n > 0 && a < b
    ensures a * n + n <= b * n
  {
    assert (b - a - 1) * n >= 0;
    assert b * n == a * n + n + (b - a - 1) * n;
  }

  lemma MultipleOf(q: nat, n: nat)
    requires n > 0
    ensures q * n % n == 0
  {
    var p := Divide(q * n, n);
    if p < q {
      Multiples(p, q, n);
    } else if q < p {
      Multiples(q, p, n);
    }
  }

  /** It is the greatest multiple of the boundary that is not larger. */
  lemma RoundDownIsGreatest(v: nat, bdy: nat, m: nat)
    requires bdy > 0
    ensures RoundDown(v, bdy) % bdy == 0 && v < RoundDown(v, bdy) + bdy
    ensures m % bdy == 0 && m <= v ==> m <= RoundDown(v, bdy)
  {
    var q := Divide(v, bdy);
    var p := Divide(m, bdy);
    MultipleOf(q, bdy);
    if q < p {
      Multiples(q, p, bdy);
    }
  }

  function AlignDown(v: nat, bdy: nat): (w: nat)
    ensures w <= v
  {
    v - v % Max(bdy, 1)
  }

  function TrimOff(off: nat, size: nat): (o: nat)
    ensures o <= size && (size > 0 ==> o < size)
  {
    if size == 0 then 0 else off % size
  }

  function TrimLen(off: nat, len: nat, size: nat): (l: nat)
    ensures TrimOff(off, size) + l <= size
  {
    if TrimOff(off, size) + len > size then size - TrimOff(off, size) else len
  }

  const TRIES: nat := 30

  const BLOCK: nat := 4096

  function Distance(a: nat, b: nat): nat {
    if a < b then b - a else a - b
  }

  /** The first acceptable destination among the draws from `tries` on: block-aligned,
      inside the limit and not overlapping the source. */
  function FindDest(dests: seq<nat>, tries: nat, src: nat, size: nat, limit: nat): (r: Option<nat>)
    requires limit > 0 && |dests| >= TRIES - 1
    ensures r.Some? ==> Distance(r.value, src) >= size && r.value + size <= limit
    decreases TRIES - tries
  {
    if tries >= TRIES - 1 then None else
    var d := RoundDown(dests[tries] % limit, BLOCK);
    if Distance(d, src) >= size && d + size <= limit then Some(d)
    else FindDest(dests, tries + 1, src, size, limit)
  }

  /** The byte the generator puts at a file position: the call counter, plus the original
      fill at odd positions. */
  function PatternByte(original: File, testCalls: nat, pos: nat): Byte
    requires pos < |original|
  {
    if pos % 2 == 1 then ((testCalls % 256 + original[pos] as int) % 256) as Byte else (testCalls % 256) as Byte
  }

  function Pattern(original: File, testCalls: nat, off: nat, size: nat): (f: File)
    requires off + size <= |original|
    ensures |f| == size
  {
    seq(size, i requires 0 <= i < size => PatternByte(original, testCalls, off + i))
  }

  // ---------- the shadow ----------

  /** The image held in a buffer whose first `fs` bytes are the file, after the buffer
      took `data` at `off` and the gap was zeroed. */
  lemma WriteImage(buf: File, fs: nat, off: nat, data: File, mid: File, b: File)
    requires fs <= |buf| && off + |data| <= |buf|
    requires mid == Splice(buf, off, data) && b == if off > fs then Splice(mid, fs, Zeros(off - fs)) else mid
    ensures b[..Max(fs, off + |data|)] == PWrite(buf[..fs], off, data)
  {
    if off > fs {
      assert b == buf[..fs] + Zeros(off - fs) + data + buf[off + |data|..];
    } else {
      assert b == buf[..off] + data + buf[off + |data|..];
    }
  }

  lemma WriteTail(buf: File, fs: nat, off: nat, data: File, mid: File, b: File)
    requires fs <= |buf| && off + |data| <= |buf|
    requires mid == Splice(buf, off, data) && b == if off > fs then Splice(mid, fs, Zeros(off - fs)) else mid
    ensures b[Max(fs, off + |data|)..] == buf[Max(fs, off + |data|)..]
  {
  }

  /** The same when the gap is zeroed first. */
  lemma GapThenWriteImage(buf: File, fs: nat, off: nat, data: File)
    requires fs <= |buf| && off + |data| <= |buf|
    ensures var b := if off > fs then Splice(buf, fs, Zeros(off - fs)) else buf;
            Splice(b, off, data)[..Max(fs, off + |data|)] == PWrite(buf[..fs], off, data)
  {
  }

  lemma PunchImage(buf: File, fs: nat, off: nat, len: nat)
    requires fs <= |buf| && off + len <= |buf|
    ensures Splice(buf, off, Zeros(len))[..fs] == PunchHole(buf[..fs], off, len)
  {
  }

  lemma PunchClippedImage(buf: File, fs: nat, off: nat, len: nat, b: File)
    requires off < fs <= |buf| && b == Splice(buf, off, Zeros(Min(len, fs - off)))
    ensures b[..fs] == PunchHole(buf[..fs], off, len)
  {
  }

  /** Zeroing a tail and then, once more, its first part. */
  lemma GrowImage(buf: File, fs: nat, off: nat, n: nat, mid: File, b: File)
    requires fs <= n <= |buf| && off <= n && mid == Splice(buf, fs, Zeros(n - fs))
    requires b == if off > fs then Splice(mid, fs, Zeros(off - fs)) else mid
    ensures b[..n] == Resize(buf[..fs], n)
  {
    if off > fs {
      assert Zeros(off - fs) + Zeros(n - off) == Zeros(n - fs);
    }
    assert b == buf[..fs] + Zeros(n - fs) + buf[n..];
  }

  lemma CollapseImage(buf: File, fs: nat, off: nat, len: nat)
    requires off + len <= fs <= |buf|
    ensures Splice(buf, off, buf[off + len..fs])[..fs - len] == CollapseRange(buf[..fs], off, len)
  {
  }

  lemma SpliceBehind(f: File, at: nat, data: File, lo: nat, hi: nat)
    requires at + |data| <= |f| && lo <= hi <= at
    ensures Splice(f, at, data)[lo..hi] == f[..at][lo..hi]
  {
  }

  lemma CopyImage(buf: File, fs: nat, src: nat, len: nat, dest: nat)
    requires src + len <= fs <= |buf| && dest + len <= |buf|
    ensures var b := if dest > fs then Splice(buf, fs, Zeros(dest - fs)) else buf;
            Splice(b, dest, b[src..src + len])[..Max(fs, dest + len)] == CopyRange(buf[..fs], src, len, dest)
  {
    var b := if dest > fs then Splice(buf, fs, Zeros(dest - fs)) else buf;
    if dest > fs {
      SpliceBehind(buf, fs, Zeros(dest - fs), src, src + len);
    } else {
      SliceOfPrefix(buf, fs, src, src + len);
    }
    GapThenWriteImage(buf, fs, dest, b[src..src + len]);
  }

  /** What the buffer holds after an insertion. */
  function ShiftedUp(buf: File, fs: nat, off: nat, len: nat): (b: File)
    requires off + len <= fs <= |buf|
    ensures |b| == |buf|
  {
    buf[..off] + Zeros(len) + buf[off..fs - len] + buf[fs..]
  }

  /** What the shadow of an insertion then stands for. */
  function Inserted(buf: File, fs: nat, off: nat, len: nat): File
    requires off + len <= fs && fs + len <= |buf|
  {
    buf[..off] + Zeros(len) + buf[off..fs - len] + buf[fs..fs + len]
  }

  lemma ShiftUpBuffer(buf: File, fs: nat, off: nat, len: nat, n: nat, b: File, c: File)
    requires off + len + n == fs <= |buf|
    requires b == Splice(buf, off + len, buf[off..off + n])
    requires c == Splice(b, off, Zeros(len))
    ensures c == ShiftedUp(buf, fs, off, len)
  {
  }

  lemma InsertImage(buf: File, fs: nat, off: nat, len: nat)
    requires off + len <= fs && fs + len <= |buf|
    ensures ShiftedUp(buf, fs, off, len)[..fs + len] == Inserted(buf, fs, off, len)
  {
  }

  /** The shadow of an insertion is right exactly when the buffer happens to hold, just
      behind the file, a copy of the file's last `len` bytes. */
  lemma InsertIsRightIff(buf: File, fs: nat, off: nat, len: nat)
    requires off + len <= fs && fs + len <= |buf|
    ensures Inserted(buf, fs, off, len) == InsertRange(buf[..fs], off, len) <==> buf[fs..fs + len] == buf[fs - len..fs]
  {
    var shadow, file := Inserted(buf, fs, off, len), InsertRange(buf[..fs], off, len);
    assert buf[..fs][off..] == buf[off..fs - len] + buf[fs - len..fs];
    assert file == (buf[..off] + Zeros(len) + buf[off..fs - len]) + buf[fs - len..fs];
    assert shadow[fs..] == buf[fs..fs + len];
    assert file[fs..] == buf[fs - len..fs];
  }

  /** Whole blocks inserted into a file of whole blocks that one write made, with nothing
      behind it in the buffer: the last blocks of the file are lost. */
  lemma InsertAfterWrite(original: File, calls: nat, buf: File, fs: nat, off: nat, len: nat)
    requires 0 < len && off + len <= fs <= |original| && fs + len <= |buf|
    requires fs % BLOCK == 0 && len % BLOCK == 0 && calls % 256 != 0
    requires buf[..fs] == Pattern(original, calls, 0, fs)
    requires buf[fs..] == Zeros(|buf| - fs)
    ensures Inserted(buf, fs, off, len) != InsertRange(buf[..fs], off, len)
  {
    InsertIsRightIff(buf, fs, off, len);
    assert buf[fs - len] == buf[..fs][fs - len];
    assert buf[fs] == buf[fs..][0];
    assert buf[fs..fs + len][0] != buf[fs - len..fs][0];
  }

  /** With keep-size the file does not grow but the shadow does, so the two agree exactly
      when the range lies inside the file. */
  lemma KeepSizeIsRightIff(f: File, off: nat, len: nat)
    ensures Resize(f, Max(|f|, off + len)) == Fallocate(f, off, len, true) <==> off + len <= |f|
  {
    assert |Resize(f, Max(|f|, off + len))| == Max(|f|, off + len);
    if off + len <= |f| {
      assert Resize(f, |f|) == f;
    }
  }

  lemma SliceOfPrefix(s: File, n: nat, lo: nat, hi: nat)
    requires lo <= hi <= n <= |s|
    ensures s[..n][lo..hi] == s[lo..hi]
  {
  }

  /** What a read of the given range must return. */
  predicate ReadsBack(disk: File, image: File, off: nat, len: nat)
    requires off + len <= |image|
  {
    off + len <= |disk| && disk[off..off + len] == image[off..off + len]
  }

  function MappedByte(disk: File, pos: nat): Byte {
    if pos < |disk| then disk[pos] else 0
  }

  /** What a mapping of the file on disk shows: zero past its end. */
  function Mapped(disk: File, off: nat, len: nat): (m: File)
    ensures |m| == len
    ensures forall i :: 0 <= i < len ==> m[i] == MappedByte(disk, off + i)
  {
    seq(len, i requires 0 <= i < len => MappedByte(disk, off + i))
  }

  predicate DataPastEnd(mapped: File, from: nat, end: nat) {
    exists i :: from <= i < |mapped| && i >= end && mapped[i] != 0
  }

  lemma MappedPart(disk: File, base: nat, skip: nat, len: nat)
    ensures Mapped(disk, base, skip + len)[skip..] == Mapped(disk, base + skip, len)
  {
  }

  /** The page that holds the byte at `pos` has a part of the file; touching another page
      of a mapping ends the process with a signal. */
  predicate PageExists(disk: File, pos: nat, page: nat)
    requires page > 0
  {
    RoundDown(pos, page) < |disk|
  }

  predicate MapsBack(disk: File, image: File, off: nat, len: nat, page: nat)
    requires off + len <= |image| && page > 0
  {
    (len > 0 ==> PageExists(disk, off + len - 1, page)) && Mapped(disk, off, len) == image[off..off + len]
  }

  class Shadow {
    const original: File
    const maxLen: nat
    const readBdy: nat
    const writeBdy: nat
    const truncBdy: nat
    var goodBuf: array<Byte>
    var fileSize: nat
    var testCalls: nat
    var failed: bool

    ghost predicate Valid()
      reads this
    {
      && maxLen > 0
      && |original| == maxLen
      && goodBuf.Length == maxLen + writeBdy + 8
      && fileSize <= maxLen
    }

    /** The file the shadow stands for. */
    ghost function Image(): File
      requires Valid()
      reads this, goodBuf
    {
      goodBuf[..][..fileSize]
    }

    constructor (original: File, readBdy: nat, writeBdy: nat, truncBdy: nat)
      requires |original| > 0
      ensures Valid() && fresh(goodBuf) && Image() == [] && !failed && testCalls == 0
      ensures goodBuf[..] == Zeros(goodBuf.Length)
      ensures this.original == original
      ensures this.readBdy == readBdy && this.writeBdy == writeBdy && this.truncBdy == truncBdy
    {
      this.original := original;
      this.maxLen := |original|;
      this.readBdy := readBdy;
      this.writeBdy := writeBdy;
      this.truncBdy := truncBdy;
      goodBuf := new Byte[|original| + writeBdy + 8](_ => 0);
      fileSize, testCalls, failed := 0, 0, false;
    }

    method Fail()
      modifies this`failed
      ensures failed
    {
      failed := true;
    }

    method GenData(offset: nat, size: nat)
      requires Valid() && offset + size <= maxLen
      modifies goodBuf
      ensures goodBuf[..] == Splice(old(goodBuf[..]), offset, Pattern(original, testCalls, offset, size))
    {
      var i := offset;
      while i < offset + size
        invariant offset <= i <= offset + size
        invariant forall k :: 0 <= k < goodBuf.Length ==>
                    goodBuf[k] == if offset <= k < i then PatternByte(original, testCalls, k) else old(goodBuf[k])
      {
        var b := testCalls % 256;
        if i % 2 == 1 {
          b := (b + original[i] as int) % 256;
        }
        goodBuf[i] := b as Byte;
        i := i + 1;
      }
    }

    method Fill(lo: nat, len: nat)
      requires Valid() && lo + len <= goodBuf.Length
      modifies goodBuf
      ensures goodBuf[..] == Splice(old(goodBuf[..]), lo, Zeros(len))
    {
      forall i | lo <= i < lo + len {
        goodBuf[i] := 0;
      }
    }

    method CopyWithin(src: nat, len: nat, dest: nat)
      requires Valid() && src + len <= goodBuf.Length && dest + len <= goodBuf.Length
      modifies goodBuf
      ensures goodBuf[..] == Splice(old(goodBuf[..]), dest, old(goodBuf[..])[src..src + len])
    {
      forall i | dest <= i < dest + len {
        goodBuf[i] := goodBuf[i - dest + src];
      }
    }

    method UpdateFileSize(offset: nat, size: nat)
      requires Valid() && offset + size <= maxLen
      modifies this`fileSize, goodBuf
      ensures Valid() && fileSize == offset + size
      ensures goodBuf[..] == if offset > old(fileSize)
                             then Splice(old(goodBuf[..]), old(fileSize), Zeros(offset - old(fileSize)))
                             else old(goodBuf[..])
    {
      if offset > fileSize {
        Fill(fileSize, offset - fileSize);
      }
      fileSize := offset + size;
    }

    method CheckBuffers(buf: File, offset: nat)
      requires Valid() && offset + |buf| <= fileSize
      modifies this`failed
      ensures failed == (old(failed) || buf != Image()[offset..offset + |buf|])
    {
      SliceOfPrefix(goodBuf[..], fileSize, offset, offset + |buf|);
      if buf != goodBuf[..][offset..offset + |buf|] {
        Fail();
      }
    }

    // ---------- the operations ----------

    /** `disk` is what the file on disk holds, `ok` whether the system call succeeds. */
    method DoRead(off: nat, size: nat, disk: File, ok: bool)
      requires Valid()
      modifies this`failed
      ensures var offset := AlignDown(off, readBdy);
              failed == (old(failed) ||
                (size > 0 && offset + size <= fileSize && !(ok && ReadsBack(disk, Image(), offset, size))))
    {
      var offset := AlignDown(off, readBdy);
      if size == 0 || offset + size > fileSize {
        return;
      }
      if !ok || offset + size > |disk| {
        Fail();
        return;
      }
      CheckBuffers(disk[offset..offset + size], offset);
    }

    /** Looks for data past the end of the file in a mapping from `base` on, if that
        reaches the page of the end. */
    method CheckPastEnd(mapped: File, base: nat, page: nat)
      requires page > 0 && base <= fileSize
      modifies this`failed
      ensures var reaches := base + |mapped| > RoundDown(fileSize - base, page);
              failed == (old(failed) || (reaches && DataPastEnd(mapped, fileSize % page, fileSize - base)))
    {
      if base + |mapped| > RoundDown(fileSize - base, page) {
        var i := fileSize % page;
        while i < |mapped|
          invariant fileSize % page <= i && failed == old(failed)
          invariant forall k :: fileSize % page <= k < i && k < |mapped| ==> !(k >= fileSize - base && mapped[k] != 0)
        {
          if i >= fileSize - base && mapped[i] != 0 {
            Fail();
            return;
          }
          i := i + 1;
        }
      }
    }

    /** The mapped bytes past the end of `disk` read as zero as far as its last page goes;
        a signal on a later page ends the run, which counts as a failure here. */
    method DoMapRead(off: nat, size: nat, page: nat, disk: File, ok: bool)
      requires Valid() && page > 0
      modifies this`failed
      ensures var offset := AlignDown(off, readBdy);
              failed == (old(failed) ||
                (size > 0 && offset + size <= fileSize && !(ok && MapsBack(disk, Image(), offset, size, page))))
    {
      var offset := AlignDown(off, readBdy);
      if size == 0 || offset + size > fileSize {
        return;
      }
      if !ok || !PageExists(disk, offset + size - 1, page) {
        Fail();
        return;
      }
      ReadMapping(offset, size, page, disk);
    }

    method ReadMapping(offset: nat, size: nat, page: nat, disk: File)
      requires Valid() && page > 0 && offset + size <= fileSize
      modifies this`failed
      ensures failed == (old(failed) || Mapped(disk, offset, size) != Image()[offset..offset + size])
    {
      var pgOffset := offset % page;
      var base := offset - pgOffset;
      var mapped := Mapped(disk, base, pgOffset + size);
      CheckPastEnd(mapped, base, page);
      MappedPart(disk, base, pgOffset, size);
      CheckBuffers(mapped[pgOffset..], offset);
    }

    /** What both kinds of write do to the shadow. */
    method PutPattern(offset: nat, size: nat)
      requires Valid() && offset + size <= maxLen && size > 0
      modifies this`fileSize, goodBuf
      ensures Valid() && fileSize == Max(old(fileSize), offset + size)
      ensures Image() == PWrite(old(Image()), offset, Pattern(original, testCalls, offset, size))
      ensures goodBuf[..][fileSize..] == old(goodBuf[..])[fileSize..]
    {
      ghost var buf, fs := goodBuf[..], fileSize;
      GenData(offset, size);
      ghost var mid := goodBuf[..];
      if offset + size > fileSize {
        UpdateFileSize(offset, size);
      }
      WriteImage(buf, fs, offset, Pattern(original, testCalls, offset, size), mid, goodBuf[..]);
      WriteTail(buf, fs, offset, Pattern(original, testCalls, offset, size), mid, goodBuf[..]);
    }

    method DoWrite(off: nat, size: nat, ok: bool)
      requires Valid() && off + size <= maxLen
      modifies this`failed, this`fileSize, goodBuf
      ensures Valid() && failed == (old(failed) || (size > 0 && !ok))
      ensures var offset := AlignDown(off, writeBdy);
              Image() == if size == 0 then old(Image())
                         else PWrite(old(Image()), offset, Pattern(original, testCalls, offset, size))
      ensures goodBuf[..][fileSize..] == old(goodBuf[..])[fileSize..]
    {
      var offset := AlignDown(off, writeBdy);
      if size == 0 {
        return;
      }
      PutPattern(offset, size);
      if !ok {
        Fail();
      }
    }

    /** The write goes through a mapping, after the file was truncated up to its new
        size if that grew. */
    method DoMapWrite(off: nat, size: nat, truncateOk: bool, mapOk: bool)
      requires Valid() && off + size <= maxLen
      modifies this`failed, this`fileSize, goodBuf
      ensures Valid()
      ensures var offset := AlignDown(off, writeBdy);
              && failed == (old(failed) ||
                    (size > 0 && ((offset + size > old(fileSize) && !truncateOk) || !mapOk)))
              && Image() == if size == 0 then old(Image())
                            else PWrite(old(Image()), offset, Pattern(original, testCalls, offset, size))
    {
      var offset := AlignDown(off, writeBdy);
      if size == 0 {
        return;
      }
      var cur := fileSize;
      PutPattern(offset, size);
      if fileSize > cur && !truncateOk {
        Fail();
        return;
      }
      if !mapOk {
        Fail();
      }
    }

    method DoTruncate(size: nat, ok: bool)
      requires Valid() && size <= maxLen
      modifies this`failed, this`fileSize, goodBuf
      ensures Valid() && failed == (old(failed) || !ok)
      ensures Image() == Resize(old(Image()), AlignDown(size, truncBdy))
    {
      var n := AlignDown(size, truncBdy);
      ghost var buf, fs := goodBuf[..], fileSize;
      UpdateFileSize(n, 0);
      if !ok {
        Fail();
      }
    }

    /** The growing branch of a preallocation: it zeroes the new tail, and part of it
        once more with the gap. */
    method Grow(offset: nat, size: nat)
      requires Valid() && fileSize < offset + size <= maxLen
      modifies this`fileSize, goodBuf
      ensures Valid() && Image() == Resize(old(Image()), offset + size)
    {
      ghost var buf, fs := goodBuf[..], fileSize;
      Fill(fileSize, offset + size - fileSize);
      ghost var mid := goodBuf[..];
      UpdateFileSize(offset, size);
      GrowImage(buf, fs, offset, offset + size, mid, goodBuf[..]);
    }

    /** Keep-size or not, the shadow grows. */
    method DoPreallocate(off: nat, len: nat, ok: bool)
      requires Valid()
      modifies this`failed, this`fileSize, goodBuf
      ensures Valid()
      ensures var offset := Min(off, maxLen); var size := Min(len, maxLen - offset);
              && failed == (old(failed) || (size > 0 && !ok))
              && Image() == if size == 0 then old(Image()) else Resize(old(Image()), Max(|old(Image())|, offset + size))
    {
      var offset := Min(off, maxLen);
      var size := Min(len, maxLen - offset);
      if size == 0 {
        return;
      }
      if offset + size > fileSize {
        Grow(offset, size);
      }
      if !ok {
        Fail();
      }
    }

    method DoPunchHole(offset: nat, len: nat, ok: bool)
      requires Valid()
      modifies this`failed, goodBuf
      ensures Valid()
      ensures var acts := len > 0 && offset < fileSize;
              && failed == (old(failed) || (acts && !ok))
              && ((acts ==> ok) ==> Image() == (if acts then PunchHole(old(Image()), offset, len) else old(Image())))
    {
      if len == 0 || fileSize <= offset {
        return;
      }
      var length := Min(len, fileSize - offset);
      if !ok {
        Fail();
        return;
      }
      ghost var buf := goodBuf[..];
      Fill(offset, length);
      PunchClippedImage(buf, fileSize, offset, len, goodBuf[..]);
    }

    method DoZeroRange(offset: nat, length: nat, keepSize: bool, ok: bool)
      requires Valid() && offset + length <= maxLen
      modifies this`failed, this`fileSize, goodBuf
      ensures Valid() && failed == (old(failed) || (length > 0 && !ok))
      ensures (length > 0 ==> ok) ==>
              Image() == if length == 0 then old(Image()) else ZeroRange(old(Image()), offset, length, keepSize)
    {
      if length == 0 {
        return;
      }
      ghost var buf, fs := goodBuf[..], fileSize;
      GapThenWriteImage(buf, fs, offset, Zeros(length));
      PunchImage(buf, fs, offset, length);
      if !keepSize && offset + length > fileSize {
        UpdateFileSize(offset, length);
      }
      if !ok {
        Fail();
        return;
      }
      Fill(offset, length);
      assert !keepSize && offset + length <= fs ==> PWrite(buf[..fs], offset, Zeros(length)) == Image();
    }

    method DoWriteZeroes(offset: nat, length: nat, ok: bool)
      requires Valid() && offset + length <= maxLen
      modifies this`failed, this`fileSize, goodBuf
      ensures Valid() && failed == (old(failed) || (length > 0 && !ok))
      ensures (length > 0 ==> ok) ==>
              Image() == if length == 0 then old(Image()) else PWrite(old(Image()), offset, Zeros(length))
    {
      if length == 0 {
        return;
      }
      ghost var buf, fs := goodBuf[..], fileSize;
      GapThenWriteImage(buf, fs, offset, Zeros(length));
      var end := offset + length;
      if end > fileSize {
        UpdateFileSize(offset, length);
      }
      if !ok {
        Fail();
        return;
      }
      Fill(offset, length);
    }

    method DoCollapseRange(offset: nat, length: nat, ok: bool)
      requires Valid()
      modifies this`failed, this`fileSize, goodBuf
      ensures Valid()
      ensures var acts := length > 0 && offset + length < old(fileSize);
              && failed == (old(failed) || (acts && !ok))
              && ((acts ==> ok) ==> Image() == (if acts then CollapseRange(old(Image()), offset, length) else old(Image())))
    {
      if length == 0 || offset + length >= fileSize {
        return;
      }
      if !ok {
        Fail();
        return;
      }
      ghost var buf, fs := goodBuf[..], fileSize;
      var end := offset + length;
      CollapseImage(buf, fs, offset, length);
      CopyWithin(end, fileSize - end, offset);
      fileSize := fileSize - length;
    }

    /** Cloning and copying do the same to the shadow. The source must lie in the file
        and the ranges must not overlap. */
    method DoCopyRange(offset: nat, length: nat, dest: nat, ok: bool)
      requires Valid() && offset + length <= fileSize && dest + length <= maxLen && Distance(offset, dest) >= length
      modifies this`failed, this`fileSize, goodBuf
      ensures Valid()
      ensures var acts := length > 0;
              && failed == (old(failed) || (acts && !ok))
              && ((acts ==> ok) ==> Image() == (if acts then CopyRange(old(Image()), offset, length, dest) else old(Image())))
    {
      if length == 0 || offset >= fileSize {
        return;
      }
      ghost var buf, fs := goodBuf[..], fileSize;
      CopyImage(buf, fs, offset, length, dest);
      if dest + length > fileSize {
        UpdateFileSize(dest, length);
      }
      if !ok {
        Fail();
        return;
      }
      ghost var b := goodBuf[..];
      CopyWithin(offset, length, dest);
      assert goodBuf[..] == Splice(b, dest, b[offset..offset + length]);
    }

    /** Moves the bytes from `offset` up by `length`, but only up to `fileSize - length`:
        the tail of the result is whatever the buffer held behind the file. The file may
        get longer than the maximal length. */
    method DoInsertRange(offset: nat, length: nat, ok: bool)
      requires Valid() && (offset < fileSize ==> offset + length <= fileSize)
      modifies this`failed, this`fileSize, goodBuf
      ensures var acts := length > 0 && offset < old(fileSize);
              && failed == (old(failed) || (acts && !ok))
              && fileSize == old(fileSize) + (if acts && ok then length else 0)
              && goodBuf[..] == if acts && ok then ShiftedUp(old(goodBuf[..]), old(fileSize), offset, length)
                                else old(goodBuf[..])
      ensures Valid() <==> fileSize <= maxLen
    {
      if length == 0 || offset >= fileSize {
        return;
      }
      if !ok {
        Fail();
        return;
      }
      ShiftUp(offset, length);
    }

    method ShiftUp(offset: nat, length: nat)
      requires Valid() && offset + length <= fileSize
      modifies this`fileSize, goodBuf
      ensures fileSize == old(fileSize) + length
      ensures goodBuf[..] == ShiftedUp(old(goodBuf[..]), old(fileSize), offset, length)
    {
      ghost var a, fs := goodBuf[..], fileSize;
      var n := fileSize - length - offset;
      CopyWithin(offset, n, offset + length);
      ghost var b := goodBuf[..];
      Fill(offset, length);
      ShiftUpBuffer(a, fs, offset, length, n, b, goodBuf[..]);
      fileSize := fileSize + length;
    }
  }

  /** The first write of a run. */
  method FirstWrite(original: File, size: nat) returns (sh: Shadow)
    requires 0 < size <= |original|
    ensures fresh(sh) && fresh(sh.goodBuf) && sh.Valid() && !sh.failed && sh.original == original
    ensures sh.fileSize == size && sh.goodBuf[..][..size] == Pattern(original, 1, 0, size)
    ensures sh.goodBuf[..][size..] == Zeros(sh.goodBuf.Length - size)
  {
    sh := new Shadow(original, 1, 1, 1);
    sh.testCalls := 1;
    WrittenFromStart(Pattern(original, 1, 0, size));
    ZerosTail(sh.goodBuf.Length, size);
    sh.DoWrite(0, size, true);
  }

  lemma ZerosTail(n: nat, k: nat)
    requires k <= n
    ensures Zeros(n)[k..] == Zeros(n - k)
  {
  }

  lemma WrittenFromStart(data: File)
    ensures PWrite([], 0, data) == data
  {
  }

  /** One write of whole blocks into an empty file, then an insertion of whole blocks: the
      shadow is not the file any more. */
  method InsertLosesTheTail(original: File, size: nat, off: nat, len: nat) returns (sh: Shadow)
    requires size + len <= |original| && 0 < len && off + len <= size
    requires size % BLOCK == 0 && off % BLOCK == 0 && len % BLOCK == 0
    ensures sh.Valid() && !sh.failed && |sh.Image()| == size + len
    ensures sh.Image() != InsertRange(Pattern(original, 1, 0, size), off, len)
  {
    sh := FirstWrite(original, size);
    ghost var buf := sh.goodBuf[..];
    InsertAfterWrite(original, 1, buf, size, off, len);
    InsertImage(buf, size, off, len);
    sh.testCalls := 2;
    sh.DoInsertRange(off, len, true);
  }
}
