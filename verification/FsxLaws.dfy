/** What the arguments drawn for a turn of fsx come to, and what each operation does to each
    byte of the file. */
module FsxLaws {
  import opened Common
  import opened Fsx
  import opened FsxRun

  // ---------- the arguments ----------

  /** A number reduced modulo n is below n and differs from it by a multiple of n, so a number
      that is below n is kept. */
  lemma Reduced(v: nat, n: nat)
    requires n > 0
    ensures v % n < n && Congruent(v, v % n, n) && (v < n ==> v % n == v)
  {
    var q := Divide(v, n);
    assert v == Turned(v % n, q, n);
    if v < n && q != 0 {
      Multiples(0, q, n);
    }
  }

  /** An offset is trimmed to the size by whole multiples of it, and kept if it lies inside. */
  lemma TrimOffIs(off: nat, size: nat)
    ensures size == 0 ==> TrimOff(off, size) == 0
    ensures size > 0 ==> TrimOff(off, size) < size && Congruent(off, TrimOff(off, size), size)
    ensures off < size ==> TrimOff(off, size) == off
  {
    if size > 0 {
      Reduced(off, size);
    }
  }

  /** The length is the drawn one, or cut so that the range ends with the size. */
  lemma TrimLenIs(off: nat, len: nat, size: nat)
    ensures TrimLen(off, len, size) <= len
    ensures TrimLen(off, len, size) == len || TrimOff(off, size) + TrimLen(off, len, size) == size
    ensures TrimOff(off, size) + len <= size ==> TrimLen(off, len, size) == len
  {
  }

  /** A range that lies inside the size is taken as it was drawn. */
  lemma TrimmedIs(c: Config, d: Draw, size: nat)
    ensures d.offset < size && d.offset + Size(c, d) <= size ==> Trimmed(c, d, size) == Range(d.offset, Size(c, d))
    ensures size > 0 ==> Trimmed(c, d, size).off < size && Congruent(d.offset, Trimmed(c, d, size).off, size)
    ensures Trimmed(c, d, size).len == Size(c, d) || Trimmed(c, d, size).off + Trimmed(c, d, size).len == size
  {
    TrimOffIs(d.offset, size);
    TrimLenIs(d.offset, Size(c, d), size);
  }

  /** The drawn size is the fixed one, or at most as large. */
  lemma SizeIs(c: Config, d: Draw)
    ensures c.fixedOplen ==> Size(c, d) == c.oplen
    ensures !c.fixedOplen ==> Size(c, d) <= c.oplen && Congruent(d.size, Size(c, d), c.oplen + 1)
    ensures !c.fixedOplen && d.size <= c.oplen ==> Size(c, d) == d.size
  {
    Reduced(d.size, c.oplen + 1);
  }

  /** A truncation goes to a length below the maximal one that is drawn for it, or with another
      style to the drawn size. */
  lemma TruncateToIs(c: Config, d: Draw)
    requires Sensible(c)
    ensures c.style != 0 ==> TruncateTo(c, d) == Size(c, d)
    ensures c.style == 0 ==> TruncateTo(c, d) < |c.original| && Congruent(d.trunc, TruncateTo(c, d), |c.original|)
    ensures c.style == 0 && d.trunc < |c.original| ==> TruncateTo(c, d) == d.trunc
  {
    Reduced(d.trunc, |c.original|);
  }

  /** An operation is left out of a run exactly if it is one of the optional ones and is not
      enabled. */
  lemma LeftOutIf(c: Config, op: Op)
    ensures !Runs(c, op) <==>
            op !in c.enabled &&
            (op.OpFallocate? || op.OpPunchHole? || op.OpZeroRange? || op.OpWriteZeroes? || op.OpCollapse? ||
             op.OpInsert? || op.OpClone? || op.OpCopy? || op.OpFsync?)
  {
  }

  /** The range for collapsing leaves at least one byte of the file behind it. */
  lemma CollapseArgsIs(c: Config, d: Draw, f: File)
    ensures var r := CollapseArgs(c, d, f);
            && r.off % BLOCK == 0 && r.len % BLOCK == 0
            && (r.len > 0 ==> r.off + r.len < |f|)
            && (d.offset + 1 < |f| && d.offset + Size(c, d) < |f| ==>
                  r.off <= d.offset < r.off + BLOCK && r.len <= Size(c, d) < r.len + BLOCK)
  {
    var size := if |f| == 0 then 0 else |f| - 1;
    TrimmedIs(c, d, size);
    BlocksIs(Trimmed(c, d, size));
  }

  /** The source of a copy lies in the file, the destination behind or before it. */
  lemma CopySourceIs(c: Config, d: Draw, fileSize: nat)
    ensures var r := CopySource(c, d, fileSize);
            && r.off % BLOCK == 0 && r.len % BLOCK == 0 && r.off + r.len <= fileSize
            && (d.offset < fileSize && d.offset + Size(c, d) <= fileSize ==>
                  r.off <= d.offset < r.off + BLOCK && r.len <= Size(c, d) < r.len + BLOCK)
  {
    TrimmedIs(c, d, fileSize);
    BlocksIs(Trimmed(c, d, fileSize));
  }

  /** The range for inserting starts in the file. */
  lemma InsertArgsIs(c: Config, d: Draw, fileSize: nat)
    requires fileSize <= |c.original|
    ensures var r := InsertArgs(c, d, fileSize);
            && r.off % BLOCK == 0 && r.len % BLOCK == 0 && r.off <= fileSize
            && (d.offset < fileSize && d.offset + Size(c, d) <= |c.original| ==>
                  r.off <= d.offset < r.off + BLOCK && r.len <= Size(c, d) < r.len + BLOCK)
  {
    TrimOffIs(d.offset, fileSize);
    BlocksIs(Range(TrimOff(d.offset, fileSize), Min(Size(c, d), |c.original| - TrimOff(d.offset, fileSize))));
  }

  /** An aligned offset is the greatest multiple of the boundary that is not larger; without a
      boundary it is kept. */
  lemma AlignDownIsGreatest(v: nat, bdy: nat, m: nat)
    ensures bdy <= 1 ==> AlignDown(v, bdy) == v
    ensures bdy > 0 ==> AlignDown(v, bdy) % bdy == 0 && v < AlignDown(v, bdy) + bdy
    ensures bdy > 0 && m % bdy == 0 && m <= v ==> m <= AlignDown(v, bdy)
  {
    if bdy > 0 {
      RoundDownIsGreatest(v, bdy, m);
      assert AlignDown(v, bdy) == RoundDown(v, bdy);
    }
  }

  /** The block that a try at a destination draws. */
  function Drawn(dests: seq<nat>, k: nat, limit: nat): nat
    requires k < |dests| && limit > 0
  {
    RoundDown(dests[k] % limit, BLOCK)
  }

  /** Inside the limit, and not overlapping the source. */
  predicate Acceptable(dest: nat, src: nat, size: nat, limit: nat) {
    dest + size <= limit && (dest + size <= src || src + size <= dest)
  }

  /** The destination is the first acceptable draw, if one of the tries from `tries` on is
      acceptable. */
  lemma {:induction false} FindDestIs(dests: seq<nat>, tries: nat, src: nat, size: nat, limit: nat) returns (k: nat)
    requires limit > 0 && |dests| >= TRIES - 1 && tries <= TRIES - 1
    ensures tries <= k <= TRIES - 1
    ensures forall j :: tries <= j < k ==> !Acceptable(Drawn(dests, j, limit), src, size, limit)
    ensures if k == TRIES - 1 then FindDest(dests, tries, src, size, limit).None?
            else Acceptable(Drawn(dests, k, limit), src, size, limit) &&
                 FindDest(dests, tries, src, size, limit) == Some(Drawn(dests, k, limit))
    decreases TRIES - tries
  {
    if tries == TRIES - 1 || Acceptable(Drawn(dests, tries, limit), src, size, limit) {
      k := tries;
    } else {
      k := FindDestIs(dests, tries + 1, src, size, limit);
    }
  }

  /** What is drawn is the start of the block that holds the drawn position. */
  lemma DrawnIs(dests: seq<nat>, k: nat, limit: nat)
    requires k < |dests| && limit > 0
    ensures Drawn(dests, k, limit) % BLOCK == 0
    ensures dests[k] < limit ==> Drawn(dests, k, limit) <= dests[k] < Drawn(dests, k, limit) + BLOCK
    ensures exists v: nat :: v < limit && Congruent(dests[k], v, limit) &&
                             Drawn(dests, k, limit) <= v < Drawn(dests, k, limit) + BLOCK
  {
    var v := dests[k] % limit;
    Reduced(dests[k], limit);
    RoundDownIsGreatest(v, BLOCK, 0);
  }

  /** The ranges of collapsing, copying and inserting are whole blocks inside the range
      trimmed to the file, less than a block shorter at each end. */
  lemma BlocksIs(r: Range)
    ensures Blocks(r).off % BLOCK == 0 && Blocks(r).off <= r.off < Blocks(r).off + BLOCK
    ensures Blocks(r).len % BLOCK == 0 && Blocks(r).len <= r.len < Blocks(r).len + BLOCK
  {
    RoundDownIsGreatest(r.off, BLOCK, 0);
    RoundDownIsGreatest(r.len, BLOCK, 0);
  }

  /** The size is kept if that is drawn and not forbidden. */
  lemma KeepsUnless(c: Config, d: Draw)
    ensures !Keeps(c, d) <==> c.noKeepSize || !d.keepSize
  {
  }

  // ---------- reading back ----------

  /** A page of a mapping exists if some byte of the file lies in it. */
  lemma PageExistsIff(disk: File, pos: nat, page: nat)
    requires page > 0
    ensures PageExists(disk, pos, page) <==>
            exists q: nat :: q < |disk| && RoundDown(q, page) == RoundDown(pos, page)
  {
    var start := RoundDown(pos, page);
    RoundDownIsGreatest(pos, page, 0);
    RoundDownIsGreatest(start, page, start);
    if PageExists(disk, pos, page) {
      assert start < |disk| && RoundDown(start, page) == start;
    }
  }

  /** A read comes back right if the file on disk reaches that far and every byte is right. */
  lemma ReadsBackIff(disk: File, image: File, off: nat, len: nat)
    requires off + len <= |image|
    ensures ReadsBack(disk, image, off, len) <==>
            off + len <= |disk| && forall i :: off <= i < off + len ==> disk[i] == image[i]
  {
    if ReadsBack(disk, image, off, len) {
      forall i | off <= i < off + len ensures disk[i] == image[i] {
        assert disk[off..off + len][i - off] == image[off..off + len][i - off];
      }
    }
  }

  /** A mapped read comes back right if its last page exists and every byte is right, those
      behind the end of the file reading as zero. */
  lemma MapsBackIff(disk: File, image: File, off: nat, len: nat, page: nat)
    requires off + len <= |image| && page > 0 && len > 0
    ensures MapsBack(disk, image, off, len, page) <==>
            PageExists(disk, off + len - 1, page) && forall i :: off <= i < off + len ==> image[i] == ByteAt(disk, i)
  {
    var m := Mapped(disk, off, len);
    if m == image[off..off + len] {
      forall i | off <= i < off + len ensures image[i] == ByteAt(disk, i) {
        assert m[i - off] == image[off..off + len][i - off];
      }
    }
  }

  // ---------- the pattern ----------

  /** At an even position the pattern is the call counter; at an odd one the counter has been
      added to the original fill, which taking it away gives back. */
  lemma PatternByteIs(original: File, testCalls: nat, pos: nat)
    requires pos < |original|
    ensures pos % 2 == 0 ==> PatternByte(original, testCalls, pos) as int == testCalls % 256
    ensures pos % 2 == 1 ==> (PatternByte(original, testCalls, pos) as int - testCalls) % 256 == original[pos] as int
  {
  }

  /** So two calls less than 256 apart write different bytes everywhere. */
  lemma CallsDiffer(original: File, m: nat, n: nat, pos: nat)
    requires pos < |original| && m < n < m + 256
    ensures PatternByte(original, m, pos) != PatternByte(original, n, pos)
  {
    PatternByteIs(original, m, pos);
    PatternByteIs(original, n, pos);
  }

  // ---------- each operation, byte by byte ----------

  /** The byte at a position; zero behind the end. */
  function ByteAt(f: File, i: nat): Byte {
    if i < |f| then f[i] else 0
  }

  lemma ResizeAt(f: File, n: nat, i: nat)
    ensures |Resize(f, n)| == n && (i < n ==> Resize(f, n)[i] == ByteAt(f, i))
  {
  }

  /** A write puts its data at its offset and keeps every other byte. */
  lemma PWriteAt(f: File, off: nat, data: File, i: nat)
    ensures |PWrite(f, off, data)| == Max(|f|, off + |data|)
    ensures i < |PWrite(f, off, data)| ==>
            PWrite(f, off, data)[i] == if off <= i < off + |data| then data[i - off] else ByteAt(f, i)
  {
  }

  /** A hole reads as zero; the size and every other byte stay. */
  lemma PunchHoleAt(f: File, off: nat, len: nat, i: nat)
    requires i < |f|
    ensures |PunchHole(f, off, len)| == |f|
    ensures PunchHole(f, off, len)[i] == if off <= i < off + len then 0 else f[i]
  {
  }

  lemma ZeroRangeAt(f: File, off: nat, len: nat, keepSize: bool, i: nat)
    requires i < |ZeroRange(f, off, len, keepSize)|
    ensures |ZeroRange(f, off, len, keepSize)| == if keepSize then |f| else Max(|f|, off + len)
    ensures ZeroRange(f, off, len, keepSize)[i] == if off <= i < off + len then 0 else ByteAt(f, i)
  {
    if keepSize {
      PunchHoleAt(f, off, len, i);
    } else {
      PWriteAt(f, off, Zeros(len), i);
    }
  }

  lemma FallocateAt(f: File, off: nat, len: nat, keepSize: bool, i: nat)
    requires i < |Fallocate(f, off, len, keepSize)|
    ensures |Fallocate(f, off, len, keepSize)| == if keepSize then |f| else Max(|f|, off + len)
    ensures Fallocate(f, off, len, keepSize)[i] == ByteAt(f, i)
  {
  }

  /** Collapsing takes the range out: what was behind it moves down. */
  lemma CollapseRangeAt(f: File, off: nat, len: nat, i: nat)
    requires off + len <= |f| && i + len < |f|
    ensures |CollapseRange(f, off, len)| == |f| - len
    ensures CollapseRange(f, off, len)[i] == if i < off then f[i] else f[i + len]
  {
  }

  /** Inserting moves what is behind the offset up. */
  lemma InsertRangeAt(f: File, off: nat, len: nat, i: nat)
    requires off <= |f| && i < |f| + len
    ensures |InsertRange(f, off, len)| == |f| + len
    ensures InsertRange(f, off, len)[i] == if i < off then f[i] else if i < off + len then 0 else f[i - len]
  {
  }

  lemma CopyRangeAt(f: File, src: nat, len: nat, dest: nat, i: nat)
    requires src + len <= |f| && i < |CopyRange(f, src, len, dest)|
    ensures |CopyRange(f, src, len, dest)| == Max(|f|, dest + len)
    ensures CopyRange(f, src, len, dest)[i] == if dest <= i < dest + len then f[src + (i - dest)] else ByteAt(f, i)
  {
    PWriteAt(f, dest, f[src..src + len], i);
  }

  /** A write whose drawn range lies inside the maximal length, without alignment, puts the
      pattern at exactly that range. */
  lemma DrawnWrite(c: Config, turn: nat, f: File, d: Draw, i: nat)
    requires Sensible(c) && WellDrawn(d) && |f| <= |c.original| && d.op in {OpWrite, OpMapWrite} && c.writeBdy <= 1
    requires 0 < Size(c, d) && d.offset + Size(c, d) <= |c.original|
    ensures var g := Target(c, turn, f, d);
            && |g| == Max(|f|, d.offset + Size(c, d))
            && (i < |g| ==>
                  g[i] == if d.offset <= i < d.offset + Size(c, d) then PatternByte(c.original, turn, i) else ByteAt(f, i))
  {
    TrimmedIs(c, d, |c.original|);
    AlignDownIsGreatest(d.offset, c.writeBdy, 0);
    PWriteAt(f, d.offset, Pattern(c.original, turn, d.offset, Size(c, d)), i);
  }
}
