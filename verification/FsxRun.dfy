/** A whole run of fsx: the main loop draws an operation and its arguments, applies it to
    the shadow and to the file, and compares. The random draws, the outcomes of the system
    calls and the contents of the file on disk are parameters, so a statement about every
    choice of them is a statement about every run on every filesystem. */
module FsxRun {
  import opened Common
  import opened Fsx

  datatype Op =
    | OpRead | OpWrite | OpMapRead | OpMapWrite | OpTruncate | OpFallocate | OpPunchHole
    | OpZeroRange | OpWriteZeroes | OpCollapse | OpInsert | OpClone | OpCopy | OpFsync

  datatype Config = Config(
    original: File, readBdy: nat, writeBdy: nat, truncBdy: nat, oplen: nat, fixedOplen: bool, style: int,
    enabled: set<Op>, noKeepSize: bool, mappedReads: bool, mappedWrites: bool,
    checkContents: bool, sizeChecks: bool, page: nat)

  predicate Sensible(c: Config) {
    && |c.original| > 0
    && c.page > 0
    && (c.style != 0 ==> c.oplen <= |c.original|)
  }

  /** What one turn of the loop draws. */
  datatype Draw = Draw(op: Op, offset: nat, size: nat, trunc: nat, keepSize: bool, dests: seq<nat>)

  function Size(c: Config, d: Draw): nat {
    if c.fixedOplen then c.oplen else d.size % (c.oplen + 1)
  }

  /** Only the optional operations can be disabled. */
  predicate Runs(c: Config, op: Op) {
    op in c.enabled || op in {OpRead, OpWrite, OpMapRead, OpMapWrite, OpTruncate}
  }

  datatype Range = Range(off: nat, len: nat)

  function Trimmed(c: Config, d: Draw, size: nat): (r: Range)
    ensures r.off + r.len <= size
  {
    Range(TrimOff(d.offset, size), TrimLen(d.offset, Size(c, d), size))
  }

  /** Both ends rounded down to whole blocks. */
  function Blocks(r: Range): (b: Range)
    ensures b.off <= r.off && b.len <= r.len
  {
    Range(RoundDown(r.off, BLOCK), RoundDown(r.len, BLOCK))
  }

  function CollapseArgs(c: Config, d: Draw, f: File): Range {
    Blocks(Trimmed(c, d, if |f| == 0 then 0 else |f| - 1))
  }

  function CopySource(c: Config, d: Draw, fileSize: nat): (r: Range)
    ensures r.off + r.len <= fileSize
  {
    Blocks(Trimmed(c, d, fileSize))
  }

  function CopyDest(c: Config, d: Draw, fileSize: nat): (r: Option<nat>)
    requires Sensible(c) && |d.dests| >= TRIES - 1
    ensures r.Some? ==> var src := CopySource(c, d, fileSize);
                        Distance(src.off, r.value) >= src.len && r.value + src.len <= |c.original|
  {
    var r := CopySource(c, d, fileSize);
    FindDest(d.dests, 0, r.off, r.len, |c.original|)
  }

  function TruncateTo(c: Config, d: Draw): (n: nat)
    requires Sensible(c)
    ensures n <= |c.original|
  {
    if c.style == 0 then d.trunc % |c.original| else Size(c, d)
  }

  predicate WellDrawn(d: Draw) {
    |d.dests| >= TRIES - 1
  }

  predicate Keeps(c: Config, d: Draw) {
    d.keepSize && !c.noKeepSize
  }

  function InsertArgs(c: Config, d: Draw, fileSize: nat): (r: Range)
    requires fileSize <= |c.original|
  {
    var off := TrimOff(d.offset, fileSize);
    Blocks(Range(off, Min(Size(c, d), |c.original| - off)))
  }

  /** Insertion, and preallocation that keeps the size, make the shadow wrong. They do no
      harm if the insertion comes to nothing and the preallocation lies inside the file. */
  predicate Harmless(c: Config, f: File, d: Draw)
    requires |f| <= |c.original|
  {
    && (Runs(c, d.op) && d.op == OpInsert ==>
          var r := InsertArgs(c, d, |f|); r.len == 0 || r.off >= |f|)
    && (Runs(c, d.op) && d.op == OpFallocate && Keeps(c, d) ==>
          var r := Trimmed(c, d, |c.original|); r.off + r.len <= |f|)
  }

  /** The file after an operation that succeeds, as the operation's documentation has it;
      `turn` is the number of the loop's turn, counted from 1. An insertion is meant to come
      to nothing. */
  function Target(c: Config, turn: nat, f: File, d: Draw): (g: File)
    requires Sensible(c) && WellDrawn(d) && |f| <= |c.original|
    ensures |g| <= |c.original|
  {
    if !Runs(c, d.op) then f else
    var maxLen := |c.original|;
    var r := Trimmed(c, d, maxLen);
    match d.op
    case OpWrite | OpMapWrite =>
      if r.len == 0 then f
      else PWrite(f, AlignDown(r.off, c.writeBdy), Pattern(c.original, turn, AlignDown(r.off, c.writeBdy), r.len))
    case OpTruncate => Resize(f, AlignDown(TruncateTo(c, d), c.truncBdy))
    case OpFallocate => if r.len == 0 then f else Fallocate(f, r.off, r.len, Keeps(c, d))
    case OpPunchHole =>
      var h := Trimmed(c, d, |f|);
      if h.len == 0 then f else PunchHole(f, h.off, h.len)
    case OpZeroRange => if r.len == 0 then f else ZeroRange(f, r.off, r.len, Keeps(c, d))
    case OpWriteZeroes => if r.len == 0 then f else PWrite(f, r.off, Zeros(r.len))
    case OpCollapse =>
      var h := CollapseArgs(c, d, f);
      if h.len == 0 then f else CollapseRange(f, h.off, h.len)
    case OpClone | OpCopy =>
      var h := CopySource(c, d, |f|);
      var dest := CopyDest(c, d, |f|);
      if dest.None? || h.len == 0 then f else CopyRange(f, h.off, h.len, dest.value)
    case _ => f
  }

  /** Whether the operation gets as far as a system call. */
  predicate Calls(c: Config, f: File, d: Draw)
    requires Sensible(c) && WellDrawn(d)
  {
    match d.op
    case OpRead | OpMapRead | OpPunchHole => Trimmed(c, d, |f|).len > 0
    case OpWrite | OpMapWrite | OpFallocate | OpZeroRange | OpWriteZeroes => Trimmed(c, d, |c.original|).len > 0
    case OpTruncate => true
    case OpCollapse => CollapseArgs(c, d, f).len > 0
    case OpClone | OpCopy => CopyDest(c, d, |f|).Some? && CopySource(c, d, |f|).len > 0
    case OpInsert | OpFsync => false
  }

  /** What a read operation gets from the disk is what the file holds. */
  predicate ReadGood(c: Config, f: File, d: Draw, disk: File)
    requires c.page > 0
  {
    var r := Trimmed(c, d, |f|);
    var off := AlignDown(r.off, c.readBdy);
    d.op == OpRead || d.op == OpMapRead ==> r.len > 0 ==>
      if d.op == OpMapRead && c.mappedReads then MapsBack(disk, f, off, r.len, c.page) else ReadsBack(disk, f, off, r.len)
  }

  /** The operation's system call succeeds and its read, if it is one, comes back right. */
  predicate OpGood(c: Config, f: File, d: Draw, ok: bool, disk: File)
    requires Sensible(c) && WellDrawn(d)
  {
    (Calls(c, f, d) ==> ok) && ReadGood(c, f, d, disk)
  }

  /** The checks the loop makes after an operation. */
  predicate ChecksGood(c: Config, f: File, disk: File) {
    && (c.checkContents && |f| > 0 ==> ReadsBack(disk, f, 0, |f|))
    && (c.sizeChecks ==> |disk| == |f|)
  }

  predicate TurnGood(c: Config, turn: nat, f: File, d: Draw, ok: bool, disk: File)
    requires Sensible(c) && WellDrawn(d) && |f| <= |c.original|
  {
    Runs(c, d.op) ==> OpGood(c, f, d, ok, disk) && ChecksGood(c, Target(c, turn, f, d), disk)
  }

  /** No turn does harm to the shadow. */
  ghost predicate AllHarmless(c: Config, draws: seq<Draw>)
    requires Sensible(c) && AllWellDrawn(draws)
  {
    forall i :: 0 <= i < |draws| ==> Harmless(c, FileAfter(c, draws, i), draws[i])
  }

  ghost predicate AllWellDrawn(draws: seq<Draw>) {
    forall i :: 0 <= i < |draws| ==> WellDrawn(draws[i])
  }

  /** The file after n turns on a correct filesystem. */
  function FileAfter(c: Config, draws: seq<Draw>, n: nat): (f: File)
    requires Sensible(c) && n <= |draws| && AllWellDrawn(draws)
    ensures |f| <= |c.original|
  {
    if n == 0 then [] else Target(c, n, FileAfter(c, draws, n - 1), draws[n - 1])
  }

  predicate Good(c: Config, draws: seq<Draw>, oks: seq<bool>, disks: seq<File>, i: nat)
    requires Sensible(c) && AllWellDrawn(draws) && i < |draws| == |oks| == |disks|
  {
    TurnGood(c, i + 1, FileAfter(c, draws, i), draws[i], oks[i], disks[i])
  }

  /** The first n turns are good. */
  predicate GoodUpTo(c: Config, draws: seq<Draw>, oks: seq<bool>, disks: seq<File>, n: nat)
    requires Sensible(c) && AllWellDrawn(draws) && n <= |draws| == |oks| == |disks|
  {
    n == 0 || (GoodUpTo(c, draws, oks, disks, n - 1) && Good(c, draws, oks, disks, n - 1))
  }

  // ---------- the loop ----------

  ghost predicate Matches(sh: Shadow, c: Config)
    reads sh
  {
    && sh.Valid()
    && sh.original == c.original
    && sh.readBdy == c.readBdy && sh.writeBdy == c.writeBdy && sh.truncBdy == c.truncBdy
  }

  method GenDestRange(c: Config, d: Draw, fileSize: nat) returns (offset: nat, size: nat, dest: nat)
    requires Sensible(c) && WellDrawn(d)
    ensures var r, found := CopySource(c, d, fileSize), CopyDest(c, d, fileSize);
            && offset == r.off
            && (found.None? ==> size == 0)
            && (found.Some? ==> size == r.len && dest == found.value)
  {
    var trimmed := Trimmed(c, d, fileSize);
    offset := RoundDown(trimmed.off, BLOCK);
    size := RoundDown(trimmed.len, BLOCK);
    dest := 0;
    var tries := 0;
    while true
      invariant tries < TRIES
      invariant FindDest(d.dests, tries, offset, size, |c.original|) == FindDest(d.dests, 0, offset, size, |c.original|)
      decreases TRIES - tries
    {
      tries := tries + 1;
      if tries >= TRIES {
        size := 0;
        break;
      }
      var at := RoundDown(d.dests[tries - 1] % |c.original|, BLOCK);
      var overlap := Distance(at, offset) < size;
      if !overlap && at + size <= |c.original| {
        dest := at;
        break;
      }
    }
  }

  method DoReadOp(sh: Shadow, c: Config, d: Draw, ok: bool, disk: File)
    requires Sensible(c) && WellDrawn(d) && Matches(sh, c) && !sh.failed
    requires d.op == OpRead || d.op == OpMapRead
    modifies sh`failed
    ensures sh.failed == !OpGood(c, sh.Image(), d, ok, disk)
  {
    var r := Trimmed(c, d, sh.fileSize);
    if d.op == OpMapRead && c.mappedReads {
      sh.DoMapRead(r.off, r.len, c.page, disk, ok);
    } else {
      sh.DoRead(r.off, r.len, disk, ok);
    }
  }

  method DoWriteOp(sh: Shadow, c: Config, d: Draw, ok: bool, disk: File)
    requires Sensible(c) && WellDrawn(d) && Matches(sh, c) && !sh.failed
    requires d.op in {OpWrite, OpMapWrite, OpTruncate, OpFallocate}
    requires Runs(c, d.op) && Harmless(c, sh.Image(), d)
    modifies sh`failed, sh`fileSize, sh.goodBuf
    ensures Matches(sh, c)
    ensures sh.failed == !OpGood(c, old(sh.Image()), d, ok, disk)
    ensures !sh.failed ==> sh.Image() == Target(c, sh.testCalls, old(sh.Image()), d)
  {
    var r := Trimmed(c, d, sh.maxLen);
    if d.op == OpTruncate {
      sh.DoTruncate(TruncateTo(c, d), ok);
    } else if d.op == OpFallocate {
      ghost var f := sh.Image();
      sh.DoPreallocate(r.off, r.len, ok);
      assert Keeps(c, d) ==> Resize(f, |f|) == f;
    } else if d.op == OpMapWrite && c.mappedWrites {
      sh.DoMapWrite(r.off, r.len, ok, ok);
    } else {
      sh.DoWrite(r.off, r.len, ok);
    }
  }

  method DoHoleOp(sh: Shadow, c: Config, d: Draw, ok: bool, disk: File)
    requires Sensible(c) && WellDrawn(d) && Matches(sh, c) && !sh.failed
    requires d.op in {OpPunchHole, OpZeroRange, OpWriteZeroes}
    requires Runs(c, d.op)
    modifies sh`failed, sh`fileSize, sh.goodBuf
    ensures Matches(sh, c)
    ensures sh.failed == !OpGood(c, old(sh.Image()), d, ok, disk)
    ensures !sh.failed ==> sh.Image() == Target(c, sh.testCalls, old(sh.Image()), d)
  {
    if d.op == OpPunchHole {
      var r := Trimmed(c, d, sh.fileSize);
      sh.DoPunchHole(r.off, r.len, ok);
    } else {
      var r := Trimmed(c, d, sh.maxLen);
      if d.op == OpZeroRange {
        sh.DoZeroRange(r.off, r.len, Keeps(c, d), ok);
      } else {
        sh.DoWriteZeroes(r.off, r.len, ok);
      }
    }
  }

  method DoCollapseOp(sh: Shadow, c: Config, d: Draw, ok: bool, disk: File)
    requires Sensible(c) && WellDrawn(d) && Matches(sh, c) && !sh.failed
    requires d.op == OpCollapse && Runs(c, d.op)
    modifies sh`failed, sh`fileSize, sh.goodBuf
    ensures Matches(sh, c)
    ensures sh.failed == !OpGood(c, old(sh.Image()), d, ok, disk)
    ensures !sh.failed ==> sh.Image() == Target(c, sh.testCalls, old(sh.Image()), d)
  {
    var r := CollapseArgs(c, d, sh.goodBuf[..][..sh.fileSize]);
    if r.len > 0 {
      sh.DoCollapseRange(r.off, r.len, ok);
    }
  }

  method DoCopyOp(sh: Shadow, c: Config, d: Draw, ok: bool, disk: File)
    requires Sensible(c) && WellDrawn(d) && Matches(sh, c) && !sh.failed
    requires d.op in {OpClone, OpCopy} && Runs(c, d.op)
    modifies sh`failed, sh`fileSize, sh.goodBuf
    ensures Matches(sh, c)
    ensures sh.failed == !OpGood(c, old(sh.Image()), d, ok, disk)
    ensures !sh.failed ==> sh.Image() == Target(c, sh.testCalls, old(sh.Image()), d)
  {
    var offset, size, dest := GenDestRange(c, d, sh.fileSize);
    if size > 0 && dest + size <= sh.maxLen {
      sh.DoCopyRange(offset, size, dest, ok);
    }
  }

  /** An insertion that comes to nothing. */
  method DoInsertOp(sh: Shadow, c: Config, d: Draw, ok: bool)
    requires Sensible(c) && Matches(sh, c) && !sh.failed
    requires d.op == OpInsert && Runs(c, d.op) && Harmless(c, sh.Image(), d)
    modifies sh`failed, sh`fileSize, sh.goodBuf
    ensures Matches(sh, c) && !sh.failed && sh.Image() == old(sh.Image())
  {
    var offset := TrimOff(d.offset, sh.fileSize);
    var size := Size(c, d);
    if offset + size > sh.maxLen {
      size := sh.maxLen - offset;
    }
    offset := RoundDown(offset, BLOCK);
    size := RoundDown(size, BLOCK);
    if size != 0 {
      sh.DoInsertRange(offset, size, ok);
    }
  }

  method CheckContents(sh: Shadow, disk: File)
    requires sh.Valid() && !sh.failed
    modifies sh`failed
    ensures sh.failed == !(|sh.Image()| > 0 ==> ReadsBack(disk, sh.Image(), 0, |sh.Image()|))
  {
    if sh.fileSize == 0 {
      return;
    }
    if |disk| < sh.fileSize {
      sh.Fail();
      return;
    }
    sh.CheckBuffers(disk[..sh.fileSize], 0);
    assert sh.Image()[0..|sh.Image()|] == sh.Image();
  }

  method CheckSize(sh: Shadow, disk: File)
    requires sh.Valid() && !sh.failed
    modifies sh`failed
    ensures sh.failed == (|disk| != |sh.Image()|)
  {
    if |disk| != sh.fileSize {
      sh.Fail();
    }
  }

  method DoOp(sh: Shadow, c: Config, d: Draw, ok: bool, disk: File)
    requires Sensible(c) && WellDrawn(d) && Matches(sh, c) && !sh.failed && Runs(c, d.op)
    requires Harmless(c, sh.Image(), d)
    modifies sh`failed, sh`fileSize, sh.goodBuf
    ensures Matches(sh, c)
    ensures sh.failed == !OpGood(c, old(sh.Image()), d, ok, disk)
    ensures !sh.failed ==> sh.Image() == Target(c, sh.testCalls, old(sh.Image()), d)
  {
    match d.op {
      case OpRead | OpMapRead => DoReadOp(sh, c, d, ok, disk);
      case OpWrite | OpMapWrite | OpTruncate | OpFallocate => DoWriteOp(sh, c, d, ok, disk);
      case OpPunchHole | OpZeroRange | OpWriteZeroes => DoHoleOp(sh, c, d, ok, disk);
      case OpCollapse => DoCollapseOp(sh, c, d, ok, disk);
      case OpClone | OpCopy => DoCopyOp(sh, c, d, ok, disk);
      case OpInsert => DoInsertOp(sh, c, d, ok);
      case OpFsync =>
    }
  }

  /** One turn of the loop. */
  method Turn(sh: Shadow, c: Config, d: Draw, ok: bool, disk: File)
    requires Sensible(c) && WellDrawn(d) && Matches(sh, c) && !sh.failed && Harmless(c, sh.Image(), d)
    modifies sh, sh.goodBuf
    ensures Matches(sh, c) && sh.goodBuf == old(sh.goodBuf) && sh.testCalls == old(sh.testCalls) + 1
    ensures sh.failed == !TurnGood(c, sh.testCalls, old(sh.Image()), d, ok, disk)
    ensures !sh.failed ==> sh.Image() == Target(c, sh.testCalls, old(sh.Image()), d)
  {
    sh.testCalls := sh.testCalls + 1;
    if !Runs(c, d.op) {
      return;
    }
    DoOp(sh, c, d, ok, disk);
    if sh.failed {
      return;
    }
    if c.checkContents {
      CheckContents(sh, disk);
    }
    if c.sizeChecks && !sh.failed {
      CheckSize(sh, disk);
    }
  }

  /** The run ends at the first turn that is not good, and only there: a system call that
      fails, a byte that differs where it is read back, or a wrong file size. As long as
      no turn was bad the shadow is the file. */
  method Run(sh: Shadow, c: Config, draws: seq<Draw>, oks: seq<bool>, disks: seq<File>) returns (done: nat)
    requires Sensible(c) && AllWellDrawn(draws) && AllHarmless(c, draws) && |draws| == |oks| == |disks|
    requires Matches(sh, c) && sh.Image() == [] && !sh.failed && sh.testCalls == 0
    modifies sh, sh.goodBuf
    ensures Matches(sh, c) && done <= |draws| && sh.testCalls == done
    ensures sh.failed ==> done > 0 && !Good(c, draws, oks, disks, done - 1)
    ensures GoodUpTo(c, draws, oks, disks, if sh.failed then done - 1 else done)
    ensures !sh.failed ==> done == |draws| && sh.Image() == FileAfter(c, draws, done)
  {
    done := 0;
    while !sh.failed && done < |draws|
      invariant done <= |draws| && sh.testCalls == done
      invariant Matches(sh, c) && sh.goodBuf == old(sh.goodBuf)
      invariant sh.failed ==> done > 0 && !Good(c, draws, oks, disks, done - 1)
      invariant GoodUpTo(c, draws, oks, disks, if sh.failed then done - 1 else done)
      invariant !sh.failed ==> sh.Image() == FileAfter(c, draws, done)
    {
      Turn(sh, c, draws[done], oks[done], disks[done]);
      done := done + 1;
    }
  }

  // ---------- what a run that passes tells about the filesystem ----------

  /** A correct filesystem never fails: if every system call succeeds and the disk holds
      the file after each turn, every turn is good, whatever is drawn. */
  lemma CorrectFilesystemPasses(c: Config, draws: seq<Draw>, oks: seq<bool>, disks: seq<File>, i: nat)
    requires Sensible(c) && AllWellDrawn(draws) && i < |draws| == |oks| == |disks|
    requires oks[i] && disks[i] == FileAfter(c, draws, i + 1)
    ensures Good(c, draws, oks, disks, i)
  {
    var f, d := FileAfter(c, draws, i), draws[i];
    if Runs(c, d.op) && (d.op == OpRead || d.op == OpMapRead) {
      assert disks[i] == f;
      FileReadsBack(c, f, d);
    }
    FileChecks(c, disks[i]);
  }

  lemma FileMapsBack(f: File, off: nat, len: nat, page: nat)
    requires off + len <= |f| && page > 0
    ensures MapsBack(f, f, off, len, page)
  {
    assert forall k :: 0 <= k < len ==> Mapped(f, off, len)[k] == f[off..off + len][k];
  }

  lemma FileReadsBack(c: Config, f: File, d: Draw)
    requires c.page > 0
    ensures ReadGood(c, f, d, f)
  {
    var r := Trimmed(c, d, |f|);
    FileMapsBack(f, AlignDown(r.off, c.readBdy), r.len, c.page);
  }

  lemma FileChecks(c: Config, f: File)
    ensures ChecksGood(c, f, f)
  {
    assert f[0..|f|] == f;
  }

  /** With both checks on, a turn of an enabled operation is good exactly when its system
      call succeeds and the disk holds the file, byte for byte and to its length. */
  lemma ChecksCatchEverything(c: Config, draws: seq<Draw>, oks: seq<bool>, disks: seq<File>, i: nat)
    requires Sensible(c) && AllWellDrawn(draws) && i < |draws| == |oks| == |disks|
    requires c.checkContents && c.sizeChecks && Runs(c, draws[i].op)
    ensures Good(c, draws, oks, disks, i) <==>
            (Calls(c, FileAfter(c, draws, i), draws[i]) ==> oks[i]) && disks[i] == FileAfter(c, draws, i + 1)
  {
    var g := FileAfter(c, draws, i + 1);
    if Good(c, draws, oks, disks, i) {
      assert disks[i] == disks[i][0..|g|];
      assert g == g[0..|g|];
    } else if disks[i] == g {
      CorrectFilesystemPasses(c, draws, oks[i := true], disks, i);
    }
  }
}
