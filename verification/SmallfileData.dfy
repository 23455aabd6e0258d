/** The data that smallfile writes and checks: one periodic buffer, of which every record
    of a file is a slice at the file's own offset, so that a check with any other record
    size finds what was written. */
module SmallfileData {

  type Byte = b: int | 0 <= b < 256

  const BIGGEST_BUF_SIZE := 1048576
  const BUF_OFFSET_RANGE := 1024
  const RANDOM_SIZE_LIMIT := 8

  // ---------- the buffer ----------

  /** One period of the data: 0 to 127 over and over, with `!` for the backslash. */
  function Pattern(k: nat): Byte {
    var b := k % 128;
    if b == 92 then 33 else b
  }

  /** The data of a file from the given offset on. */
  function Image(offset: nat, len: nat): (s: seq<Byte>)
    ensures |s| == len
    ensures forall p :: 0 <= p < len ==> s[p] == Pattern((offset + p) % BUF_OFFSET_RANGE)
  {
    seq<Byte>(len, p requires 0 <= p < len => Pattern((offset + p) % BUF_OFFSET_RANGE))
  }

  lemma PeriodsShift(offset: nat, p: nat, periods: nat)
    ensures (offset + (periods * BUF_OFFSET_RANGE + p)) % BUF_OFFSET_RANGE == (offset + p) % BUF_OFFSET_RANGE
  {
    var q := (offset + p) / BUF_OFFSET_RANGE;
    assert offset + (periods * BUF_OFFSET_RANGE + p) ==
           (periods + q) * BUF_OFFSET_RANGE + (offset + p) % BUF_OFFSET_RANGE;
  }

  /** Two pieces of which the first is whole periods make one piece. */
  lemma ImageJoin(offset: nat, periods: nat, len: nat)
    ensures Image(offset, periods * BUF_OFFSET_RANGE) + Image(offset, len) ==
            Image(offset, periods * BUF_OFFSET_RANGE + len)
  {
    var n := periods * BUF_OFFSET_RANGE;
    var s := Image(offset, n) + Image(offset, len);
    forall p | 0 <= p < n + len ensures s[p] == Image(offset, n + len)[p] {
      if p >= n {
        PeriodsShift(offset, p - n, periods);
      }
    }
  }

  lemma ImageSlice(offset: nat, from: nat, len: nat, whole: nat)
    requires from + len <= whole
    ensures Image(offset, whole)[from..from + len] == Image(offset + from, len)
  {
  }

  method OnePeriod() returns (first: seq<Byte>)
    ensures first == Image(0, BUF_OFFSET_RANGE)
  {
    first := [];
    for k := 0 to BUF_OFFSET_RANGE
      invariant first == Image(0, k)
    {
      var b := k % 128;
      first := first + [if b == 92 then 33 else b];
    }
  }

  lemma TenTwos(n: nat)
    ensures n == 5 ==> Twos(n) == 32
    ensures n == 10 ==> Twos(n) == 1024
  {
    if n == 10 {
      assert Twos(n) == 2 * Twos(n - 1) == 4 * Twos(n - 2) == 8 * Twos(n - 3) == 16 * Twos(n - 4);
      TenTwos(n - 5);
    } else if n == 5 {
      assert Twos(n) == 2 * Twos(n - 1) == 4 * Twos(n - 2) == 8 * Twos(n - 3);
    }
  }

  /** Ten doublings of one period, and one period more. */
  method BuildBiggestBuf() returns (buf: seq<Byte>)
    ensures buf == Image(0, BIGGEST_BUF_SIZE + BUF_OFFSET_RANGE)
  {
    var first := OnePeriod();
    buf := first;
    ghost var periods := 1;
    for i := 0 to 10
      invariant periods == Twos(i) && buf == Image(0, periods * BUF_OFFSET_RANGE)
    {
      ImageJoin(0, periods, periods * BUF_OFFSET_RANGE);
      buf := buf + buf;
      periods := 2 * periods;
    }
    TenTwos(10);
    ImageJoin(0, periods, BUF_OFFSET_RANGE);
    buf := buf + first;
  }

  function Twos(n: nat): nat {
    if n == 0 then 1 else 2 * Twos(n - 1)
  }

  // ---------- one file ----------

  datatype Params = Params(recordKb: nat, totalKb: nat, tid: nat)

  /** The size of a record in kilobytes: the one asked for, or all of a file, but never more
      than the buffer holds. */
  function RecordSize(p: Params): (kb: nat)
    ensures p.totalKb > 0 ==> kb > 0
    ensures kb <= 1024
    ensures p.recordKb > 0 ==> kb <= p.recordKb && (kb == p.recordKb || kb == 1024)
    ensures p.recordKb == 0 ==> kb <= p.totalKb && (kb == p.totalKb || kb == 1024)
  {
    var kb := if p.recordKb == 0 then p.totalKb else p.recordKb;
    if kb < 1024 then kb else 1024
  }

  function UniqueOffset(p: Params, filenum: nat): nat {
    (p.tid + 1) * filenum % BUF_OFFSET_RANGE
  }

  /** The sizes that can be drawn for a file: none but 0 if the files are to be empty. */
  predicate MayDraw(p: Params, kb: nat) {
    kb <= p.totalKb * RANDOM_SIZE_LIMIT
  }

  /** The text after bytes were written at a position in it. */
  function Overlay(data: seq<Byte>, pos: nat, bytes: seq<Byte>): (r: seq<Byte>)
    requires pos <= |data|
    ensures |r| == if pos + |bytes| > |data| then pos + |bytes| else |data|
  {
    data[..pos] + bytes + if pos + |bytes| < |data| then data[pos + |bytes|..] else []
  }

  lemma OverlayJoin(data: seq<Byte>, pos: nat, a: seq<Byte>, b: seq<Byte>)
    requires pos <= |data|
    ensures Overlay(Overlay(data, pos, a), pos + |a|, b) == Overlay(data, pos, a + b)
  {
  }

  lemma OverlayImage(offset: nat, len: nat, periods: nat, n: nat)
    requires periods * BUF_OFFSET_RANGE <= len
    ensures var pos := periods * BUF_OFFSET_RANGE;
            Overlay(Image(offset, len), pos, Image(offset, n)) == Image(offset, if pos + n > len then pos + n else len)
  {
    var pos := periods * BUF_OFFSET_RANGE;
    var r := Overlay(Image(offset, len), pos, Image(offset, n));
    forall p | 0 <= p < |r| ensures r[p] == Pattern((offset + p) % BUF_OFFSET_RANGE) {
      if pos <= p < pos + n {
        PeriodsShift(offset, p - pos, periods);
      }
    }
  }

  /** An open file: its data and the position of the next read or write. */
  class OpenFile {
    var data: seq<Byte>
    var pos: nat

    constructor (contents: seq<Byte>)
      ensures data == contents && pos == 0
    {
      data, pos := contents, 0;
    }

    method WriteAll(bytes: seq<Byte>)
      requires pos <= |data|
      modifies this
      ensures data == Overlay(old(data), old(pos), bytes) && pos == old(pos) + |bytes|
    {
      data := Overlay(data, pos, bytes);
      pos := pos + |bytes|;
    }

    method ReadExact(n: nat) returns (ok: bool, bytes: seq<Byte>)
      requires pos <= |data|
      modifies this`pos
      ensures ok <==> old(pos) + n <= |data|
      ensures ok ==> bytes == data[old(pos)..old(pos) + n] && pos == old(pos) + n
      ensures !ok ==> pos == |data|
    {
      if pos + n <= |data| {
        ok, bytes := true, data[pos..pos + n];
        pos := pos + n;
      } else {
        ok, bytes := false, [];
        pos := |data|;
      }
    }
  }

  lemma NextRecord(data: seq<Byte>, pos: nat, offset: nat, done: nat, next: nat)
    requires pos <= |data|
    ensures Overlay(Overlay(data, pos, Image(offset, done * 1024)), pos + done * 1024, Image(offset, next * 1024)) ==
            Overlay(data, pos, Image(offset, (done + next) * 1024))
  {
    OverlayJoin(data, pos, Image(offset, done * 1024), Image(offset, next * 1024));
    ImageJoin(offset, done, next * 1024);
  }

  lemma RecordSlice(biggest: seq<Byte>, uo: nat, kb: nat)
    requires biggest == Image(0, BIGGEST_BUF_SIZE + BUF_OFFSET_RANGE) && uo < BUF_OFFSET_RANGE && kb <= 1024
    ensures uo + kb * 1024 <= |biggest| && biggest[uo..uo + kb * 1024] == Image(uo, kb * 1024)
  {
    ImageSlice(0, uo, kb * 1024, BIGGEST_BUF_SIZE + BUF_OFFSET_RANGE);
  }

  method WriteRecord(f: OpenFile, biggest: seq<Byte>, uo: nat, next: nat,
                     ghost before: seq<Byte>, ghost start: nat, ghost done: nat)
    requires biggest == Image(0, BIGGEST_BUF_SIZE + BUF_OFFSET_RANGE) && uo < BUF_OFFSET_RANGE && next <= 1024
    requires start <= |before| && f.pos == start + done * 1024 && f.pos <= |f.data|
    requires f.data == Overlay(before, start, Image(uo, done * 1024))
    modifies f
    ensures f.pos == start + (done + next) * 1024 && f.pos <= |f.data|
    ensures f.data == Overlay(before, start, Image(uo, (done + next) * 1024))
  {
    RecordSlice(biggest, uo, next);
    NextRecord(before, start, uo, done, next);
    f.WriteAll(biggest[uo..uo + next * 1024]);
  }

  function Product(a: nat, b: nat): nat {
    a * b
  }

  lemma NextProduct(a: nat, b: nat)
    ensures Product(a + 1, b) == Product(a, b) + b && Product(0, b) == 0
  {
  }

  /** So many records of a size that the last one is the first to reach the end. */
  predicate AsManyAsNeeded(records: nat, size: nat, kb: nat) {
    if kb == 0 then records == 0 else records > 0 && Product(records - 1, size) < kb <= Product(records, size)
  }

  /** The loop of all writers: whatever the record size, what is written is the image. */
  method WriteRecords(f: OpenFile, p: Params, filenum: nat, kb: nat, biggest: seq<Byte>) returns (records: nat)
    requires biggest == Image(0, BIGGEST_BUF_SIZE + BUF_OFFSET_RANGE)
    requires MayDraw(p, kb) && f.pos <= |f.data|
    modifies f
    ensures f.data == Overlay(old(f.data), old(f.pos), Image(UniqueOffset(p, filenum), kb * 1024))
    ensures f.pos == old(f.pos) + kb * 1024
    ensures AsManyAsNeeded(records, RecordSize(p), kb)
  {
    var remaining := kb;
    var uo := UniqueOffset(p, filenum);
    var size := RecordSize(p);
    records := 0;
    ghost var before, start, done := f.data, f.pos, 0;
    while remaining > 0
      invariant done + remaining == kb
      invariant if remaining > 0 then done == Product(records, size) else AsManyAsNeeded(records, size, kb)
      invariant f.pos == start + done * 1024 && f.pos <= |f.data|
      invariant f.data == Overlay(before, start, Image(uo, done * 1024))
      decreases remaining
    {
      var next := if size < remaining then size else remaining;
      WriteRecord(f, biggest, uo, next, before, start, done);
      NextProduct(records, size);
      records := records + 1;
      done := done + next;
      remaining := remaining - next;
    }
  }

  datatype ReadResult = Matched | TooShort | Differs(at: nat)

  lemma NextPiece(data: seq<Byte>, uo: nat, done: nat, n: nat, scratch: seq<Byte>)
    requires done * 1024 + n <= |data| && data[..done * 1024] == Image(uo, done * 1024)
    requires scratch == data[done * 1024..done * 1024 + n]
    ensures data[..done * 1024 + n] == Image(uo, done * 1024 + n) <==> scratch == Image(uo, n)
  {
    ImageJoin(uo, done, n);
    SamePrefix(data, Image(uo, done * 1024), scratch, Image(uo, n));
  }

  lemma SamePrefix(data: seq<Byte>, a: seq<Byte>, b: seq<Byte>, c: seq<Byte>)
    requires |a| + |b| <= |data| && data[..|a|] == a && b == data[|a|..|a| + |b|] && |b| == |c|
    ensures data[..|a| + |b|] == a + c <==> b == c
  {
    assert data[..|a| + |b|] == a + b;
    assert (a + b)[|a|..] == b && (a + c)[|a|..] == c;
  }

  /** The byte at the position is the first that is not the image's. */
  predicate FirstWrong(data: seq<Byte>, uo: nat, pos: nat) {
    pos < |data| && data[..pos] == Image(uo, pos) && data[pos] != Pattern((uo + pos) % BUF_OFFSET_RANGE)
  }

  /** It is that far behind the start of some record. */
  ghost predicate WrongInRecord(data: seq<Byte>, uo: nat, at: nat) {
    exists start: nat :: FirstWrong(data, uo, start * 1024 + at)
  }

  lemma WrongInPiece(data: seq<Byte>, uo: nat, done: nat, n: nat, scratch: seq<Byte>, at: nat)
    requires done * 1024 + n <= |data| && data[..done * 1024] == Image(uo, done * 1024)
    requires scratch == data[done * 1024..done * 1024 + n] && at < n
    requires scratch[..at] == Image(uo, n)[..at] && scratch[at] != Image(uo, n)[at]
    ensures FirstWrong(data, uo, done * 1024 + at)
  {
    ImageSlice(uo, 0, at, n);
    assert Image(uo, n)[..at] == Image(uo, at);
    NextPiece(data, uo, done, at, scratch[..at]);
    PeriodsShift(uo, at, done);
  }

  /** Reads one record and compares it, when what came before it matched. */
  method ReadRecord(f: OpenFile, biggest: seq<Byte>, uo: nat, next: nat, ghost done: nat) returns (r: ReadResult)
    requires biggest == Image(0, BIGGEST_BUF_SIZE + BUF_OFFSET_RANGE) && uo < BUF_OFFSET_RANGE && next <= 1024
    requires f.pos == done * 1024 <= |f.data| && f.data[..done * 1024] == Image(uo, done * 1024)
    modifies f`pos
    ensures r.TooShort? <==> |f.data| < (done + next) * 1024
    ensures r.Matched? <==>
            (done + next) * 1024 <= |f.data| && f.data[..(done + next) * 1024] == Image(uo, (done + next) * 1024)
    ensures r.Matched? ==> f.pos == (done + next) * 1024
    ensures r.Differs? ==> FirstWrong(f.data, uo, done * 1024 + r.at) && WrongInRecord(f.data, uo, r.at)
  {
    var n := next * 1024;
    var ok, scratch := f.ReadExact(n);
    if !ok {
      return TooShort;
    }
    assert |scratch| <= BIGGEST_BUF_SIZE;
    RecordSlice(biggest, uo, next);
    NextPiece(f.data, uo, done, n, scratch);
    if scratch != biggest[uo..uo + n] {
      var at := FirstDifference(scratch, biggest[uo..uo + n]);
      WrongInPiece(f.data, uo, done, n, scratch, at);
      return Differs(at);
    }
    return Matched;
  }

  lemma ImagePrefix(data: seq<Byte>, uo: nat, n: nat, m: nat)
    requires n <= m <= |data| && data[..m] == Image(uo, m)
    ensures data[..n] == Image(uo, n)
  {
    assert data[..n] == data[..m][..n];
  }

  /** A verified read: it succeeds exactly if the file is long enough and holds the image
      there, whatever record size it uses. */
  method ReadRecords(f: OpenFile, p: Params, filenum: nat, kb: nat, biggest: seq<Byte>) returns (r: ReadResult)
    requires biggest == Image(0, BIGGEST_BUF_SIZE + BUF_OFFSET_RANGE)
    requires MayDraw(p, kb) && f.pos == 0
    modifies f`pos
    ensures r.Matched? <==>
            kb * 1024 <= |f.data| && f.data[..kb * 1024] == Image(UniqueOffset(p, filenum), kb * 1024)
    ensures kb * 1024 <= |f.data| ==> r != TooShort
    ensures f.data == Image(UniqueOffset(p, filenum), |f.data|) ==> !r.Differs?
    ensures r.Differs? ==> WrongInRecord(f.data, UniqueOffset(p, filenum), r.at)
  {
    var remaining := kb;
    var uo := UniqueOffset(p, filenum);
    var size := RecordSize(p);
    ghost var done := 0;
    r := Matched;
    while remaining > 0
      invariant done + remaining == kb && r == Matched
      invariant f.pos == done * 1024 <= |f.data|
      invariant f.data[..done * 1024] == Image(uo, done * 1024)
      decreases remaining
    {
      var next := if size < remaining then size else remaining;
      r := ReadRecord(f, biggest, uo, next, done);
      done := done + next;
      remaining := remaining - next;
      if r != Matched {
        Unmatched(f.data, uo, done, kb, r);
        return;
      }
    }
  }

  lemma Unmatched(data: seq<Byte>, uo: nat, done: nat, kb: nat, r: ReadResult)
    requires done <= kb && !r.Matched?
    requires r.TooShort? <==> |data| < done * 1024
    requires !(done * 1024 <= |data| && data[..done * 1024] == Image(uo, done * 1024))
    ensures !(kb * 1024 <= |data| && data[..kb * 1024] == Image(uo, kb * 1024))
    ensures kb * 1024 <= |data| ==> r != TooShort
    ensures data == Image(uo, |data|) ==> !r.Differs?
  {
    if kb * 1024 <= |data| && data[..kb * 1024] == Image(uo, kb * 1024) {
      ImagePrefix(data, uo, done * 1024, kb * 1024);
    }
    if data == Image(uo, |data|) && done * 1024 <= |data| {
      assert data[..|data|] == data;
      ImagePrefix(data, uo, done * 1024, |data|);
    }
  }

  /** The first place where the two differ, or their length. */
  method FirstDifference(a: seq<Byte>, b: seq<Byte>) returns (at: nat)
    requires |a| == |b|
    ensures at <= |a| && a[..at] == b[..at]
    ensures if at == |a| then a == b else a[at] != b[at]
  {
    at := 0;
    while at < |a| && a[at] == b[at]
      invariant at <= |a| && a[..at] == b[..at]
    {
      at := at + 1;
    }
    assert at == |a| ==> a == a[..at] && b == b[..at];
  }

  // ---------- any sequence of operations ----------

  /** Creating, appending to, overwriting and truncating and overwriting a file. */
  datatype Op =
    | Create(p: Params, kb: nat)
    | Append(p: Params, kb: nat)
    | Overwrite(p: Params, kb: nat)
    | TruncateOverwrite(p: Params, kb: nat)

  datatype File = Absent | Present(data: seq<Byte>)

  /** What the operations promise: how long the file is afterwards. */
  function LengthAfter(len: int, op: Op): int {
    match op
    case Create(_, kb) => if len < 0 then kb * 1024 else len
    case Append(_, kb) => if len < 0 then len else len + kb * 1024
    case Overwrite(_, kb) => if len < 0 then len else if len < kb * 1024 then kb * 1024 else len
    case TruncateOverwrite(_, kb) => if len < 0 then len else kb * 1024
  }

  lemma WholePeriods(len: nat, kb: nat)
    requires len % BUF_OFFSET_RANGE == 0
    ensures (len + kb * 1024) % BUF_OFFSET_RANGE == 0
  {
  }

  lemma AppendImage(uo: nat, len: nat, kb: nat)
    requires len % BUF_OFFSET_RANGE == 0
    ensures Overlay(Image(uo, len), len, Image(uo, kb * 1024)) == Image(uo, len + kb * 1024)
  {
    OverlayImage(uo, len, len / BUF_OFFSET_RANGE, kb * 1024);
  }

  class Workload {
    const filenum: nat
    const biggest: seq<Byte>
    var file: File

    ghost predicate Valid()
      reads this
    {
      biggest == Image(0, BIGGEST_BUF_SIZE + BUF_OFFSET_RANGE)
    }

    constructor (n: nat)
      ensures Valid() && file == Absent && filenum == n
    {
      filenum := n;
      var buf := BuildBiggestBuf();
      biggest, file := buf, Absent;
    }

    /** An existing file fails the run and is left alone. */
    method DoCreate(p: Params, kb: nat) returns (ok: bool)
      requires Valid() && MayDraw(p, kb)
      modifies this
      ensures Valid() && (ok <==> old(file).Absent?)
      ensures file == if ok then Present(Image(UniqueOffset(p, filenum), kb * 1024)) else old(file)
    {
      if file.Present? {
        return false;
      }
      var f := new OpenFile([]);
      var records := WriteRecords(f, p, filenum, kb, biggest);
      file := Present(f.data);
      return true;
    }

    /** Appending seeks to the end; truncating empties the file first. */
    method DoWrite(p: Params, kb: nat, append: bool, truncate: bool) returns (ok: bool)
      requires Valid() && MayDraw(p, kb)
      modifies this
      ensures Valid() && (ok <==> old(file).Present?)
      ensures !ok ==> file == old(file)
      ensures ok ==>
                var start := if truncate then [] else old(file).data;
                file == Present(Overlay(start, if append then |start| else 0,
                                        Image(UniqueOffset(p, filenum), kb * 1024)))
    {
      if file.Absent? {
        return false;
      }
      var f := new OpenFile(if truncate then [] else file.data);
      if append {
        f.pos := |f.data|;
      }
      var records := WriteRecords(f, p, filenum, kb, biggest);
      file := Present(f.data);
      return true;
    }

    /** A verified read of a present file. */
    method DoRead(p: Params, kb: nat) returns (r: ReadResult)
      requires Valid() && MayDraw(p, kb) && file.Present?
      ensures r.Matched? <==>
              kb * 1024 <= |file.data| && file.data[..kb * 1024] == Image(UniqueOffset(p, filenum), kb * 1024)
      ensures kb * 1024 <= |file.data| ==> r != TooShort
      ensures file.data == Image(UniqueOffset(p, filenum), |file.data|) ==> !r.Differs?
    {
      var f := new OpenFile(file.data);
      r := ReadRecords(f, p, filenum, kb, biggest);
    }

    ghost predicate Holds(tid: nat, len: int)
      reads this
    {
      if len < 0 then file.Absent?
      else len % BUF_OFFSET_RANGE == 0 && file == Present(Image((tid + 1) * filenum % BUF_OFFSET_RANGE, len))
    }

    method Perform(op: Op, ghost tid: nat, ghost len: int)
      requires Valid() && MayDraw(op.p, op.kb) && op.p.tid == tid && Holds(tid, len)
      modifies this
      ensures Valid() && Holds(tid, LengthAfter(len, op))
    {
      ghost var uo := UniqueOffset(op.p, filenum);
      WholePeriods(0, op.kb);
      match op
      case Create(p, kb) =>
        var ok := DoCreate(p, kb);
      case Append(p, kb) =>
        var ok := DoWrite(p, kb, true, false);
        if ok {
          WholePeriods(len, kb);
          AppendImage(uo, len, kb);
        }
      case Overwrite(p, kb) =>
        var ok := DoWrite(p, kb, false, false);
        if ok {
          OverlayImage(uo, len, 0, kb * 1024);
        }
      case TruncateOverwrite(p, kb) =>
        var ok := DoWrite(p, kb, false, true);
        assert Image(uo, 0) == [];
        OverlayImage(uo, 0, 0, kb * 1024);
    }

    /** After any operations with any record sizes the file is the image at its offset, and
        a verified read of any length within it succeeds with any record size. */
    method RunThenRead(ops: seq<Op>, p: Params, kb: nat) returns (read: bool, r: ReadResult)
      requires Valid() && file == Absent && MayDraw(p, kb)
      requires forall op :: op in ops ==> MayDraw(op.p, op.kb) && op.p.tid == p.tid
      modifies this
      ensures Holds(p.tid, LengthAfterAll(ops))
      ensures read <==> file.Present?
      ensures read ==> (r == Matched <==> kb * 1024 <= |file.data|)
      ensures read ==> !r.Differs?
    {
      for i := 0 to |ops|
        invariant Valid() && Holds(p.tid, LengthAfterAll(ops[..i]))
      {
        assert ops[..i + 1][..i] == ops[..i];
        Perform(ops[i], p.tid, LengthAfterAll(ops[..i]));
      }
      assert ops[..|ops|] == ops;
      read, r := file.Present?, TooShort;
      if read {
        r := DoRead(p, kb);
      }
    }
  }

  function LengthAfterAll(ops: seq<Op>): int {
    if ops == [] then -1 else LengthAfter(LengthAfterAll(ops[..|ops| - 1]), ops[|ops| - 1])
  }
}
