/** What a run of md-workbench adds up to: which rank works on whose objects, and the exact
    counts of the final report. */
module WorkbenchReport {
  import opened Common
  import opened Workbench

  // ---------- who reads, deletes and creates what ----------

  lemma CongruentBack(x: int, y: int, k: int, n: int)
    requires Congruent(x, y + k, n)
    ensures Congruent(y, x - k, n)
  {
    var m: int :| x == Turned(y + k, m, n);
    Distribute(0, m, n);
    assert y == Turned(x - k, -m, n);
  }

  /** A rank reads and deletes the objects of the rank `offset * (d + 1)` before it. */
  lemma ReadsFromBefore(c: Config, r: nat, d: nat)
    requires c.threads >= 1
    ensures ReadRank(c, r, d) < c.threads
    ensures Congruent(ReadRank(c, r, d), r - c.offset * (d + 1), c.threads)
  {
    var n: int, k: int := c.threads, c.offset * (d + 1);
    var q := Divide(r + n - k, n);
    Distribute(1, q, n);
    assert ReadRank(c, r, d) == Turned(r - k, 1 - q, n);
  }

  /** It creates objects of the rank `offset * (d + 1)` behind it. */
  lemma CreatesBehind(c: Config, r: nat, d: nat)
    requires c.threads >= 1
    ensures WriteRank(c, r, d) < c.threads
    ensures Congruent(WriteRank(c, r, d), r + c.offset * (d + 1), c.threads)
  {
    var n: int, k: int := c.threads, c.offset * (d + 1);
    var q := Divide(r + k, n);
    Distribute(0, q, n);
    assert WriteRank(c, r, d) == Turned(r + k, -q, n);
  }

  /** The rank stands in an iteration. */
  predicate InTurn(pc: Pc) {
    pc.Stat? || pc.Read? || pc.Delete? || pc.Create? || pc == Wait
  }

  lemma DeletesOf(c: Config, r: nat, k: Rank, disk: Disk, o: Obj)
    requires c.threads >= 1 && InTurn(k.pc)
    requires o in disk.files && o !in NextDisk(c, r, k, disk).files
    ensures Congruent(r, o.owner + c.offset * (o.d + 1), c.threads)
  {
    assert k.pc.Delete? && o == Oldest(c, r, k, k.pc.f, k.pc.d);
    ReadsFromBefore(c, r, o.d);
    CongruentBack(o.owner, r, -(c.offset * (o.d + 1)), c.threads);
  }

  lemma CreatesOf(c: Config, r: nat, k: Rank, disk: Disk, o: Obj)
    requires c.threads >= 1 && InTurn(k.pc)
    requires o !in disk.files && o in NextDisk(c, r, k, disk).files
    ensures Congruent(r, o.owner - c.offset * (o.d + 1), c.threads)
  {
    assert k.pc.Create? && o == Newest(c, r, k, k.pc.f, k.pc.d);
    CreatesBehind(c, r, o.d);
    CongruentBack(o.owner, r, c.offset * (o.d + 1), c.threads);
  }

  lemma TurnsInIterations(c: Config, s: State, r: nat)
    requires Sensible(c) && Inv(c, s) && 1 <= s.phase <= c.iterations && r < c.threads
    ensures InTurn(s.ranks[r].pc)
  {
    assert InPhase(c, s.phase, s.ranks[r]);
  }

  /** In an iteration an object only goes by a move of the rank `offset * (d + 1)` behind its
      owner, and only comes by a move of the rank `offset * (d + 1)` before it. */
  lemma WhoDeletesAndCreates(c: Config, schedule: seq<Event>, r: nat, o: Obj)
    requires Sensible(c) && 1 <= Run(c, schedule).phase <= c.iterations
    ensures var s, t := Run(c, schedule), Run(c, schedule + [Move(r)]);
            && (o in s.disk.files && o !in t.disk.files ==> Congruent(r, o.owner + c.offset * (o.d + 1), c.threads))
            && (o !in s.disk.files && o in t.disk.files ==> Congruent(r, o.owner - c.offset * (o.d + 1), c.threads))
  {
    var s, t := Run(c, schedule), Run(c, schedule + [Move(r)]);
    RunInv(c, schedule);
    RunAppend(c, schedule, Move(r));
    if r < c.threads {
      TurnsInIterations(c, s, r);
      if o in s.disk.files && o !in t.disk.files {
        DeletesOf(c, r, s.ranks[r], s.disk, o);
      } else if o !in s.disk.files && o in t.disk.files {
        CreatesOf(c, r, s.ranks[r], s.disk, o);
      }
    }
  }

  /** The object that a rank stats, reads and deletes in its turn (f, d) of an iteration, and
      the one it then creates. */
  lemma WhichObjects(c: Config, schedule: seq<Event>, r: nat, f: nat, d: nat)
    requires Sensible(c) && 1 <= Run(c, schedule).phase <= c.iterations && r < |Run(c, schedule).ranks|
    requires Run(c, schedule).ranks[r].pc in {Stat(f, d), Read(f, d), Delete(f, d), Create(f, d)}
    ensures var s := Run(c, schedule);
            var done := if c.readOnly then 0 else (s.phase - 1) * c.num;
            var o, p := Oldest(c, r, s.ranks[r], f, d), Newest(c, r, s.ranks[r], f, d);
            && o.d == p.d == d && o.i == done + f && p.i == c.precreate + done + f
            && Congruent(o.owner, r - c.offset * (d + 1), c.threads)
            && Congruent(p.owner, r + c.offset * (d + 1), c.threads)
  {
    RunInv(c, schedule);
    var s := Run(c, schedule);
    assert InPhase(c, s.phase, s.ranks[r]);
    BaseIs(c, s.phase);
    ReadsFromBefore(c, r, d);
    CreatesBehind(c, r, d);
  }

  /** At any moment an object holds the pattern of its owner and of its number among all
      objects of the owner's data sets. */
  lemma ContentsAreThePattern(c: Config, schedule: seq<Event>, o: Obj)
    requires Sensible(c) && o in Run(c, schedule).disk.files
    ensures Run(c, schedule).disk.files[o] == c.pattern(o.owner, o.i * c.dsets + o.d)
    ensures o.owner < c.threads && o.d < c.dsets
  {
    LiveObjectsAreTheWindow(c, schedule, o);
  }

  // ---------- what counts as an error ----------

  /** A stat that finds no object is an error, and the rank goes on with the next data set. */
  lemma StatErrsIff(c: Config, s: State, r: nat, f: nat, d: nat)
    requires c.threads >= 1 && r < |s.ranks| && s.ranks[r].pc == Stat(f, d) && f < c.num && d < c.dsets
    ensures var t, o := Step(c, s, Move(r)), Oldest(c, r, s.ranks[r], f, d);
            if o in s.disk.files
            then t.totals == s.totals.(statted := s.totals.statted + 1) && t.ranks[r].pc == Read(f, d)
            else t.totals == s.totals.(errors := s.totals.errors + 1) && t.ranks[r].pc == Stat(f, d + 1)
  {
  }

  /** A read is an error if there is no object, if it is too short, or if it is verified and
      does not start with its pattern. The rank goes on in any case. */
  lemma ReadErrsIff(c: Config, s: State, r: nat, f: nat, d: nat)
    requires c.threads >= 1 && r < |s.ranks| && s.ranks[r].pc == Read(f, d)
    ensures var t, o := Step(c, s, Move(r)), Oldest(c, r, s.ranks[r], f, d);
            && t.disk == s.disk && t.ranks[r].pc == (if c.readOnly then Stat(f, d + 1) else Delete(f, d))
            && if o !in s.disk.files || |s.disk.files[o]| < c.fileSize ||
                  (c.verifyRead && c.fileSize > 0 &&
                   s.disk.files[o][..c.fileSize] != c.pattern(o.owner, o.i * c.dsets + d))
               then t.totals == s.totals.(errors := s.totals.errors + 1)
               else t.totals == s.totals.(read := s.totals.read + 1)
  {
  }

  /** Deleting an object that is not there, and creating one whose directory is not there, are
      errors that change nothing. */
  lemma ChangeErrsIff(c: Config, s: State, r: nat, f: nat, d: nat)
    requires c.threads >= 1 && r < |s.ranks| && s.ranks[r].pc in {Delete(f, d), Create(f, d)}
    ensures var t, deletes := Step(c, s, Move(r)), s.ranks[r].pc.Delete?;
            var o := if deletes then Oldest(c, r, s.ranks[r], f, d) else Newest(c, r, s.ranks[r], f, d);
            && t.ranks[r].pc == (if deletes then Create(f, d) else Stat(f, d + 1))
            && if o !in s.disk.files && (deletes || Dset(o.owner, d) !in s.disk.dsets)
               then t.totals == s.totals.(errors := s.totals.errors + 1) && t.disk == s.disk
               else t.totals.errors == s.totals.errors
  {
    assert s.disk.files - {Oldest(c, r, s.ranks[r], f, d)} == s.disk.files ||
           Oldest(c, r, s.ranks[r], f, d) in s.disk.files;
  }

  /** Creating writes the pattern at the start of the object and keeps what an older, longer
      one holds behind it. */
  lemma WrittenIs(disk: Disk, o: Obj, data: Bytes, i: nat)
    requires CanCreate(disk, o)
    ensures var was := if o in disk.files then disk.files[o] else [];
            var now := Written(disk, o, data);
            && o in now.files && now.dsets == disk.dsets && now.files - {o} == disk.files - {o}
            && |now.files[o]| == Max(|was|, |data|)
            && (i < |now.files[o]| ==> now.files[o][i] == if i < |data| then data[i] else was[i])
  {
  }

  // ---------- the counts of the report ----------

  datatype Kind = Statted | WasRead | Deleted | Created

  function Count(t: Totals, kind: Kind): nat {
    match kind
    case Statted => t.statted
    case WasRead => t.read
    case Deleted => t.deleted
    case Created => t.created
  }

  /** The turns before turn (f, d) of an iteration. */
  function Position(c: Config, f: nat, d: nat): nat {
    f * c.dsets + d
  }

  lemma NextRow(c: Config, f: nat)
    ensures Position(c, f + 1, 0) == Position(c, f, c.dsets)
  {
  }

  function Each(c: Config): nat {
    Position(c, c.num, 0)
  }

  function Filled(c: Config): nat {
    Position(c, c.precreate, 0)
  }

  /** The turns of the iterations before a phase. */
  function Earlier(c: Config, phase: nat): nat {
    if phase <= 1 then 0 else Earlier(c, phase - 1) + if phase - 1 <= c.iterations then Each(c) else 0
  }

  lemma {:induction false} EarlierIs(c: Config, phase: nat)
    requires 1 <= phase <= c.iterations + 1
    ensures Earlier(c, phase) == (phase - 1) * Each(c)
  {
    if phase > 1 {
      EarlierIs(c, phase - 1);
      Distribute(phase - 1, 1, Each(c));
    }
  }

  /** What a rank has counted in an iteration. */
  function InIteration(c: Config, pc: Pc, kind: Kind): nat {
    if c.readOnly && (kind == Deleted || kind == Created) then 0 else
    match pc
    case Stat(f, d) => Position(c, f, d)
    case Read(f, d) => Position(c, f, d) + if kind == Statted then 1 else 0
    case Delete(f, d) => Position(c, f, d) + if kind == Statted || kind == WasRead then 1 else 0
    case Create(f, d) => Position(c, f, d) + if kind == Created then 0 else 1
    case _ => Each(c)
  }

  /** What a rank has counted since the start of the run. */
  function Counted(c: Config, phase: nat, pc: Pc, kind: Kind): nat {
    if phase == 0 then
      if kind != Created then 0 else
      match pc
      case MkDset(_) => 0
      case Fill(f, d) => Position(c, f, d)
      case _ => Filled(c)
    else if phase <= c.iterations then
      AtBarrier(c, phase, kind) + InIteration(c, pc, kind)
    else if phase == c.iterations + 1 && kind == Deleted then
      AtBarrier(c, phase, kind) + Cleaned(c, pc)
    else if kind == Deleted then AtBarrier(c, c.iterations + 1, kind) + c.dsets * c.precreate
    else AtBarrier(c, c.iterations + 1, kind)
  }

  function Cleaned(c: Config, pc: Pc): nat {
    if pc.Clean? && pc.d < c.dsets then pc.d * c.precreate + pc.f else c.dsets * c.precreate
  }

  /** What it has counted when an iteration or the cleanup starts. */
  function AtBarrier(c: Config, phase: nat, kind: Kind): nat {
    (if c.readOnly && (kind == Deleted || kind == Created) then 0 else Earlier(c, phase)) +
    if kind == Created then Filled(c) else 0
  }

  function Sum(c: Config, phase: nat, ranks: seq<Rank>, kind: Kind): nat {
    if ranks == [] then 0
    else Sum(c, phase, ranks[..|ranks| - 1], kind) + Counted(c, phase, ranks[|ranks| - 1].pc, kind)
  }

  lemma {:induction false} SumUpdate(c: Config, phase: nat, ranks: seq<Rank>, r: nat, k: Rank, kind: Kind)
    requires r < |ranks|
    ensures Sum(c, phase, ranks[r := k], kind) ==
            Sum(c, phase, ranks, kind) - Counted(c, phase, ranks[r].pc, kind) + Counted(c, phase, k.pc, kind)
  {
    var n := |ranks| - 1;
    if r < n {
      SumUpdate(c, phase, ranks[..n], r, k, kind);
      assert ranks[r := k][..n] == ranks[..n][r := k];
    } else {
      assert ranks[r := k][..n] == ranks[..n];
    }
  }

  lemma {:induction false} SumAcross(c: Config, phase: nat, ranks: seq<Rank>, phase': nat, ranks': seq<Rank>, kind: Kind)
    requires |ranks| == |ranks'|
    requires forall r :: 0 <= r < |ranks| ==>
               Counted(c, phase, ranks[r].pc, kind) == Counted(c, phase', ranks'[r].pc, kind)
    ensures Sum(c, phase, ranks, kind) == Sum(c, phase', ranks', kind)
  {
    if ranks != [] {
      SumAcross(c, phase, ranks[..|ranks| - 1], phase', ranks'[..|ranks| - 1], kind);
    }
  }

  lemma {:induction false} SumIs(c: Config, phase: nat, ranks: seq<Rank>, kind: Kind, each: nat)
    requires forall r :: 0 <= r < |ranks| ==> Counted(c, phase, ranks[r].pc, kind) == each
    ensures Sum(c, phase, ranks, kind) == |ranks| * each
  {
    if ranks != [] {
      SumIs(c, phase, ranks[..|ranks| - 1], kind, each);
      Distribute(|ranks|, 1, each);
    }
  }

  /** What a move that meets no error adds to a count. */
  function Gain(c: Config, pc: Pc, kind: Kind): nat {
    match kind
    case Statted => if pc.Stat? && pc.f < c.num && pc.d < c.dsets then 1 else 0
    case WasRead => if pc.Read? then 1 else 0
    case Deleted => if pc.Delete? || (pc.Clean? && pc.d < c.dsets && pc.f < c.precreate) then 1 else 0
    case Created => if pc.Create? || (pc.Fill? && pc.f < c.precreate && pc.d < c.dsets) then 1 else 0
  }

  lemma TotalsGain(c: Config, r: nat, k: Rank, disk: Disk, t: Totals, kind: Kind)
    requires c.threads >= 1 && Succeeds(c, r, k, disk) && CleanChangeOn(c, disk, ChangeOf(c, r, k))
    ensures Count(NextTotals(c, r, k, disk, t), kind) == Count(t, kind) + Gain(c, k.pc, kind)
  {
  }

  lemma FillGain(c: Config, k: Rank, kind: Kind)
    requires c.threads >= 1 && InPhase(c, 0, k)
    ensures Counted(c, 0, GoodPc(c, k), kind) == Counted(c, 0, k.pc, kind) + Gain(c, k.pc, kind)
  {
    if k.pc.Fill? {
      NextRow(c, k.pc.f);
    }
  }

  lemma TurnGain(c: Config, phase: nat, k: Rank, kind: Kind)
    requires c.threads >= 1 && InPhase(c, phase, k) && 1 <= phase <= c.iterations
    ensures InIteration(c, GoodPc(c, k), kind) == InIteration(c, k.pc, kind) + Gain(c, k.pc, kind)
  {
    if k.pc.Stat? {
      NextRow(c, k.pc.f);
    }
  }

  lemma CleanGain(c: Config, phase: nat, k: Rank)
    requires c.threads >= 1 && InPhase(c, phase, k) && phase == c.iterations + 1
    ensures Cleaned(c, GoodPc(c, k)) == Cleaned(c, k.pc) + Gain(c, k.pc, Deleted)
  {
    if k.pc.Clean? {
      Distribute(k.pc.d + 1, k.pc.d, c.precreate);
    }
  }

  lemma MoveCounts(c: Config, phase: nat, k: Rank, kind: Kind)
    requires Sensible(c) && InPhase(c, phase, k)
    ensures Counted(c, phase, GoodPc(c, k), kind) == Counted(c, phase, k.pc, kind) + Gain(c, k.pc, kind)
  {
    if phase == 0 {
      FillGain(c, k, kind);
    } else if phase <= c.iterations {
      TurnGain(c, phase, k, kind);
    } else if phase == c.iterations + 1 {
      CleanGain(c, phase, k);
    }
  }

  ghost predicate Adds(c: Config, s: State, kind: Kind) {
    Count(s.totals, kind) == Sum(c, s.phase, s.ranks, kind)
  }

  lemma MoveAdds(c: Config, s: State, r: nat, kind: Kind)
    requires Sensible(c) && Inv(c, s) && Adds(c, s, kind) && r < c.threads
    ensures Adds(c, Step(c, s, Move(r)), kind)
  {
    var k := s.ranks[r];
    assert InPhase(c, s.phase, k);
    EveryMoveSucceeds(c, s, r);
    ChangeIsClean(c, s, r);
    SuccessIsGood(c, r, k, s.disk, s.totals);
    TotalsGain(c, r, k, s.disk, s.totals, kind);
    MoveCounts(c, s.phase, k, kind);
    SumUpdate(c, s.phase, s.ranks, r, NextRank(c, r, k, s.disk), kind);
  }

  lemma BarrierCounts(c: Config, phase: nat, r: nat, kind: Kind)
    requires c.threads >= 1 && phase < c.iterations + 2
    ensures Counted(c, phase, Wait, kind) == Counted(c, phase + 1, FirstPc(c, phase + 1, r), kind)
  {
  }

  lemma BarrierAdds(c: Config, s: State, kind: Kind)
    requires Sensible(c) && Inv(c, s) && Adds(c, s, kind)
    ensures Adds(c, Step(c, s, Barrier), kind)
  {
    var s' := Step(c, s, Barrier);
    if AllWaiting(s) && s.phase < c.iterations + 2 {
      forall r | 0 <= r < |s.ranks|
        ensures Counted(c, s.phase, s.ranks[r].pc, kind) == Counted(c, s'.phase, s'.ranks[r].pc, kind)
      {
        assert s.ranks[r].pc == Wait;
        BarrierCounts(c, s.phase, r, kind);
      }
      SumAcross(c, s.phase, s.ranks, s'.phase, s'.ranks, kind);
    }
  }

  lemma {:induction false} RunAdds(c: Config, schedule: seq<Event>, kind: Kind)
    requires Sensible(c)
    ensures Adds(c, Run(c, schedule), kind)
  {
    if schedule == [] {
      SumIs(c, 0, Init(c).ranks, kind, 0);
    } else {
      var s, e := Run(c, schedule[..|schedule| - 1]), schedule[|schedule| - 1];
      RunAdds(c, schedule[..|schedule| - 1], kind);
      RunInv(c, schedule[..|schedule| - 1]);
      match e
      case Barrier => BarrierAdds(c, s, kind);
      case Move(r) =>
        if r < c.threads {
          MoveAdds(c, s, r, kind);
        }
    }
  }

  lemma WaitingSum(c: Config, schedule: seq<Event>, kind: Kind)
    requires Sensible(c) && AllWaiting(Run(c, schedule))
    ensures var s := Run(c, schedule); Count(s.totals, kind) == c.threads * Counted(c, s.phase, Wait, kind)
  {
    RunInv(c, schedule);
    RunAdds(c, schedule, kind);
    var s := Run(c, schedule);
    assert forall r :: 0 <= r < |s.ranks| ==> s.ranks[r].pc == Wait;
    SumIs(c, s.phase, s.ranks, kind, Counted(c, s.phase, Wait, kind));
  }

  /** What a rank has to count when it waits for the end of a phase. */
  function Due(c: Config, phase: nat, kind: Kind): nat {
    var fill := c.precreate * c.dsets;
    var turns := (if phase == 0 then 0 else if phase <= c.iterations then phase else c.iterations) * (c.num * c.dsets);
    var changed := if c.readOnly then 0 else turns;
    match kind
    case Statted => turns
    case WasRead => turns
    case Deleted => changed + if phase > c.iterations then fill else 0
    case Created => changed + fill
  }

  lemma DueIsCounted(c: Config, phase: nat, kind: Kind)
    requires phase <= c.iterations + 2
    ensures Counted(c, phase, Wait, kind) == Due(c, phase, kind)
  {
    if phase > 0 {
      EarlierIs(c, if phase <= c.iterations then phase else c.iterations + 1);
      Distribute(phase, 1, Each(c));
    }
  }

  /** Whenever all ranks wait for the end of a phase the report is exactly what they have been
      asked to do. Each rank has done `num` times `dsets` turns in every iteration: it has
      statted and read that many objects, and, unless only reads were asked for, deleted and
      created as many. The precreated objects were created at the start, and the cleanup
      deleted as many. */
  lemma ReportIsExact(c: Config, schedule: seq<Event>)
    requires Sensible(c) && AllWaiting(Run(c, schedule))
    ensures var s := Run(c, schedule);
            s.totals == Totals(0, c.threads * Due(c, s.phase, Created), c.threads * Due(c, s.phase, Statted),
                               c.threads * Due(c, s.phase, WasRead), c.threads * Due(c, s.phase, Deleted))
  {
    RunInv(c, schedule);
    var s := Run(c, schedule);
    forall kind: Kind | true ensures Count(s.totals, kind) == c.threads * Due(c, s.phase, kind) {
      WaitingSum(c, schedule, kind);
      DueIsCounted(c, s.phase, kind);
    }
    EachCount(s.totals);
  }

  lemma EachCount(t: Totals)
    ensures t.statted == Count(t, Statted) && t.read == Count(t, WasRead)
    ensures t.deleted == Count(t, Deleted) && t.created == Count(t, Created)
  {
  }
}
