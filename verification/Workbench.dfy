/** The FIFO working set of md-workbench, over a whole run: precreate, any number of
    barrier-separated benchmark iterations, cleanup.

    Ranks interleave at the granularity of one file operation (one mkdir, stat, read,
    delete, create or rmdir). A run is a schedule: a sequence of events that name the
    rank to move, or let the barrier open. */
module Workbench {
  import opened Common

  type Bytes = seq<bv8>

  /** `pattern(writer, item)` stands for the seeded content of an object. It is any
      function that yields `fileSize` bytes. */
  datatype Config = Config(
    threads: nat, num: nat, precreate: nat, dsets: nat, offset: nat, iterations: nat,
    readOnly: bool, verifyRead: bool, fileSize: nat, pattern: (nat, nat) -> Bytes)

  ghost predicate Proper(c: Config) {
    && c.threads >= 1
    && (forall w, i :: |c.pattern(w, i)| == c.fileSize)
  }

  /** Each data set is read, deleted and refilled by the same rank, which never finds it
      empty. */
  predicate OwnRefill(c: Config)
    requires c.threads >= 1
  {
    !c.readOnly && c.precreate >= 1 && 2 * c.offset % c.threads == 0
  }

  /** No rank ever looks for an object that is not there yet. */
  predicate Enough(c: Config)
    requires c.threads >= 1
  {
    c.iterations == 0 || c.dsets == 0 || c.num <= c.precreate || OwnRefill(c)
  }

  ghost predicate Sensible(c: Config) {
    Proper(c) && Enough(c)
  }

  datatype Dset = Dset(owner: nat, d: nat)

  datatype Obj = Obj(owner: nat, d: nat, i: nat)

  /** The part of the filesystem below the mount point: whether the output directory
      exists, the data-set directories in it, and the object files in those. */
  datatype Disk = Disk(prefix: bool, dsets: set<Dset>, files: map<Obj, Bytes>)

  /** The counters of the report, summed over ranks and phases. */
  datatype Totals = Totals(errors: nat, created: nat, statted: nat, read: nat, deleted: nat)

  datatype Pc =
    | MkDset(d: nat)
    | Fill(f: nat, d: nat)
    | Stat(f: nat, d: nat)
    | Read(f: nat, d: nat)
    | Delete(f: nat, d: nat)
    | Create(f: nat, d: nat)
    | Clean(d: nat, f: nat)
    | RmPrefix
    | Wait

  datatype Rank = Rank(pc: Pc, current: nat)

  /** Phase 0 is precreate, phases 1 to `iterations` are the benchmark iterations, then
      come cleanup and the removal of the output directory by rank 0. */
  datatype State = State(phase: nat, ranks: seq<Rank>, disk: Disk, totals: Totals)

  datatype Event = Move(rank: nat) | Barrier

  // ---------- which rank works on whose objects ----------

  function ReadRank(c: Config, r: nat, d: nat): nat
    requires c.threads >= 1
  {
    (r + c.threads - c.offset * (d + 1)) % c.threads
  }

  function WriteRank(c: Config, r: nat, d: nat): nat
    requires c.threads >= 1
  {
    (r + c.offset * (d + 1)) % c.threads
  }

  lemma TimesAtLeast(e: int, n: int)
    requires n > 0
    ensures e >= 1 ==> e * n >= n
    ensures e <= -1 ==> e * n <= -n
  {
  }

  lemma Distribute(q: int, m: int, n: int)
    ensures (q - m) * n == q * n - m * n
  {
  }

  lemma ModMultiple(a: int, m: int, n: int)
    requires n > 0 && 0 <= a < n
    ensures (a + m * n) % n == a
  {
    var mn := m * n;
    var x := a + mn;
    var q, rem := x / n, x % n;
    var qn := q * n;
    assert x == qn + rem;
    Distribute(q, m, n);
    TimesAtLeast(q - m, n);
  }

  lemma ShiftBack(r: int, k: int, n: int)
    requires 0 <= r < n
    ensures ((r + k) % n + n - k) % n == r
  {
    var q := Divide(r + k, n);
    Distribute(1, q, n);
    ModMultiple(r, 1 - q, n);
  }

  lemma ShiftForth(r: int, k: int, n: int)
    requires 0 <= r < n
    ensures ((r + n - k) % n + k) % n == r
  {
    var p := Divide(r + n - k, n);
    Distribute(1, p, n);
    ModMultiple(r, 1 - p, n);
  }

  /** Readers and writers are shifted by inverse rotations, so every (owner, data set)
      has exactly one deleter and exactly one creator. */
  lemma ShiftsAreInverse(c: Config, r: nat, d: nat)
    requires c.threads >= 1 && r < c.threads
    ensures ReadRank(c, r, d) < c.threads && WriteRank(c, r, d) < c.threads
    ensures ReadRank(c, WriteRank(c, r, d), d) == r
    ensures WriteRank(c, ReadRank(c, r, d), d) == r
  {
    ShiftBack(r, c.offset * (d + 1), c.threads);
    ShiftForth(r, c.offset * (d + 1), c.threads);
  }

  lemma ModShift(a: int, m: int, n: int)
    requires n > 0
    ensures (a + m * n) % n == a % n
  {
    var q := a / n;
    assert q * n + m * n == (q + m) * n;
    ModMultiple(a % n, q + m, n);
  }

  lemma MultipleModIsZero(x: int, m: int, n: int)
    requires n > 0 && x == m * n
    ensures x % n == 0
  {
    ModMultiple(0, m, n);
  }

  lemma Scale(x: int, q: int, n: int, e: int)
    requires x == q * n
    ensures x * e == (q * e) * n
  {
  }

  /** If twice the offset is a multiple of the number of ranks, the one who deletes also
      creates. */
  lemma OneRankDoesBoth(c: Config, r: nat, d: nat)
    requires c.threads >= 1 && 2 * c.offset % c.threads == 0
    ensures ReadRank(c, r, d) == WriteRank(c, r, d)
  {
    var n, k, q := c.threads, c.offset * (d + 1), 2 * c.offset / c.threads;
    Scale(2 * c.offset, q, n, d + 1);
    assert 2 * c.offset * (d + 1) == 2 * k;
    Distribute(1, q * (d + 1), n);
    assert r + n - k == (r + k) + (1 - q * (d + 1)) * n;
    ModShift(r + k, 1 - q * (d + 1), n);
  }

  lemma TwiceIsMultiple(r: int, v: int, k: int, p: int, q: int, n: int)
    requires r + n - k == p * n + v && v + n - k == q * n + r
    ensures 2 * k == (2 - (p + q)) * n
  {
    Distribute(2, p + q, n);
  }

  lemma DifferentRanks(c: Config, r: nat)
    requires c.threads >= 1 && r < c.threads && 2 * c.offset % c.threads != 0
    ensures ReadRank(c, ReadRank(c, r, 0), 0) != r
  {
    var n: int, k: int, v: int := c.threads, c.offset, ReadRank(c, r, 0);
    var p := Divide(r + n - k, n);
    var q := Divide(v + n - k, n);
    if (v + n - k) % n == r {
      TwiceIsMultiple(r, v, k, p, q, n);
      MultipleModIsZero(2 * k, 2 - (p + q), n);
    }
  }

  // ---------- the program ----------

  function Content(c: Config, o: Obj): Bytes {
    c.pattern(o.owner, o.i * c.dsets + o.d)
  }

  function Init(c: Config): State {
    State(0, seq(c.threads, _ => Rank(MkDset(0), 0)), Disk(true, {}, map[]), Totals(0, 0, 0, 0, 0))
  }

  /** The object a rank at Stat, Read or Delete works on. */
  function Oldest(c: Config, r: nat, k: Rank, f: nat, d: nat): Obj
    requires c.threads >= 1
  {
    Obj(ReadRank(c, r, d), d, f + k.current)
  }

  /** The object a rank at Create makes. */
  function Newest(c: Config, r: nat, k: Rank, f: nat, d: nat): Obj
    requires c.threads >= 1
  {
    Obj(WriteRank(c, r, d), d, c.precreate + f + k.current)
  }

  predicate CanCreate(disk: Disk, o: Obj) {
    o in disk.files || Dset(o.owner, o.d) in disk.dsets
  }

  /** Opening with `create` but without `truncate`, then writing from the start. */
  function Written(disk: Disk, o: Obj, data: Bytes): Disk {
    if !CanCreate(disk, o) then disk else
    var was := if o in disk.files then disk.files[o] else [];
    disk.(files := disk.files[o := if |was| > |data| then data + was[|data|..] else data])
  }

  predicate DsetEmpty(disk: Disk, x: Dset) {
    forall o | o in disk.files :: Dset(o.owner, o.d) != x
  }

  predicate ReadsBack(c: Config, disk: Disk, o: Obj) {
    && o in disk.files
    && (c.fileSize > 0 ==>
          && |disk.files[o]| >= c.fileSize
          && (c.verifyRead ==> disk.files[o][..c.fileSize] == Content(c, o)))
  }

  /** Where the rank goes next. */
  function NextPc(c: Config, r: nat, k: Rank, disk: Disk): Pc
    requires c.threads >= 1
  {
    match k.pc
    case MkDset(d) =>
      if d >= c.dsets then Fill(k.current, 0)
      else if !disk.prefix then Wait
      else MkDset(d + 1)
    case Fill(f, d) =>
      if f >= c.precreate then Wait
      else if d >= c.dsets then Fill(f + 1, 0)
      else if !CanCreate(disk, Obj(r, d, f)) then Wait
      else Fill(f, d + 1)
    case Stat(f, d) =>
      if f >= c.num then Wait
      else if d >= c.dsets then Stat(f + 1, 0)
      else if Oldest(c, r, k, f, d) !in disk.files then Stat(f, d + 1)
      else Read(f, d)
    case Read(f, d) => if c.readOnly then Stat(f, d + 1) else Delete(f, d)
    case Delete(f, d) => Create(f, d)
    case Create(f, d) => Stat(f, d + 1)
    case Clean(d, f) =>
      if d >= c.dsets then Wait
      else if f < c.precreate then Clean(d, f + 1)
      else Clean(d + 1, 0)
    case RmPrefix => Wait
    case Wait => Wait
  }

  function NextRank(c: Config, r: nat, k: Rank, disk: Disk): Rank
    requires c.threads >= 1
  {
    var moved := k.pc.Stat? && k.pc.f >= c.num && !c.readOnly;
    Rank(NextPc(c, r, k, disk), if moved then k.current + k.pc.f else k.current)
  }

  function NextDisk(c: Config, r: nat, k: Rank, disk: Disk): Disk
    requires c.threads >= 1
  {
    match k.pc
    case MkDset(d) =>
      if d < c.dsets && disk.prefix then disk.(dsets := disk.dsets + {Dset(r, d)}) else disk
    case Fill(f, d) =>
      if f < c.precreate && d < c.dsets then Written(disk, Obj(r, d, f), Content(c, Obj(r, d, f))) else disk
    case Delete(f, d) =>
      disk.(files := disk.files - {Oldest(c, r, k, f, d)})
    case Create(f, d) =>
      var o := Newest(c, r, k, f, d);
      Written(disk, o, Content(c, o))
    case Clean(d, f) =>
      if d >= c.dsets then disk
      else if f < c.precreate then disk.(files := disk.files - {Obj(r, d, f + k.current)})
      else if DsetEmpty(disk, Dset(r, d)) then disk.(dsets := disk.dsets - {Dset(r, d)})
      else disk
    case RmPrefix =>
      if disk.dsets == {} then disk.(prefix := false) else disk
    case _ => disk
  }

  function NextTotals(c: Config, r: nat, k: Rank, disk: Disk, t: Totals): Totals
    requires c.threads >= 1
  {
    match k.pc
    case MkDset(d) =>
      if d < c.dsets && !disk.prefix then t.(errors := t.errors + 1) else t
    case Fill(f, d) =>
      if f < c.precreate && d < c.dsets && CanCreate(disk, Obj(r, d, f)) then t.(created := t.created + 1) else t
    case Stat(f, d) =>
      if f >= c.num || d >= c.dsets then t
      else if Oldest(c, r, k, f, d) in disk.files then t.(statted := t.statted + 1)
      else t.(errors := t.errors + 1)
    case Read(f, d) =>
      if ReadsBack(c, disk, Oldest(c, r, k, f, d)) then t.(read := t.read + 1) else t.(errors := t.errors + 1)
    case Delete(f, d) =>
      if Oldest(c, r, k, f, d) in disk.files then t.(deleted := t.deleted + 1) else t.(errors := t.errors + 1)
    case Create(f, d) =>
      if CanCreate(disk, Newest(c, r, k, f, d)) then t.(created := t.created + 1) else t.(errors := t.errors + 1)
    case Clean(d, f) =>
      if d < c.dsets && f < c.precreate && Obj(r, d, f + k.current) in disk.files
      then t.(deleted := t.deleted + 1) else t
    case _ => t
  }

  /** What a rank starts with when the barrier opens into a phase. */
  function FirstPc(c: Config, phase: nat, r: nat): Pc {
    if phase <= c.iterations then Stat(0, 0)
    else if phase == c.iterations + 1 then Clean(0, 0)
    else if r == 0 then RmPrefix
    else Wait
  }

  predicate AllWaiting(s: State) {
    forall r | 0 <= r < |s.ranks| :: s.ranks[r].pc == Wait
  }

  function Step(c: Config, s: State, e: Event): State
    requires c.threads >= 1
  {
    match e
    case Move(r) =>
      if r >= |s.ranks| then s else
      var k := s.ranks[r];
      State(s.phase, s.ranks[r := NextRank(c, r, k, s.disk)], NextDisk(c, r, k, s.disk),
            NextTotals(c, r, k, s.disk, s.totals))
    case Barrier =>
      if !AllWaiting(s) || s.phase >= c.iterations + 2 then s else
      s.(phase := s.phase + 1,
         ranks := seq(|s.ranks|, r requires 0 <= r < |s.ranks| =>
                                   s.ranks[r].(pc := FirstPc(c, s.phase + 1, r))))
  }

  function Run(c: Config, schedule: seq<Event>): State
    requires c.threads >= 1
  {
    if schedule == [] then Init(c)
    else Step(c, Run(c, schedule[..|schedule| - 1]), schedule[|schedule| - 1])
  }

  // ---------- the window of live objects ----------

  /** How far the window has moved when a phase starts. */
  function Base(c: Config, phase: nat): nat {
    if phase <= 1 then 0
    else Base(c, phase - 1) + if c.readOnly || phase > c.iterations + 1 then 0 else c.num
  }

  /** Objects of data set d a rank has deleted in this iteration. */
  function DeletedBy(c: Config, pc: Pc, d: nat): nat {
    if c.readOnly then 0 else
    match pc
    case Stat(f, k) => f + if d < k then 1 else 0
    case Read(f, k) => f + if d < k then 1 else 0
    case Delete(f, k) => f + if d < k then 1 else 0
    case Create(f, k) => f + if d <= k then 1 else 0
    case _ => c.num
  }

  /** Objects of data set d a rank has created in this iteration. */
  function CreatedBy(c: Config, pc: Pc, d: nat): nat {
    if c.readOnly then 0 else
    match pc
    case Stat(f, k) => f + if d < k then 1 else 0
    case Read(f, k) => f + if d < k then 1 else 0
    case Delete(f, k) => f + if d < k then 1 else 0
    case Create(f, k) => f + if d < k then 1 else 0
    case _ => c.num
  }

  /** The live indices of one (owner, data set) are low <= i < high; `up` tells whether
      its directory exists. */
  datatype Window = Window(low: nat, high: nat, up: bool)

  function FillWindow(c: Config, pc: Pc, d: nat): Window {
    match pc
    case MkDset(k) => Window(0, 0, d < k)
    case Fill(f, k) => Window(0, f + if d < k then 1 else 0, true)
    case _ => Window(0, c.precreate, true)
  }

  function CleanWindow(c: Config, base: nat, pc: Pc, d: nat): Window {
    match pc
    case Clean(k, f) =>
      if d < k then Window(0, 0, false)
      else if d == k then Window(base + f, base + c.precreate, true)
      else Window(base, base + c.precreate, true)
    case _ => Window(0, 0, false)
  }

  function BenchWindow(c: Config, base: nat, deleter: Pc, creator: Pc, d: nat): Window {
    Window(base + DeletedBy(c, deleter, d), base + c.precreate + CreatedBy(c, creator, d), true)
  }

  function WindowOf(c: Config, phase: nat, ranks: seq<Rank>, x: Dset): Window
    requires c.threads >= 1 && |ranks| == c.threads && x.owner < c.threads
  {
    if phase == 0 then FillWindow(c, ranks[x.owner].pc, x.d)
    else if phase <= c.iterations then
      BenchWindow(c, Base(c, phase), ranks[WriteRank(c, x.owner, x.d)].pc, ranks[ReadRank(c, x.owner, x.d)].pc, x.d)
    else if phase == c.iterations + 1 then
      CleanWindow(c, Base(c, phase), ranks[x.owner].pc, x.d)
    else Window(0, 0, false)
  }

  // ---------- the inductive invariant ----------

  predicate InPhase(c: Config, phase: nat, k: Rank) {
    if phase == 0 then
      && k.current == 0
      && match k.pc
         case MkDset(d) => d <= c.dsets
         case Fill(f, d) => f <= c.precreate && d <= c.dsets && (f == c.precreate ==> d == 0)
         case pc => pc == Wait
    else if phase <= c.iterations then
      && k.current == Base(c, if k.pc == Wait then phase + 1 else phase)
      && match k.pc
         case Stat(f, d) => f <= c.num && d <= c.dsets && (f == c.num ==> d == 0)
         case Read(f, d) => f < c.num && d < c.dsets
         case Delete(f, d) => f < c.num && d < c.dsets && !c.readOnly
         case Create(f, d) => f < c.num && d < c.dsets && !c.readOnly
         case pc => pc == Wait
    else if phase == c.iterations + 1 then
      && k.current == Base(c, phase)
      && match k.pc
         case Clean(d, f) => d <= c.dsets && f <= c.precreate
         case pc => pc == Wait
    else
      k.pc == RmPrefix || k.pc == Wait
  }

  ghost predicate AllInPhase(c: Config, phase: nat, ranks: seq<Rank>) {
    forall r :: 0 <= r < |ranks| ==> InPhase(c, phase, ranks[r])
  }

  predicate Known(c: Config, x: Dset) {
    x.owner < c.threads && x.d < c.dsets
  }

  /** The disk agrees with the windows about one object and about its directory. */
  predicate Agrees(c: Config, phase: nat, ranks: seq<Rank>, disk: Disk, o: Obj)
    requires c.threads >= 1 && |ranks| == c.threads
  {
    && (Dset(o.owner, o.d) in disk.dsets <==>
          Known(c, Dset(o.owner, o.d)) && WindowOf(c, phase, ranks, Dset(o.owner, o.d)).up)
    && (o in disk.files <==> Live(c, phase, ranks, o))
    && (o in disk.files ==> disk.files[o] == Content(c, o))
  }

  ghost predicate DiskInv(c: Config, s: State)
    requires c.threads >= 1 && |s.ranks| == c.threads
  {
    forall o: Obj :: Agrees(c, s.phase, s.ranks, s.disk, o)
  }

  predicate Live(c: Config, phase: nat, ranks: seq<Rank>, o: Obj)
    requires c.threads >= 1 && |ranks| == c.threads
  {
    && Known(c, Dset(o.owner, o.d))
    && var w := WindowOf(c, phase, ranks, Dset(o.owner, o.d)); w.low <= o.i < w.high
  }

  ghost predicate Inv(c: Config, s: State)
    requires Sensible(c)
  {
    && |s.ranks| == c.threads
    && s.phase <= c.iterations + 2
    && AllInPhase(c, s.phase, s.ranks)
    && (forall r :: 0 < r < |s.ranks| ==> s.ranks[r].pc != RmPrefix)
    && DiskInv(c, s)
    && s.disk.prefix == (s.phase < c.iterations + 2 || s.ranks[0].pc == RmPrefix)
    && s.totals.errors == 0
    && |s.disk.files| + s.totals.deleted == s.totals.created
  }

  // ---------- every move changes one window, and the disk follows it ----------

  datatype Change = Same | Up(x: Dset) | Down(x: Dset) | Grow(o: Obj) | Shrink(o: Obj)

  /** What the next move of a rank does to the windows. */
  function ChangeOf(c: Config, r: nat, k: Rank): Change
    requires c.threads >= 1
  {
    match k.pc
    case MkDset(d) => if d < c.dsets then Up(Dset(r, d)) else Same
    case Fill(f, d) => if f < c.precreate && d < c.dsets then Grow(Obj(r, d, f)) else Same
    case Delete(f, d) => Shrink(Oldest(c, r, k, f, d))
    case Create(f, d) => Grow(Newest(c, r, k, f, d))
    case Clean(d, f) =>
      if d >= c.dsets then Same
      else if f < c.precreate then Shrink(Obj(r, d, f + k.current))
      else Down(Dset(r, d))
    case _ => Same
  }

  function Changed(w: Window, x: Dset, ch: Change): Window {
    match ch
    case Same => w
    case Up(y) => if x == y then w.(up := true) else w
    case Down(y) => if x == y then Window(0, 0, false) else w
    case Grow(o) => if x == Dset(o.owner, o.d) then w.(high := w.high + 1) else w
    case Shrink(o) => if x == Dset(o.owner, o.d) then w.(low := w.low + 1) else w
  }

  /** The change fits the window it is made to. */
  predicate Fits(w: Window, x: Dset, ch: Change) {
    match ch
    case Same => true
    case Up(y) => x == y ==> !w.up && w.low == w.high
    case Down(y) => x == y ==> w.up && w.low == w.high
    case Grow(o) => x == Dset(o.owner, o.d) ==> w.up && o.i == w.high >= w.low
    case Shrink(o) => x == Dset(o.owner, o.d) ==> w.up && o.i == w.low < w.high
  }

  /** The next position of a rank that meets no error. */
  function GoodPc(c: Config, k: Rank): Pc {
    match k.pc
    case MkDset(d) => if d >= c.dsets then Fill(k.current, 0) else MkDset(d + 1)
    case Fill(f, d) =>
      if f >= c.precreate then Wait else if d >= c.dsets then Fill(f + 1, 0) else Fill(f, d + 1)
    case Stat(f, d) =>
      if f >= c.num then Wait else if d >= c.dsets then Stat(f + 1, 0) else Read(f, d)
    case Read(f, d) => if c.readOnly then Stat(f, d + 1) else Delete(f, d)
    case Delete(f, d) => Create(f, d)
    case Create(f, d) => Stat(f, d + 1)
    case Clean(d, f) =>
      if d >= c.dsets then Wait else if f < c.precreate then Clean(d, f + 1) else Clean(d + 1, 0)
    case RmPrefix => Wait
    case Wait => Wait
  }

  lemma FillChange(c: Config, r: nat, k: Rank, d: nat)
    requires c.threads >= 1 && InPhase(c, 0, k) && d < c.dsets
    ensures var w := FillWindow(c, k.pc, d);
            && Fits(w, Dset(r, d), ChangeOf(c, r, k))
            && FillWindow(c, GoodPc(c, k), d) == Changed(w, Dset(r, d), ChangeOf(c, r, k))
  {
  }

  lemma BenchChange(c: Config, phase: nat, k: Rank, d: nat)
    requires c.threads >= 1 && InPhase(c, phase, k) && 1 <= phase <= c.iterations && d < c.dsets
    ensures DeletedBy(c, GoodPc(c, k), d) ==
            DeletedBy(c, k.pc, d) + if k.pc.Delete? && k.pc.d == d then 1 else 0
    ensures CreatedBy(c, GoodPc(c, k), d) ==
            CreatedBy(c, k.pc, d) + if k.pc.Create? && k.pc.d == d then 1 else 0
  {
  }

  lemma CleanChange(c: Config, phase: nat, r: nat, k: Rank, d: nat)
    requires c.threads >= 1 && InPhase(c, phase, k) && phase == c.iterations + 1 && d < c.dsets
    ensures var w := CleanWindow(c, Base(c, phase), k.pc, d);
            && Fits(w, Dset(r, d), ChangeOf(c, r, k))
            && CleanWindow(c, Base(c, phase), GoodPc(c, k), d) == Changed(w, Dset(r, d), ChangeOf(c, r, k))
  {
  }

  /** A rank about to stat, read or delete finds its object inside the window, and a
      delete takes the lowest one. */
  lemma OldestIsLive(c: Config, phase: nat, ranks: seq<Rank>, r: nat, f: nat, d: nat)
    requires c.threads >= 1 && |ranks| == c.threads && Enough(c)
    requires 1 <= phase <= c.iterations && r < c.threads && InPhase(c, phase, ranks[r])
    requires f < c.num && d < c.dsets
    requires ranks[r].pc == Stat(f, d) || ranks[r].pc == Read(f, d) || ranks[r].pc == Delete(f, d)
    ensures var o := Oldest(c, r, ranks[r], f, d);
            && Live(c, phase, ranks, o)
            && (!c.readOnly ==> o.i == WindowOf(c, phase, ranks, Dset(o.owner, o.d)).low)
  {
    ShiftsAreInverse(c, r, d);
    if OwnRefill(c) {
      OneRankDoesBoth(c, ReadRank(c, r, d), d);
    }
  }

  /** A create makes the first index above the window. */
  lemma NewestIsNext(c: Config, phase: nat, ranks: seq<Rank>, r: nat, f: nat, d: nat)
    requires c.threads >= 1 && |ranks| == c.threads && Enough(c)
    requires 1 <= phase <= c.iterations && r < c.threads && AllInPhase(c, phase, ranks)
    requires ranks[r].pc == Create(f, d)
    ensures d < c.dsets
    ensures var o := Newest(c, r, ranks[r], f, d);
            && Known(c, Dset(o.owner, d))
            && var w := WindowOf(c, phase, ranks, Dset(o.owner, d)); w.up && o.i == w.high >= w.low
  {
    assert InPhase(c, phase, ranks[r]);
    ShiftsAreInverse(c, r, d);
    WindowIsOrdered(c, phase, ranks, Dset(WriteRank(c, r, d), d));
  }

  lemma WindowIsOrdered(c: Config, phase: nat, ranks: seq<Rank>, x: Dset)
    requires c.threads >= 1 && |ranks| == c.threads && Enough(c)
    requires 1 <= phase <= c.iterations && Known(c, x) && AllInPhase(c, phase, ranks)
    ensures var w := WindowOf(c, phase, ranks, x); w.low <= w.high
  {
    ShiftsAreInverse(c, x.owner, x.d);
    assert InPhase(c, phase, ranks[WriteRank(c, x.owner, x.d)]);
    if OwnRefill(c) {
      OneRankDoesBoth(c, x.owner, x.d);
    }
  }

  /** The file operation the rank is about to do succeeds. */
  predicate Succeeds(c: Config, r: nat, k: Rank, disk: Disk)
    requires c.threads >= 1
  {
    match k.pc
    case MkDset(d) => d < c.dsets ==> disk.prefix
    case Fill(f, d) => f < c.precreate && d < c.dsets ==> CanCreate(disk, Obj(r, d, f))
    case Stat(f, d) => f < c.num && d < c.dsets ==> Oldest(c, r, k, f, d) in disk.files
    case Read(f, d) => ReadsBack(c, disk, Oldest(c, r, k, f, d))
    case Delete(f, d) => Oldest(c, r, k, f, d) in disk.files
    case Create(f, d) => CanCreate(disk, Newest(c, r, k, f, d))
    case _ => true
  }

  lemma SuccessIsGood(c: Config, r: nat, k: Rank, disk: Disk, t: Totals)
    requires c.threads >= 1 && Succeeds(c, r, k, disk)
    ensures NextPc(c, r, k, disk) == GoodPc(c, k)
    ensures NextTotals(c, r, k, disk, t).errors == t.errors
  {
  }

  lemma PatternSize(c: Config, o: Obj)
    requires Sensible(c)
    ensures |Content(c, o)| == c.fileSize
  {
  }

  lemma ContentReadsBack(c: Config, disk: Disk, o: Obj)
    requires o in disk.files && disk.files[o] == Content(c, o) && |Content(c, o)| == c.fileSize
    ensures ReadsBack(c, disk, o)
  {
    assert disk.files[o][..c.fileSize] == disk.files[o];
  }

  /** Every file operation of every rank succeeds. */
  lemma EveryMoveSucceeds(c: Config, s: State, r: nat)
    requires Sensible(c) && Inv(c, s) && r < c.threads
    ensures Succeeds(c, r, s.ranks[r], s.disk)
  {
    var k := s.ranks[r];
    assert InPhase(c, s.phase, k);
    match k.pc
    case Fill(f, d) =>
      assert Agrees(c, s.phase, s.ranks, s.disk, Obj(r, d, f));
    case Stat(f, d) =>
      if f < c.num && d < c.dsets {
        OldestIsLive(c, s.phase, s.ranks, r, f, d);
        assert Agrees(c, s.phase, s.ranks, s.disk, Oldest(c, r, k, f, d));
      }
    case Read(f, d) =>
      OldestIsLive(c, s.phase, s.ranks, r, f, d);
      assert Agrees(c, s.phase, s.ranks, s.disk, Oldest(c, r, k, f, d));
      PatternSize(c, Oldest(c, r, k, f, d));
      ContentReadsBack(c, s.disk, Oldest(c, r, k, f, d));
    case Delete(f, d) =>
      OldestIsLive(c, s.phase, s.ranks, r, f, d);
      assert Agrees(c, s.phase, s.ranks, s.disk, Oldest(c, r, k, f, d));
    case Create(f, d) =>
      NewestIsNext(c, s.phase, s.ranks, r, f, d);
      assert Agrees(c, s.phase, s.ranks, s.disk, Newest(c, r, k, f, d));
    case _ =>
  }

  /** In a benchmark iteration the change of a move fits every window it touches. */
  lemma BenchFits(c: Config, phase: nat, ranks: seq<Rank>, r: nat, x: Dset)
    requires c.threads >= 1 && |ranks| == c.threads && Enough(c)
    requires 1 <= phase <= c.iterations && r < c.threads && AllInPhase(c, phase, ranks)
    requires x.owner < c.threads
    ensures Fits(WindowOf(c, phase, ranks, x), x, ChangeOf(c, r, ranks[r]))
  {
    assert InPhase(c, phase, ranks[r]);
    match ranks[r].pc
    case Delete(f, d) => OldestIsLive(c, phase, ranks, r, f, d);
    case Create(f, d) => NewestIsNext(c, phase, ranks, r, f, d);
    case _ =>
  }

  lemma BenchWindowStep(c: Config, phase: nat, ranks: seq<Rank>, r: nat, x: Dset)
    requires c.threads >= 1 && |ranks| == c.threads && 1 <= phase <= c.iterations && r < c.threads && Known(c, x)
    requires InPhase(c, phase, ranks[r])
    ensures WindowOf(c, phase, ranks[r := Rank(GoodPc(c, ranks[r]), ranks[r].current)], x) ==
            Changed(WindowOf(c, phase, ranks, x), x, ChangeOf(c, r, ranks[r]))
  {
    BenchChange(c, phase, ranks[r], x.d);
    ShiftsAreInverse(c, x.owner, x.d);
    ShiftsAreInverse(c, r, x.d);
    var a, b := WriteRank(c, x.owner, x.d), ReadRank(c, x.owner, x.d);
    var ch := ChangeOf(c, r, ranks[r]);
    assert ch.Shrink? ==> (x == Dset(ch.o.owner, ch.o.d) <==> a == r && ranks[r].pc.d == x.d);
    assert ch.Grow? ==> (x == Dset(ch.o.owner, ch.o.d) <==> b == r && ranks[r].pc.d == x.d);
  }

  lemma WindowIgnoresCurrent(c: Config, phase: nat, ranks: seq<Rank>, r: nat, k: Rank, current: nat, x: Dset)
    requires c.threads >= 1 && |ranks| == c.threads && x.owner < c.threads && r < c.threads
    ensures WindowOf(c, phase, ranks[r := k], x) == WindowOf(c, phase, ranks[r := k.(current := current)], x)
  {
    if phase > 0 {
      ShiftsAreInverse(c, x.owner, x.d);
    }
  }

  /** The windows before and after a move differ by its change. */
  lemma WindowStep(c: Config, s: State, r: nat, x: Dset)
    requires Sensible(c) && Inv(c, s) && r < c.threads && Known(c, x)
    ensures var ch, w := ChangeOf(c, r, s.ranks[r]), WindowOf(c, s.phase, s.ranks, x);
            var ranks' := s.ranks[r := NextRank(c, r, s.ranks[r], s.disk)];
            && Fits(w, x, ch)
            && WindowOf(c, s.phase, ranks', x) == Changed(w, x, ch)
  {
    var k := s.ranks[r];
    var good := Rank(GoodPc(c, k), k.current);
    assert InPhase(c, s.phase, k);
    EveryMoveSucceeds(c, s, r);
    SuccessIsGood(c, r, k, s.disk, s.totals);
    WindowIgnoresCurrent(c, s.phase, s.ranks, r, good, NextRank(c, r, k, s.disk).current, x);
    if s.phase == 0 {
      FillChange(c, r, k, x.d);
    } else if s.phase <= c.iterations {
      BenchFits(c, s.phase, s.ranks, r, x);
      BenchWindowStep(c, s.phase, s.ranks, r, x);
    } else if s.phase == c.iterations + 1 {
      CleanChange(c, s.phase, r, k, x.d);
    }
  }

  // ---------- the disk follows the windows ----------

  function Applied(c: Config, disk: Disk, ch: Change): Disk {
    match ch
    case Same => disk
    case Up(x) => disk.(dsets := disk.dsets + {x})
    case Down(x) => disk.(dsets := disk.dsets - {x})
    case Grow(o) => disk.(files := disk.files[o := Content(c, o)])
    case Shrink(o) => disk.(files := disk.files - {o})
  }

  predicate CleanChangeOn(c: Config, disk: Disk, ch: Change) {
    match ch
    case Same => true
    case Up(x) => Known(c, x)
    case Down(x) => Known(c, x) && DsetEmpty(disk, x)
    case Grow(o) => Known(c, Dset(o.owner, o.d)) && o !in disk.files && Dset(o.owner, o.d) in disk.dsets
    case Shrink(o) => Known(c, Dset(o.owner, o.d)) && o in disk.files
  }

  /** An object that is made is not there yet; an object that is removed is. */
  lemma ChangeIsClean(c: Config, s: State, r: nat)
    requires Sensible(c) && Inv(c, s) && r < c.threads
    ensures CleanChangeOn(c, s.disk, ChangeOf(c, r, s.ranks[r]))
  {
    var ch := ChangeOf(c, r, s.ranks[r]);
    assert InPhase(c, s.phase, s.ranks[r]);
    match ch
    case Down(x) =>
      WindowStep(c, s, r, x);
      forall o | o in s.disk.files ensures Dset(o.owner, o.d) != x {
        assert Agrees(c, s.phase, s.ranks, s.disk, o);
      }
    case Grow(o) =>
      KnownChange(c, s.phase, r, s.ranks[r]);
      WindowStep(c, s, r, Dset(o.owner, o.d));
      assert Agrees(c, s.phase, s.ranks, s.disk, o);
    case Shrink(o) =>
      KnownChange(c, s.phase, r, s.ranks[r]);
      WindowStep(c, s, r, Dset(o.owner, o.d));
      assert Agrees(c, s.phase, s.ranks, s.disk, o);
    case _ =>
  }

  lemma KnownChange(c: Config, phase: nat, r: nat, k: Rank)
    requires c.threads >= 1 && r < c.threads && InPhase(c, phase, k)
    ensures var ch := ChangeOf(c, r, k);
            ch.Grow? || ch.Shrink? ==> Known(c, Dset(ch.o.owner, ch.o.d))
  {
    match k.pc
    case Delete(f, d) => ShiftsAreInverse(c, r, d);
    case Create(f, d) => ShiftsAreInverse(c, r, d);
    case _ =>
  }

  lemma DiskStep(c: Config, r: nat, k: Rank, disk: Disk)
    requires c.threads >= 1 && k.pc != RmPrefix
    requires Succeeds(c, r, k, disk) && CleanChangeOn(c, disk, ChangeOf(c, r, k))
    ensures NextDisk(c, r, k, disk) == Applied(c, disk, ChangeOf(c, r, k))
  {
  }

  lemma TotalsStep(c: Config, r: nat, k: Rank, disk: Disk, t: Totals)
    requires c.threads >= 1
    requires Succeeds(c, r, k, disk) && CleanChangeOn(c, disk, ChangeOf(c, r, k))
    ensures NextTotals(c, r, k, disk, t).created == t.created + if ChangeOf(c, r, k).Grow? then 1 else 0
    ensures NextTotals(c, r, k, disk, t).deleted == t.deleted + if ChangeOf(c, r, k).Shrink? then 1 else 0
  {
  }

  lemma AppliedSize(c: Config, disk: Disk, ch: Change)
    requires CleanChangeOn(c, disk, ch)
    ensures |Applied(c, disk, ch).files| ==
            |disk.files| + (if ch.Grow? then 1 else 0) - (if ch.Shrink? then 1 else 0)
  {
    if ch.Shrink? {
      assert disk.files == (disk.files - {ch.o})[ch.o := disk.files[ch.o]];
    }
  }

  /** One directory or object, before and after the change of its window. */
  lemma ChangeFollows(c: Config, disk: Disk, w: Window, ch: Change, o: Obj)
    requires CleanChangeOn(c, disk, ch)
    requires var x := Dset(o.owner, o.d);
             Known(c, x) && Fits(w, x, ch) && (x in disk.dsets <==> w.up) && (o in disk.files <==> w.low <= o.i < w.high)
    ensures var x, disk', w' := Dset(o.owner, o.d), Applied(c, disk, ch), Changed(w, Dset(o.owner, o.d), ch);
            (x in disk'.dsets <==> w'.up) && (o in disk'.files <==> w'.low <= o.i < w'.high)
  {
  }

  lemma MoveFollows(c: Config, s: State, r: nat, o: Obj)
    requires Sensible(c) && Inv(c, s) && r < c.threads && s.ranks[r].pc != RmPrefix
    ensures var s' := Step(c, s, Move(r)); Agrees(c, s'.phase, s'.ranks, s'.disk, o)
  {
    var x, ch := Dset(o.owner, o.d), ChangeOf(c, r, s.ranks[r]);
    ChangeIsClean(c, s, r);
    EveryMoveSucceeds(c, s, r);
    DiskStep(c, r, s.ranks[r], s.disk);
    assert Agrees(c, s.phase, s.ranks, s.disk, o);
    if Known(c, x) {
      WindowStep(c, s, r, x);
      ChangeFollows(c, s.disk, WindowOf(c, s.phase, s.ranks, x), ch, o);
    }
  }

  lemma MoveDiskInv(c: Config, s: State, r: nat)
    requires Sensible(c) && Inv(c, s) && r < c.threads && s.ranks[r].pc != RmPrefix
    ensures DiskInv(c, Step(c, s, Move(r)))
  {
    var s' := Step(c, s, Move(r));
    forall o: Obj ensures Agrees(c, s'.phase, s'.ranks, s'.disk, o) {
      MoveFollows(c, s, r, o);
    }
  }

  lemma MovePhase(c: Config, phase: nat, r: nat, k: Rank, disk: Disk)
    requires Sensible(c) && InPhase(c, phase, k) && Succeeds(c, r, k, disk)
    ensures InPhase(c, phase, NextRank(c, r, k, disk))
  {
    SuccessIsGood(c, r, k, disk, Totals(0, 0, 0, 0, 0));
  }

  lemma MoveInv(c: Config, s: State, r: nat)
    requires Sensible(c) && Inv(c, s) && r < c.threads
    ensures Inv(c, Step(c, s, Move(r)))
  {
    var s', k := Step(c, s, Move(r)), s.ranks[r];
    assert InPhase(c, s.phase, k);
    EveryMoveSucceeds(c, s, r);
    MovePhase(c, s.phase, r, k, s.disk);
    SuccessIsGood(c, r, k, s.disk, s.totals);
    if k.pc == RmPrefix {
      RemovePrefix(c, s, r);
    } else {
      ChangeIsClean(c, s, r);
      MoveDiskInv(c, s, r);
      DiskStep(c, r, k, s.disk);
      TotalsStep(c, r, k, s.disk, s.totals);
      AppliedSize(c, s.disk, ChangeOf(c, r, k));
      assert AllInPhase(c, s'.phase, s'.ranks);
    }
  }

  lemma RemovePrefix(c: Config, s: State, r: nat)
    requires Sensible(c) && Inv(c, s) && r < c.threads && s.ranks[r].pc == RmPrefix
    ensures Inv(c, Step(c, s, Move(r)))
  {
    var s' := Step(c, s, Move(r));
    assert InPhase(c, s.phase, s.ranks[r]);
    assert AllInPhase(c, s'.phase, s'.ranks);
    forall x: Dset ensures x !in s.disk.dsets {
      assert Agrees(c, s.phase, s.ranks, s.disk, Obj(x.owner, x.d, 0));
    }
    assert s.disk.dsets == {};
    forall o: Obj ensures Agrees(c, s'.phase, s'.ranks, s'.disk, o) {
      assert Agrees(c, s.phase, s.ranks, s.disk, o);
    }
  }

  /** The windows a phase ends with are the windows the next phase starts with. */
  lemma BarrierWindow(c: Config, phase: nat, ranks: seq<Rank>, ranks': seq<Rank>, x: Dset)
    requires c.threads >= 1 && |ranks| == |ranks'| == c.threads && phase < c.iterations + 2 && Known(c, x)
    requires forall r :: 0 <= r < |ranks| ==> ranks[r].pc == Wait
    requires forall r :: 0 <= r < |ranks'| ==> ranks'[r].pc == FirstPc(c, phase + 1, r)
    ensures WindowOf(c, phase + 1, ranks', x) == WindowOf(c, phase, ranks, x)
  {
    ShiftsAreInverse(c, x.owner, x.d);
  }

  lemma AgreesAcrossBarrier(c: Config, phase: nat, ranks: seq<Rank>, ranks': seq<Rank>, disk: Disk, o: Obj)
    requires c.threads >= 1 && |ranks| == |ranks'| == c.threads && phase < c.iterations + 2
    requires forall r :: 0 <= r < |ranks| ==> ranks[r].pc == Wait
    requires forall r :: 0 <= r < |ranks'| ==> ranks'[r].pc == FirstPc(c, phase + 1, r)
    requires Agrees(c, phase, ranks, disk, o)
    ensures Agrees(c, phase + 1, ranks', disk, o)
  {
    if Known(c, Dset(o.owner, o.d)) {
      BarrierWindow(c, phase, ranks, ranks', Dset(o.owner, o.d));
    }
  }

  lemma BarrierInv(c: Config, s: State)
    requires Sensible(c) && Inv(c, s)
    ensures Inv(c, Step(c, s, Barrier))
  {
    var s' := Step(c, s, Barrier);
    if AllWaiting(s) && s.phase < c.iterations + 2 {
      forall r | 0 <= r < |s'.ranks| ensures InPhase(c, s'.phase, s'.ranks[r]) {
        assert InPhase(c, s.phase, s.ranks[r]);
        assert s.ranks[r].pc == Wait;
      }
      forall o: Obj ensures Agrees(c, s'.phase, s'.ranks, s'.disk, o) {
        assert Agrees(c, s.phase, s.ranks, s.disk, o);
        AgreesAcrossBarrier(c, s.phase, s.ranks, s'.ranks, s.disk, o);
      }
    }
  }

  lemma InitInv(c: Config)
    requires Sensible(c)
    ensures Inv(c, Init(c))
  {
  }

  lemma {:induction false} RunInv(c: Config, schedule: seq<Event>)
    requires Sensible(c)
    ensures Inv(c, Run(c, schedule))
  {
    if schedule == [] {
      InitInv(c);
    } else {
      var s, e := Run(c, schedule[..|schedule| - 1]), schedule[|schedule| - 1];
      RunInv(c, schedule[..|schedule| - 1]);
      match e
      case Barrier => BarrierInv(c, s);
      case Move(r) =>
        if r < c.threads {
          MoveInv(c, s, r);
        }
    }
  }

  // ---------- the whole run, over every interleaving ----------

  /** No interleaving of any number of phases ever reports an error: every stat, read and
      delete finds its object, every verified read matches, every create succeeds. */
  lemma NoErrors(c: Config, schedule: seq<Event>, r: nat)
    requires Sensible(c) && r < c.threads
    ensures Run(c, schedule).totals.errors == 0
    ensures |Run(c, schedule).ranks| == c.threads
    ensures Succeeds(c, r, Run(c, schedule).ranks[r], Run(c, schedule).disk)
  {
    RunInv(c, schedule);
    EveryMoveSucceeds(c, Run(c, schedule), r);
  }

  /** At every step of every interleaving the live objects of each (owner, data set) are
      exactly those from its deleter's progress up to precreate plus its creator's
      progress, and each holds the pattern of its owner and item number. */
  lemma LiveObjectsAreTheWindow(c: Config, schedule: seq<Event>, o: Obj)
    requires Sensible(c)
    ensures var s := Run(c, schedule);
            && |s.ranks| == c.threads
            && (o in s.disk.files <==> Live(c, s.phase, s.ranks, o))
            && (o in s.disk.files ==> s.disk.files[o] == Content(c, o))
  {
    RunInv(c, schedule);
    var s := Run(c, schedule);
    assert Agrees(c, s.phase, s.ranks, s.disk, o);
  }

  /** A create always uses a name that is not taken. */
  lemma CreatesAreFresh(c: Config, schedule: seq<Event>, r: nat)
    requires Sensible(c) && r < c.threads
    ensures var s := Run(c, schedule);
            && |s.ranks| == c.threads
            && var ch := ChangeOf(c, r, s.ranks[r]);
               && (ch.Grow? ==> ch.o !in s.disk.files)
               && (ch.Shrink? ==> ch.o in s.disk.files)
  {
    RunInv(c, schedule);
    ChangeIsClean(c, Run(c, schedule), r);
  }

  lemma {:induction false} BaseIs(c: Config, phase: nat)
    requires 1 <= phase <= c.iterations + 1
    ensures Base(c, phase) == if c.readOnly then 0 else (phase - 1) * c.num
  {
    if phase > 1 {
      BaseIs(c, phase - 1);
      assert (phase - 2) * c.num + c.num == (phase - 1) * c.num;
    }
  }

  lemma WindowAtTheEnd(c: Config, phase: nat, ranks: seq<Rank>, x: Dset)
    requires c.threads >= 1 && |ranks| == c.threads && 1 <= phase <= c.iterations && x.owner < c.threads
    requires forall r :: 0 <= r < |ranks| ==> ranks[r].pc == Wait
    ensures var low := if c.readOnly then 0 else phase * c.num;
            WindowOf(c, phase, ranks, x) == Window(low, low + c.precreate, true)
  {
    ShiftsAreInverse(c, x.owner, x.d);
    BaseIs(c, phase);
    assert (phase - 1) * c.num + c.num == phase * c.num;
  }

  /** When benchmark iteration `phase` is over, every window has moved by exactly `num`
      from where the iteration found it (not at all if it only read). */
  lemma IterationMovesWindow(c: Config, schedule: seq<Event>, o: Obj)
    requires Sensible(c)
    requires var s := Run(c, schedule); AllWaiting(s) && 1 <= s.phase <= c.iterations
    ensures var s := Run(c, schedule);
            var low := if c.readOnly then 0 else s.phase * c.num;
            o in s.disk.files <==> Known(c, Dset(o.owner, o.d)) && low <= o.i < low + c.precreate
  {
    RunInv(c, schedule);
    var s := Run(c, schedule);
    assert Agrees(c, s.phase, s.ranks, s.disk, o);
    if Known(c, Dset(o.owner, o.d)) {
      WindowAtTheEnd(c, s.phase, s.ranks, Dset(o.owner, o.d));
    }
  }

  /** Once every rank is through, nothing is left: no object, no data-set directory, no
      output directory, and as many deletes as creates were counted. */
  lemma NothingIsLeft(c: Config, schedule: seq<Event>)
    requires Sensible(c)
    requires var s := Run(c, schedule); AllWaiting(s) && s.phase == c.iterations + 2
    ensures var s := Run(c, schedule);
            s.disk == Disk(false, {}, map[]) && s.totals.created == s.totals.deleted && s.totals.errors == 0
  {
    RunInv(c, schedule);
    var s := Run(c, schedule);
    forall x: Dset ensures x !in s.disk.dsets {
      assert Agrees(c, s.phase, s.ranks, s.disk, Obj(x.owner, x.d, 0));
    }
    assert s.disk.dsets == {};
    forall o: Obj ensures o !in s.disk.files {
      assert Agrees(c, s.phase, s.ranks, s.disk, o);
    }
    assert s.disk.files == map[];
  }

  lemma RunAppend(c: Config, schedule: seq<Event>, e: Event)
    requires c.threads >= 1
    ensures Run(c, schedule + [e]) == Step(c, Run(c, schedule), e)
  {
    assert (schedule + [e])[..|schedule|] == schedule;
  }

  // ---------- which configurations can err ----------

  /** The same with as many objects worked on as precreated: it behaves alike until a rank
      gets to the first object that is not precreated. */
  function Cut(c: Config): Config {
    c.(num := c.precreate)
  }

  predicate BeyondCut(c: Config, pc: Pc) {
    pc.Stat? && pc.f >= c.precreate
  }

  lemma CutMove(c: Config, s: State, r: nat)
    requires c.threads >= 1 && c.num > c.precreate && (r < |s.ranks| ==> !BeyondCut(c, s.ranks[r].pc))
    ensures Step(c, s, Move(r)) == Step(Cut(c), s, Move(r))
  {
  }

  lemma CutBarrier(c: Config, s: State)
    requires c.threads >= 1
    ensures Step(c, s, Barrier) == Step(Cut(c), s, Barrier)
  {
    assert Step(c, s, Barrier).ranks == Step(Cut(c), s, Barrier).ranks;
  }

  lemma InitCut(c: Config)
    requires c.threads >= 1
    ensures Run(c, []) == Run(Cut(c), []) == Init(c)
  {
    assert Init(c).ranks == Init(Cut(c)).ranks;
  }

  /** The schedule leads the original and the cut configuration to the same state, and the
      ranks from `r` on have not moved yet, the others wait at the first barrier. */
  ghost predicate Filled(c: Config, schedule: seq<Event>, r: nat)
    requires c.threads >= 1
  {
    var s := Run(Cut(c), schedule);
    && Run(c, schedule) == s
    && s.phase == 0
    && |s.ranks| == c.threads
    && (forall i :: 0 <= i < r && i < |s.ranks| ==> s.ranks[i].pc == Wait)
  }

  lemma MoveOn(c: Config, schedule: seq<Event>, r: nat) returns (next: seq<Event>)
    requires Proper(c) && c.num > c.precreate && r < c.threads
    requires var s := Run(Cut(c), schedule); Run(c, schedule) == s && |s.ranks| == c.threads && !BeyondCut(c, s.ranks[r].pc)
    ensures var s, s' := Run(Cut(c), schedule), Run(Cut(c), next);
            && Run(c, next) == s' && s'.phase == s.phase
            && |s'.ranks| == c.threads && s'.ranks == s.ranks[r := s'.ranks[r]]
            && InPhase(Cut(c), s.phase, s.ranks[r])
            && s'.ranks[r].pc == GoodPc(Cut(c), s.ranks[r])
  {
    var s := Run(Cut(c), schedule);
    next := schedule + [Move(r)];
    RunAppend(c, schedule, Move(r));
    RunAppend(Cut(c), schedule, Move(r));
    CutMove(c, s, r);
    RunInv(Cut(c), schedule);
    EveryMoveSucceeds(Cut(c), s, r);
    SuccessIsGood(Cut(c), r, s.ranks[r], s.disk, s.totals);
  }

  function FillStage(pc: Pc): nat {
    if pc.MkDset? then 2 else if pc.Fill? then 1 else 0
  }

  function FillLeft(c: Config, pc: Pc): (left: int) {
    if pc.MkDset? then c.dsets - pc.d else if pc.Fill? then c.precreate - pc.f else 0
  }

  function DsetsLeft(c: Config, pc: Pc): int {
    if pc.Fill? || pc.Stat? || pc.Read? || pc.Delete? || pc.Create? then c.dsets - pc.d else 0
  }

  /** One rank gets through the precreate phase. */
  lemma {:induction false} FillOne(c: Config, schedule: seq<Event>, r: nat, pc: Pc) returns (next: seq<Event>)
    requires Proper(c) && c.num > c.precreate && r < c.threads && Filled(c, schedule, r)
    requires Run(Cut(c), schedule).ranks[r].pc == pc
    ensures Filled(c, next, r + 1)
    decreases FillStage(pc), FillLeft(c, pc), DsetsLeft(c, pc)
  {
    var s := Run(Cut(c), schedule);
    RunInv(Cut(c), schedule);
    assert InPhase(Cut(c), 0, s.ranks[r]);
    if s.ranks[r].pc == Wait {
      next := schedule;
    } else {
      var more := MoveOn(c, schedule, r);
      var s' := Run(Cut(c), more);
      RunInv(Cut(c), more);
      assert InPhase(Cut(c), 0, s'.ranks[r]);
      next := FillOne(c, more, r, s'.ranks[r].pc);
    }
  }

  lemma {:induction false} FillAll(c: Config, schedule: seq<Event>, r: nat) returns (next: seq<Event>)
    requires Proper(c) && c.num > c.precreate && r <= c.threads && Filled(c, schedule, r)
    ensures Filled(c, next, c.threads)
    decreases c.threads - r
  {
    if r == c.threads {
      next := schedule;
    } else {
      var more := FillOne(c, schedule, r, Run(Cut(c), schedule).ranks[r].pc);
      next := FillAll(c, more, r + 1);
    }
  }

  /** In the first iteration only rank 0 has moved, and it is at an object that was
      precreated. */
  ghost predicate Alone(c: Config, schedule: seq<Event>)
    requires c.threads >= 1
  {
    var s := Run(Cut(c), schedule);
    && Run(c, schedule) == s
    && s.phase == 1
    && |s.ranks| == c.threads
    && (forall i :: 0 < i < |s.ranks| ==> s.ranks[i].pc == Stat(0, 0))
  }

  lemma OpenBarrier(c: Config, schedule: seq<Event>) returns (next: seq<Event>)
    requires Proper(c) && Filled(c, schedule, c.threads) && c.iterations >= 1
    ensures Alone(c, next) && Run(c, next).ranks[0].pc == Stat(0, 0)
  {
    next := schedule + [Barrier];
    RunAppend(c, schedule, Barrier);
    RunAppend(Cut(c), schedule, Barrier);
    CutBarrier(c, Run(c, schedule));
  }

  function FilesLeft(c: Config, pc: Pc): int {
    if pc.Stat? || pc.Read? || pc.Delete? || pc.Create? then c.precreate - pc.f else 0
  }

  function StepsLeft(pc: Pc): nat {
    match pc
    case Stat(_, _) => 3
    case Read(_, _) => 2
    case Delete(_, _) => 1
    case _ => 0
  }

  /** Rank 0 runs alone through the precreated objects. */
  lemma {:induction false} RunAlone(c: Config, schedule: seq<Event>, pc: Pc) returns (next: seq<Event>)
    requires Proper(c) && c.num > c.precreate && c.iterations >= 1 && Alone(c, schedule)
    requires Run(c, schedule).ranks[0].pc == pc != Wait
    ensures Alone(c, next) && Run(c, next).ranks[0].pc == Stat(c.precreate, 0)
    decreases FilesLeft(c, pc), DsetsLeft(c, pc), StepsLeft(pc)
  {
    var s := Run(Cut(c), schedule);
    RunInv(Cut(c), schedule);
    assert InPhase(Cut(c), 1, s.ranks[0]);
    if s.ranks[0].pc == Stat(c.precreate, 0) {
      next := schedule;
    } else {
      var more := MoveOn(c, schedule, 0);
      var s' := Run(Cut(c), more);
      RunInv(Cut(c), more);
      assert InPhase(Cut(c), 1, s'.ranks[0]);
      next := RunAlone(c, more, s'.ranks[0].pc);
    }
  }

  /** The object it wants next is not in its window. */
  lemma NotThereYet(c: Config, ranks: seq<Rank>)
    requires Proper(c) && !Enough(c) && |ranks| == c.threads && ranks[0] == Rank(Stat(c.precreate, 0), 0)
    requires forall i :: 0 < i < |ranks| ==> ranks[i].pc == Stat(0, 0)
    ensures !Live(Cut(c), 1, ranks, Oldest(Cut(c), 0, ranks[0], c.precreate, 0))
  {
    ShiftsAreInverse(Cut(c), 0, 0);
    ShiftsAreInverse(Cut(c), ReadRank(Cut(c), 0, 0), 0);
    if 2 * c.offset % c.threads != 0 {
      DifferentRanks(Cut(c), 0);
    }
  }

  ghost predicate NeverErrs(c: Config)
    requires c.threads >= 1
  {
    forall schedule :: ErrorFree(c, schedule)
  }

  ghost predicate ErrorFree(c: Config, schedule: seq<Event>)
    requires c.threads >= 1
  {
    Run(c, schedule).totals.errors == 0
  }

  lemma StatMisses(c: Config, s: State)
    requires c.threads >= 1 && c.num > c.precreate && c.dsets > 0 && |s.ranks| > 0
    requires s.ranks[0] == Rank(Stat(c.precreate, 0), 0) && Oldest(c, 0, s.ranks[0], c.precreate, 0) !in s.disk.files
    ensures Step(c, s, Move(0)).totals.errors > 0
  {
  }

  lemma ReachesTheCut(c: Config) returns (schedule: seq<Event>)
    requires Proper(c) && !Enough(c)
    ensures Alone(c, schedule) && Run(c, schedule).ranks[0].pc == Stat(c.precreate, 0)
  {
    InitCut(c);
    var a := FillAll(c, [], 0);
    var b := OpenBarrier(c, a);
    schedule := RunAlone(c, b, Stat(0, 0));
  }

  lemma OldestIsMissing(c: Config, s: State)
    requires Proper(c) && !Enough(c) && Inv(Cut(c), s) && s.phase == 1
    requires s.ranks[0].pc == Stat(c.precreate, 0) && forall i :: 0 < i < |s.ranks| ==> s.ranks[i].pc == Stat(0, 0)
    ensures s.ranks[0].current == 0 && Oldest(c, 0, s.ranks[0], c.precreate, 0) !in s.disk.files
  {
    assert InPhase(Cut(c), 1, s.ranks[0]);
    NotThereYet(c, s.ranks);
    assert Agrees(Cut(c), 1, s.ranks, s.disk, Oldest(Cut(c), 0, s.ranks[0], c.precreate, 0));
  }

  lemma MissesAnObject(c: Config) returns (schedule: seq<Event>)
    requires Proper(c) && !Enough(c)
    ensures !ErrorFree(c, schedule)
  {
    var alone := ReachesTheCut(c);
    RunInv(Cut(c), alone);
    OldestIsMissing(c, Run(Cut(c), alone));
    schedule := alone + [Move(0)];
    RunAppend(c, alone, Move(0));
    StatMisses(c, Run(c, alone));
  }

  /** No interleaving reports an error exactly if there is nothing to do, no rank works on
      more objects than are precreated, or every data set with an object in it is deleted
      from and refilled by one and the same rank. */
  lemma NeverErrsIff(c: Config)
    requires Proper(c)
    ensures NeverErrs(c) <==> Enough(c)
  {
    if Enough(c) {
      forall schedule | true ensures ErrorFree(c, schedule) {
        NoErrors(c, schedule, 0);
      }
    } else {
      var schedule := MissesAnObject(c);
    }
  }
}
