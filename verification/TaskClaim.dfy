/** The task coordination of mptest: any number of client processes claim tasks from one
    shared database, each inside a BEGIN IMMEDIATE transaction that also flushes the
    process's error and test counters.

    A process may die at any point. The database has one writer at a time; a writer works
    on a copy that COMMIT publishes and death throws away. A run is a sequence of events,
    so a statement about every such sequence is about every interleaving and every pattern
    of deaths. */
module TaskClaim {

  datatype Counts = Counts(errors: int, tests: int)

  const ZERO := Counts(0, 0)

  function Plus(a: Counts, b: Counts): Counts {
    Counts(a.errors + b.errors, a.tests + b.tests)
  }

  predicate Nothing(a: Counts) {
    a.errors == 0 && a.tests == 0
  }

  /** A row of the task table; its id is its position. */
  datatype Task = Task(client: nat, started: bool, ended: bool)

  /** `clients` maps a registered client id to its wantHalt flag. */
  datatype Db = Db(tasks: seq<Task>, clients: map<nat, bool>, counts: Counts)

  /** How a process ended. */
  datatype Exit = Halted | GaveUp | LeftByScript | Died

  datatype Pc =
    | Idle                    // before BEGIN IMMEDIATE
    | Flush                   // the lock is held; counters not flushed yet
    | CheckHalt
    | PickTask
    | CommitHalt
    | CommitGiveUp
    | CommitTask(id: nat)
    | CommitNothing
    | Running(id: nat)
    | Master
    | Gone(how: Exit)

  /** `local` are the process's own counters, `pending` what it has moved into the
      working copy but not committed, `carried` what it took with it when it ended. */
  datatype Proc = Proc(client: nat, pc: Pc, local: Counts, pending: Counts, carried: Counts)

  datatype Handout = Handout(pid: nat, client: nat, id: nat)

  datatype Lock = Free | Held(pid: nat)

  /** `handed` and `recorded` are history: the tasks handed out in order, and all errors and
      tests ever recorded. */
  datatype State = State(db: Db, lock: Lock, work: Db, procs: seq<Proc>, handed: seq<Handout>, recorded: Counts)

  datatype Event =
    | StartClient(client: nat)
    | AddTask(client: nat)
    | SetHalt
    | Advance(pid: nat, patienceOver: bool)
    | RecordError(pid: nat)
    | RecordTest(pid: nat)
    | EndTask(pid: nat)
    | Deregister(pid: nat)
    | ScriptDone(pid: nat)
    | ExitScript(pid: nat)
    | Kill(pid: nat)

  function NewProc(client: nat, pc: Pc): Proc {
    Proc(client, pc, ZERO, ZERO, ZERO)
  }

  function Init(): State {
    State(Db([], map[], ZERO), Free, Db([], map[], ZERO), [NewProc(0, Master)], [], ZERO)
  }

  /** The first task of the client from position `from` on that is not started, or the
      number of tasks. */
  function FirstWaiting(tasks: seq<Task>, client: nat, from: nat): (id: nat)
    requires from <= |tasks|
    ensures from <= id <= |tasks|
    ensures id < |tasks| ==> tasks[id].client == client && !tasks[id].started
    ensures forall k :: from <= k < id ==> !(tasks[k].client == client && !tasks[k].started)
    decreases |tasks| - from
  {
    if from == |tasks| || (tasks[from].client == client && !tasks[from].started) then from
    else FirstWaiting(tasks, client, from + 1)
  }

  function Waiting(tasks: seq<Task>, client: nat): nat {
    FirstWaiting(tasks, client, 0)
  }

  predicate WantsHalt(db: Db, client: nat) {
    client in db.clients && db.clients[client]
  }

  function Started(tasks: seq<Task>, id: nat): seq<Task> {
    if id < |tasks| then tasks[id := tasks[id].(started := true)] else tasks
  }

  function Ended(tasks: seq<Task>, id: nat): seq<Task> {
    if id < |tasks| then tasks[id := tasks[id].(ended := true)] else tasks
  }

  function Without(db: Db, client: nat): Db {
    db.(clients := db.clients - {client})
  }

  predicate Alive(p: Proc) {
    !p.pc.Gone?
  }

  predicate InTransaction(p: Proc) {
    match p.pc
    case Flush | CheckHalt | PickTask | CommitHalt | CommitGiveUp | CommitTask(_) | CommitNothing => true
    case _ => false
  }

  predicate Commits(p: Proc) {
    match p.pc
    case CommitHalt | CommitGiveUp | CommitTask(_) | CommitNothing => true
    case _ => false
  }

  // ---------- the steps of startScript ----------

  /** The process after it ended; whatever it had not committed goes with it. */
  function Ending(p: Proc, how: Exit, carried: Counts): Proc {
    p.(pc := Gone(how), local := ZERO, pending := ZERO, carried := carried)
  }

  predicate GivesUp(p: Proc, work: Db, patienceOver: bool) {
    p.pc == PickTask && Waiting(work.tasks, p.client) == |work.tasks| && patienceOver
  }

  /** The step takes the lock only if nobody holds it; otherwise the process sleeps. */
  function AdvanceProc(p: Proc, free: bool, work: Db, patienceOver: bool): Proc {
    match p.pc
    case Idle => if free then p.(pc := Flush) else p
    case Flush => p.(pc := CheckHalt, local := ZERO, pending := p.local)
    case CheckHalt => p.(pc := if WantsHalt(work, p.client) then CommitHalt else PickTask)
    case PickTask =>
      var id := Waiting(work.tasks, p.client);
      if id < |work.tasks| then p.(pc := CommitTask(id))
      else if patienceOver then p.(pc := CommitGiveUp, local := Plus(p.local, Counts(1, 0)))
      else p.(pc := CommitNothing)
    case CommitHalt => Ending(p, Halted, p.local)
    case CommitGiveUp => Ending(p, GaveUp, p.local)
    case CommitTask(id) => p.(pc := Running(id), pending := ZERO)
    case CommitNothing => p.(pc := Idle, pending := ZERO)
    case _ => p
  }

  function AdvanceWork(p: Proc, free: bool, db: Db, work: Db, patienceOver: bool): Db {
    match p.pc
    case Idle => if free then db else work
    case Flush => work.(counts := Plus(work.counts, p.local))
    case CheckHalt => if WantsHalt(work, p.client) then Without(work, p.client) else work
    case PickTask =>
      var id := Waiting(work.tasks, p.client);
      if id < |work.tasks| then work.(tasks := Started(work.tasks, id))
      else if patienceOver then Without(work, p.client)
      else work
    case _ => work
  }

  function AdvanceLock(p: Proc, pid: nat, lock: Lock): Lock {
    if Commits(p) then Free else if p.pc == Idle && lock == Free then Held(pid) else lock
  }

  function AdvanceState(s: State, pid: nat, patienceOver: bool): State
    requires pid < |s.procs|
  {
    var p := s.procs[pid];
    State(
      if Commits(p) then s.work else s.db,
      AdvanceLock(p, pid, s.lock),
      AdvanceWork(p, s.lock == Free, s.db, s.work, patienceOver),
      s.procs[pid := AdvanceProc(p, s.lock == Free, s.work, patienceOver)],
      if p.pc.CommitTask? then s.handed + [Handout(pid, p.client, p.pc.id)] else s.handed,
      if GivesUp(p, s.work, patienceOver) then Plus(s.recorded, Counts(1, 0)) else s.recorded)
  }

  /** An error or a test may be recorded at any time, by the log callback of the database
      even inside a transaction. */
  function Record(s: State, pid: nat, amount: Counts): State
    requires pid < |s.procs|
  {
    var p := s.procs[pid];
    if !Alive(p) then s
    else s.(procs := s.procs[pid := p.(local := Plus(p.local, amount))], recorded := Plus(s.recorded, amount))
  }

  /** The process ends; if it holds the lock its working copy is thrown away. */
  function Die(s: State, pid: nat, how: Exit): State
    requires pid < |s.procs|
  {
    var p := s.procs[pid];
    s.(procs := s.procs[pid := Ending(p, how, Plus(p.local, p.pending))],
       lock := if s.lock == Held(pid) then Free else s.lock)
  }

  /** Single statements outside a transaction commit by themselves, and only while no one
      holds the lock. */
  function Step(s: State, e: Event): State {
    match e
    case StartClient(c) =>
      if s.lock != Free || c in s.db.clients then s
      else s.(db := s.db.(clients := s.db.clients[c := false]), procs := s.procs + [NewProc(c, Idle)])
    case AddTask(c) =>
      if s.lock != Free then s else s.(db := s.db.(tasks := s.db.tasks + [Task(c, false, false)]))
    case SetHalt =>
      if s.lock != Free then s else s.(db := s.db.(clients := map c | c in s.db.clients :: true))
    case Advance(pid, over) => if pid < |s.procs| then AdvanceState(s, pid, over) else s
    case RecordError(pid) => if pid < |s.procs| then Record(s, pid, Counts(1, 0)) else s
    case RecordTest(pid) => if pid < |s.procs| then Record(s, pid, Counts(0, 1)) else s
    case EndTask(pid) =>
      if pid < |s.procs| && s.procs[pid].pc.Running? && s.lock == Free
      then s.(db := s.db.(tasks := Ended(s.db.tasks, s.procs[pid].pc.id))) else s
    case Deregister(pid) =>
      if pid < |s.procs| && s.procs[pid].pc.Running? && s.lock == Free
      then s.(db := Without(s.db, s.procs[pid].client)) else s
    case ScriptDone(pid) =>
      if pid < |s.procs| && s.procs[pid].pc.Running?
      then s.(procs := s.procs[pid := s.procs[pid].(pc := Idle)]) else s
    case ExitScript(pid) =>
      if pid < |s.procs| && s.procs[pid].pc.Running? then Die(s, pid, LeftByScript) else s
    case Kill(pid) =>
      if pid < |s.procs| && Alive(s.procs[pid]) then Die(s, pid, Died) else s
  }

  function Run(events: seq<Event>): State {
    if events == [] then Init() else Step(Run(events[..|events| - 1]), events[|events| - 1])
  }

  // ---------- the specification: an atomic claim ----------

  /** What the protocol is for: a list of tasks, each free or handed out, and the order of
      the handouts. */
  datatype Spec = Spec(tasks: seq<Task>, handed: seq<Handout>)

  function Bare(t: Task): Task {
    t.(ended := false)
  }

  function BareTasks(tasks: seq<Task>): (b: seq<Task>)
    ensures |b| == |tasks|
    ensures forall i :: 0 <= i < |b| ==> b[i] == Bare(tasks[i])
  {
    seq(|tasks|, i requires 0 <= i < |tasks| => Bare(tasks[i]))
  }

  function Abstract(s: State): Spec {
    Spec(BareTasks(s.db.tasks), s.handed)
  }

  datatype SpecEvent = SpecNothing | SpecAdd(client: nat) | SpecClaim(pid: nat, client: nat)

  /** One atomic step: add a task at the end, or hand the client's first free task to the
      process. */
  function SpecStep(a: Spec, e: SpecEvent): Spec {
    match e
    case SpecNothing => a
    case SpecAdd(c) => a.(tasks := a.tasks + [Task(c, false, false)])
    case SpecClaim(pid, c) =>
      var id := FirstWaiting(a.tasks, c, 0);
      if id == |a.tasks| then a
      else Spec(a.tasks[id := a.tasks[id].(started := true)], a.handed + [Handout(pid, c, id)])
  }

  // ---------- the inductive invariant ----------

  /** The task table of the working copy, from the published one. */
  function WorkTasks(tasks: seq<Task>, p: Proc): seq<Task> {
    if p.pc.CommitTask? then Started(tasks, p.pc.id) else tasks
  }

  predicate Added(sum: Counts, a: Counts, b: Counts) {
    sum.errors == a.errors + b.errors && sum.tests == a.tests + b.tests
  }

  predicate CountsOk(p: Proc) {
    && 0 <= p.local.errors && 0 <= p.local.tests && 0 <= p.pending.errors && 0 <= p.pending.tests
    && 0 <= p.carried.errors && 0 <= p.carried.tests
    && (!InTransaction(p) || p.pc == Flush ==> Nothing(p.pending))
    && (if Alive(p) then Nothing(p.carried) else Nothing(p.local))
  }

  /** What a process in a transaction knows about its working copy. */
  predicate WorkOk(p: Proc, db: Db, work: Db) {
    && work.tasks == WorkTasks(db.tasks, p)
    && Added(work.counts, db.counts, p.pending)
    && (p.pc.CommitTask? ==> p.pc.id == Waiting(db.tasks, p.client) < |db.tasks|)
  }

  predicate ProcOk(p: Proc, holds: bool, db: Db, work: Db) {
    && (InTransaction(p) <==> holds)
    && CountsOk(p)
    && (InTransaction(p) ==> WorkOk(p, db, work))
  }

  ghost predicate ProcInv(s: State, pid: nat)
    requires pid < |s.procs|
  {
    ProcOk(s.procs[pid], s.lock == Held(pid), s.db, s.work)
  }

  ghost predicate AllProcs(s: State) {
    forall pid :: 0 <= pid < |s.procs| ==> ProcInv(s, pid)
  }

  /** What a process still has, or took with it. */
  function Errors(p: Proc): int {
    p.local.errors + p.pending.errors + p.carried.errors
  }

  function Tests(p: Proc): int {
    p.local.tests + p.pending.tests + p.carried.tests
  }

  /** The sum over the first `n` processes. */
  function SumTo(procs: seq<Proc>, n: nat, of: Proc -> int): int
    requires n <= |procs|
  {
    if n == 0 then 0 else SumTo(procs, n - 1, of) + of(procs[n - 1])
  }

  function Sum(procs: seq<Proc>, of: Proc -> int): int {
    SumTo(procs, |procs|, of)
  }

  /** Every handout is of a started task of its client. */
  ghost predicate HandoutsRight(a: Spec) {
    forall i :: 0 <= i < |a.handed| ==> HandedRight(a.tasks, a.handed[i])
  }

  /** No task is handed out twice. */
  ghost predicate AtMostOnce(a: Spec) {
    forall i, j :: 0 <= i < j < |a.handed| ==> a.handed[i].id != a.handed[j].id
  }

  /** A client gets its tasks in the order of their ids. */
  ghost predicate LowestFirst(a: Spec) {
    forall i, j :: 0 <= i < j < |a.handed| && a.handed[i].client == a.handed[j].client ==>
      a.handed[i].id < a.handed[j].id
  }

  /** Nothing is started that was not handed out. */
  ghost predicate NoneSkipped(a: Spec) {
    forall k :: 0 <= k < |a.tasks| && a.tasks[k].started ==> WasHanded(a.handed, k)
  }

  /** A client's started tasks come before its free ones. */
  ghost predicate StartedFirst(tasks: seq<Task>) {
    forall k, l :: 0 <= k < |tasks| && 0 <= l < |tasks| && Overtakes(tasks[k], tasks[l]) ==> k < l
  }

  predicate Overtakes(t: Task, u: Task) {
    t.client == u.client && t.started && !u.started
  }

  ghost predicate SpecInv(a: Spec) {
    HandoutsRight(a) && AtMostOnce(a) && LowestFirst(a) && NoneSkipped(a) && StartedFirst(a.tasks)
  }

  predicate HandedRight(tasks: seq<Task>, h: Handout) {
    h.id < |tasks| && tasks[h.id].client == h.client && tasks[h.id].started
  }

  ghost predicate WasHanded(handed: seq<Handout>, id: nat) {
    exists i :: 0 <= i < |handed| && handed[i].id == id
  }

  /** Everything recorded is in the database, with a process, or went down with one. */
  ghost predicate Conserved(s: State) {
    && s.db.counts.errors + Sum(s.procs, Errors) == s.recorded.errors
    && s.db.counts.tests + Sum(s.procs, Tests) == s.recorded.tests
  }

  ghost predicate HandedToOwners(s: State) {
    forall h :: h in s.handed ==> h.pid < |s.procs| && s.procs[h.pid].client == h.client
  }

  ghost predicate Inv(s: State) {
    && AllProcs(s)
    && (s.lock.Held? ==> s.lock.pid < |s.procs|)
    && SpecInv(Abstract(s))
    && Conserved(s)
    && HandedToOwners(s)
  }

  // ---------- sums ----------

  lemma {:induction false} SumUpdate(procs: seq<Proc>, n: nat, of: Proc -> int, i: nat, p: Proc)
    requires i < |procs| && n <= |procs|
    ensures SumTo(procs[i := p], n, of) == SumTo(procs, n, of) + if i < n then of(p) - of(procs[i]) else 0
  {
    if n > 0 {
      SumUpdate(procs, n - 1, of, i, p);
    }
  }

  lemma {:induction false} SumPrefix(procs: seq<Proc>, p: Proc, n: nat, of: Proc -> int)
    requires n <= |procs|
    ensures SumTo(procs + [p], n, of) == SumTo(procs, n, of)
  {
    if n > 0 {
      SumPrefix(procs, p, n - 1, of);
    }
  }

  // ---------- the atomic claim keeps its invariant ----------

  lemma SpecAddInv(a: Spec, c: nat)
    requires SpecInv(a)
    ensures SpecInv(SpecStep(a, SpecAdd(c)))
  {
    forall i | 0 <= i < |a.handed| ensures HandedRight(a.tasks + [Task(c, false, false)], a.handed[i]) {
      assert HandedRight(a.tasks, a.handed[i]);
    }
  }

  lemma ClaimedAfterOthers(a: Spec, c: nat)
    requires SpecInv(a) && FirstWaiting(a.tasks, c, 0) < |a.tasks|
    ensures var id := FirstWaiting(a.tasks, c, 0);
            forall i :: 0 <= i < |a.handed| ==>
              a.handed[i].id != id && (a.handed[i].client == c ==> a.handed[i].id < id)
  {
    var id := FirstWaiting(a.tasks, c, 0);
    forall i | 0 <= i < |a.handed|
      ensures a.handed[i].id != id && (a.handed[i].client == c ==> a.handed[i].id < id)
    {
      assert HandedRight(a.tasks, a.handed[i]);
      assert a.handed[i].client == c ==> Overtakes(a.tasks[a.handed[i].id], a.tasks[id]);
    }
  }

  lemma ClaimHandoutsRight(a: Spec, h: Handout)
    requires HandoutsRight(a) && h.id < |a.tasks| && a.tasks[h.id].client == h.client
    ensures HandoutsRight(Spec(a.tasks[h.id := a.tasks[h.id].(started := true)], a.handed + [h]))
  {
    var tasks := a.tasks[h.id := a.tasks[h.id].(started := true)];
    forall i | 0 <= i < |a.handed + [h]| ensures HandedRight(tasks, (a.handed + [h])[i]) {
      assert i < |a.handed| ==> HandedRight(a.tasks, a.handed[i]);
    }
  }

  lemma ClaimNoneSkipped(a: Spec, h: Handout)
    requires NoneSkipped(a) && h.id < |a.tasks|
    ensures NoneSkipped(Spec(a.tasks[h.id := a.tasks[h.id].(started := true)], a.handed + [h]))
  {
    var tasks := a.tasks[h.id := a.tasks[h.id].(started := true)];
    var handed := a.handed + [h];
    forall k | 0 <= k < |tasks| && tasks[k].started ensures WasHanded(handed, k) {
      if k == h.id {
        assert handed[|a.handed|].id == k;
      } else {
        assert WasHanded(a.handed, k);
        var i :| 0 <= i < |a.handed| && a.handed[i].id == k;
        assert handed[i].id == k;
      }
    }
  }

  lemma ClaimStartedFirst(tasks: seq<Task>, c: nat, id: nat)
    requires StartedFirst(tasks) && id == FirstWaiting(tasks, c, 0) < |tasks|
    ensures StartedFirst(tasks[id := tasks[id].(started := true)])
  {
    var tasks' := tasks[id := tasks[id].(started := true)];
    forall k, l | 0 <= k < |tasks'| && 0 <= l < |tasks'| && Overtakes(tasks'[k], tasks'[l]) ensures k < l {
      var u := tasks[l];
      assert k != id ==> Overtakes(tasks[k], u);
    }
  }

  lemma SpecClaimInv(a: Spec, pid: nat, c: nat)
    requires SpecInv(a)
    ensures SpecInv(SpecStep(a, SpecClaim(pid, c)))
  {
    var id := FirstWaiting(a.tasks, c, 0);
    if id < |a.tasks| {
      ClaimedAfterOthers(a, c);
      ClaimHandoutsRight(a, Handout(pid, c, id));
      ClaimNoneSkipped(a, Handout(pid, c, id));
      ClaimStartedFirst(a.tasks, c, id);
    }
  }

  lemma SpecStepInv(a: Spec, e: SpecEvent)
    requires SpecInv(a)
    ensures SpecInv(SpecStep(a, e))
  {
    match e
    case SpecNothing =>
    case SpecAdd(c) => SpecAddInv(a, c);
    case SpecClaim(pid, c) => SpecClaimInv(a, pid, c);
  }

  // ---------- the protocol refines the atomic claim ----------

  /** The atomic step that an event amounts to. */
  function SpecEventOf(s: State, e: Event): SpecEvent {
    match e
    case AddTask(c) => if s.lock == Free then SpecAdd(c) else SpecNothing
    case Advance(pid, _) =>
      if pid < |s.procs| && s.procs[pid].pc.CommitTask? then SpecClaim(pid, s.procs[pid].client) else SpecNothing
    case _ => SpecNothing
  }

  lemma {:induction false} BareWaiting(tasks: seq<Task>, c: nat, from: nat)
    requires from <= |tasks|
    ensures FirstWaiting(BareTasks(tasks), c, from) == FirstWaiting(tasks, c, from)
    decreases |tasks| - from
  {
    if from < |tasks| {
      BareWaiting(tasks, c, from + 1);
    }
  }

  lemma BareStarted(tasks: seq<Task>, id: nat)
    requires id < |tasks|
    ensures BareTasks(Started(tasks, id)) == BareTasks(tasks)[id := BareTasks(tasks)[id].(started := true)]
  {
  }

  lemma BareEnded(tasks: seq<Task>, id: nat)
    ensures BareTasks(Ended(tasks, id)) == BareTasks(tasks)
  {
  }

  lemma BareAdded(tasks: seq<Task>, t: Task)
    ensures BareTasks(tasks + [t]) == BareTasks(tasks) + [Bare(t)]
  {
  }

  lemma RefinesAdvance(s: State, pid: nat, over: bool)
    requires pid < |s.procs| && ProcInv(s, pid)
    ensures Abstract(AdvanceState(s, pid, over)) == SpecStep(Abstract(s), SpecEventOf(s, Advance(pid, over)))
  {
    var p := s.procs[pid];
    if p.pc.CommitTask? {
      BareWaiting(s.db.tasks, p.client, 0);
      BareStarted(s.db.tasks, p.pc.id);
    }
  }

  /** Every event of the protocol is one atomic step of the specification, or none: the
      transaction takes effect at its COMMIT, and a death before that leaves no trace. */
  lemma Refines(s: State, e: Event)
    requires AllProcs(s)
    ensures Abstract(Step(s, e)) == SpecStep(Abstract(s), SpecEventOf(s, e))
  {
    match e
    case Advance(pid, over) =>
      if pid < |s.procs| {
        assert ProcInv(s, pid);
        RefinesAdvance(s, pid, over);
      }
    case EndTask(pid) =>
      if pid < |s.procs| && s.procs[pid].pc.Running? {
        BareEnded(s.db.tasks, s.procs[pid].pc.id);
      }
    case AddTask(c) =>
      BareAdded(s.db.tasks, Task(c, false, false));
    case _ =>
  }

  // ---------- one step of one process ----------

  predicate HoldsAfter(p: Proc, free: bool, holds: bool) {
    if Commits(p) then false else (p.pc == Idle && free) || holds
  }

  function DbAfter(p: Proc, db: Db, work: Db): Db {
    if Commits(p) then work else db
  }

  /** The step of the process keeps what it knows about itself and its working copy. */
  ghost predicate KeepsOwn(p: Proc, free: bool, holds: bool, db: Db, work: Db, over: bool) {
    ProcOk(AdvanceProc(p, free, work, over), HoldsAfter(p, free, holds), DbAfter(p, db, work),
           AdvanceWork(p, free, db, work, over))
  }

  lemma OwnIdle(p: Proc, free: bool, holds: bool, db: Db, work: Db, over: bool)
    requires ProcOk(p, holds, db, work) && p.pc == Idle
    ensures KeepsOwn(p, free, holds, db, work, over)
  {
  }

  lemma OwnFlush(p: Proc, free: bool, holds: bool, db: Db, work: Db, over: bool)
    requires ProcOk(p, holds, db, work) && p.pc == Flush
    ensures KeepsOwn(p, free, holds, db, work, over)
  {
  }

  lemma OwnCheckHalt(p: Proc, free: bool, holds: bool, db: Db, work: Db, over: bool)
    requires ProcOk(p, holds, db, work) && p.pc == CheckHalt
    ensures KeepsOwn(p, free, holds, db, work, over)
  {
  }

  lemma OwnPickTask(p: Proc, free: bool, holds: bool, db: Db, work: Db, over: bool)
    requires ProcOk(p, holds, db, work) && p.pc == PickTask
    ensures KeepsOwn(p, free, holds, db, work, over)
  {
  }

  lemma OwnEnding(p: Proc, free: bool, holds: bool, db: Db, work: Db, over: bool)
    requires ProcOk(p, holds, db, work) && (p.pc == CommitHalt || p.pc == CommitGiveUp)
    ensures KeepsOwn(p, free, holds, db, work, over)
  {
  }

  lemma OwnCommit(p: Proc, free: bool, holds: bool, db: Db, work: Db, over: bool)
    requires ProcOk(p, holds, db, work) && (p.pc.CommitTask? || p.pc == CommitNothing)
    ensures KeepsOwn(p, free, holds, db, work, over)
  {
  }

  lemma OwnRest(p: Proc, free: bool, holds: bool, db: Db, work: Db, over: bool)
    requires ProcOk(p, holds, db, work) && !InTransaction(p) && p.pc != Idle
    ensures KeepsOwn(p, free, holds, db, work, over)
  {
  }

  lemma OwnStep(p: Proc, free: bool, holds: bool, db: Db, work: Db, over: bool)
    requires ProcOk(p, holds, db, work)
    ensures KeepsOwn(p, free, holds, db, work, over)
  {
    match p.pc
    case Idle => OwnIdle(p, free, holds, db, work, over);
    case Flush => OwnFlush(p, free, holds, db, work, over);
    case CheckHalt => OwnCheckHalt(p, free, holds, db, work, over);
    case PickTask => OwnPickTask(p, free, holds, db, work, over);
    case CommitHalt => OwnEnding(p, free, holds, db, work, over);
    case CommitGiveUp => OwnEnding(p, free, holds, db, work, over);
    case CommitTask(_) => OwnCommit(p, free, holds, db, work, over);
    case CommitNothing => OwnCommit(p, free, holds, db, work, over);
    case _ => OwnRest(p, free, holds, db, work, over);
  }

  /** What the step moves between the process and the database balances, in errors. */
  lemma ErrorsBalance(p: Proc, free: bool, holds: bool, db: Db, work: Db, over: bool)
    requires ProcOk(p, holds, db, work)
    ensures DbAfter(p, db, work).counts.errors + Errors(AdvanceProc(p, free, work, over)) ==
            db.counts.errors + Errors(p) + if GivesUp(p, work, over) then 1 else 0
  {
  }

  lemma TestsBalance(p: Proc, free: bool, holds: bool, db: Db, work: Db, over: bool)
    requires ProcOk(p, holds, db, work)
    ensures DbAfter(p, db, work).counts.tests + Tests(AdvanceProc(p, free, work, over)) ==
            db.counts.tests + Tests(p)
  {
  }

  // ---------- the invariant is inductive ----------

  /** A process outside a transaction does not depend on the database. */
  lemma IndependentOutside(p: Proc, db: Db, work: Db, db': Db, work': Db)
    requires ProcOk(p, false, db, work)
    ensures ProcOk(p, false, db', work')
  {
  }

  lemma AdvanceOthers(s: State, pid: nat, over: bool, q: nat)
    requires AllProcs(s) && pid < |s.procs| && q < |s.procs| && q != pid
    ensures ProcInv(AdvanceState(s, pid, over), q)
  {
    var s' := AdvanceState(s, pid, over);
    assert ProcInv(s, q) && ProcInv(s, pid);
    if s.lock != Held(q) {
      assert s'.lock != Held(q);
      IndependentOutside(s.procs[q], s.db, s.work, s'.db, s'.work);
    }
  }

  lemma AdvanceProcs(s: State, pid: nat, over: bool)
    requires AllProcs(s) && pid < |s.procs|
    ensures AllProcs(AdvanceState(s, pid, over))
  {
    var s' := AdvanceState(s, pid, over);
    assert ProcInv(s, pid);
    OwnStep(s.procs[pid], s.lock == Free, s.lock == Held(pid), s.db, s.work, over);
    forall q | 0 <= q < |s'.procs| ensures ProcInv(s', q) {
      if q != pid {
        AdvanceOthers(s, pid, over, q);
      }
    }
  }

  /** One process, the shared counters and the record change in balance. */
  lemma ConservedByOne(s: State, pid: nat, s': State)
    requires Conserved(s) && pid < |s.procs| == |s'.procs| && s'.procs == s.procs[pid := s'.procs[pid]]
    requires s'.db.counts.errors + Errors(s'.procs[pid]) - s'.recorded.errors ==
             s.db.counts.errors + Errors(s.procs[pid]) - s.recorded.errors
    requires s'.db.counts.tests + Tests(s'.procs[pid]) - s'.recorded.tests ==
             s.db.counts.tests + Tests(s.procs[pid]) - s.recorded.tests
    ensures Conserved(s')
  {
    SumUpdate(s.procs, |s.procs|, Errors, pid, s'.procs[pid]);
    SumUpdate(s.procs, |s.procs|, Tests, pid, s'.procs[pid]);
  }

  lemma AdvanceConserved(s: State, pid: nat, over: bool)
    requires Conserved(s) && pid < |s.procs| && ProcInv(s, pid)
    ensures Conserved(AdvanceState(s, pid, over))
  {
    var p := s.procs[pid];
    ErrorsBalance(p, s.lock == Free, s.lock == Held(pid), s.db, s.work, over);
    TestsBalance(p, s.lock == Free, s.lock == Held(pid), s.db, s.work, over);
    ConservedByOne(s, pid, AdvanceState(s, pid, over));
  }

  lemma ClientStays(p: Proc, free: bool, work: Db, over: bool)
    ensures AdvanceProc(p, free, work, over).client == p.client
  {
  }

  lemma AdvanceHanded(s: State, pid: nat, over: bool)
    requires HandedToOwners(s) && pid < |s.procs|
    ensures HandedToOwners(AdvanceState(s, pid, over))
  {
    ClientStays(s.procs[pid], s.lock == Free, s.work, over);
  }

  lemma AdvanceInv(s: State, pid: nat, over: bool)
    requires Inv(s) && pid < |s.procs|
    ensures Inv(AdvanceState(s, pid, over))
  {
    assert ProcInv(s, pid);
    AdvanceProcs(s, pid, over);
    AdvanceConserved(s, pid, over);
    AdvanceHanded(s, pid, over);
    RefinesAdvance(s, pid, over);
    SpecStepInv(Abstract(s), SpecEventOf(s, Advance(pid, over)));
  }

  /** A process changes but keeps its client, the lock unless it held it, and what it knows. */
  lemma ChangeInv(s: State, pid: nat, s': State)
    requires Inv(s) && pid < |s.procs| == |s'.procs| && s'.procs == s.procs[pid := s'.procs[pid]]
    requires s'.procs[pid].client == s.procs[pid].client
    requires s'.db == s.db && s'.work == s.work && s'.handed == s.handed
    requires s'.lock == s.lock || (s.lock == Held(pid) && s'.lock == Free)
    requires ProcInv(s', pid) && Conserved(s')
    ensures Inv(s')
  {
    forall q | 0 <= q < |s'.procs| ensures ProcInv(s', q) {
      assert ProcInv(s, q);
    }
  }

  lemma RecordOk(p: Proc, holds: bool, db: Db, work: Db, amount: Counts)
    requires ProcOk(p, holds, db, work) && Alive(p) && amount.errors >= 0 && amount.tests >= 0
    ensures ProcOk(p.(local := Plus(p.local, amount)), holds, db, work)
  {
  }

  lemma RecordInv(s: State, pid: nat, amount: Counts)
    requires Inv(s) && pid < |s.procs| && amount.errors >= 0 && amount.tests >= 0
    ensures Inv(Record(s, pid, amount))
  {
    var s' := Record(s, pid, amount);
    assert ProcInv(s, pid);
    if Alive(s.procs[pid]) {
      RecordOk(s.procs[pid], s.lock == Held(pid), s.db, s.work, amount);
      ConservedByOne(s, pid, s');
      ChangeInv(s, pid, s');
    }
  }

  lemma EndingOk(p: Proc, holds: bool, db: Db, work: Db, how: Exit)
    requires ProcOk(p, holds, db, work) && Alive(p)
    ensures ProcOk(Ending(p, how, Plus(p.local, p.pending)), false, db, work)
  {
  }

  lemma DieInv(s: State, pid: nat, how: Exit)
    requires Inv(s) && pid < |s.procs| && Alive(s.procs[pid])
    ensures Inv(Die(s, pid, how))
  {
    var s' := Die(s, pid, how);
    assert ProcInv(s, pid);
    EndingOk(s.procs[pid], s.lock == Held(pid), s.db, s.work, how);
    ConservedByOne(s, pid, s');
    ChangeInv(s, pid, s');
  }

  /** A statement that commits by itself changes the database while nobody holds the lock. */
  lemma DbInv(s: State, db: Db)
    requires Inv(s) && s.lock == Free && db.counts == s.db.counts
    requires SpecInv(Spec(BareTasks(db.tasks), s.handed))
    ensures Inv(s.(db := db))
  {
    var s' := s.(db := db);
    forall q | 0 <= q < |s.procs| ensures ProcInv(s', q) {
      assert ProcInv(s, q);
      IndependentOutside(s.procs[q], s.db, s.work, db, s.work);
    }
  }

  lemma SpawnProcs(s: State, p: Proc, s': State)
    requires AllProcs(s) && ProcOk(p, false, s.db, s.work) && s'.lock == s.lock == Free
    requires s'.procs == s.procs + [p] && s'.db == s.db && s'.work == s.work
    ensures AllProcs(s')
  {
    forall q | 0 <= q < |s'.procs| ensures ProcInv(s', q) {
      assert q < |s.procs| ==> ProcInv(s, q);
    }
  }

  lemma SpawnConserved(s: State, p: Proc, s': State)
    requires Conserved(s) && Errors(p) == Tests(p) == 0
    requires s'.procs == s.procs + [p] && s'.db == s.db && s'.recorded == s.recorded
    ensures Conserved(s')
  {
    SumPrefix(s.procs, p, |s.procs|, Errors);
    SumPrefix(s.procs, p, |s.procs|, Tests);
  }

  lemma SpawnInv(s: State, p: Proc, s': State)
    requires Inv(s) && s.lock == Free && p.pc == Idle && Nothing(p.local) && Nothing(p.pending) && Nothing(p.carried)
    requires s' == s.(procs := s.procs + [p])
    ensures Inv(s')
  {
    SpawnProcs(s, p, s');
    SpawnConserved(s, p, s');
  }

  lemma StartClientInv(s: State, c: nat, s': State)
    requires Inv(s) && s' == Step(s, StartClient(c))
    ensures Inv(s')
  {
    if s.lock == Free && c !in s.db.clients {
      var d := s.db.(clients := s.db.clients[c := false]);
      DbInv(s, d);
      SpawnInv(s.(db := d), NewProc(c, Idle), s');
    }
  }

  lemma ScriptDoneInv(s: State, pid: nat)
    requires Inv(s)
    ensures Inv(Step(s, ScriptDone(pid)))
  {
    if pid < |s.procs| && s.procs[pid].pc.Running? {
      var s' := Step(s, ScriptDone(pid));
      assert ProcInv(s, pid);
      ConservedByOne(s, pid, s');
      ChangeInv(s, pid, s');
    }
  }

  lemma AddTaskInv(s: State, c: nat)
    requires Inv(s)
    ensures Inv(Step(s, AddTask(c)))
  {
    if s.lock == Free {
      BareAdded(s.db.tasks, Task(c, false, false));
      SpecAddInv(Abstract(s), c);
      DbInv(s, s.db.(tasks := s.db.tasks + [Task(c, false, false)]));
    }
  }

  lemma EndTaskInv(s: State, pid: nat)
    requires Inv(s)
    ensures Inv(Step(s, EndTask(pid)))
  {
    if pid < |s.procs| && s.procs[pid].pc.Running? && s.lock == Free {
      BareEnded(s.db.tasks, s.procs[pid].pc.id);
      DbInv(s, s.db.(tasks := Ended(s.db.tasks, s.procs[pid].pc.id)));
    }
  }

  lemma StepInv(s: State, e: Event)
    requires Inv(s)
    ensures Inv(Step(s, e))
  {
    match e
    case StartClient(c) => StartClientInv(s, c, Step(s, e));
    case AddTask(c) => AddTaskInv(s, c);
    case SetHalt => if s.lock == Free { DbInv(s, s.db.(clients := map c | c in s.db.clients :: true)); }
    case Advance(pid, over) => if pid < |s.procs| { AdvanceInv(s, pid, over); }
    case RecordError(pid) => if pid < |s.procs| { RecordInv(s, pid, Counts(1, 0)); }
    case RecordTest(pid) => if pid < |s.procs| { RecordInv(s, pid, Counts(0, 1)); }
    case EndTask(pid) => EndTaskInv(s, pid);
    case Deregister(pid) =>
      if pid < |s.procs| && s.procs[pid].pc.Running? && s.lock == Free {
        DbInv(s, Without(s.db, s.procs[pid].client));
      }
    case ScriptDone(pid) => ScriptDoneInv(s, pid);
    case ExitScript(pid) => if pid < |s.procs| && s.procs[pid].pc.Running? { DieInv(s, pid, LeftByScript); }
    case Kill(pid) => if pid < |s.procs| && Alive(s.procs[pid]) { DieInv(s, pid, Died); }
  }

  lemma FirstProcs(s: State, p: Proc)
    requires s.procs == [p] && s.lock == Free
    requires p.pc == Master && Nothing(p.local) && Nothing(p.pending) && Nothing(p.carried)
    ensures AllProcs(s)
  {
    assert ProcInv(s, 0);
  }

  lemma FirstConserved(s: State, p: Proc)
    requires s.procs == [p] && Errors(p) == Tests(p) == 0 && Nothing(s.db.counts) && Nothing(s.recorded)
    ensures Conserved(s)
  {
    assert SumTo(s.procs, 0, Errors) == SumTo(s.procs, 0, Tests) == 0;
  }

  lemma FirstSpec(s: State)
    requires s.db.tasks == [] && s.handed == []
    ensures SpecInv(Abstract(s)) && HandedToOwners(s)
  {
  }

  lemma FirstInv(s: State, p: Proc)
    requires s.procs == [p] && s.lock == Free && s.db.tasks == [] && s.handed == []
    requires p.pc == Master && Nothing(p.local) && Nothing(p.pending) && Nothing(p.carried)
    requires Nothing(s.db.counts) && Nothing(s.recorded)
    ensures Inv(s)
  {
    FirstProcs(s, p);
    FirstConserved(s, p);
    FirstSpec(s);
  }

  lemma {:induction false} RunInv(events: seq<Event>)
    ensures Inv(Run(events))
  {
    if events == [] {
      FirstInv(Init(), NewProc(0, Master));
    } else {
      RunInv(events[..|events| - 1]);
      StepInv(Run(events[..|events| - 1]), events[|events| - 1]);
    }
  }
}
