/** One turn of startScript over whole runs: with anything that other processes do in between,
    a process that starts a turn obeys the halt flag, takes its client's first waiting task,
    gives up, or goes back to sleep; and it only ever halts if it was told to. */
module TaskTurns {
  import opened TaskClaim

  // ---------- other processes do not disturb a transaction ----------

  predicate Names(e: Event, pid: nat) {
    match e
    case Advance(q, _) => q == pid
    case RecordError(q) => q == pid
    case RecordTest(q) => q == pid
    case EndTask(q) => q == pid
    case Deregister(q) => q == pid
    case ScriptDone(q) => q == pid
    case ExitScript(q) => q == pid
    case Kill(q) => q == pid
    case _ => false
  }

  ghost predicate Foreign(more: seq<Event>, pid: nat) {
    forall i :: 0 <= i < |more| ==> !Names(more[i], pid)
  }

  /** Everything a process in a transaction works with. */
  datatype View = View(p: Proc, db: Db, work: Db, lock: Lock, handed: seq<Handout>)

  function ViewOf(s: State, pid: nat): View
    requires pid < |s.procs|
  {
    View(s.procs[pid], s.db, s.work, s.lock, s.handed)
  }

  lemma StepUndisturbed(s: State, e: Event, pid: nat)
    requires AllProcs(s) && pid < |s.procs| && s.lock == Held(pid) && !Names(e, pid)
    ensures pid < |Step(s, e).procs| && ViewOf(Step(s, e), pid) == ViewOf(s, pid)
  {
    if e.Advance? && e.pid < |s.procs| {
      assert ProcInv(s, e.pid);
    }
  }

  lemma {:induction false} Undisturbed(events: seq<Event>, more: seq<Event>, pid: nat)
    requires pid < |Run(events).procs| && Run(events).lock == Held(pid) && Foreign(more, pid)
    ensures pid < |Run(events + more).procs| && ViewOf(Run(events + more), pid) == ViewOf(Run(events), pid)
  {
    if more == [] {
      assert events + more == events;
    } else {
      var n := |more| - 1;
      Undisturbed(events, more[..n], pid);
      RunUndisturbed(events + more[..n], more[n], pid);
      assert events + more[..n] + [more[n]] == events + more;
    }
  }

  lemma RunUndisturbed(events: seq<Event>, e: Event, pid: nat)
    requires pid < |Run(events).procs| && Run(events).lock == Held(pid) && !Names(e, pid)
    ensures pid < |Run(events + [e]).procs| && ViewOf(Run(events + [e]), pid) == ViewOf(Run(events), pid)
  {
    RunInv(events);
    StepUndisturbed(Run(events), e, pid);
    assert (events + [e])[..|events|] == events;
  }

  /** What a process's own step makes of its view. */
  function Advanced(v: View, pid: nat, over: bool): View {
    View(AdvanceProc(v.p, v.lock == Free, v.work, over),
         if Commits(v.p) then v.work else v.db,
         AdvanceWork(v.p, v.lock == Free, v.db, v.work, over),
         AdvanceLock(v.p, pid, v.lock),
         if v.p.pc.CommitTask? then v.handed + [Handout(pid, v.p.client, v.p.pc.id)] else v.handed)
  }

  lemma RunAdvance(events: seq<Event>, pid: nat, over: bool)
    requires pid < |Run(events).procs|
    ensures pid < |Run(events + [Advance(pid, over)]).procs|
    ensures ViewOf(Run(events + [Advance(pid, over)]), pid) == Advanced(ViewOf(Run(events), pid), pid, over)
  {
    assert (events + [Advance(pid, over)])[..|events|] == events;
  }

  /** A step of the process, after anything that others did. */
  lemma AdvanceAfter(events: seq<Event>, more: seq<Event>, pid: nat, over: bool)
    requires pid < |Run(events).procs| && Run(events).lock == Held(pid) && Foreign(more, pid)
    ensures pid < |Run(events + more + [Advance(pid, over)]).procs|
    ensures ViewOf(Run(events + more + [Advance(pid, over)]), pid) == Advanced(ViewOf(Run(events), pid), pid, over)
  {
    Undisturbed(events, more, pid);
    RunAdvance(events + more, pid, over);
  }

  // ---------- the four outcomes of a turn ----------

  /** The process can start a turn: it sleeps and nobody holds the lock. */
  predicate Ready(s: State, pid: nat) {
    pid < |s.procs| && s.procs[pid].pc == Idle && s.lock == Free
  }

  /** The first two steps, with anything that others do between them: the lock is taken and
      the counters are moved into the working copy. */
  function Opened(events: seq<Event>, pid: nat, over: bool, x: seq<Event>): seq<Event> {
    events + [Advance(pid, over)] + x + [Advance(pid, over)]
  }

  lemma Opens(events: seq<Event>, pid: nat, over: bool, x: seq<Event>)
    requires Ready(Run(events), pid) && Foreign(x, pid)
    ensures pid < |Run(Opened(events, pid, over, x)).procs|
    ensures var s, v := Run(events), ViewOf(Run(Opened(events, pid, over, x)), pid);
            && v.p.pc == CheckHalt && v.p.client == s.procs[pid].client && Nothing(v.p.local)
            && v.lock == Held(pid) && v.db == s.db && v.handed == s.handed
            && v.work == s.db.(counts := Plus(s.db.counts, s.procs[pid].local))
  {
    RunAdvance(events, pid, over);
    AdvanceAfter(events + [Advance(pid, over)], x, pid, over);
  }

  /** A process whose client is to halt ends, deregisters its client and takes no task; its
      counters are in the database. */
  lemma HaltIsObeyed(events: seq<Event>, pid: nat, over: bool, x: seq<Event>, y: seq<Event>, z: seq<Event>)
    requires Ready(Run(events), pid) && Foreign(x, pid) && Foreign(y, pid) && Foreign(z, pid)
    requires var s := Run(events); s.procs[pid].client in s.db.clients && s.db.clients[s.procs[pid].client]
    ensures var s, t := Run(events), Run(Opened(events, pid, over, x) + y + [Advance(pid, over)] + z + [Advance(pid, over)]);
            && pid < |t.procs| && t.procs[pid].pc == Gone(Halted) && Nothing(t.procs[pid].carried)
            && t.db == Db(s.db.tasks, s.db.clients - {s.procs[pid].client}, Plus(s.db.counts, s.procs[pid].local))
            && t.lock == Free && t.handed == s.handed
  {
    Opens(events, pid, over, x);
    var a := Opened(events, pid, over, x);
    AdvanceAfter(a, y, pid, over);
    AdvanceAfter(a + y + [Advance(pid, over)], z, pid, over);
  }

  /** The view of a process that is not told to halt and looks for a task. */
  lemma Looks(events: seq<Event>, pid: nat, over: bool, x: seq<Event>, y: seq<Event>)
    requires Ready(Run(events), pid) && Foreign(x, pid) && Foreign(y, pid)
    requires var s := Run(events); !(s.procs[pid].client in s.db.clients && s.db.clients[s.procs[pid].client])
    ensures pid < |Run(Opened(events, pid, over, x) + y + [Advance(pid, over)]).procs|
    ensures var s, v := Run(events), ViewOf(Run(Opened(events, pid, over, x) + y + [Advance(pid, over)]), pid);
            && v.p.pc == PickTask && v.p.client == s.procs[pid].client && Nothing(v.p.local)
            && v.lock == Held(pid) && v.db == s.db && v.handed == s.handed
            && v.work == s.db.(counts := Plus(s.db.counts, s.procs[pid].local))
  {
    Opens(events, pid, over, x);
    AdvanceAfter(Opened(events, pid, over, x), y, pid, over);
  }

  /** The whole turn of a process that is not told to halt. */
  function WholeTurn(events: seq<Event>, pid: nat, over: bool, x: seq<Event>, y: seq<Event>, z: seq<Event>, w: seq<Event>): seq<Event> {
    Opened(events, pid, over, x) + y + [Advance(pid, over)] + z + [Advance(pid, over)] + w + [Advance(pid, over)]
  }

  /** No task of the client with a smaller id than this waits. */
  predicate NoneWaits(tasks: seq<Task>, client: nat, id: nat) {
    forall k :: 0 <= k < id && k < |tasks| ==> tasks[k].client != client || tasks[k].started
  }

  lemma FirstIsUnique(tasks: seq<Task>, client: nat, id: nat)
    requires id <= |tasks| && NoneWaits(tasks, client, id)
    requires id < |tasks| ==> tasks[id].client == client && !tasks[id].started
    ensures Waiting(tasks, client) == id
  {
  }

  /** The last two steps of a turn that looks for a task. */
  lemma PickAndCommit(a: seq<Event>, pid: nat, over: bool, z: seq<Event>, w: seq<Event>)
    requires pid < |Run(a).procs| && Run(a).lock == Held(pid) && Run(a).procs[pid].pc == PickTask
    requires Foreign(z, pid) && Foreign(w, pid)
    ensures var all := a + z + [Advance(pid, over)] + w + [Advance(pid, over)];
            && pid < |Run(all).procs|
            && ViewOf(Run(all), pid) == Advanced(Advanced(ViewOf(Run(a), pid), pid, over), pid, over)
  {
    AdvanceAfter(a, z, pid, over);
    AdvanceAfter(a + z + [Advance(pid, over)], w, pid, over);
  }

  lemma TakesTask(v: View, pid: nat, over: bool, id: nat)
    requires v.p.pc == PickTask && v.lock == Held(pid) && v.work.tasks == v.db.tasks
    requires id < |v.db.tasks| && v.db.tasks[id].client == v.p.client && !v.db.tasks[id].started
    requires NoneWaits(v.db.tasks, v.p.client, id)
    ensures var t := Advanced(Advanced(v, pid, over), pid, over);
            && t.p.pc == Running(id) && t.lock == Free && t.handed == v.handed + [Handout(pid, v.p.client, id)]
            && t.db == v.work.(tasks := v.work.tasks[id := v.work.tasks[id].(started := true)])
  {
    FirstIsUnique(v.db.tasks, v.p.client, id);
  }

  lemma SleepsAgain(v: View, pid: nat)
    requires v.p.pc == PickTask && v.lock == Held(pid) && v.work.tasks == v.db.tasks
    requires NoneWaits(v.db.tasks, v.p.client, |v.db.tasks|)
    ensures var t := Advanced(Advanced(v, pid, false), pid, false);
            t.p.pc == Idle && t.lock == Free && t.handed == v.handed && t.db == v.work
  {
    FirstIsUnique(v.db.tasks, v.p.client, |v.db.tasks|);
  }

  predicate OneError(a: Counts) {
    a.errors == 1 && a.tests == 0
  }

  lemma Tires(v: View, pid: nat, over: bool, u: View)
    requires v.p.pc == PickTask && v.lock == Held(pid) && v.work.tasks == v.db.tasks
    requires NoneWaits(v.db.tasks, v.p.client, |v.db.tasks|) && over && u == Advanced(v, pid, over)
    ensures u.p.pc == CommitGiveUp && u.p.client == v.p.client && u.lock == Held(pid)
    ensures u.p.local.errors == v.p.local.errors + 1 && u.p.local.tests == v.p.local.tests
    ensures u.work == v.work.(clients := v.work.clients - {v.p.client}) && u.handed == v.handed
  {
    FirstIsUnique(v.db.tasks, v.p.client, |v.db.tasks|);
  }

  lemma LeavesTired(u: View, pid: nat, over: bool)
    requires u.p.pc == CommitGiveUp && OneError(u.p.local) && u.lock == Held(pid)
    ensures var t := Advanced(u, pid, over);
            t.p.pc == Gone(GaveUp) && OneError(t.p.carried) && t.lock == Free && t.handed == u.handed && t.db == u.work
  {
  }

  /** Otherwise, if a task of its client waits, it takes the one with the smallest id: it runs
      it, and the task is marked started and handed to it. */
  lemma TaskIsTaken(events: seq<Event>, pid: nat, over: bool, x: seq<Event>, y: seq<Event>, z: seq<Event>, w: seq<Event>,
                    id: nat)
    requires Ready(Run(events), pid) && Foreign(x, pid) && Foreign(y, pid) && Foreign(z, pid) && Foreign(w, pid)
    requires var s := Run(events);
             var client := s.procs[pid].client;
             && !(client in s.db.clients && s.db.clients[client])
             && id < |s.db.tasks| && s.db.tasks[id].client == client && !s.db.tasks[id].started
             && NoneWaits(s.db.tasks, client, id)
    ensures var s, t := Run(events), Run(WholeTurn(events, pid, over, x, y, z, w));
            && pid < |t.procs| && t.procs[pid].pc == Running(id)
            && t.db == Db(s.db.tasks[id := s.db.tasks[id].(started := true)], s.db.clients,
                          Plus(s.db.counts, s.procs[pid].local))
            && t.lock == Free && t.handed == s.handed + [Handout(pid, s.procs[pid].client, id)]
  {
    Looks(events, pid, over, x, y);
    var a := Opened(events, pid, over, x) + y + [Advance(pid, over)];
    PickAndCommit(a, pid, over, z, w);
    TakesTask(ViewOf(Run(a), pid), pid, over, id);
  }

  /** If none waits and it has not waited too long it sleeps again, and only its counters have
      changed. */
  lemma NothingToTake(events: seq<Event>, pid: nat, x: seq<Event>, y: seq<Event>, z: seq<Event>, w: seq<Event>)
    requires Ready(Run(events), pid) && Foreign(x, pid) && Foreign(y, pid) && Foreign(z, pid) && Foreign(w, pid)
    requires var s := Run(events);
             var client := s.procs[pid].client;
             && !(client in s.db.clients && s.db.clients[client])
             && NoneWaits(s.db.tasks, client, |s.db.tasks|)
    ensures var s, t := Run(events), Run(WholeTurn(events, pid, false, x, y, z, w));
            && pid < |t.procs| && t.procs[pid].pc == Idle
            && t.db == s.db.(counts := Plus(s.db.counts, s.procs[pid].local))
            && t.lock == Free && t.handed == s.handed
  {
    Looks(events, pid, false, x, y);
    var a := Opened(events, pid, false, x) + y + [Advance(pid, false)];
    PickAndCommit(a, pid, false, z, w);
    SleepsAgain(ViewOf(Run(a), pid), pid);
  }

  /** If it has waited too long it ends with an error that it takes with it, and deregisters
      its client. */
  lemma GivesUpWaiting(events: seq<Event>, pid: nat, x: seq<Event>, y: seq<Event>, z: seq<Event>, w: seq<Event>)
    requires Ready(Run(events), pid) && Foreign(x, pid) && Foreign(y, pid) && Foreign(z, pid) && Foreign(w, pid)
    requires var s := Run(events);
             var client := s.procs[pid].client;
             && !(client in s.db.clients && s.db.clients[client])
             && NoneWaits(s.db.tasks, client, |s.db.tasks|)
    ensures var s, t := Run(events), Run(WholeTurn(events, pid, true, x, y, z, w));
            && pid < |t.procs| && t.procs[pid].pc == Gone(GaveUp) && OneError(t.procs[pid].carried)
            && t.db == Db(s.db.tasks, s.db.clients - {s.procs[pid].client}, Plus(s.db.counts, s.procs[pid].local))
            && t.lock == Free && t.handed == s.handed
  {
    Looks(events, pid, true, x, y);
    var a := Opened(events, pid, true, x) + y + [Advance(pid, true)];
    PickAndCommit(a, pid, true, z, w);
    var u := Advanced(ViewOf(Run(a), pid), pid, true);
    Tires(ViewOf(Run(a), pid), pid, true, u);
    LeavesTired(u, pid, true);
  }

  lemma RunStep(events: seq<Event>, e: Event)
    ensures Run(events + [e]) == Step(Run(events), e)
  {
    assert (events + [e])[..|events|] == events;
  }

  lemma EndTaskStep(s: State, pid: nat, id: nat)
    requires pid < |s.procs| && s.procs[pid].pc == Running(id) && s.lock == Free && id < |s.db.tasks|
    ensures Step(s, EndTask(pid)) == s.(db := s.db.(tasks := s.db.tasks[id := s.db.tasks[id].(ended := true)]))
  {
  }

  lemma AfterEndTask(s: State, pid: nat, id: nat)
    requires pid < |s.procs| && s.procs[pid].pc == Running(id) && s.lock == Free
    ensures Step(s, Deregister(pid)) == s.(db := s.db.(clients := s.db.clients - {s.procs[pid].client}))
    ensures Step(s, ScriptDone(pid)) == s.(procs := s.procs[pid := s.procs[pid].(pc := Idle)])
  {
  }

  /** When a script ends its task is marked, and with a shutdown its client is deregistered;
      then the process is ready for its next turn. Nothing else changes. */
  lemma ScriptEnds(events: seq<Event>, pid: nat, id: nat)
    requires pid < |Run(events).procs| && Run(events).procs[pid].pc == Running(id) && Run(events).lock == Free
    requires id < |Run(events).db.tasks|
    ensures var s, t := Run(events), Run(events + [EndTask(pid)]);
            && t == s.(db := s.db.(tasks := s.db.tasks[id := s.db.tasks[id].(ended := true)]))
            && Run(events + [EndTask(pid)] + [Deregister(pid)]) ==
               t.(db := t.db.(clients := t.db.clients - {s.procs[pid].client}))
            && Run(events + [EndTask(pid)] + [ScriptDone(pid)]) ==
               t.(procs := t.procs[pid := s.procs[pid].(pc := Idle)])
  {
    RunStep(events, EndTask(pid));
    EndTaskStep(Run(events), pid, id);
    RunStep(events + [EndTask(pid)], Deregister(pid));
    RunStep(events + [EndTask(pid)], ScriptDone(pid));
    AfterEndTask(Run(events + [EndTask(pid)]), pid, id);
  }

  // ---------- who halts was told to ----------

  predicate Told(s: State, e: Event, pid: nat) {
    e.SetHalt? && s.lock == Free && pid < |s.procs| && s.procs[pid].client in s.db.clients
  }

  /** At some moment the master set all halt flags, and the client of the process was
      registered. */
  predicate WasTold(events: seq<Event>, pid: nat) {
    events != [] &&
    (WasTold(events[..|events| - 1], pid) || Told(Run(events[..|events| - 1]), events[|events| - 1], pid))
  }

  /** Halt flags in the database, in a working copy, or acted on, come from being told. */
  predicate FlagsOk(s: State, pid: nat, told: bool)
    requires pid < |s.procs|
  {
    var p := s.procs[pid];
    !told ==>
      && !(p.client in s.db.clients && s.db.clients[p.client])
      && !(s.lock.Held? && p.client in s.work.clients && s.work.clients[p.client])
      && p.pc != CommitHalt && p.pc != Gone(Halted)
  }

  lemma AdvanceFlags(s: State, q: nat, over: bool, pid: nat, told: bool)
    requires AllProcs(s) && q < |s.procs| && pid < |s.procs| && FlagsOk(s, pid, told)
    ensures FlagsOk(AdvanceState(s, q, over), pid, told)
  {
    assert ProcInv(s, q);
  }

  lemma StepFlags(s: State, e: Event, pid: nat, told: bool)
    requires AllProcs(s) && pid < |s.procs| && FlagsOk(s, pid, told)
    ensures pid < |Step(s, e).procs| && FlagsOk(Step(s, e), pid, told || Told(s, e, pid))
  {
    if e.Advance? && e.pid < |s.procs| {
      AdvanceFlags(s, e.pid, e.patienceOver, pid, told);
    }
  }

  lemma NewFlags(s: State, e: Event, pid: nat, told: bool)
    requires AllProcs(s) && |s.procs| <= pid < |Step(s, e).procs|
    ensures FlagsOk(Step(s, e), pid, told)
  {
  }

  lemma {:induction false} RunFlags(events: seq<Event>, pid: nat)
    requires pid < |Run(events).procs|
    ensures FlagsOk(Run(events), pid, WasTold(events, pid))
  {
    if events != [] {
      var before, e := events[..|events| - 1], events[|events| - 1];
      RunInv(before);
      if pid < |Run(before).procs| {
        RunFlags(before, pid);
        StepFlags(Run(before), e, pid, WasTold(before, pid));
      } else {
        NewFlags(Run(before), e, pid, WasTold(events, pid));
      }
    }
  }

  /** A process that has halted was told to: the master set the halt flags while the process
      existed and its client was registered. */
  lemma WhoHaltsWasTold(events: seq<Event>, pid: nat)
    requires pid < |Run(events).procs| && Run(events).procs[pid].pc == Gone(Halted)
    ensures WasTold(events, pid)
  {
    RunFlags(events, pid);
  }
}
