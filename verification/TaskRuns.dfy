/** What holds of every run of the task coordination: it is a run of atomic claims, each task
    is handed out at most once and in order, and the counters are conserved up to what the
    Summary line misses. */
module TaskRuns {
  import opened TaskClaim

  // ---------- the claims ----------

  function SpecRun(steps: seq<SpecEvent>): Spec {
    if steps == [] then Spec([], []) else SpecStep(SpecRun(steps[..|steps| - 1]), steps[|steps| - 1])
  }

  /** The atomic steps a run amounts to, one for each event. */
  function SpecEvents(events: seq<Event>): (steps: seq<SpecEvent>)
    ensures |steps| == |events|
  {
    if events == [] then []
    else
      var before := events[..|events| - 1];
      SpecEvents(before) + [SpecEventOf(Run(before), events[|events| - 1])]
  }

  /** Every run, whatever the interleaving and whoever dies, is a run of atomic claims. */
  lemma {:induction false} EveryRunIsAtomic(events: seq<Event>)
    ensures Abstract(Run(events)) == SpecRun(SpecEvents(events))
  {
    if events != [] {
      var before := events[..|events| - 1];
      EveryRunIsAtomic(before);
      RunInv(before);
      Refines(Run(before), events[|events| - 1]);
      assert SpecEvents(events)[..|before|] == SpecEvents(before);
    }
  }

  /** Each task is handed out at most once ever and only to a process of its own client,
      and each client gets its tasks in the order of their ids. */
  lemma EachTaskOnceAndInOrder(events: seq<Event>)
    ensures var s := Run(events);
            && (forall h :: h in s.handed ==>
                  h.id < |s.db.tasks| && h.pid < |s.procs| &&
                  s.db.tasks[h.id].client == h.client == s.procs[h.pid].client)
            && (forall i, j :: 0 <= i < j < |s.handed| ==>
                  s.handed[i].id != s.handed[j].id &&
                  (s.handed[i].client == s.handed[j].client ==> s.handed[i].id < s.handed[j].id))
  {
    RunInv(events);
    var s := Run(events);
    forall h | h in s.handed
      ensures h.id < |s.db.tasks| && s.db.tasks[h.id].client == h.client
    {
      var i :| 0 <= i < |s.handed| && s.handed[i] == h;
      assert HandedRight(Abstract(s).tasks, Abstract(s).handed[i]);
    }
  }

  /** No task is lost: whatever is marked started was handed to some process, and a task
      that waits behind one of its client's started tasks does not exist. */
  lemma StartedMeansHandedOut(events: seq<Event>, id: nat)
    requires id < |Run(events).db.tasks|
    ensures Run(events).db.tasks[id].started <==> WasHanded(Run(events).handed, id)
  {
    RunInv(events);
    var a := Abstract(Run(events));
    assert a.tasks[id].started ==> WasHanded(a.handed, id);
    if WasHanded(a.handed, id) {
      var i :| 0 <= i < |a.handed| && a.handed[i].id == id;
      assert HandedRight(a.tasks, a.handed[i]);
    }
  }

  // ---------- the counters ----------

  function LiveErrors(p: Proc): int {
    p.local.errors + p.pending.errors
  }

  function LiveTests(p: Proc): int {
    p.local.tests + p.pending.tests
  }

  function CarriedErrors(p: Proc): int {
    p.carried.errors
  }

  function CarriedTests(p: Proc): int {
    p.carried.tests
  }

  lemma {:induction false} SumSplits(procs: seq<Proc>, n: nat, of: Proc -> int, a: Proc -> int, b: Proc -> int)
    requires n <= |procs| && forall p :: of(p) == a(p) + b(p)
    ensures SumTo(procs, n, of) == SumTo(procs, n, a) + SumTo(procs, n, b)
  {
    if n > 0 {
      SumSplits(procs, n - 1, of, a, b);
    }
  }

  /** At any moment of any run the shared counters, the live processes' own counters and
      what processes took with them add up to everything ever recorded. */
  lemma CountersAreConserved(events: seq<Event>)
    ensures var s := Run(events);
            && s.db.counts.errors + Sum(s.procs, LiveErrors) + Sum(s.procs, CarriedErrors) == s.recorded.errors
            && s.db.counts.tests + Sum(s.procs, LiveTests) + Sum(s.procs, CarriedTests) == s.recorded.tests
  {
    RunInv(events);
    var procs := Run(events).procs;
    SumSplits(procs, |procs|, Errors, LiveErrors, CarriedErrors);
    SumSplits(procs, |procs|, Tests, LiveTests, CarriedTests);
  }

  // ---------- the Summary line ----------

  ghost predicate ClientsGone(s: State) {
    forall pid :: 0 < pid < |s.procs| ==> !Alive(s.procs[pid])
  }

  /** What the master prints after adding the shared counters to its own. */
  function Summary(s: State): Counts
    requires |s.procs| > 0
  {
    Plus(s.procs[0].local, s.db.counts)
  }

  lemma GoneCarriesAll(s: State, pid: nat)
    requires AllProcs(s) && pid < |s.procs| && !Alive(s.procs[pid])
    ensures var p := s.procs[pid]; LiveErrors(p) == LiveTests(p) == 0 && CarriedErrors(p) >= 0 && CarriedTests(p) >= 0
  {
    assert ProcInv(s, pid);
  }

  lemma MasterHolds(s: State)
    requires AllProcs(s) && |s.procs| > 0 && s.procs[0].pc == Master
    ensures var p := s.procs[0];
            && LiveErrors(p) == p.local.errors && LiveTests(p) == p.local.tests
            && CarriedErrors(p) == CarriedTests(p) == 0
  {
    assert ProcInv(s, 0);
  }

  lemma {:induction false} OnlyMasterIsLive(s: State, n: nat)
    requires AllProcs(s) && ClientsGone(s) && 0 < n <= |s.procs| && s.procs[0].pc == Master
    ensures SumTo(s.procs, n, LiveErrors) == s.procs[0].local.errors
    ensures SumTo(s.procs, n, LiveTests) == s.procs[0].local.tests
  {
    if n == 1 {
      MasterHolds(s);
      assert SumTo(s.procs, 0, LiveErrors) == SumTo(s.procs, 0, LiveTests) == 0;
    } else {
      OnlyMasterIsLive(s, n - 1);
      GoneCarriesAll(s, n - 1);
    }
  }

  /** The sum of what is carried vanishes only if each part does. */
  lemma {:induction false} CarriedVanishes(procs: seq<Proc>, n: nat, of: Proc -> int)
    requires n <= |procs| && forall i :: 0 <= i < n ==> of(procs[i]) >= 0
    ensures SumTo(procs, n, of) >= 0
    ensures SumTo(procs, n, of) == 0 <==> forall i :: 0 <= i < n ==> of(procs[i]) == 0
  {
    if n > 0 {
      CarriedVanishes(procs, n - 1, of);
    }
  }

  lemma CarriedIsNotNegative(s: State, pid: nat)
    requires AllProcs(s) && pid < |s.procs|
    ensures CarriedErrors(s.procs[pid]) >= 0 && CarriedTests(s.procs[pid]) >= 0
  {
    assert ProcInv(s, pid);
  }

  /** Once no client process is left, the Summary line falls short of everything recorded by
      exactly what the processes took with them. */
  lemma SummaryMissesTheCarried(events: seq<Event>)
    requires ClientsGone(Run(events)) && |Run(events).procs| > 0 && Run(events).procs[0].pc == Master
    ensures var s := Run(events);
            && Summary(s).errors + Sum(s.procs, CarriedErrors) == s.recorded.errors
            && Summary(s).tests + Sum(s.procs, CarriedTests) == s.recorded.tests
  {
    RunInv(events);
    CountersAreConserved(events);
    OnlyMasterIsLive(Run(events), |Run(events).procs|);
  }

  predicate CarriesNothing(p: Proc) {
    Nothing(p.carried)
  }

  /** It is exact if and only if no process took anything with it. */
  lemma SummaryIsExactIff(events: seq<Event>)
    requires ClientsGone(Run(events)) && |Run(events).procs| > 0 && Run(events).procs[0].pc == Master
    ensures var s := Run(events);
            (Summary(s).errors == s.recorded.errors && Summary(s).tests == s.recorded.tests) <==>
            forall pid :: 0 <= pid < |s.procs| ==> CarriesNothing(s.procs[pid])
  {
    SummaryMissesTheCarried(events);
    RunInv(events);
    var s := Run(events);
    forall pid | 0 <= pid < |s.procs| ensures CarriedErrors(s.procs[pid]) >= 0 && CarriedTests(s.procs[pid]) >= 0 {
      CarriedIsNotNegative(s, pid);
    }
    CarriedVanishes(s.procs, |s.procs|, CarriedErrors);
    CarriedVanishes(s.procs, |s.procs|, CarriedTests);
    if forall pid :: 0 <= pid < |s.procs| ==> CarriesNothing(s.procs[pid]) {
      forall i | 0 <= i < |s.procs| ensures CarriedErrors(s.procs[i]) == 0 && CarriedTests(s.procs[i]) == 0 {
        assert CarriesNothing(s.procs[i]);
      }
    }
  }

  /** The event records nothing inside a transaction. */
  predicate QuietStep(s: State, e: Event) {
    (e.RecordError? || e.RecordTest?) && e.pid < |s.procs| ==> !InTransaction(s.procs[e.pid])
  }

  predicate Quiet(events: seq<Event>) {
    events == [] || (Quiet(events[..|events| - 1]) && QuietStep(Run(events[..|events| - 1]), events[|events| - 1]))
  }

  /** Nothing is left behind by the flush, and nothing is taken along by the halt path. */
  predicate FlushedOut(p: Proc) {
    && (InTransaction(p) && p.pc != Flush && p.pc != CommitGiveUp ==> Nothing(p.local))
    && (p.pc == Gone(Halted) ==> Nothing(p.carried))
  }

  ghost predicate AllFlushedOut(s: State) {
    forall pid :: 0 <= pid < |s.procs| ==> FlushedOut(s.procs[pid])
  }

  lemma AdvanceFlushedOut(p: Proc, free: bool, work: Db, over: bool)
    requires FlushedOut(p)
    ensures FlushedOut(AdvanceProc(p, free, work, over))
  {
  }

  lemma StepFlushedOut(s: State, e: Event)
    requires AllFlushedOut(s) && QuietStep(s, e)
    ensures AllFlushedOut(Step(s, e))
  {
    var s' := Step(s, e);
    forall q | 0 <= q < |s'.procs| ensures FlushedOut(s'.procs[q]) {
      assert q < |s.procs| ==> FlushedOut(s.procs[q]);
      if e.Advance? && e.pid == q < |s.procs| {
        AdvanceFlushedOut(s.procs[q], s.lock == Free, s.work, e.patienceOver);
      }
    }
  }

  lemma {:induction false} QuietRun(events: seq<Event>)
    requires Quiet(events)
    ensures AllFlushedOut(Run(events))
  {
    if events != [] {
      QuietRun(events[..|events| - 1]);
      StepFlushedOut(Run(events[..|events| - 1]), events[|events| - 1]);
    }
  }

  lemma CarriesNothingAway(s: State, pid: nat)
    requires AllProcs(s) && AllFlushedOut(s) && pid < |s.procs|
    requires s.procs[pid].pc == Master || s.procs[pid].pc == Gone(Halted)
    ensures CarriesNothing(s.procs[pid])
  {
    assert FlushedOut(s.procs[pid]) && ProcInv(s, pid);
  }

  /** If every client left because it was told to halt, and nothing was recorded inside a
      transaction, the Summary line is exact. */
  lemma SummaryIsExact(events: seq<Event>)
    requires Quiet(events) && |Run(events).procs| > 0 && Run(events).procs[0].pc == Master
    requires forall pid :: 0 < pid < |Run(events).procs| ==> Run(events).procs[pid].pc == Gone(Halted)
    ensures var s := Run(events); Summary(s).errors == s.recorded.errors && Summary(s).tests == s.recorded.tests
  {
    var s := Run(events);
    RunInv(events);
    QuietRun(events);
    forall pid | 0 <= pid < |s.procs| ensures CarriesNothing(s.procs[pid]) {
      CarriesNothingAway(s, pid);
    }
    SummaryIsExactIff(events);
  }

  /** A process that has ended never changes again. */
  lemma GoneStays(s: State, e: Event, pid: nat)
    requires pid < |s.procs| && !Alive(s.procs[pid])
    ensures |s.procs| <= |Step(s, e).procs| && Step(s, e).procs[pid] == s.procs[pid]
  {
  }

  lemma {:induction false} GoneForGood(events: seq<Event>, more: seq<Event>, pid: nat)
    requires pid < |Run(events).procs| && !Alive(Run(events).procs[pid])
    ensures |Run(events).procs| <= |Run(events + more).procs|
    ensures Run(events + more).procs[pid] == Run(events).procs[pid]
  {
    if more == [] {
      assert events + more == events;
    } else {
      var n := |more| - 1;
      assert (events + more)[..|events + more| - 1] == events + more[..n];
      GoneForGood(events, more[..n], pid);
      GoneStays(Run(events + more[..n]), more[n], pid);
    }
  }

  lemma KillCarries(events: seq<Event>, pid: nat)
    requires pid < |Run(events).procs| && Alive(Run(events).procs[pid])
    ensures var p, s' := Run(events).procs[pid], Run(events + [Kill(pid)]);
            pid < |s'.procs| && s'.procs[pid] == Ending(p, Died, Plus(p.local, p.pending))
  {
    assert (events + [Kill(pid)])[..|events|] == events;
  }

  /** A client that dies with counters it has not flushed and committed takes them along:
      whatever happens afterwards, the Summary line is wrong. */
  lemma DeathLosesCounts(events: seq<Event>, pid: nat, more: seq<Event>)
    requires pid < |Run(events).procs| && Alive(Run(events).procs[pid])
    requires !Nothing(Plus(Run(events).procs[pid].local, Run(events).procs[pid].pending))
    requires var s := Run(events + [Kill(pid)] + more); ClientsGone(s) && |s.procs| > 0 && s.procs[0].pc == Master
    ensures var s := Run(events + [Kill(pid)] + more);
            !(Summary(s).errors == s.recorded.errors && Summary(s).tests == s.recorded.tests)
  {
    KillCarries(events, pid);
    GoneForGood(events + [Kill(pid)], more, pid);
    var s := Run(events + [Kill(pid)] + more);
    assert pid < |s.procs| && !CarriesNothing(s.procs[pid]);
    SummaryIsExactIff(events + [Kill(pid)] + more);
  }
}
