/** What a run of the wear-out agreement comes to: which ranks contribute and with what, how
    many iterations each rank does, that a run can always be finished, and when the promise of
    the option is kept, that all ranks perform the same number of iterations. */
module WearOutPromise {
  import opened Common
  import opened WearOut

  // ---------- meeting the timer ----------

  /** The move of the event finds rank r behind an iteration with the timer run out. */
  predicate Meets(s: State, e: Event, r: nat) {
    e.rank == r < |s.ranks| && e.fires && s.ranks[r].pc == Timer
  }

  /** How many iterations a rank had done when it first met the timer, if it did. */
  function FirstMeeting(c: Config, schedule: seq<Event>, r: nat): Option<nat> {
    if schedule == [] then None else
    var before, e := schedule[..|schedule| - 1], schedule[|schedule| - 1];
    if FirstMeeting(c, before, r).Some? then FirstMeeting(c, before, r)
    else if Meets(Run(c, before), e, r) then Some(Iterations(c, before, r))
    else None
  }

  /** How many iterations a rank has performed: its moves that do one. */
  function Iterations(c: Config, schedule: seq<Event>, r: nat): nat {
    if schedule == [] then 0 else
    var before, e := schedule[..|schedule| - 1], schedule[|schedule| - 1];
    var s := Run(c, before);
    Iterations(c, before, r) + if e.rank == r < |s.ranks| && s.ranks[r].pc == Work then 1 else 0
  }

  /** The rank's counter is the number of iterations it has performed. */
  lemma {:induction false} IterationsAreCounted(c: Config, schedule: seq<Event>, r: nat)
    requires r < c.threads
    ensures |Run(c, schedule).ranks| == c.threads && Run(c, schedule).ranks[r].f == Iterations(c, schedule, r)
  {
    if schedule != [] {
      IterationsAreCounted(c, schedule[..|schedule| - 1], r);
    }
  }

  /** What is known of a rank that first met the timer after `met` iterations. */
  predicate Timed(k: Rank, met: Option<nat>) {
    match met
    case None => !k.expired && !k.contributed && k.offer == 0 && k.pc in {Head, Work, Timer, Leave, Done}
    case Some(f) =>
      && k.expired
      && (k.contributed ==> k.offer == f + 1 && k.pc !in {Arm, RaiseTotal, Contribute, LoadContributors, LoadFinished})
      && (!k.contributed ==>
            && k.f == f
            && k.pc in {Arm, RaiseTotal, Contribute, LoadContributors, LoadFinished}
            && k.offer == if k.pc == Arm || k.pc == RaiseTotal then 0 else f + 1)
  }

  lemma MoveTimed(c: Config, g: Shared, k: Rank, fires: bool, met: Option<nat>)
    requires Timed(k, met)
    ensures Timed(Move(c, k, g, fires), if met.None? && fires && k.pc == Timer then Some(k.f) else met)
  {
  }

  lemma {:induction false} RunTimed(c: Config, schedule: seq<Event>, r: nat)
    requires r < c.threads
    ensures |Run(c, schedule).ranks| == c.threads && Timed(Run(c, schedule).ranks[r], FirstMeeting(c, schedule, r))
  {
    if schedule != [] {
      var before, e := schedule[..|schedule| - 1], schedule[|schedule| - 1];
      var s := Run(c, before);
      RunTimed(c, before, r);
      IterationsAreCounted(c, before, r);
      if e.rank == r {
        MoveTimed(c, s.g, s.ranks[r], e.fires, FirstMeeting(c, before, r));
      }
    }
  }

  /** A rank that never met the timer never contributes. One that met it, whenever that was,
      has contributed when it is done, and what it offered is one more than the iterations it
      had done at the first meeting. */
  lemma MeetingMeansContributing(c: Config, schedule: seq<Event>, r: nat)
    requires r < c.threads
    ensures |Run(c, schedule).ranks| == c.threads
    ensures var k, met := Run(c, schedule).ranks[r], FirstMeeting(c, schedule, r);
            && (k.contributed ==> met.Some?)
            && (k.offer > 0 ==> met.Some? && k.offer == met.value + 1)
            && (k.pc == Done && met.Some? ==> k.contributed && k.offer == met.value + 1)
  {
    RunTimed(c, schedule, r);
  }

  /** The flag is raised once some rank that met the timer has moved on, and stays so. */
  lemma {:induction false} ArmedIff(c: Config, schedule: seq<Event>)
    ensures var s := Run(c, schedule);
            s.g.armed == if SomeoneArmed(s.ranks) then 1 else 0
  {
    if schedule != [] {
      var before, e := schedule[..|schedule| - 1], schedule[|schedule| - 1];
      var s := Run(c, before);
      ArmedIff(c, before);
      RunInv(c, before);
      if e.rank < |s.ranks| {
        RunTimed(c, before, e.rank);
        ArmedStep(c, s, e, FirstMeeting(c, before, e.rank));
      }
    }
  }

  lemma ArmedStep(c: Config, s: State, e: Event, met: Option<nat>)
    requires e.rank < |s.ranks| && Timed(s.ranks[e.rank], met) && RankInv(c, s.g, s.ranks[e.rank])
    requires s.g.armed == if SomeoneArmed(s.ranks) then 1 else 0
    ensures var t := Step(c, s, e); t.g.armed == if SomeoneArmed(t.ranks) then 1 else 0
  {
    var t := Step(c, s, e);
    var k, k' := s.ranks[e.rank], t.ranks[e.rank];
    assert Armed(k) ==> Armed(k');
    if SomeoneArmed(s.ranks) {
      var r :| 0 <= r < |s.ranks| && Armed(s.ranks[r]);
      assert Armed(t.ranks[r]);
    } else if Armed(k') {
      assert k.pc == Arm;
    }
  }

  predicate Armed(k: Rank) {
    k.expired && k.pc != Arm
  }

  ghost predicate SomeoneArmed(ranks: seq<Rank>) {
    exists r :: 0 <= r < |ranks| && Armed(ranks[r])
  }

  /** Once met, the meeting stays what it was. */
  lemma {:induction false} MeetingStays(c: Config, schedule: seq<Event>, more: seq<Event>, r: nat)
    requires FirstMeeting(c, schedule, r).Some?
    ensures FirstMeeting(c, schedule + more, r) == FirstMeeting(c, schedule, r)
  {
    if more == [] {
      assert schedule + more == schedule;
    } else {
      MeetingStays(c, schedule, more[..|more| - 1], r);
      assert (schedule + more)[..|schedule + more| - 1] == schedule + more[..|more| - 1];
    }
  }

  /** A rank that finds the timer run out after an iteration contributes in every continuation
      in which it is done. If this was its first time, it offers one more than the iterations
      done. */
  lemma TimerIsObeyed(c: Config, schedule: seq<Event>, r: nat, more: seq<Event>)
    requires r < c.threads && Meets(Run(c, schedule), Event(r, true), r)
    ensures var s := Run(c, schedule + [Event(r, true)] + more);
            && |s.ranks| == c.threads
            && (s.ranks[r].pc == Done ==> s.ranks[r].contributed)
            && (s.ranks[r].pc == Done && FirstMeeting(c, schedule, r).None? ==>
                  s.ranks[r].offer == Iterations(c, schedule, r) + 1)
  {
    assert (schedule + [Event(r, true)])[..|schedule|] == schedule;
    MeetingStays(c, schedule + [Event(r, true)], more, r);
    MeetingMeansContributing(c, schedule + [Event(r, true)] + more, r);
  }

  /** Some rank met the timer. */
  ghost predicate SomeoneMet(c: Config, schedule: seq<Event>) {
    exists r: nat :: r < c.threads && FirstMeeting(c, schedule, r).Some?
  }

  /** The number is one more than the most iterations that a rank had done when it met the
      timer. */
  ghost predicate IsAgreed(c: Config, schedule: seq<Event>, total: nat) {
    && (forall r: nat :: r < c.threads && FirstMeeting(c, schedule, r).Some? ==>
          FirstMeeting(c, schedule, r).value + 1 <= total)
    && (exists r: nat :: r < c.threads && FirstMeeting(c, schedule, r) == Some(total - 1))
  }

  lemma MetIsOffered(c: Config, schedule: seq<Event>, r: nat)
    requires AllDone(Run(c, schedule)) && r < c.threads && FirstMeeting(c, schedule, r).Some?
    ensures FirstMeeting(c, schedule, r).value + 1 <= Run(c, schedule).g.total
  {
    MeetingMeansContributing(c, schedule, r);
    TotalIsMaxOfOffers(c, schedule);
  }

  lemma SomeoneOffered(c: Config, schedule: seq<Event>) returns (q: nat)
    requires Run(c, schedule).g.total > 0
    ensures q < c.threads && FirstMeeting(c, schedule, q) == Some(Run(c, schedule).g.total - 1)
  {
    var s := Run(c, schedule);
    TotalIsMaxOfOffers(c, schedule);
    RunInv(c, schedule);
    q :| 0 <= q < |s.ranks| && s.ranks[q].offer == s.g.total;
    MeetingMeansContributing(c, schedule, q);
  }

  lemma TotalIsAgreed(c: Config, schedule: seq<Event>, r: nat)
    requires AllDone(Run(c, schedule)) && r < c.threads && FirstMeeting(c, schedule, r).Some?
    ensures IsAgreed(c, schedule, Run(c, schedule).g.total)
  {
    forall q: nat | q < c.threads && FirstMeeting(c, schedule, q).Some?
      ensures FirstMeeting(c, schedule, q).value + 1 <= Run(c, schedule).g.total
    {
      MetIsOffered(c, schedule, q);
    }
    var q := SomeoneOffered(c, schedule);
  }

  /** How every finished run ends: a rank that never met the timer has performed exactly `num`
      iterations, and every other exactly the agreed number. */
  lemma FinishedRun(c: Config, schedule: seq<Event>, r: nat)
    requires AllDone(Run(c, schedule)) && r < c.threads
    ensures FirstMeeting(c, schedule, r).None? ==> Iterations(c, schedule, r) == c.num
    ensures FirstMeeting(c, schedule, r).Some? ==> IsAgreed(c, schedule, Iterations(c, schedule, r))
  {
    StopsExactlyAt(c, schedule, r);
    IterationsAreCounted(c, schedule, r);
    MeetingMeansContributing(c, schedule, r);
    if FirstMeeting(c, schedule, r).Some? {
      TotalIsAgreed(c, schedule, r);
    }
  }

  // ---------- a run can be finished ----------

  /** With everybody else done or spinning, two moves that load both counters take a spinning
      rank out of the spin. */
  lemma SpinEnds(c: Config, schedule: seq<Event>, r: nat)
    requires AllDoneOrSpinning(Run(c, schedule)) && r < c.threads
    requires |Run(c, schedule).ranks| == c.threads && Run(c, schedule).ranks[r].pc == LoadContributors
    ensures var e := Event(r, false);
            var s, t := Run(c, schedule + [e]), Run(c, schedule + [e] + [e]);
            && |s.ranks| == |t.ranks| == c.threads && t.ranks[r].pc == LoadTotal
            && TotalWork(c, t.ranks) < TotalWork(c, Run(c, schedule).ranks)
  {
    var e := Event(r, false);
    var s := Run(c, schedule);
    NeverStuck(c, schedule);
    RunAppend(c, schedule, e);
    RunAppend(c, schedule + [e], e);
    RunInv(c, schedule);
    RunInv(c, schedule + [e]);
    MoveUsesWork(c, s, e);
    MoveUsesWork(c, Run(c, schedule + [e]), e);
  }

  lemma SpinOut(c: Config, schedule: seq<Event>, r: nat) returns (longer: seq<Event>)
    requires |Run(c, schedule).ranks| == c.threads && r < c.threads && Spinning(Run(c, schedule).ranks[r])
    requires AllDoneOrSpinning(Run(c, schedule)) && !ProductiveEvent(c, Run(c, schedule), Event(r, false))
    ensures schedule <= longer && TotalWork(c, Run(c, longer).ranks) < TotalWork(c, Run(c, schedule).ranks)
  {
    var e := Event(r, false);
    longer := schedule;
    if Run(c, schedule).ranks[r].pc == LoadFinished {
      BackToLoad(c, schedule, r);
      longer := schedule + [e];
    }
    SpinEnds(c, longer, r);
    longer := longer + [e] + [e];
  }

  lemma BackToLoad(c: Config, schedule: seq<Event>, r: nat)
    requires |Run(c, schedule).ranks| == c.threads && r < c.threads && Run(c, schedule).ranks[r].pc == LoadFinished
    requires AllDoneOrSpinning(Run(c, schedule)) && !ProductiveEvent(c, Run(c, schedule), Event(r, false))
    ensures var s := Run(c, schedule + [Event(r, false)]);
            && |s.ranks| == c.threads && s.ranks[r].pc == LoadContributors && AllDoneOrSpinning(s)
            && TotalWork(c, s.ranks) <= TotalWork(c, Run(c, schedule).ranks)
  {
    RunInv(c, schedule);
    RunAppend(c, schedule, Event(r, false));
    MoveUsesWork(c, Run(c, schedule), Event(r, false));
  }

  /** The next moves of a run that is not over: they use up work. */
  lemma Proceed(c: Config, schedule: seq<Event>) returns (longer: seq<Event>)
    requires !AllDone(Run(c, schedule))
    ensures schedule <= longer && TotalWork(c, Run(c, longer).ranks) < TotalWork(c, Run(c, schedule).ranks)
  {
    RunInv(c, schedule);
    var r := SomeoneToMove(c, Run(c, schedule));
    var e := Event(r, false);
    if ProductiveEvent(c, Run(c, schedule), e) {
      RunAppend(c, schedule, e);
      MoveUsesWork(c, Run(c, schedule), e);
      longer := schedule + [e];
    } else {
      longer := SpinOut(c, schedule, r);
    }
  }

  /** From every state that a run can be in it can be finished. */
  lemma {:induction false} CanBeFinished(c: Config, schedule: seq<Event>, work: int) returns (whole: seq<Event>)
    requires work == TotalWork(c, Run(c, schedule).ranks)
    ensures schedule <= whole && AllDone(Run(c, whole))
    decreases work
  {
    if AllDone(Run(c, schedule)) {
      whole := schedule;
    } else {
      var longer := Proceed(c, schedule);
      RunInv(c, longer);
      WorkIsLeft(c, Run(c, longer));
      whole := CanBeFinished(c, longer, TotalWork(c, Run(c, longer).ranks));
    }
  }

  lemma SomeoneToMove(c: Config, s: State) returns (r: nat)
    requires !AllDone(s)
    ensures r < |s.ranks| && s.ranks[r].pc != Done
    ensures !Spinning(s.ranks[r]) || AllDoneOrSpinning(s)
  {
    if AllDoneOrSpinning(s) {
      r :| 0 <= r < |s.ranks| && s.ranks[r].pc != Done;
    } else {
      r :| 0 <= r < |s.ranks| && s.ranks[r].pc != Done && !Spinning(s.ranks[r]);
    }
  }

  // ---------- when all ranks end at the same count ----------

  ghost predicate AllDone(s: State) {
    forall r :: 0 <= r < |s.ranks| ==> s.ranks[r].pc == Done
  }

  ghost predicate AllEqual(s: State) {
    forall q, r :: 0 <= q < |s.ranks| && 0 <= r < |s.ranks| ==> s.ranks[q].f == s.ranks[r].f
  }

  /** The option promises that all threads perform the same number of iterations. That
      is so exactly when nobody hit the timer, or everybody contributed, or the agreed
      total happens to be the number of iterations the early finishers did. */
  lemma EqualIffNoEarlyFinisher(c: Config, schedule: seq<Event>)
    requires AllDone(Run(c, schedule))
    ensures var s := Run(c, schedule);
            AllEqual(s) <==>
              || (forall r :: 0 <= r < |s.ranks| ==> !s.ranks[r].contributed)
              || (forall r :: 0 <= r < |s.ranks| ==> s.ranks[r].contributed)
              || s.g.total == c.num
  {
    var s := Run(c, schedule);
    RunInv(c, schedule);
    forall r | 0 <= r < |s.ranks|
      ensures s.ranks[r].f == if s.ranks[r].contributed then s.g.total else c.num
    {
      assert RankInv(c, s.g, s.ranks[r]);
    }
    if AllEqual(s) && s.g.total != c.num {
      forall q, r | 0 <= q < |s.ranks| && 0 <= r < |s.ranks|
        ensures s.ranks[q].contributed == s.ranks[r].contributed
      {
        assert s.ranks[q].f == s.ranks[r].f;
      }
    }
  }

  // ---------- which configurations keep the promise ----------

  /** The rank has not met the timer. */
  predicate Calm(c: Config, k: Rank) {
    && !k.expired && !k.contributed && k.totalNum == c.num && k.f <= c.num
    && k.pc in {Head, Work, Timer, Leave, Done}
    && (k.pc == Work ==> k.f < c.num)
    && (k.pc == Leave || k.pc == Done ==> k.f == c.num)
  }

  /** Nobody has met the timer; the ranks below `r` are done, those above have not moved. */
  ghost predicate CalmUpTo(c: Config, s: State, r: nat) {
    && |s.ranks| == c.threads
    && s.g.total == 0 && s.g.contributors == 0
    && (forall i :: 0 <= i < r && i < |s.ranks| ==> s.ranks[i].pc == Done && Calm(c, s.ranks[i]))
    && (forall i :: r < i < |s.ranks| ==> s.ranks[i] == Fresh(c))
  }

  function Fresh(c: Config): Rank {
    Rank(Head, 0, c.num, false, false, 0, 0)
  }

  function CalmStage(pc: Pc): nat {
    match pc
    case Timer => 4
    case Head => 3
    case Work => 2
    case Leave => 1
    case _ => 0
  }

  /** Whether the rank has got to its goal: done, or at the timer after its last
      iteration. */
  predicate AtGoal(c: Config, k: Rank, done: bool) {
    if done then k.pc == Done else k.pc == Timer && k.f == c.num
  }

  lemma CalmMove(c: Config, k: Rank, g: Shared)
    requires Calm(c, k)
    ensures Calm(c, Move(c, k, g, false))
    ensures Effect(k, g).total == g.total && Effect(k, g).contributors == g.contributors
  {
  }

  /** One rank runs to its goal without meeting the timer. */
  lemma {:induction false} RunCalmly(c: Config, schedule: seq<Event>, r: nat, k: Rank, done: bool) returns (next: seq<Event>)
    requires r < c.threads && CalmUpTo(c, Run(c, schedule), r)
    requires Run(c, schedule).ranks[r] == k && Calm(c, k) && (done || k.f < c.num || AtGoal(c, k, false))
    ensures CalmUpTo(c, Run(c, next), r) && Calm(c, Run(c, next).ranks[r]) && AtGoal(c, Run(c, next).ranks[r], done)
    decreases c.num - k.f, CalmStage(k.pc)
  {
    if AtGoal(c, k, done) {
      next := schedule;
    } else {
      var s, e := Run(c, schedule), Event(r, false);
      RunAppend(c, schedule, e);
      CalmMove(c, k, s.g);
      next := RunCalmly(c, schedule + [e], r, Move(c, k, s.g, false), done);
    }
  }

  /** All ranks but the last run to their ends. */
  lemma {:induction false} OthersFinish(c: Config, schedule: seq<Event>, r: nat) returns (next: seq<Event>)
    requires r < c.threads && CalmUpTo(c, Run(c, schedule), r) && Run(c, schedule).ranks[r] == Fresh(c)
    ensures CalmUpTo(c, Run(c, next), c.threads - 1) && Run(c, next).ranks[c.threads - 1] == Fresh(c)
    decreases c.threads - r
  {
    if r == c.threads - 1 {
      next := schedule;
    } else {
      var more := RunCalmly(c, schedule, r, Fresh(c), true);
      assert Run(c, more).ranks[r + 1] == Fresh(c);
      next := OthersFinish(c, more, r + 1);
    }
  }

  /** The moves of one rank that finds the timer run out, while no other moves. */
  datatype Lone = Lone(k: Rank, g: Shared)

  function LoneMove(c: Config, x: Lone): Lone {
    Lone(Move(c, x.k, x.g, true), Effect(x.k, x.g))
  }

  function LoneMoves(c: Config, x: Lone, n: nat): Lone
    decreases n
  {
    if n == 0 then x else LoneMoves(c, LoneMove(c, x), n - 1)
  }

  lemma {:induction false} RunLone(c: Config, schedule: seq<Event>, r: nat, n: nat) returns (next: seq<Event>)
    requires |Run(c, schedule).ranks| == c.threads && r < c.threads
    ensures var s := Run(c, schedule);
            var x := LoneMoves(c, Lone(s.ranks[r], s.g), n);
            Run(c, next) == State(s.ranks[r := x.k], x.g)
    decreases n
  {
    if n == 0 {
      next := schedule;
    } else {
      RunAppend(c, schedule, Event(r, true));
      next := RunLone(c, schedule + [Event(r, true)], r, n - 1);
    }
  }

  lemma LoneStep(c: Config, x: Lone, y: Lone, n: nat)
    requires n > 0 && y == LoneMove(c, x)
    ensures LoneMoves(c, x, n) == LoneMoves(c, y, n - 1)
  {
  }

  /** It contributes its position. */
  lemma LoneContributes(c: Config, x: Lone, n: nat) returns (y: Lone)
    requires x.k.pc == Timer && !x.k.contributed && x.k.f == c.num && x.g.total == 0 && n >= 4
    ensures LoneMoves(c, x, n) == LoneMoves(c, y, n - 4)
    ensures y.k.pc == LoadContributors && y.k.expired && y.k.f == c.num && y.g.total == c.num + 1
    ensures y.g.contributors == x.g.contributors + 1 && y.g.finished == x.g.finished
  {
    var a := LoneMove(c, x);
    var b := LoneMove(c, a);
    var d := LoneMove(c, b);
    y := LoneMove(c, d);
    LoneStep(c, x, a, n);
    LoneStep(c, a, b, n - 1);
    LoneStep(c, b, d, n - 2);
    LoneStep(c, d, y, n - 3);
  }

  /** It is the last one to be counted, leaves the spin, and learns the total. */
  lemma LoneLeavesSpin(c: Config, x: Lone, n: nat) returns (y: Lone)
    requires x.k.pc == LoadContributors && x.k.expired && x.k.f == c.num && x.g.total == c.num + 1
    requires x.g.contributors + x.g.finished >= c.threads && n >= 3
    ensures LoneMoves(c, x, n) == LoneMoves(c, y, n - 3)
    ensures y.k.pc == Head && y.k.expired && y.k.contributed && y.k.f == c.num && y.k.totalNum == y.g.total == c.num + 1
  {
    var a := LoneMove(c, x);
    var b := LoneMove(c, a);
    y := LoneMove(c, b);
    LoneStep(c, x, a, n);
    LoneStep(c, a, b, n - 1);
    LoneStep(c, b, y, n - 2);
  }

  /** It does one iteration more. */
  lemma LoneGoesOn(c: Config, x: Lone, n: nat) returns (y: Lone)
    requires x.k.pc == Head && x.k.expired && x.k.contributed && x.k.f == c.num && x.k.totalNum == x.g.total == c.num + 1
    requires n >= 6
    ensures LoneMoves(c, x, n) == LoneMoves(c, y, n - 6)
    ensures y.k.pc == Done && y.k.f == c.num + 1
  {
    var a := LoneMove(c, x);
    var b := LoneMove(c, a);
    var d := LoneMove(c, b);
    assert d.k.pc == LoadTotal && d.k.f == c.num + 1 && d.g.total == c.num + 1;
    var e := LoneMove(c, d);
    var f := LoneMove(c, e);
    y := LoneMove(c, f);
    LoneStep(c, x, a, n);
    LoneStep(c, a, b, n - 1);
    LoneStep(c, b, d, n - 2);
    LoneStep(c, d, e, n - 3);
    LoneStep(c, e, f, n - 4);
    LoneStep(c, f, y, n - 5);
  }

  lemma LoneEndsLate(c: Config, x: Lone, n: nat)
    requires x.k.pc == Timer && !x.k.contributed && x.k.f == c.num && x.g.total == 0
    requires x.g.contributors + 1 + x.g.finished >= c.threads && n == 13
    ensures var y := LoneMoves(c, x, n); y.k.pc == Done && y.k.f == c.num + 1
  {
    var a := LoneContributes(c, x, n);
    var b := LoneLeavesSpin(c, a, n - 4);
    var d := LoneGoesOn(c, b, n - 7);
  }

  lemma AllOthersFinished(c: Config, s: State)
    requires Inv(c, s) && c.threads >= 1 && CalmUpTo(c, s, c.threads - 1)
    ensures s.g.finished >= c.threads - 1
  {
    SubsetNotLarger(Below(c.threads - 1), Finished(s.ranks));
  }

  ghost predicate EndsEqual(c: Config, schedule: seq<Event>) {
    AllDone(Run(c, schedule)) ==> AllEqual(Run(c, schedule))
  }

  /** All ranks but the last finish before the timer, and the last one gets to the end of
      its last iteration. */
  lemma LastAtTimer(c: Config) returns (schedule: seq<Event>)
    requires c.threads >= 2 && c.num >= 1
    ensures var s := Run(c, schedule);
            && CalmUpTo(c, s, c.threads - 1) && s.g.finished >= c.threads - 1
            && AtGoal(c, s.ranks[c.threads - 1], false) && !s.ranks[c.threads - 1].contributed
  {
    var rest := OthersFinish(c, [], 0);
    schedule := RunCalmly(c, rest, c.threads - 1, Fresh(c), false);
    RunInv(c, schedule);
    AllOthersFinished(c, Run(c, schedule));
  }

  lemma LateIsUnequal(c: Config, s: State, r: nat, x: Lone, t: State)
    requires c.threads >= 2 && r == c.threads - 1 && CalmUpTo(c, s, r) && t == State(s.ranks[r := x.k], x.g)
    requires x.k.pc == Done && x.k.f == c.num + 1
    ensures AllDone(t) && !AllEqual(t)
  {
    assert t.ranks[0] == s.ranks[0] && t.ranks[r].f != t.ranks[0].f;
  }

  /** The last one meets the timer there, and does one iteration more than the others. */
  lemma OneGoesOn(c: Config) returns (schedule: seq<Event>)
    requires c.threads >= 2 && c.num >= 1
    ensures !EndsEqual(c, schedule)
  {
    var r := c.threads - 1;
    var late := LastAtTimer(c);
    var s := Run(c, late);
    LoneEndsLate(c, Lone(s.ranks[r], s.g), 13);
    schedule := RunLone(c, late, r, 13);
    LateIsUnequal(c, s, r, LoneMoves(c, Lone(s.ranks[r], s.g), 13), Run(c, schedule));
  }

  /** With nothing to do, nobody ever gets to the timer. */
  lemma {:induction false} NothingToDo(c: Config, schedule: seq<Event>, r: nat)
    requires c.num == 0 && r < |Run(c, schedule).ranks|
    ensures var k := Run(c, schedule).ranks[r]; k.f == k.totalNum == 0 && k.pc in {Head, Leave, Done}
  {
    if schedule != [] {
      NothingToDo(c, schedule[..|schedule| - 1], r);
    }
  }

  lemma FewEndEqual(c: Config, schedule: seq<Event>)
    requires c.threads <= 1 || c.num == 0
    ensures EndsEqual(c, schedule)
  {
    var s := Run(c, schedule);
    if c.num == 0 {
      forall r | 0 <= r < |s.ranks| ensures s.ranks[r].f == 0 {
        NothingToDo(c, schedule, r);
      }
    } else {
      RunInv(c, schedule);
    }
  }

  ghost predicate AlwaysEqual(c: Config) {
    forall schedule :: EndsEqual(c, schedule)
  }

  /** Every finished run ends with all ranks at the same count exactly if there is at most
      one rank, or nothing to do. */
  lemma AlwaysEqualIff(c: Config)
    ensures AlwaysEqual(c) <==> c.threads <= 1 || c.num == 0
  {
    if c.threads <= 1 || c.num == 0 {
      forall schedule | true ensures EndsEqual(c, schedule) {
        FewEndEqual(c, schedule);
      }
    } else {
      var schedule := OneGoesOn(c);
    }
  }
}
