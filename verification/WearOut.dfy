/** The stonewall wear-out agreement of md-workbench: ranks that hit the timer agree,
    through three shared atomics, on one common number of iterations.

    A rank's loop is cut into steps that each touch at most one shared atomic. A run is
    a schedule, a sequence of events that name the rank to move, so a statement about
    every schedule is a statement about every interleaving. */
module WearOut {
  import opened Common

  datatype Config = Config(threads: nat, num: nat)

  /** Where a rank stands in the loop. The file operations of one iteration are the
      single step `Work`: they do not touch the agreement. */
  datatype Pc =
    | Head | Work | Timer
    | Arm | RaiseTotal | Contribute | LoadContributors | LoadFinished | LoadTotal
    | Leave | Done

  /** `seen` is the value of `contributors` a spinning rank has just loaded; `offer` is
      a history variable, the value the rank passed to `fetch_max`, or 0. */
  datatype Rank = Rank(pc: Pc, f: nat, totalNum: nat, expired: bool, contributed: bool, seen: nat, offer: nat)

  /** The shared atomics. */
  datatype Shared = Shared(armed: nat, total: nat, contributors: nat, finished: nat)

  datatype State = State(ranks: seq<Rank>, g: Shared)

  /** `fires` tells whether the timer is found to have run out at this moment. */
  datatype Event = Event(rank: nat, fires: bool)

  function Init(c: Config): State {
    State(seq(c.threads, _ => Rank(Head, 0, c.num, false, false, 0, 0)), Shared(0, 0, 0, 0))
  }

  /** What one step does to the rank that takes it. */
  function Move(c: Config, k: Rank, g: Shared, fires: bool): Rank {
    match k.pc
    case Head => k.(pc := if k.f < k.totalNum then Work else Leave)
    case Work => k.(pc := Timer, f := k.f + 1)
    case Timer =>
      var expired := k.expired || fires;
      k.(expired := expired, pc := if !expired then Head else if !k.contributed then Arm else LoadTotal)
    case Arm => k.(pc := RaiseTotal)
    case RaiseTotal => k.(pc := Contribute, offer := k.f + 1)
    case Contribute => k.(pc := LoadContributors)
    case LoadContributors => k.(pc := LoadFinished, seen := g.contributors)
    case LoadFinished =>
      if k.seen + g.finished < c.threads
      then k.(pc := LoadContributors)
      else k.(pc := LoadTotal, contributed := true)
    case LoadTotal => k.(pc := Head, totalNum := if g.total > 0 then g.total else k.totalNum)
    case Leave => k.(pc := Done)
    case Done => k
  }

  /** What that step does to the atomics. */
  function Effect(k: Rank, g: Shared): Shared {
    match k.pc
    case Arm => g.(armed := 1)
    case RaiseTotal => g.(total := Max(g.total, k.f + 1))
    case Contribute => g.(contributors := g.contributors + 1)
    case Leave => g.(finished := g.finished + 1)
    case _ => g
  }

  /** One step of the rank the event names; an event for no rank, or for a rank that is
      done, changes nothing. */
  function Step(c: Config, s: State, e: Event): State {
    if e.rank >= |s.ranks| then s else
    var k := s.ranks[e.rank];
    State(s.ranks[e.rank := Move(c, k, s.g, e.fires)], Effect(k, s.g))
  }

  function Run(c: Config, schedule: seq<Event>): State {
    if schedule == [] then Init(c)
    else Step(c, Run(c, schedule[..|schedule| - 1]), schedule[|schedule| - 1])
  }

  // ---------- what the counters count ----------

  /** The rank has executed its `contributors.fetch_add`. */
  predicate HasContributed(k: Rank) {
    k.contributed || k.pc == LoadContributors || k.pc == LoadFinished
  }

  predicate HasOffered(k: Rank) {
    HasContributed(k) || k.pc == Contribute
  }

  predicate Spinning(k: Rank) {
    k.pc == LoadContributors || k.pc == LoadFinished
  }

  function Contributors(ranks: seq<Rank>): set<nat> {
    set r: nat | r < |ranks| && HasContributed(ranks[r])
  }

  function Finished(ranks: seq<Rank>): set<nat> {
    set r: nat | r < |ranks| && ranks[r].pc == Done
  }

  /** Every rank has contributed its position or has left the loop. */
  ghost predicate AllCounted(s: State) {
    forall r :: 0 <= r < |s.ranks| ==> HasContributed(s.ranks[r]) || s.ranks[r].pc == Done
  }

  ghost predicate SomeoneLeftSpin(s: State) {
    exists r :: 0 <= r < |s.ranks| && s.ranks[r].contributed
  }

  // ---------- the inductive invariant ----------

  ghost predicate RankInv(c: Config, g: Shared, k: Rank) {
    && (HasOffered(k) <==> k.offer > 0)
    && k.offer <= g.total
    && (k.pc == LoadFinished ==> k.seen <= g.contributors)
    && (k.pc in {Arm, RaiseTotal, Contribute, LoadContributors, LoadFinished} ==> !k.contributed)
    && (!k.contributed ==>
          && k.totalNum == c.num
          && k.f <= c.num
          && (k.pc == Work ==> k.f < c.num)
          && (k.pc == Leave || k.pc == Done ==> k.f == c.num)
          && (HasOffered(k) ==> k.offer == k.f + 1)
          && k.pc != LoadTotal)
    && (k.contributed ==>
          && k.f <= g.total
          && k.offer <= g.total
          && (k.pc != LoadTotal ==> k.totalNum == g.total)
          && (k.pc == Work ==> k.f < g.total)
          && (k.pc == Leave || k.pc == Done ==> k.f == g.total))
  }

  ghost predicate Inv(c: Config, s: State) {
    && |s.ranks| == c.threads
    && s.g.contributors == |Contributors(s.ranks)|
    && s.g.finished == |Finished(s.ranks)|
    && s.g.total <= c.num + 1
    && (forall r :: 0 <= r < |s.ranks| ==> RankInv(c, s.g, s.ranks[r]))
    && (s.g.total > 0 ==> exists r :: 0 <= r < |s.ranks| && s.ranks[r].offer == s.g.total)
    && (SomeoneLeftSpin(s) ==> AllCounted(s))
  }

  /** The ranks below n. */
  function Below(n: nat): (all: set<nat>)
    ensures forall r: nat :: r in all <==> r < n
    ensures |all| == n
  {
    if n == 0 then {} else Below(n - 1) + {n - 1}
  }

  /** The double count is harmless: while nobody has left the spin the two sets are
      disjoint, so the sum reaches `threads` only when their union is everyone. */
  lemma SumCountsEveryone(c: Config, s: State)
    requires Inv(c, s) && s.g.contributors + s.g.finished >= c.threads
    ensures AllCounted(s)
  {
    if !SomeoneLeftSpin(s) {
      var a, b := Contributors(s.ranks), Finished(s.ranks);
      var all := Below(c.threads);
      assert a !! b;
      assert |a + b| == |a| + |b|;
      assert a + b <= all;
      SubsetOfSameSize(a + b, all);
      forall r | 0 <= r < |s.ranks| ensures HasContributed(s.ranks[r]) || s.ranks[r].pc == Done {
        assert r in all;
        assert r in a + b;
      }
    }
  }

  lemma SubsetOfSameSize(a: set<nat>, b: set<nat>)
    requires a <= b && |a| >= |b|
    ensures a == b
  {
    if a != b {
      var x :| x in b && x !in a;
      SubsetNotLarger(a, b - {x});
    }
  }

  lemma SubsetNotLarger(a: set<nat>, b: set<nat>)
    requires a <= b
    ensures |a| <= |b|
  {
    if a != {} {
      var x :| x in a;
      SubsetNotLarger(a - {x}, b - {x});
    }
  }

  lemma InitInv(c: Config)
    ensures Inv(c, Init(c))
  {
    assert Contributors(Init(c).ranks) == {};
    assert Finished(Init(c).ranks) == {};
  }

  lemma StepCounts(c: Config, s: State, e: Event)
    requires Inv(c, s) && e.rank < |s.ranks|
    ensures var s' := Step(c, s, e);
            s'.g.contributors == |Contributors(s'.ranks)| && s'.g.finished == |Finished(s'.ranks)|
  {
    var k := s.ranks[e.rank];
    assert RankInv(c, s.g, k);
    CountsAfterPut(s.ranks, e.rank, Move(c, k, s.g, e.fires));
  }

  lemma CountsAfterPut(ranks: seq<Rank>, r: nat, k: Rank)
    requires r < |ranks|
    ensures |Contributors(ranks[r := k])| ==
            |Contributors(ranks)| - (if HasContributed(ranks[r]) then 1 else 0) + (if HasContributed(k) then 1 else 0)
    ensures |Finished(ranks[r := k])| ==
            |Finished(ranks)| - (if ranks[r].pc == Done then 1 else 0) + (if k.pc == Done then 1 else 0)
  {
    SizeAfterChangeAt(Contributors(ranks), Contributors(ranks[r := k]), r);
    SizeAfterChangeAt(Finished(ranks), Finished(ranks[r := k]), r);
  }

  lemma SizeAfterChangeAt(a: set<nat>, b: set<nat>, r: nat)
    requires forall q :: q != r ==> (q in a <==> q in b)
    ensures |b| == |a| - (if r in a then 1 else 0) + (if r in b then 1 else 0)
  {
    var rest := a - {r};
    assert rest == b - {r};
    assert a == if r in a then rest + {r} else rest;
    assert b == if r in b then rest + {r} else rest;
  }

  /** Once some rank has left the spin no step changes the total. */
  lemma StepTotal(c: Config, s: State, e: Event)
    requires Inv(c, s) && e.rank < |s.ranks|
    ensures s.g.total <= Step(c, s, e).g.total <= c.num + 1
    ensures SomeoneLeftSpin(s) ==> Step(c, s, e).g.total == s.g.total
  {
    assert RankInv(c, s.g, s.ranks[e.rank]);
  }

  /** The rank that moves keeps its own invariant. */
  lemma MoveInv(c: Config, g: Shared, k: Rank, fires: bool)
    requires RankInv(c, g, k)
    requires k.contributed ==> Effect(k, g).total == g.total
    ensures RankInv(c, Effect(k, g), Move(c, k, g, fires))
  {
  }

  lemma StepRanks(c: Config, s: State, e: Event)
    requires Inv(c, s) && e.rank < |s.ranks|
    ensures var s' := Step(c, s, e);
            forall r :: 0 <= r < |s'.ranks| ==> RankInv(c, s'.g, s'.ranks[r])
  {
    StepTotal(c, s, e);
    var s', k := Step(c, s, e), s.ranks[e.rank];
    forall r | 0 <= r < |s'.ranks| ensures RankInv(c, s'.g, s'.ranks[r]) {
      assert RankInv(c, s.g, s.ranks[r]);
      assert s.ranks[r].contributed ==> SomeoneLeftSpin(s);
      if r == e.rank {
        MoveInv(c, s.g, k, e.fires);
      } else {
        OthersInv(c, s.g, k, s.ranks[r]);
      }
    }
  }

  /** A step of one rank keeps the invariant of every other. */
  lemma OthersInv(c: Config, g: Shared, mover: Rank, k: Rank)
    requires RankInv(c, g, k)
    requires k.contributed ==> Effect(mover, g).total == g.total
    ensures RankInv(c, Effect(mover, g), k)
  {
  }

  /** Positions once counted stay counted, and only a successful spin test sets
      `contributed`. */
  lemma MoveKeepsCounted(c: Config, g: Shared, k: Rank, fires: bool)
    ensures var k' := Move(c, k, g, fires);
            && (HasContributed(k) ==> HasContributed(k'))
            && (k.pc == Done ==> k' == k)
            && (k'.contributed ==> k.contributed || (k.pc == LoadFinished && k.seen + g.finished >= c.threads))
  {
  }

  lemma StepAgreement(c: Config, s: State, e: Event)
    requires Inv(c, s) && e.rank < |s.ranks| && SomeoneLeftSpin(Step(c, s, e))
    ensures AllCounted(Step(c, s, e))
  {
    var s', k := Step(c, s, e), s.ranks[e.rank];
    MoveKeepsCounted(c, s.g, k, e.fires);
    var q :| 0 <= q < |s'.ranks| && s'.ranks[q].contributed;
    if !s.ranks[q].contributed {
      assert RankInv(c, s.g, k);
      SumCountsEveryone(c, s);
    } else {
      assert SomeoneLeftSpin(s);
    }
    forall r | 0 <= r < |s'.ranks| ensures HasContributed(s'.ranks[r]) || s'.ranks[r].pc == Done {
      assert HasContributed(s.ranks[r]) || s.ranks[r].pc == Done;
    }
  }

  lemma StepInv(c: Config, s: State, e: Event)
    requires Inv(c, s)
    ensures Inv(c, Step(c, s, e))
  {
    if e.rank < |s.ranks| {
      StepCounts(c, s, e);
      StepTotal(c, s, e);
      StepRanks(c, s, e);
      if Step(c, s, e).g.total > 0 {
        MaxIsOffered(c, s, e);
      }
      if SomeoneLeftSpin(Step(c, s, e)) {
        StepAgreement(c, s, e);
      }
    }
  }

  lemma MaxIsOffered(c: Config, s: State, e: Event)
    requires Inv(c, s) && e.rank < |s.ranks|
    requires Step(c, s, e).g.total > 0
    ensures var s' := Step(c, s, e); exists r :: 0 <= r < |s'.ranks| && s'.ranks[r].offer == s'.g.total
  {
    var s', k := Step(c, s, e), s.ranks[e.rank];
    if k.pc == RaiseTotal && s'.g.total == k.f + 1 {
      assert s'.ranks[e.rank].offer == s'.g.total;
    } else {
      var q :| 0 <= q < |s.ranks| && s.ranks[q].offer == s.g.total;
      assert RankInv(c, s.g, s.ranks[q]);
      assert s'.ranks[q].offer == s'.g.total;
    }
  }

  lemma {:induction false} RunInv(c: Config, schedule: seq<Event>)
    ensures Inv(c, Run(c, schedule))
  {
    if schedule == [] {
      InitInv(c);
    } else {
      RunInv(c, schedule[..|schedule| - 1]);
      StepInv(c, Run(c, schedule[..|schedule| - 1]), schedule[|schedule| - 1]);
    }
  }

  // ---------- the agreement, over every interleaving ----------

  /** No rank leaves the spin before every rank has contributed or finished, although a
      rank that contributed and then finished is counted twice. */
  lemma NobodyLeavesEarly(c: Config, schedule: seq<Event>)
    ensures SomeoneLeftSpin(Run(c, schedule)) ==> AllCounted(Run(c, schedule))
  {
    RunInv(c, schedule);
  }

  lemma StepKeepsAgreement(c: Config, s: State, e: Event)
    requires Inv(c, s) && SomeoneLeftSpin(s)
    ensures SomeoneLeftSpin(Step(c, s, e)) && Step(c, s, e).g.total == s.g.total
  {
    if e.rank < |s.ranks| {
      StepTotal(c, s, e);
      var r :| 0 <= r < |s.ranks| && s.ranks[r].contributed;
      assert Step(c, s, e).ranks[r].contributed;
    }
  }

  /** From the moment some rank has left the spin, the total never changes again. */
  lemma {:induction false} TotalIsFinal(c: Config, schedule: seq<Event>, more: seq<Event>)
    requires SomeoneLeftSpin(Run(c, schedule))
    ensures SomeoneLeftSpin(Run(c, schedule + more))
    ensures Run(c, schedule + more).g.total == Run(c, schedule).g.total
  {
    if more == [] {
      assert schedule + more == schedule;
    } else {
      var init, e := more[..|more| - 1], more[|more| - 1];
      TotalIsFinal(c, schedule, init);
      var before := schedule + init;
      RunInv(c, before);
      assert schedule + more == before + [e];
      RunAppend(c, before, e);
      StepKeepsAgreement(c, Run(c, before), e);
    }
  }

  /** The total is one more than the largest contributed position. */
  lemma TotalIsMaxOfOffers(c: Config, schedule: seq<Event>)
    ensures var s := Run(c, schedule);
            && (forall r :: 0 <= r < |s.ranks| ==> s.ranks[r].offer <= s.g.total)
            && (s.g.total > 0 ==> exists r :: 0 <= r < |s.ranks| && s.ranks[r].offer == s.g.total)
  {
    RunInv(c, schedule);
    var s := Run(c, schedule);
    forall r | 0 <= r < |s.ranks| ensures s.ranks[r].offer <= s.g.total {
      assert RankInv(c, s.g, s.ranks[r]);
    }
  }

  /** Every rank that contributed stops at exactly the total; every other rank stops at
      `num`. */
  lemma StopsExactlyAt(c: Config, schedule: seq<Event>, r: nat)
    requires r < c.threads
    ensures |Run(c, schedule).ranks| == c.threads
    ensures var s := Run(c, schedule);
            s.ranks[r].pc == Done ==> s.ranks[r].f == if s.ranks[r].contributed then s.g.total else c.num
  {
    RunInv(c, schedule);
    assert RankInv(c, Run(c, schedule).g, Run(c, schedule).ranks[r]);
  }

  ghost predicate AllDoneOrSpinning(s: State) {
    forall r :: 0 <= r < |s.ranks| ==> s.ranks[r].pc == Done || Spinning(s.ranks[r])
  }

  /** No reachable state has all unfinished ranks stuck: if each of them is spinning, the
      spin condition already holds. */
  lemma NeverStuck(c: Config, schedule: seq<Event>)
    requires AllDoneOrSpinning(Run(c, schedule))
    ensures var s := Run(c, schedule); s.g.contributors + s.g.finished >= c.threads
  {
    RunInv(c, schedule);
    var s := Run(c, schedule);
    var a, b := Contributors(s.ranks), Finished(s.ranks);
    var all := Below(c.threads);
    forall r | r in all ensures r in a + b {
      assert s.ranks[r].pc == Done || Spinning(s.ranks[r]);
    }
    SubsetNotLarger(all, a + b);
    assert |a + b| <= |a| + |b|;
  }

  lemma RunAppend(c: Config, schedule: seq<Event>, e: Event)
    ensures Run(c, schedule + [e]) == Step(c, Run(c, schedule), e)
  {
    assert (schedule + [e])[..|schedule|] == schedule;
  }

  // ---------- every run makes only boundedly many moves that are not spinning ----------

  function PcWeight(pc: Pc): nat {
    match pc
    case Timer => 9 case Arm => 8 case RaiseTotal => 7 case Contribute => 6
    case LoadContributors => 5 case LoadFinished => 5 case LoadTotal => 4
    case Head => 3 case Work => 2 case Leave => 1 case Done => 0
  }

  function RankWork(c: Config, k: Rank): int {
    10 * (c.num + 1 - k.f) + PcWeight(k.pc)
  }

  function TotalWork(c: Config, ranks: seq<Rank>): int {
    if ranks == [] then 0 else RankWork(c, ranks[0]) + TotalWork(c, ranks[1..])
  }

  lemma {:induction false} TotalWorkUpdate(c: Config, ranks: seq<Rank>, r: nat, k: Rank)
    requires r < |ranks|
    ensures TotalWork(c, ranks[r := k]) == TotalWork(c, ranks) - RankWork(c, ranks[r]) + RankWork(c, k)
  {
    if r > 0 {
      TotalWorkUpdate(c, ranks[1..], r - 1, k);
      assert ranks[r := k][1..] == ranks[1..][r - 1 := k];
    }
  }

  lemma {:induction false} TotalWorkBounds(c: Config, ranks: seq<Rank>)
    requires forall r :: 0 <= r < |ranks| ==> 0 <= RankWork(c, ranks[r])
    ensures 0 <= TotalWork(c, ranks)
  {
    if ranks != [] {
      TotalWorkBounds(c, ranks[1..]);
    }
  }

  lemma {:induction false} InitialWork(c: Config, ranks: seq<Rank>, work: int)
    requires forall r :: 0 <= r < |ranks| ==> RankWork(c, ranks[r]) == work
    ensures TotalWork(c, ranks) == |ranks| * work
  {
    if ranks != [] {
      InitialWork(c, ranks[1..], work);
      OneMore(|ranks|, work);
    }
  }

  lemma OneMore(n: int, work: int)
    ensures work + (n - 1) * work == n * work
  {
  }

  /** A move of a rank that is neither done nor kept in the spin. */
  predicate Productive(c: Config, k: Rank, g: Shared) {
    && k.pc != Done
    && k.pc != LoadContributors
    && !(k.pc == LoadFinished && k.seen + g.finished < c.threads)
  }

  predicate ProductiveEvent(c: Config, s: State, e: Event) {
    e.rank < |s.ranks| && Productive(c, s.ranks[e.rank], s.g)
  }

  function ProductiveMoves(c: Config, schedule: seq<Event>): nat {
    if schedule == [] then 0 else
    var init, e := schedule[..|schedule| - 1], schedule[|schedule| - 1];
    ProductiveMoves(c, init) + if ProductiveEvent(c, Run(c, init), e) then 1 else 0
  }

  lemma MoveUsesRankWork(c: Config, g: Shared, k: Rank, fires: bool)
    ensures RankWork(c, Move(c, k, g, fires)) + (if Productive(c, k, g) then 1 else 0) <= RankWork(c, k)
  {
  }

  lemma MoveUsesWork(c: Config, s: State, e: Event)
    requires Inv(c, s) && e.rank < |s.ranks|
    ensures TotalWork(c, Step(c, s, e).ranks) + (if ProductiveEvent(c, s, e) then 1 else 0) <= TotalWork(c, s.ranks)
  {
    var k := s.ranks[e.rank];
    MoveUsesRankWork(c, s.g, k, e.fires);
    TotalWorkUpdate(c, s.ranks, e.rank, Move(c, k, s.g, e.fires));
  }

  lemma {:induction false} WorkIsUsedUp(c: Config, schedule: seq<Event>)
    ensures ProductiveMoves(c, schedule) + TotalWork(c, Run(c, schedule).ranks) <= TotalWork(c, Init(c).ranks)
  {
    if schedule != [] {
      var init, e := schedule[..|schedule| - 1], schedule[|schedule| - 1];
      WorkIsUsedUp(c, init);
      RunInv(c, init);
      if e.rank < |Run(c, init).ranks| {
        MoveUsesWork(c, Run(c, init), e);
      }
    }
  }

  lemma WorkIsLeft(c: Config, s: State)
    requires Inv(c, s)
    ensures 0 <= TotalWork(c, s.ranks)
  {
    forall r | 0 <= r < |s.ranks| ensures 0 <= RankWork(c, s.ranks[r]) {
      assert RankInv(c, s.g, s.ranks[r]);
    }
    TotalWorkBounds(c, s.ranks);
  }

  /** However the ranks interleave, all of them together make at most a fixed number of
      moves besides the spinning ones. With `NeverStuck` this means that every fair run
      ends. */
  lemma BoundedMoves(c: Config, schedule: seq<Event>)
    ensures ProductiveMoves(c, schedule) <= c.threads * (10 * (c.num + 1) + 3)
  {
    WorkIsUsedUp(c, schedule);
    RunInv(c, schedule);
    WorkIsLeft(c, Run(c, schedule));
    InitialWork(c, Init(c).ranks, 10 * (c.num + 1) + 3);
  }
}
