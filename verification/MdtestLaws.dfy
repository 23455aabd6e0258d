/** What the sizes of an mdtest run come to, whose items a rank uses, and which orders the
    shuffle can give. */
module MdtestLaws {
  import opened Common
  import opened MdtestTree
  import opened MdtestRun

  // ---------- sizes ----------

  /** The directories that get items, as the arguments ask for. */
  function DirsWithItems(args: Args): nat {
    if args.depth < 0 then 0
    else if args.leafOnly then Power(args.branch, args.depth)
    else Above(args.branch, args.depth + 1)
  }

  /** The arguments describe a tree. */
  predicate HasTree(args: Args) {
    args.depth >= 0 && (args.branch > 0 || args.depth == 0)
  }

  lemma Quotients(a: nat, b: nat)
    requires b > 0
    ensures Quotient(a, b) * b <= a < Quotient(a, b) * b + b
  {
    var q := Divide(a, b);
  }

  lemma ZeroQuotient(a: nat, b: nat, q: nat)
    requires b > 0 && q * b <= a < q * b + b
    ensures q == 0 <==> a < b
  {
    if q > 0 {
      Product(1, q, b);
    }
  }

  lemma DirsOf(args: Args)
    requires HasTree(args)
    ensures NumDirs(args.depth, args.branch) == Above(args.branch, args.depth + 1) > 0
    ensures LeafDirs(args) == Power(args.branch, args.depth) > 0
    ensures args.branch <= 1 ==> LeafDirs(args) == 1
  {
    NumDirsIsTheSum(args.depth, args.branch);
    DirsExist(args.depth, args.branch);
    assert Power(args.branch, 0) == 1;
    if args.branch == 1 {
      OnesAdd(args.depth);
    }
  }

  /** Which arguments are refused, and why. */
  lemma RefusedIf(args: Args)
    ensures SetUp(args) == NegativeDepth <==> args.depth < 0
    ensures SetUp(args) == NoBranches <==> args.depth > 0 && args.branch == 0
    ensures SetUp(args) == NotAMultiple <==>
            HasTree(args) && args.items > 0 && args.itemsPerDir > 0 && !Congruent(args.items, 0, args.itemsPerDir)
    ensures SetUp(args) == NoItems <==>
            HasTree(args) && args.itemsPerDir == 0 && args.items < DirsWithItems(args)
  {
    if HasTree(args) {
      DirsOf(args);
      if args.items > 0 && args.itemsPerDir > 0 {
        MultipleIff(args.items, args.itemsPerDir);
      } else if args.itemsPerDir == 0 {
        Quotients(args.items, DirsWithItems(args));
        ZeroQuotient(args.items, DirsWithItems(args), Quotient(args.items, DirsWithItems(args)));
        WholeQuotient(args.items);
      }
    }
  }

  lemma WholeQuotient(a: nat)
    ensures Quotient(a, 1) == a
  {
  }

  lemma MultipleIff(x: nat, n: nat)
    requires n > 0
    ensures x % n == 0 <==> Congruent(x, 0, n)
  {
    var q := Divide(x, n);
    if x % n == 0 {
      assert x == Turned(0, q, n);
    }
    if Congruent(x, 0, n) {
      var m: int :| x == Turned(0, m, n);
      if m < 0 {
        Negative(m, n);
      } else {
        RestOf(x, n, m);
      }
    }
  }

  lemma Negative(m: int, n: int)
    requires m < 0 < n
    ensures m * n < 0
  {
  }

  /** The sizes of a run. Given only a number of items, each directory gets as many as they
      all can get; given only the items of a directory, all of them get those; given both, one
      loop uses the items of one directory, and the loops together use all. */
  lemma SizesAre(args: Args)
    requires SetUp(args).Ready?
    ensures HasTree(args)
    ensures var p, dirs := SetUp(args).p, DirsWithItems(args);
            && p.branch == args.branch && p.depth == args.depth && p.leafOnly == args.leafOnly
            && p.numDirs == Above(args.branch, args.depth + 1)
            && (args.itemsPerDir > 0 ==> p.itemsPerDir == args.itemsPerDir)
            && (args.itemsPerDir == 0 ==> p.itemsPerDir * dirs <= args.items < p.itemsPerDir * dirs + dirs)
            && (args.itemsPerDir > 0 && args.items > 0 ==>
                  p.items == args.items && SetUp(args).loops * args.itemsPerDir == args.items)
            && (args.itemsPerDir == 0 || args.items == 0 ==> p.items == p.itemsPerDir * dirs && SetUp(args).loops == 1)
  {
    DirsOf(args);
    if args.itemsPerDir == 0 {
      Quotients(args.items, DirsWithItems(args));
      WholeQuotient(args.items);
    } else if args.items > 0 {
      var q := Divide(args.items, args.itemsPerDir);
    }
  }

  // ---------- whose items ----------

  /** In a phase a rank uses the items of the rank that is `phase * nstride` further on. */
  lemma ShiftedIs(rank: nat, phase: nat, nstride: nat, threads: nat)
    requires threads > 0
    ensures Shifted(rank, phase, nstride, threads) < threads
    ensures Congruent(Shifted(rank, phase, nstride, threads), rank + phase * nstride, threads)
  {
    var x := rank + phase * nstride;
    var q := Divide(x, threads);
    Opposite(q, threads);
    assert Shifted(rank, phase, nstride, threads) == Turned(x, -q, threads);
  }

  lemma Opposite(q: int, n: int)
    ensures -q * n == -(q * n)
  {
  }

  // ---------- orders ----------

  lemma {:induction false} SameDraws(s: seq<nat>, i: nat, draw: nat -> nat, draw': nat -> nat)
    requires i <= |s| && forall x: nat :: x < i ==> draw(x) == draw'(x)
    ensures ShuffleFrom(s, i, draw) == ShuffleFrom(s, i, draw')
    decreases i
  {
    if i > 1 {
      SameDraws(Exchanged(s, Remainder(draw(i - 1), i), i - 1), i - 1, draw, draw');
    }
  }

  /** The first i places of the two hold the same elements, the others agree. */
  ghost predicate Reaches(s: seq<nat>, t: seq<nat>, i: nat) {
    i <= |s| == |t| && multiset(s[..i]) == multiset(t[..i]) && s[i..] == t[i..]
  }

  lemma Place(s: seq<nat>, t: seq<nat>, i: nat) returns (k: nat)
    requires Reaches(s, t, i) && i > 0
    ensures k < i && Reaches(Exchanged(s, k, i - 1), t, i - 1)
  {
    var j := i - 1;
    assert t[..i][j] in multiset(t[..i]);
    assert t[j] in multiset(s[..i]);
    k :| 0 <= k < i && s[..i][k] == t[j];
    Placed(s, t, j, k, Exchanged(s, k, j));
  }

  lemma Placed(s: seq<nat>, t: seq<nat>, j: nat, k: nat, u: seq<nat>)
    requires Reaches(s, t, j + 1) && k <= j && s[k] == t[j] && u == Exchanged(s, k, j)
    ensures Reaches(u, t, j)
  {
    PlacedFirst(s, t, j, k, u);
    assert u[j..] == [t[j]] + s[j + 1..] && t[j..] == [t[j]] + t[j + 1..];
  }

  lemma PlacedFirst(s: seq<nat>, t: seq<nat>, j: nat, k: nat, u: seq<nat>)
    requires j < |s| == |t| && multiset(s[..j + 1]) == multiset(t[..j + 1])
    requires k <= j && s[k] == t[j] && u == Exchanged(s, k, j)
    ensures multiset(u[..j]) == multiset(t[..j])
  {
    ExchangeKeeps(s[..j + 1], k, j);
    assert u[..j + 1] == Exchanged(s[..j + 1], k, j);
    assert u[..j + 1] == u[..j] + [t[j]] && t[..j + 1] == t[..j] + [t[j]];
    SameRest(multiset(u[..j]), multiset(t[..j]), multiset([t[j]]));
  }

  lemma SameRest(a: multiset<nat>, b: multiset<nat>, c: multiset<nat>)
    requires a + c == b + c
    ensures a == b
  {
    assert a == (a + c) - c && b == (b + c) - c;
  }

  /** The draws with the one for position j replaced. */
  function Redrawn(draw: nat -> nat, j: nat, k: nat): (all: nat -> nat)
    ensures all(j) == k && forall x: nat :: x != j ==> all(x) == draw(x)
  {
    x => if x == j then k else draw(x)
  }

  lemma DrawFirst(s: seq<nat>, i: nat, k: nat, rest: nat -> nat)
    requires 1 < i <= |s| && k < i
    ensures ShuffleFrom(s, i, Redrawn(rest, i - 1, k)) == ShuffleFrom(Exchanged(s, k, i - 1), i - 1, rest)
  {
    SmallRemainder(k, i);
    SameDraws(Exchanged(s, k, i - 1), i - 1, Redrawn(rest, i - 1, k), rest);
  }

  function FirstPlace(): nat -> nat {
    x => 0
  }

  lemma {:induction false} MoreDraws(s: seq<nat>, t: seq<nat>, i: nat) returns (draw: nat -> nat)
    requires Reaches(s, t, i) && i > 1
    ensures ShuffleFrom(s, i, draw) == t
    decreases i, 0
  {
    var k := Place(s, t, i);
    var rest := SomeDraws(Exchanged(s, k, i - 1), t, i - 1);
    DrawFirst(s, i, k, rest);
    draw := Redrawn(rest, i - 1, k);
  }

  lemma {:induction false} SomeDraws(s: seq<nat>, t: seq<nat>, i: nat) returns (draw: nat -> nat)
    requires Reaches(s, t, i)
    ensures ShuffleFrom(s, i, draw) == t
    decreases i, 1
  {
    if i <= 1 {
      draw := FirstPlace();
      OneElement(s, t, i);
    } else {
      draw := MoreDraws(s, t, i);
    }
  }

  lemma SmallRemainder(k: nat, n: nat)
    requires k < n
    ensures Remainder(k, n) == k
  {
    RestOf(k, n, 0);
  }

  lemma OneElement(s: seq<nat>, t: seq<nat>, i: nat)
    requires Reaches(s, t, i) && i <= 1
    ensures s == t
  {
    if i == 1 {
      assert s[..1] == [s[0]] && t[..1] == [t[0]];
      assert s[0] in multiset(t[..1]);
    }
    assert s == s[..i] + s[i..] && t == t[..i] + t[i..];
  }

  /** Every order of the items comes out for some draws. */
  lemma EveryOrderIsDrawn(n: nat, order: seq<nat>) returns (draw: nat -> nat)
    requires multiset(order) == multiset(UpTo(n))
    ensures ShuffleFrom(UpTo(n), n, draw) == order
  {
    assert |multiset(order)| == |multiset(UpTo(n))|;
    assert UpTo(n)[..n] == UpTo(n) && order[..n] == order;
    draw := SomeDraws(UpTo(n), order, n);
  }
}
