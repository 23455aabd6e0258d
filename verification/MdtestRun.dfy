/** The recursive procedures of mdtest over a tree of directories, the arithmetic that sizes
    the tree, and the order in which items are visited. */
module MdtestRun {
  import opened Common
  import opened MdtestTree

  // ---------- placing the items ----------

  /** The directories that exist, by path below the root, and the items visited so far. */
  class World {
    var dirs: set<Path>
    var visited: seq<Item>

    constructor ()
      ensures dirs == {} && visited == []
    {
      dirs, visited := {}, [];
    }

    /** Fails if the directory exists or its parent does not. */
    method CreateDir(path: Path) returns (ok: bool)
      modifies this`dirs
      ensures ok <==> path !in old(dirs) && (path == [] || path[..|path| - 1] in old(dirs))
      ensures dirs == if ok then old(dirs) + {path} else old(dirs)
    {
      ok := path !in dirs && (path == [] || path[..|path| - 1] in dirs);
      if ok {
        dirs := dirs + {path};
      }
    }

    /** Fails if the directory does not exist or has something below it. */
    method RemoveDir(path: Path) returns (ok: bool)
      modifies this`dirs
      ensures ok <==> path in old(dirs) && forall q :: q in old(dirs) ==> !(path < q)
      ensures dirs == if ok then old(dirs) - {path} else old(dirs)
    {
      ok := path in dirs && forall q :: q in dirs ==> !(path < q);
      if ok {
        dirs := dirs - {path};
      }
    }

    method ItemRange(p: Params, path: Path, start: nat)
      modifies this`visited
      ensures visited == old(visited) + Range(path, start, p.itemsPerDir)
    {
      for i := 0 to p.itemsPerDir
        invariant visited == old(visited) + Range(path, start, i)
      {
        Assoc(old(visited), Range(path, start, i), [Item(path, start + i)]);
        visited := visited + [Item(path, start + i)];
      }
    }

    /** The whole walk from the root. */
    method WalkItems(p: Params)
      modifies this`visited
      ensures visited == old(visited) + Visited(p)
    {
      ghost var before := visited;
      if !p.leafOnly || p.depth == 0 {
        ItemRange(p, [], 0);
      }
      ghost var root := ItemsIn(p, Dir([], 0));
      assert visited == before + root;
      if p.depth > 0 {
        WalkItemsBelow(p, 1, [], 1);
      }
      Assoc(before, root, ItemsOf(p, Below(p.branch, p.depth, 1, [], 1)));
      assert Tree(p.branch, p.depth)[1..] == Below(p.branch, p.depth, 1, [], 1);
    }

    method WalkItemsBelow(p: Params, depth: nat, path: Path, dirNum: nat)
      requires depth == |path| + 1
      modifies this`visited
      ensures visited == old(visited) + ItemsOf(p, Below(p.branch, p.depth, depth, path, dirNum))
      decreases if depth <= p.depth then p.depth + 1 - depth else 0, 1
    {
      if depth <= p.depth {
        ghost var all := ItemsOf(p, Siblings(p.branch, p.depth, depth, path, dirNum, 0));
        for i: nat := 0 to p.branch
          invariant old(visited) + all == visited + ItemsOf(p, Siblings(p.branch, p.depth, depth, path, dirNum, i))
        {
          ghost var family := ItemsOf(p, Family(p.branch, p.depth, depth, path, dirNum + i));
          ghost var rest := ItemsOf(p, Siblings(p.branch, p.depth, depth, path, dirNum, i + 1));
          ItemsOfAppend(p, Family(p.branch, p.depth, depth, path, dirNum + i),
                        Siblings(p.branch, p.depth, depth, path, dirNum, i + 1));
          Assoc(visited, family, rest);
          WalkFamily(p, depth, path, dirNum + i);
        }
      }
    }

    method WalkFamily(p: Params, depth: nat, path: Path, c: nat)
      requires depth == |path| + 1 && depth <= p.depth
      modifies this`visited
      ensures visited == old(visited) + ItemsOf(p, Family(p.branch, p.depth, depth, path, c))
      decreases p.depth + 1 - depth, 0
    {
      var sub := path + [c];
      VisitDir(p, depth, sub, c);
      ghost var e, below := Dir(sub, c), Below(p.branch, p.depth, depth + 1, sub, c * p.branch + 1);
      WalkItemsBelow(p, depth + 1, sub, c * p.branch + 1);
      FamilyItems(p, e, below);
      Assoc(old(visited), ItemsIn(p, e), ItemsOf(p, below));
    }

    method VisitDir(p: Params, depth: nat, sub: Path, c: nat)
      requires depth == |sub| > 0
      modifies this`visited
      ensures visited == old(visited) + ItemsIn(p, Dir(sub, c))
    {
      if !p.leafOnly || depth == p.depth {
        ItemRange(p, sub, c * p.itemsPerDir);
      }
    }
  }

  lemma FamilyItems(p: Params, e: Dir, below: seq<Dir>)
    ensures ItemsOf(p, [e] + below) == ItemsIn(p, e) + ItemsOf(p, below)
  {
    assert ([e] + below)[1..] == below;
  }

  // ---------- making and removing the skeleton ----------

  function PathsOf(dirs: seq<Dir>): set<Path> {
    set e | e in dirs :: e.path
  }

  lemma PathsAppend(s: seq<Dir>, t: seq<Dir>)
    ensures PathsOf(s + t) == PathsOf(s) + PathsOf(t)
  {
  }

  lemma FamilyPaths(b: nat, last: nat, depth: nat, path: Path, c: nat)
    requires depth <= last
    ensures PathsOf(Family(b, last, depth, path, c)) ==
            {path + [c]} + PathsOf(Below(b, last, depth + 1, path + [c], c * b + 1))
  {
    PathsAppend([Dir(path + [c], c)], Below(b, last, depth + 1, path + [c], c * b + 1));
  }

  /** Below a directory there are only other paths. */
  lemma OthersBelow(b: nat, last: nat, depth: nat, parent: nat, c: nat)
    requires b > 0 && depth == |Chain(parent, b)| + 1 && parent * b + 1 <= c <= parent * b + b
    ensures Chain(parent, b) + [c] == Chain(c, b)
    ensures Chain(c, b) !in PathsOf(Below(b, last, depth + 1, Chain(c, b), c * b + 1))
  {
    ChildChain(parent, b, c);
    forall e | e in Below(b, last, depth + 1, Chain(c, b), c * b + 1) ensures e.path != Chain(c, b) {
      BelowIff(b, last, depth + 1, c, e);
    }
  }

  /** The paths of the siblings from the i-th on. */
  function Later(b: nat, last: nat, depth: nat, path: Path, first: nat, i: nat): set<Path>
    requires depth <= last && i <= b
  {
    PathsOf(Siblings(b, last, depth, path, first, i))
  }

  lemma LaterSplits(b: nat, last: nat, depth: nat, parent: nat, i: nat)
    requires b > 0 && depth == |Chain(parent, b)| + 1 && depth <= last && i < b
    ensures var path, first := Chain(parent, b), parent * b + 1;
            var family := PathsOf(Family(b, last, depth, path, first + i));
            && Later(b, last, depth, path, first, i) == family + Later(b, last, depth, path, first, i + 1)
            && family !! Later(b, last, depth, path, first, i + 1)
  {
    var path, first := Chain(parent, b), parent * b + 1;
    PathsAppend(Family(b, last, depth, path, first + i), Siblings(b, last, depth, path, first, i + 1));
    forall e, f | e in Family(b, last, depth, path, first + i) && f in Siblings(b, last, depth, path, first, i + 1)
      ensures e.path != f.path
    {
      FamilyIff(b, last, depth, parent, first + i, e);
      SiblingsIff(b, last, depth, parent, i + 1, f);
    }
  }

  /** Makes the directories below an existing one; none of the steps fails. */
  method CreateBelow(w: World, b: nat, last: nat, depth: nat, path: Path, parent: nat) returns (ok: bool)
    requires b > 0 && path == Chain(parent, b) && depth == |path| + 1 && path in w.dirs
    requires PathsOf(Below(b, last, depth, path, parent * b + 1)) !! w.dirs
    modifies w`dirs
    ensures ok && w.dirs == old(w.dirs) + PathsOf(Below(b, last, depth, path, parent * b + 1))
    decreases if depth <= last then last + 1 - depth else 0, 1
  {
    ok := true;
    if depth <= last {
      ghost var first := parent * b + 1;
      ghost var whole := w.dirs + Later(b, last, depth, path, first, 0);
      for i: nat := 0 to b
        invariant ok && path in w.dirs
        invariant w.dirs + Later(b, last, depth, path, first, i) == whole
        invariant Later(b, last, depth, path, first, i) !! w.dirs
      {
        LaterSplits(b, last, depth, parent, i);
        ok := CreateFamily(w, b, last, depth, path, parent, parent * b + 1 + i);
      }
      assert Later(b, last, depth, path, first, b) == {};
    }
  }

  method CreateFamily(w: World, b: nat, last: nat, depth: nat, path: Path, parent: nat, c: nat) returns (ok: bool)
    requires b > 0 && path == Chain(parent, b) && depth == |path| + 1 && depth <= last && path in w.dirs
    requires parent * b + 1 <= c <= parent * b + b
    requires PathsOf(Family(b, last, depth, path, c)) !! w.dirs
    modifies w`dirs
    ensures ok && w.dirs == old(w.dirs) + PathsOf(Family(b, last, depth, path, c))
    decreases last + 1 - depth, 0
  {
    var sub := path + [c];
    FamilyPaths(b, last, depth, path, c);
    OthersBelow(b, last, depth, parent, c);
    assert sub[..|sub| - 1] == path;
    var made := w.CreateDir(sub);
    var deeper := CreateBelow(w, b, last, depth + 1, sub, c);
    ok := made && deeper;
  }

  /** Removes the directories below one, children first; nothing else is there. */
  method RemoveBelow(w: World, b: nat, last: nat, depth: nat, path: Path, parent: nat)
    requires b > 0 && path == Chain(parent, b) && depth == |path| + 1
    requires PathsOf(Below(b, last, depth, path, parent * b + 1)) <= w.dirs
    requires forall q :: q in w.dirs && path < q ==> q in PathsOf(Below(b, last, depth, path, parent * b + 1))
    modifies w`dirs
    ensures w.dirs == old(w.dirs) - PathsOf(Below(b, last, depth, path, parent * b + 1))
    decreases if depth <= last then last + 1 - depth else 0, 1
  {
    if depth <= last {
      ghost var first := parent * b + 1;
      ghost var before, all := w.dirs, Later(b, last, depth, path, first, 0);
      for i: nat := 0 to b
        invariant Later(b, last, depth, path, first, i) <= w.dirs * all
        invariant w.dirs == before - all + Later(b, last, depth, path, first, i)
        invariant forall q :: q in w.dirs && path < q ==> q in Later(b, last, depth, path, first, 0)
      {
        LaterSplits(b, last, depth, parent, i);
        RemoveFamily(w, b, last, depth, path, parent, parent * b + 1 + i);
      }
      assert Later(b, last, depth, path, first, b) == {};
    }
  }

  method RemoveFamily(w: World, b: nat, last: nat, depth: nat, path: Path, parent: nat, c: nat)
    requires b > 0 && path == Chain(parent, b) && depth == |path| + 1 && depth <= last
    requires parent * b + 1 <= c <= parent * b + b
    requires PathsOf(Family(b, last, depth, path, c)) <= w.dirs
    requires forall q :: q in w.dirs && path < q ==> q in Later(b, last, depth, path, parent * b + 1, 0)
    modifies w`dirs
    ensures w.dirs == old(w.dirs) - PathsOf(Family(b, last, depth, path, c))
    decreases last + 1 - depth, 0
  {
    var sub := path + [c];
    FamilyPaths(b, last, depth, path, c);
    OthersBelow(b, last, depth, parent, c);
    forall q | q in w.dirs && sub < q ensures q in PathsOf(Below(b, last, depth + 1, sub, c * b + 1)) {
      assert path < q;
      BelowChild(b, last, depth, parent, c, q);
    }
    RemoveBelow(w, b, last, depth + 1, sub, c);
    var gone := w.RemoveDir(sub);
  }

  lemma BelowChild(b: nat, last: nat, depth: nat, parent: nat, c: nat, q: Path)
    requires b > 0 && depth == |Chain(parent, b)| + 1 && depth <= last
    requires parent * b + 1 <= c <= parent * b + b && Chain(parent, b) + [c] < q
    requires q in Later(b, last, depth, Chain(parent, b), parent * b + 1, 0)
    ensures q in PathsOf(Below(b, last, depth + 1, Chain(parent, b) + [c], c * b + 1))
  {
    ChildChain(parent, b, c);
    var e :| e in Siblings(b, last, depth, Chain(parent, b), parent * b + 1, 0) && e.path == q;
    SiblingsIff(b, last, depth, parent, 0, e);
    BelowIff(b, last, depth + 1, c, e);
  }

  method CreateTree(w: World, b: nat, last: nat) returns (ok: bool)
    requires (b > 0 || last == 0) && w.dirs == {}
    modifies w`dirs
    ensures ok && w.dirs == PathsOf(Tree(b, last))
  {
    ok := w.CreateDir([]);
    if b > 0 {
      forall e | e in Below(b, last, 1, [], 1) ensures e.path != [] {
        BelowIff(b, last, 1, 0, e);
      }
      var deeper := CreateBelow(w, b, last, 1, [], 0);
      ok := ok && deeper;
    }
    PathsAppend([Dir([], 0)], Below(b, last, 1, [], 1));
  }

  method RemoveTree(w: World, b: nat, last: nat)
    requires (b > 0 || last == 0) && w.dirs == PathsOf(Tree(b, last))
    modifies w`dirs
    ensures w.dirs == {}
  {
    PathsAppend([Dir([], 0)], Below(b, last, 1, [], 1));
    if b > 0 {
      RemoveBelow(w, b, last, 1, [], 0);
    }
    var gone := w.RemoveDir([]);
  }

  // ---------- sizing the tree ----------

  /** The arguments that matter here. A negative branch factor, which only depth 0 admits,
      is written as 0. */
  datatype Args = Args(branch: nat, depth: int, items: nat, itemsPerDir: nat, leafOnly: bool)

  datatype Setup =
    | NegativeDepth
    | NoBranches
    | NotAMultiple
    | NoItems
    | Ready(p: Params, loops: nat)

  function LeafDirs(args: Args): nat {
    if args.depth <= 0 then 1 else Power(args.branch, args.depth)
  }

  function Quotient(a: nat, b: nat): nat
    requires b > 0
  {
    a / b
  }

  function Times(a: nat, b: nat): nat {
    a * b
  }

  /** The items for each directory, and all items of a rank. */
  function Sizes(args: Args, numDirs: nat, leafDirs: nat): (nat, nat)
    requires numDirs > 0 && leafDirs > 0
  {
    if args.itemsPerDir > 0 && args.items > 0 then (args.itemsPerDir, args.items)
    else
      var ipd :=
        if args.itemsPerDir > 0 then args.itemsPerDir
        else if !args.leafOnly then Quotient(args.items, numDirs)
        else if args.branch <= 1 then args.items
        else Quotient(args.items, leafDirs);
      (ipd, Times(ipd, if args.leafOnly then leafDirs else numDirs))
  }

  function SetUp(args: Args): Setup {
    if args.depth < 0 then NegativeDepth
    else if args.branch < 1 && args.depth > 0 then NoBranches
    else if args.items > 0 && args.itemsPerDir > 0 && args.items % args.itemsPerDir != 0 then NotAMultiple
    else
      var numDirs := NumDirs(args.depth, args.branch);
      NumDirsIsTheSum(args.depth, args.branch);
      DirsExist(args.depth, args.branch);
      var (ipd, items) := Sizes(args, numDirs, LeafDirs(args));
      if ipd == 0 then NoItems
      else
        Ready(Params(args.branch, args.depth, args.leafOnly, items, ipd, numDirs),
              if args.items > 0 && args.itemsPerDir > 0 then Quotient(args.items, args.itemsPerDir) else 1)
  }

  lemma DirsExist(depth: nat, branch: nat)
    requires branch > 0 || depth == 0
    ensures Above(branch, depth + 1) > 0 && Power(branch, depth) > 0
  {
    if branch > 0 {
      PowerPositive(branch, depth);
    }
  }

  /** How many directories get items. */
  function ItemDirs(p: Params): nat {
    if p.leafOnly then Power(p.branch, p.depth) else p.numDirs
  }

  /** With one directory loop the phases use as many items as the walk visits exactly if not
      both sizes were given, or only one directory gets items; they never use more. */
  lemma SizesAgreeIff(args: Args)
    requires SetUp(args).Ready? && SetUp(args).loops == 1
    ensures var p := SetUp(args).p;
            && Sensible(p) && p.items <= Capacity(p)
            && (p.items == Capacity(p) <==> args.items == 0 || args.itemsPerDir == 0 || ItemDirs(p) == 1)
  {
    var p := SetUp(args).p;
    NumDirsIsTheSum(p.depth, p.branch);
    DirsExist(p.depth, p.branch);
    if args.items > 0 && args.itemsPerDir > 0 {
      assert args.items == args.itemsPerDir * (args.items / args.itemsPerDir) + args.items % args.itemsPerDir;
      assert p.items == p.itemsPerDir;
      OneOrMore(p.itemsPerDir, ItemDirs(p));
    }
  }

  lemma OneOrMore(ipd: nat, dirs: nat)
    requires ipd > 0 && dirs > 0
    ensures ipd <= ipd * dirs && (ipd == ipd * dirs <==> dirs == 1)
  {
    Product(1, dirs, ipd);
    if dirs > 1 {
      Product(2, dirs, ipd);
    }
  }

  /** The number of an item in a later phase. */
  function ItemNumber(p: Params, i: nat): nat
    requires Sensible(p)
  {
    Bounds(p);
    i + LeafOffset(p)
  }

  /** Every item that a later phase looks for was placed by the walk, under the path that
      the phase rebuilds. */
  lemma PhasesFindTheirItems(p: Params, i: nat)
    requires Sensible(p) && p.items <= Capacity(p) && i < p.items
    ensures var item := ItemNumber(p, i);
            && (p.branch > 0 || DirOf(item, p.itemsPerDir) == 0)
            && Item(Chain(DirOf(item, p.itemsPerDir), p.branch), item) in Visited(p)
  {
    Bounds(p);
    var item := ItemNumber(p, i);
    NumbersInUse(p, item);
    if p.branch == 0 {
      assert Above(0, 1) == 1 by { assert Power(0, 0) == 1 && Above(0, 0) == 0; }
    }
    WalkAgreesWithNumbers(p, Item(Chain(DirOf(item, p.itemsPerDir), p.branch), item));
  }

  /** The item as a later phase names it. */
  function Rebuilt(p: Params, i: nat): Item
    requires Sensible(p) && p.items <= Capacity(p) && i < p.items
  {
    PhasesFindTheirItems(p, i);
    var item := ItemNumber(p, i);
    Item(Chain(DirOf(item, p.itemsPerDir), p.branch), item)
  }

  method NameItem(p: Params, i: nat) returns (item: Item)
    requires Sensible(p) && p.items <= Capacity(p) && i < p.items
    ensures item == Rebuilt(p, i)
  {
    PhasesFindTheirItems(p, i);
    var num := ItemNumber(p, i);
    BranchOrFirst(p, num);
    var path := ItemPath(p, num);
    item := Item(path, num);
  }

  /** How many of the first n items in the order are not present. */
  function Absent(p: Params, order: seq<nat>, present: set<Item>, n: nat): nat
    requires Sensible(p) && p.items <= Capacity(p) && n <= |order|
    requires forall i :: 0 <= i < |order| ==> order[i] < p.items
  {
    if n == 0 then 0
    else Absent(p, order, present, n - 1) + if Rebuilt(p, order[n - 1]) in present then 0 else 1
  }

  /** A later phase, in order or in a shuffled order, over the items that are present. */
  method StatPhase(p: Params, order: seq<nat>, present: set<Item>) returns (missed: nat)
    requires Sensible(p) && p.items <= Capacity(p)
    requires |order| == p.items && forall i :: 0 <= i < |order| ==> order[i] < p.items
    ensures missed == Absent(p, order, present, |order|)
    ensures missed == 0 <==> forall i :: 0 <= i < |order| ==> Rebuilt(p, order[i]) in present
  {
    missed := 0;
    for i := 0 to p.items
      invariant missed == Absent(p, order, present, i)
      invariant missed == 0 <==> forall k :: 0 <= k < i ==> Rebuilt(p, order[k]) in present
    {
      var item := NameItem(p, order[i]);
      if item !in present {
        missed := missed + 1;
      }
    }
  }

  /** After the walk a later phase misses nothing, in any order. */
  method PlaceThenStat(p: Params, order: seq<nat>) returns (missed: nat)
    requires Sensible(p) && p.items <= Capacity(p)
    requires |order| == p.items && forall i :: 0 <= i < |order| ==> order[i] < p.items
    ensures missed == 0
  {
    var w := new World();
    w.WalkItems(p);
    forall i | 0 <= i < |order| ensures Rebuilt(p, order[i]) in w.visited {
      PhasesFindTheirItems(p, order[i]);
    }
    missed := StatPhase(p, order, set x | x in w.visited);
  }

  lemma BranchOrFirst(p: Params, item: nat)
    requires p.itemsPerDir > 0 && (p.branch > 0 || DirOf(item, p.itemsPerDir) == 0)
    ensures p.branch > 0 || item < p.itemsPerDir
  {
  }

  // ---------- whose items, in which order ----------

  /** The rank whose items a rank uses in a phase. */
  function Shifted(rank: nat, phase: nat, nstride: nat, threads: nat): nat
    requires threads > 0
  {
    (rank + phase * nstride) % threads
  }

  lemma RestOf(x: nat, n: nat, d: nat)
    requires n > 0 && d * n <= x < d * n + n
    ensures x % n == x - d * n
  {
    QuotientOf(x, n, d);
  }

  lemma SumRest(a: nat, s: nat, n: nat)
    requires a < n
    ensures (a + s) % n == if a + s % n < n then a + s % n else a + s % n - n
  {
    var k, r := s / n, s % n;
    assert s == k * n + r;
    if a + r < n {
      RestOf(a + s, n, k);
    } else {
      Successor(k, n);
      RestOf(a + s, n, k + 1);
    }
  }

  lemma Successor(k: nat, n: nat)
    ensures (k + 1) * n == k * n + n
  {
  }

  function Remainder(x: nat, n: nat): (r: nat)
    requires n > 0
    ensures r < n
  {
    x % n
  }

  /** In every phase each rank's items are used by exactly one rank. */
  lemma ShiftIsABijection(target: nat, phase: nat, nstride: nat, threads: nat)
    requires target < threads
    ensures exists rank: nat :: rank < threads && Shifted(rank, phase, nstride, threads) == target
    ensures forall q: nat, r: nat ::
              q < threads && r < threads && Shifted(q, phase, nstride, threads) == Shifted(r, phase, nstride, threads) ==>
              q == r
  {
    var s := phase * nstride;
    var rank := if s % threads <= target then target - s % threads else target + threads - s % threads;
    SumRest(rank, s, threads);
    assert Shifted(rank, phase, nstride, threads) == target;
    forall q: nat, r: nat | q < threads && r < threads && Shifted(q, phase, nstride, threads) == Shifted(r, phase, nstride, threads)
      ensures q == r
    {
      SumRest(q, s, threads);
      SumRest(r, s, threads);
    }
  }

  function UpTo(n: nat): (s: seq<nat>)
    ensures |s| == n && forall i :: 0 <= i < n ==> s[i] == i
  {
    if n == 0 then [] else UpTo(n - 1) + [n - 1]
  }

  function Exchanged(s: seq<nat>, i: nat, k: nat): seq<nat>
    requires i < |s| && k < |s|
  {
    s[i := s[k]][k := s[i]]
  }

  lemma ExchangeKeeps(s: seq<nat>, i: nat, k: nat)
    requires i < |s| && k < |s|
    ensures multiset(Exchanged(s, i, k)) == multiset(s)
  {
  }

  method Exchange(arr: array<nat>, i: nat, k: nat)
    requires i < arr.Length && k < arr.Length
    modifies arr
    ensures arr[..] == Exchanged(old(arr[..]), i, k)
  {
    arr[i], arr[k] := arr[k], arr[i];
  }

  /** The positions below i are exchanged one after the other, from the last one down, each
      with one drawn from those up to it. */
  function ShuffleFrom(s: seq<nat>, i: nat, draw: nat -> nat): seq<nat>
    requires i <= |s|
    decreases i
  {
    if i <= 1 then s else ShuffleFrom(Exchanged(s, Remainder(draw(i - 1), i), i - 1), i - 1, draw)
  }

  /** The shuffle exchanges elements, whatever positions are drawn. */
  method Shuffled(n: nat, draw: nat -> nat) returns (arr: array<nat>)
    ensures fresh(arr) && multiset(arr[..]) == multiset(UpTo(n))
    ensures arr[..] == ShuffleFrom(UpTo(n), n, draw)
  {
    arr := new nat[n](i => i);
    assert arr[..] == UpTo(n);
    ShuffleKeeps(UpTo(n), n, draw);
    var i: nat := n;
    while i > 1
      invariant i <= n && arr.Length == n
      invariant ShuffleFrom(arr[..], i, draw) == ShuffleFrom(UpTo(n), n, draw)
    {
      i := i - 1;
      var k := Remainder(draw(i), i + 1);
      Exchange(arr, k, i);
    }
  }

  lemma {:induction false} ShuffleKeeps(s: seq<nat>, i: nat, draw: nat -> nat)
    requires i <= |s|
    ensures multiset(ShuffleFrom(s, i, draw)) == multiset(s)
    decreases i
  {
    if i > 1 {
      var k := Remainder(draw(i - 1), i);
      ExchangeKeeps(s, k, i - 1);
      ShuffleKeeps(Exchanged(s, k, i - 1), i - 1, draw);
    }
  }

  /** A shuffled order visits every item exactly once. */
  lemma {:induction false} ShuffledVisitsOnce(order: seq<nat>, n: nat, item: nat)
    requires multiset(order) == multiset(UpTo(n))
    ensures multiset(order)[item] == if item < n then 1 else 0
    ensures |order| == n && forall i :: 0 <= i < |order| ==> order[i] < n
  {
    CountUpTo(n, item);
    assert |multiset(order)| == |multiset(UpTo(n))|;
    forall i | 0 <= i < |order| ensures order[i] < n {
      assert order[i] in multiset(order);
      CountUpTo(n, order[i]);
    }
  }

  lemma CountAppend(s: seq<nat>, x: nat, item: nat)
    ensures multiset(s + [x])[item] == multiset(s)[item] + if x == item then 1 else 0
  {
  }

  lemma {:induction false} CountUpTo(n: nat, item: nat)
    ensures multiset(UpTo(n))[item] == if item < n then 1 else 0
  {
    if n > 0 {
      CountUpTo(n - 1, item);
      CountAppend(UpTo(n - 1), n - 1, item);
    }
  }
}
