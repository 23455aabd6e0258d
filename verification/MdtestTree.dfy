/** The directory tree of mdtest in shared-tree mode: a depth-first walk numbers the
    directories and places the items, and the later phases rebuild the path of an item
    from its number alone.

    Directory 0 is the root, the children of directory d are d*b+1 to d*b+b for branch
    factor b, and directory d holds the items from d*ipd up to (d+1)*ipd. A path lists the
    numbers of the directories below the root. */
module MdtestTree {
  import opened Common

  type Path = seq<nat>

  datatype Params = Params(branch: nat, depth: nat, leafOnly: bool, items: nat, itemsPerDir: nat, numDirs: nat)

  // ---------- paths rebuilt from numbers ----------

  /** The directories on the way from the root to directory d. */
  function Chain(d: nat, b: nat): (path: Path)
    requires b > 0 || d == 0
    ensures path == [] <==> d == 0
    ensures d > 0 ==> path[|path| - 1] == d
    decreases d
  {
    if d == 0 then []
    else
      Smaller(d, b);
      Chain((d - 1) / b, b) + [d]
  }

  lemma Smaller(d: nat, b: nat)
    requires d > 0 && b > 0
    ensures (d - 1) / b < d
  {
    assert d - 1 == (d - 1) / b * b + (d - 1) % b;
    Grows((d - 1) / b, b);
  }

  lemma Grows(q: nat, b: nat)
    requires b > 0
    ensures q * b >= q
  {
  }

  /** The number of a parent from that of a child. */
  lemma ParentOf(parent: nat, b: nat, c: nat)
    requires b > 0 && c > 0
    ensures (c - 1) / b == parent <==> parent * b + 1 <= c <= parent * b + b
  {
    var q, r := (c - 1) / b, (c - 1) % b;
    assert c - 1 == q * b + r;
    if q < parent {
      Product(q + 1, parent, b);
    } else if parent < q {
      Product(parent + 1, q, b);
    }
  }

  lemma Product(x: nat, y: nat, b: nat)
    requires x <= y
    ensures x * b <= y * b
  {
  }

  lemma QuotientOf(item: nat, ipd: nat, d: nat)
    requires ipd > 0
    ensures item / ipd == d <==> d * ipd <= item < d * ipd + ipd
  {
    var q, r := item / ipd, item % ipd;
    assert item == q * ipd + r;
    if q < d {
      Product(q + 1, d, ipd);
    } else if d < q {
      Product(d + 1, q, ipd);
    }
  }

  /** The number of the directory that holds the item. */
  function DirOf(item: nat, ipd: nat): (d: nat)
    requires ipd > 0
    ensures d * ipd <= item < d * ipd + ipd
  {
    QuotientOf(item, ipd, item / ipd);
    item / ipd
  }

  /** The directory part of an item's path, as the later phases compute it. */
  method ItemPath(p: Params, itemNum: nat) returns (path: Path)
    requires p.itemsPerDir > 0 && (p.branch > 0 || itemNum < p.itemsPerDir)
    ensures p.branch > 0 || DirOf(itemNum, p.itemsPerDir) == 0
    ensures path == Chain(DirOf(itemNum, p.itemsPerDir), p.branch)
  {
    QuotientOf(itemNum, p.itemsPerDir, 0);
    path := [];
    var parent := DirOf(itemNum, p.itemsPerDir);
    if parent > 0 {
      path := ParentsOf(parent, p.branch);
    }
  }

  /** The number of the directory above. */
  function ParentNumber(d: nat, b: nat): (up: nat)
    requires d > 0 && b > 0
    ensures up < d
  {
    Smaller(d, b);
    (d - 1) / b
  }

  lemma ChainUp(d: nat, b: nat)
    requires d > 0 && b > 0
    ensures Chain(d, b) == Chain(ParentNumber(d, b), b) + [d]
  {
  }

  method ParentsOf(d: nat, b: nat) returns (path: Path)
    requires d > 0 && b > 0
    ensures path == Chain(d, b)
  {
    var parent := d;
    path := [parent];
    ChainUp(d, b);
    while parent > b
      invariant parent > 0 && Chain(d, b) == Chain(ParentNumber(parent, b), b) + path
      decreases parent
    {
      AtLeastOne(parent, b);
      parent := ParentNumber(parent, b);
      ChainUp(parent, b);
      Reassociate(Chain(ParentNumber(parent, b), b), parent, path);
      path := [parent] + path;
    }
    ParentOf(0, b, parent);
  }

  lemma AtLeastOne(parent: nat, b: nat)
    requires parent > b > 0
    ensures (parent - 1) / b > 0
  {
    ParentOf(0, b, parent);
  }

  lemma Reassociate(a: Path, n: nat, path: Path)
    ensures a + [n] + path == a + ([n] + path)
  {
  }

  /** Each prefix of a chain is the chain of its last directory. */
  lemma {:induction false} PrefixIsChain(d: nat, b: nat, k: nat)
    requires b > 0 && 0 < k <= |Chain(d, b)|
    ensures var c := Chain(d, b)[k - 1]; c > 0 && Chain(d, b)[..k] == Chain(c, b)
    decreases d
  {
    Smaller(d, b);
    var init := Chain((d - 1) / b, b);
    if k <= |init| {
      PrefixIsChain((d - 1) / b, b, k);
      assert Chain(d, b)[..k] == init[..k];
    } else {
      assert Chain(d, b)[..k] == Chain(d, b);
    }
  }

  /** One step down a chain goes from a directory to one of its children. */
  lemma StepDown(d: nat, b: nat, parent: nat)
    requires b > 0 && Chain(parent, b) < Chain(d, b)
    ensures var c := Chain(d, b)[|Chain(parent, b)|];
            parent * b + 1 <= c <= parent * b + b && Chain(parent, b) + [c] <= Chain(d, b)
  {
    var k := |Chain(parent, b)|;
    var c := Chain(d, b)[k];
    PrefixIsChain(d, b, k + 1);
    var init := Chain((c - 1) / b, b);
    assert Chain(c, b)[..k] == init;
    assert init == Chain(parent, b);
    SameChain((c - 1) / b, parent, b);
    ParentOf(parent, b, c);
  }

  lemma SameChain(d: nat, e: nat, b: nat)
    requires b > 0 && Chain(d, b) == Chain(e, b)
    ensures d == e
  {
  }

  lemma ChildChain(parent: nat, b: nat, c: nat)
    requires b > 0 && parent * b + 1 <= c <= parent * b + b
    ensures Chain(c, b) == Chain(parent, b) + [c]
  {
    ParentOf(parent, b, c);
  }

  // ---------- counting directories ----------

  /** The number of directories above level k: 1 + b + ... + b^(k-1). */
  function Above(b: nat, k: nat): nat {
    if k == 0 then 0 else Above(b, k - 1) + Power(b, k - 1)
  }

  lemma {:induction false} AboveStep(b: nat, k: nat)
    ensures Above(b, k + 1) == Above(b, k) * b + 1
  {
    if k > 0 {
      AboveStep(b, k - 1);
      Distribute(Above(b, k - 1), Power(b, k - 1), b);
    } else {
      assert Power(b, 0) == 1 && Above(b, 0) == 0;
    }
  }

  lemma Distribute(x: nat, y: nat, b: nat)
    ensures (x + y) * b == x * b + b * y
  {
  }

  /** Level k holds the directories from Above(b, k) up to Above(b, k + 1). */
  lemma {:induction false} LevelOf(d: nat, b: nat, k: nat)
    requires b > 0
    ensures |Chain(d, b)| < k <==> d < Above(b, k)
    decreases k
  {
    if k > 0 {
      AboveStep(b, k - 1);
      if d > 0 {
        Smaller(d, b);
        var parent := (d - 1) / b;
        LevelOf(parent, b, k - 1);
        ParentOf(parent, b, d);
        ChildAbove(parent, b, d, Above(b, k - 1));
        assert |Chain(d, b)| == |Chain(parent, b)| + 1;
      }
    }
  }

  lemma ChildAbove(parent: nat, b: nat, child: nat, a: nat)
    requires parent * b + 1 <= child <= parent * b + b
    ensures parent < a <==> child < a * b + 1
  {
    if parent < a {
      Product(parent + 1, a, b);
    } else {
      Product(a, parent, b);
    }
  }

  /** The closed form of the number of directories in a tree. */
  function NumDirs(depth: int, branch: int): nat {
    if depth <= 0 || branch < 1 then 1
    else if branch == 1 then depth + 1
    else
      PowerPositive(branch, depth + 1);
      (Power(branch, depth + 1) - 1) / (branch - 1)
  }

  lemma {:induction false} GeometricSum(b: nat, k: nat)
    requires b >= 2
    ensures Above(b, k) * (b - 1) == Power(b, k) - 1
  {
    if k > 0 {
      GeometricSum(b, k - 1);
      Expand(Above(b, k - 1), Power(b, k - 1), b);
    }
  }

  lemma Expand(x: nat, y: nat, b: nat)
    requires b >= 1
    ensures (x + y) * (b - 1) == x * (b - 1) + b * y - y
  {
  }

  lemma {:induction false} OnesAdd(k: nat)
    ensures Power(1, k) == 1 && Above(1, k) == k
  {
    if k > 0 {
      OnesAdd(k - 1);
    }
  }

  lemma Cancel(x: nat, c: nat)
    requires c > 0
    ensures x * c / c == x
  {
    var q, r := x * c / c, x * c % c;
    assert x * c == q * c + r;
    if q < x {
      Product(q + 1, x, c);
    } else if x < q {
      Product(x + 1, q, c);
    }
  }

  /** The closed form counts the directories of levels 0 to depth. */
  lemma NumDirsIsTheSum(depth: nat, branch: nat)
    requires branch > 0 || depth == 0
    ensures NumDirs(depth, branch) == Above(branch, depth + 1)
  {
    if depth == 0 {
      assert Above(branch, 0) == 0 && Power(branch, 0) == 1;
    } else if branch == 1 {
      OnesAdd(depth + 1);
    } else {
      GeometricSum(branch, depth + 1);
      Cancel(Above(branch, depth + 1), branch - 1);
    }
  }

  // ---------- the depth-first walk ----------

  datatype Dir = Dir(path: Path, num: nat)

  /** The directories below one, depth first: those from number `first` on at this depth,
      each followed by what is below it. */
  function Below(b: nat, last: nat, depth: nat, path: Path, first: nat): seq<Dir>
    decreases if depth <= last then last + 1 - depth else 0, b + 1
  {
    if depth > last then [] else Siblings(b, last, depth, path, first, 0)
  }

  function Siblings(b: nat, last: nat, depth: nat, path: Path, first: nat, i: nat): seq<Dir>
    requires depth <= last && i <= b
    decreases last + 1 - depth, b - i
  {
    if i == b then []
    else Family(b, last, depth, path, first + i) + Siblings(b, last, depth, path, first, i + 1)
  }

  /** One directory and all that is below it. */
  function Family(b: nat, last: nat, depth: nat, path: Path, num: nat): seq<Dir>
    requires depth <= last
    decreases last + 1 - depth, 0
  {
    [Dir(path + [num], num)] + Below(b, last, depth + 1, path + [num], num * b + 1)
  }

  function Tree(b: nat, last: nat): seq<Dir> {
    [Dir([], 0)] + Below(b, last, 1, [], 1)
  }

  /** A directory of the tree below the path, through a child numbered at least `low`. */
  predicate Beyond(e: Dir, b: nat, last: nat, path: Path, low: nat)
    requires b > 0
  {
    e.path == Chain(e.num, b) && path < e.path && |e.path| <= last && e.path[|path|] >= low
  }

  lemma {:induction false} BelowIff(b: nat, last: nat, depth: nat, parent: nat, e: Dir)
    requires b > 0 && depth == |Chain(parent, b)| + 1
    ensures e in Below(b, last, depth, Chain(parent, b), parent * b + 1) <==> Beyond(e, b, last, Chain(parent, b), 0)
    decreases if depth <= last then last + 1 - depth else 0, b + 1
  {
    if depth <= last {
      SiblingsIff(b, last, depth, parent, 0, e);
      if Beyond(e, b, last, Chain(parent, b), 0) {
        StepDown(e.num, b, parent);
      }
    }
  }

  lemma {:induction false} SiblingsIff(b: nat, last: nat, depth: nat, parent: nat, i: nat, e: Dir)
    requires b > 0 && depth == |Chain(parent, b)| + 1 && depth <= last && i <= b
    ensures e in Siblings(b, last, depth, Chain(parent, b), parent * b + 1, i) <==>
            Beyond(e, b, last, Chain(parent, b), parent * b + 1 + i)
    decreases last + 1 - depth, b - i
  {
    var path := Chain(parent, b);
    if Beyond(e, b, last, path, parent * b + 1 + i) {
      StepDown(e.num, b, parent);
    }
    if i < b {
      FamilyIff(b, last, depth, parent, parent * b + 1 + i, e);
      SiblingsIff(b, last, depth, parent, i + 1, e);
    }
  }

  lemma {:induction false} FamilyIff(b: nat, last: nat, depth: nat, parent: nat, c: nat, e: Dir)
    requires b > 0 && depth == |Chain(parent, b)| + 1 && depth <= last
    requires parent * b + 1 <= c <= parent * b + b
    ensures e in Family(b, last, depth, Chain(parent, b), c) <==>
            Beyond(e, b, last, Chain(parent, b), c) && e.path[depth - 1] == c
    decreases last + 1 - depth, 0
  {
    var path := Chain(parent, b);
    ChildChain(parent, b, c);
    BelowIff(b, last, depth + 1, c, e);
    if Beyond(e, b, last, path, c) && e.path[depth - 1] == c {
      assert path + [c] <= e.path;
      if e.path == path + [c] {
        SameChain(e.num, c, b);
      }
    }
  }

  /** The walk meets exactly the directories of the tree, each under its own path. */
  lemma TreeIff(b: nat, last: nat, e: Dir)
    requires b > 0 || last == 0
    ensures e in Tree(b, last) <==>
            e.num < Above(b, last + 1) && (b > 0 || e.num == 0) && e.path == Chain(e.num, b)
  {
    if b > 0 {
      BelowIff(b, last, 1, 0, e);
      LevelOf(e.num, b, last + 1);
    } else {
      assert Above(b, 1) == 1 by { assert Power(b, 0) == 1 && Above(b, 0) == 0; }
      assert Tree(b, last) == [Dir([], 0)];
    }
  }

  lemma DistinctAppend<T>(s: seq<T>, t: seq<T>)
    requires Distinct(s) && Distinct(t) && forall x :: x in s ==> x !in t
    ensures Distinct(s + t)
  {
    forall i, j | 0 <= i < j < |s + t| ensures (s + t)[i] != (s + t)[j] {
      assert i < |s| <= j ==> s[i] in s && t[j - |s|] in t;
    }
  }

  lemma {:induction false} BelowDistinct(b: nat, last: nat, depth: nat, parent: nat)
    requires b > 0 && depth == |Chain(parent, b)| + 1
    ensures Distinct(Below(b, last, depth, Chain(parent, b), parent * b + 1))
    decreases if depth <= last then last + 1 - depth else 0, b + 1
  {
    if depth <= last {
      SiblingsDistinct(b, last, depth, parent, 0);
    }
  }

  lemma {:induction false} SiblingsDistinct(b: nat, last: nat, depth: nat, parent: nat, i: nat)
    requires b > 0 && depth == |Chain(parent, b)| + 1 && depth <= last && i <= b
    ensures Distinct(Siblings(b, last, depth, Chain(parent, b), parent * b + 1, i))
    decreases last + 1 - depth, b - i
  {
    if i < b {
      var path, c := Chain(parent, b), parent * b + 1 + i;
      FamilyDistinct(b, last, depth, parent, c);
      SiblingsDistinct(b, last, depth, parent, i + 1);
      forall e | e in Family(b, last, depth, path, c) ensures e !in Siblings(b, last, depth, path, parent * b + 1, i + 1) {
        FamilyIff(b, last, depth, parent, c, e);
        SiblingsIff(b, last, depth, parent, i + 1, e);
      }
      DistinctAppend(Family(b, last, depth, path, c), Siblings(b, last, depth, path, parent * b + 1, i + 1));
    }
  }

  lemma {:induction false} FamilyDistinct(b: nat, last: nat, depth: nat, parent: nat, c: nat)
    requires b > 0 && depth == |Chain(parent, b)| + 1 && depth <= last
    requires parent * b + 1 <= c <= parent * b + b
    ensures Distinct(Family(b, last, depth, Chain(parent, b), c))
    decreases last + 1 - depth, 0
  {
    ChildChain(parent, b, c);
    BelowDistinct(b, last, depth + 1, c);
    var e := Dir(Chain(c, b), c);
    BelowIff(b, last, depth + 1, c, e);
    DistinctAppend([e], Below(b, last, depth + 1, Chain(c, b), c * b + 1));
  }

  lemma TreeDistinct(b: nat, last: nat)
    requires b > 0 || last == 0
    ensures Distinct(Tree(b, last))
  {
    if b > 0 {
      BelowDistinct(b, last, 1, 0);
      BelowIff(b, last, 1, 0, Dir([], 0));
      DistinctAppend([Dir([], 0)], Below(b, last, 1, [], 1));
    } else {
      assert Tree(b, last) == [Dir([], 0)];
    }
  }

  // ---------- the items ----------

  datatype Item = Item(path: Path, num: nat)

  function Range(path: Path, start: nat, n: nat): (items: seq<Item>)
    ensures |items| == n
    ensures forall i :: 0 <= i < n ==> items[i] == Item(path, start + i)
  {
    if n == 0 then [] else Range(path, start, n - 1) + [Item(path, start + n - 1)]
  }

  /** A directory gets items, unless only the deepest ones do. */
  predicate Holds(p: Params, depth: nat) {
    !p.leafOnly || depth == p.depth
  }

  function ItemsIn(p: Params, dir: Dir): seq<Item> {
    if Holds(p, |dir.path|) then Range(dir.path, dir.num * p.itemsPerDir, p.itemsPerDir) else []
  }

  function ItemsOf(p: Params, dirs: seq<Dir>): seq<Item> {
    if dirs == [] then [] else ItemsIn(p, dirs[0]) + ItemsOf(p, dirs[1..])
  }

  lemma Assoc(a: seq<Item>, b: seq<Item>, c: seq<Item>)
    ensures (a + b) + c == a + (b + c)
  {
  }

  lemma {:induction false} ItemsOfAppend(p: Params, s: seq<Dir>, t: seq<Dir>)
    ensures ItemsOf(p, s + t) == ItemsOf(p, s) + ItemsOf(p, t)
  {
    if s == [] {
      assert s + t == t;
    } else {
      ItemsOfAppend(p, s[1..], t);
      assert (s + t)[1..] == s[1..] + t;
      Assoc(ItemsIn(p, s[0]), ItemsOf(p, s[1..]), ItemsOf(p, t));
    }
  }

  /** Which items a list of directories has. */
  lemma {:induction false} ItemsOfIff(p: Params, dirs: seq<Dir>, x: Item)
    requires p.itemsPerDir > 0
    ensures x in ItemsOf(p, dirs) <==> Holds(p, |x.path|) && Dir(x.path, DirOf(x.num, p.itemsPerDir)) in dirs
  {
    if dirs != [] {
      var e, ipd := dirs[0], p.itemsPerDir;
      ItemsOfIff(p, dirs[1..], x);
      QuotientOf(x.num, ipd, e.num);
      var range := Range(e.path, e.num * ipd, ipd);
      if x.path == e.path && e.num * ipd <= x.num < e.num * ipd + ipd {
        assert range[x.num - e.num * ipd] == x;
      }
      assert dirs == [e] + dirs[1..];
    }
  }

  lemma {:induction false} ItemsDistinct(p: Params, dirs: seq<Dir>)
    requires p.itemsPerDir > 0 && Distinct(dirs)
    ensures Distinct(ItemsOf(p, dirs))
  {
    if dirs != [] {
      var e, ipd := dirs[0], p.itemsPerDir;
      assert Distinct(dirs[1..]);
      ItemsDistinct(p, dirs[1..]);
      var range := Range(e.path, e.num * ipd, ipd);
      forall x | x in range ensures x !in ItemsOf(p, dirs[1..]) {
        QuotientOf(x.num, ipd, e.num);
        ItemsOfIff(p, dirs[1..], x);
      }
      DistinctAppend(if Holds(p, |e.path|) then range else [], ItemsOf(p, dirs[1..]));
    }
  }

  /** The items the walk visits. */
  function Visited(p: Params): seq<Item> {
    ItemsOf(p, Tree(p.branch, p.depth))
  }

  function LeafOffset(p: Params): int {
    if p.leafOnly then p.itemsPerDir * (p.numDirs - Power(p.branch, p.depth)) else 0
  }

  /** The number of items that the directories of the tree take. */
  function Capacity(p: Params): nat {
    p.itemsPerDir * if p.leafOnly then Power(p.branch, p.depth) else p.numDirs
  }

  predicate Sensible(p: Params) {
    p.itemsPerDir > 0 && (p.branch > 0 || p.depth == 0) && p.numDirs == NumDirs(p.depth, p.branch)
  }

  lemma Bounds(p: Params)
    requires Sensible(p)
    ensures p.numDirs == Above(p.branch, p.depth + 1) >= Power(p.branch, p.depth)
    ensures LeafOffset(p) == if p.leafOnly then p.itemsPerDir * Above(p.branch, p.depth) else 0
    ensures LeafOffset(p) + Capacity(p) == p.itemsPerDir * p.numDirs
  {
    NumDirsIsTheSum(p.depth, p.branch);
    Parts(p.itemsPerDir, Above(p.branch, p.depth), Power(p.branch, p.depth), p.numDirs);
  }

  lemma Parts(ipd: nat, a: nat, leaves: nat, dirs: nat)
    requires dirs == a + leaves
    ensures ipd * (dirs - leaves) == ipd * a
    ensures ipd * a + ipd * leaves == ipd * dirs
  {
  }

  lemma NumbersInUse(p: Params, item: nat)
    requires Sensible(p)
    ensures var d := DirOf(item, p.itemsPerDir);
            LeafOffset(p) <= item < LeafOffset(p) + Capacity(p) <==>
            d < Above(p.branch, p.depth + 1) && (p.leafOnly ==> d >= Above(p.branch, p.depth))
  {
    Bounds(p);
    InRange(item, p.itemsPerDir, p.numDirs);
    InRange(item, p.itemsPerDir, Above(p.branch, p.depth));
  }

  lemma LevelInUse(p: Params, d: nat)
    requires Sensible(p) && d < Above(p.branch, p.depth + 1) && (p.branch > 0 || d == 0)
    ensures Holds(p, |Chain(d, p.branch)|) <==> (p.leafOnly ==> d >= Above(p.branch, p.depth))
  {
    if p.branch > 0 {
      LevelOf(d, p.branch, p.depth);
      LevelOf(d, p.branch, p.depth + 1);
    }
  }

  /** The walk visits an item if its number is in the range that the later phases use, under
      exactly the path that they rebuild, and no other item. */
  lemma WalkAgreesWithNumbers(p: Params, x: Item)
    requires Sensible(p)
    ensures x in Visited(p) <==>
            && LeafOffset(p) <= x.num < LeafOffset(p) + Capacity(p)
            && (p.branch > 0 || DirOf(x.num, p.itemsPerDir) == 0)
            && x.path == Chain(DirOf(x.num, p.itemsPerDir), p.branch)
  {
    var d := DirOf(x.num, p.itemsPerDir);
    ItemsOfIff(p, Tree(p.branch, p.depth), x);
    TreeIff(p.branch, p.depth, Dir(x.path, d));
    NumbersInUse(p, x.num);
    if d < Above(p.branch, p.depth + 1) && (p.branch > 0 || d == 0) {
      LevelInUse(p, d);
    }
  }

  /** No item is visited twice. */
  lemma WalkVisitsOnce(p: Params)
    requires Sensible(p)
    ensures Distinct(Visited(p))
  {
    TreeDistinct(p.branch, p.depth);
    ItemsDistinct(p, Tree(p.branch, p.depth));
  }

  /** The directory of every item of the tree is one the skeleton has. */
  lemma ItemsLieInTheTree(p: Params, x: Item)
    requires Sensible(p) && x in Visited(p)
    ensures exists e :: e in Tree(p.branch, p.depth) && e.path == x.path
  {
    ItemsOfIff(p, Tree(p.branch, p.depth), x);
  }

  lemma InRange(item: nat, ipd: nat, dirs: nat)
    requires ipd > 0
    ensures item < ipd * dirs <==> DirOf(item, ipd) < dirs
  {
    var d := DirOf(item, ipd);
    if d < dirs {
      Product(d + 1, dirs, ipd);
    } else {
      Product(dirs, d, ipd);
    }
  }
}
