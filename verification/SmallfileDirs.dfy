/** Where smallfile puts its files: directories named like numbers in base dirs-per-dir, or
    by a hash, the creation of all directories that are needed, and the cleanup that walks
    up from each of them.

    A path is the list of its components below the root of a thread's tree. */
module SmallfileDirs {
  import opened Common
  import opened Decimals

  const SOME_PRIME := 900593

  datatype Params = Params(iterations: nat, filesPerDir: nat, dirsPerDir: nat, hashed: bool)

  // ---------- numerals ----------

  predicate AllDigits(digits: seq<nat>, base: nat) {
    forall i :: 0 <= i < |digits| ==> digits[i] < base
  }

  predicate NoLeadingZero(digits: seq<nat>) {
    |digits| == 1 || (|digits| > 1 && digits[0] > 0)
  }

  /** The number that the digits stand for. */
  function Fold(digits: seq<nat>, base: nat): nat {
    if digits == [] then 0 else Fold(digits[..|digits| - 1], base) * base + digits[|digits| - 1]
  }

  function Numeral(n: nat, base: nat): (digits: seq<nat>)
    requires base >= 2 || n < base
    decreases n
  {
    if n < base then [n]
    else
      Shrinks(n, base);
      Numeral(n / base, base) + [n % base]
  }

  lemma Shrinks(n: nat, base: nat)
    requires n >= base >= 2
    ensures 0 < n / base < n && n == n / base * base + n % base
  {
    Larger(n / base, base);
  }

  lemma Larger(q: nat, base: nat)
    requires base >= 2
    ensures q * base >= 2 * q
  {
  }

  lemma Monotone(a: nat, b: nat, c: nat)
    requires a <= b
    ensures a * c <= b * c
  {
  }

  lemma {:induction false} NumeralIsCanonical(n: nat, base: nat)
    requires base >= 2
    ensures AllDigits(Numeral(n, base), base) && NoLeadingZero(Numeral(n, base)) && Fold(Numeral(n, base), base) == n
    decreases n
  {
    if n >= base {
      Shrinks(n, base);
      NumeralIsCanonical(n / base, base);
      CanonicalAppend(Numeral(n / base, base), n / base, n % base, base);
    }
  }

  lemma CanonicalAppend(init: seq<nat>, q: nat, r: nat, base: nat)
    requires AllDigits(init, base) && NoLeadingZero(init) && Fold(init, base) == q > 0 && r < base
    ensures AllDigits(init + [r], base) && NoLeadingZero(init + [r]) && Fold(init + [r], base) == q * base + r
  {
    assert (init + [r])[..|init|] == init;
    if |init| == 1 {
      assert Fold([], base) == 0;
      assert init[..0] == [];
    }
  }

  lemma {:induction false} FoldIsLarge(digits: seq<nat>, base: nat)
    requires base >= 2 && NoLeadingZero(digits) && digits[0] > 0
    ensures Fold(digits, base) > 0
  {
    var init := digits[..|digits| - 1];
    if |digits| > 1 {
      FoldIsLarge(init, base);
      assert Fold(init, base) * base >= Fold(init, base);
    }
  }

  lemma QuotientUnique(q: nat, r: nat, p: nat, t: nat, base: nat)
    requires base > 0 && r < base && t < base && q * base + r == p * base + t
    ensures q == p && r == t
  {
    if q < p {
      Monotone(q + 1, p, base);
    } else if p < q {
      Monotone(p + 1, q, base);
    }
  }

  /** A numeral without leading zeros is determined by its number. */
  lemma {:induction false} NumeralsAreUnique(a: seq<nat>, b: seq<nat>, base: nat)
    requires base >= 2 && AllDigits(a, base) && AllDigits(b, base) && NoLeadingZero(a) && NoLeadingZero(b)
    requires Fold(a, base) == Fold(b, base)
    ensures a == b
  {
    var p, q := a[..|a| - 1], b[..|b| - 1];
    QuotientUnique(Fold(p, base), a[|a| - 1], Fold(q, base), b[|b| - 1], base);
    if |a| > 1 {
      FoldIsLarge(p, base);
    }
    if |b| > 1 {
      FoldIsLarge(q, base);
    }
    if |a| > 1 && |b| > 1 {
      NumeralsAreUnique(p, q, base);
    }
    assert a == p + [a[|a| - 1]] && b == q + [b[|b| - 1]];
  }

  /** With a base below 2 the loop that collects the levels would never end. */
  lemma {:induction false} LevelsNeverExceed(base: nat, dirNum: nat, n: nat)
    requires base < 2 && base <= dirNum
    ensures Power(base, n + 1) <= dirNum
  {
    if n == 0 {
      assert Power(base, 0) == 1;
    } else {
      LevelsNeverExceed(base, dirNum, n - 1);
    }
  }

  lemma LevelStep(folded: nat, level: nat, base: nat, dirIn: nat, q: nat)
    requires level > 0 && dirIn < base * level && q == dirIn / level
    ensures q < base && 0 <= dirIn - q * level < level
    ensures folded * (base * level) + dirIn == (folded * base + q) * level + (dirIn - q * level)
  {
    assert dirIn == q * level + dirIn % level;
    if q >= base {
      Monotone(base, q, level);
    }
    Regroup(folded, base, level, q);
  }

  lemma Regroup(folded: nat, base: nat, level: nat, q: nat)
    ensures (folded * base + q) * level == folded * (base * level) + q * level
  {
  }

  ghost predicate IsLevel(levels: seq<nat>, i: nat, base: nat)
    requires i < |levels|
  {
    levels[i] == Power(base, i + 1) && levels[i] > 0
  }

  /** The powers of the base up to the number, smallest first. */
  method Levels(base: nat, dirIn: nat) returns (levels: seq<nat>)
    requires base >= 2 || dirIn < base
    ensures forall i :: 0 <= i < |levels| ==> IsLevel(levels, i, base)
    ensures |levels| > 0 ==> levels[|levels| - 1] <= dirIn
    ensures dirIn < Power(base, |levels| + 1)
  {
    levels := [];
    var dirsForThisLevel := base;
    assert Power(base, 1) == base * Power(base, 0);
    while dirsForThisLevel <= dirIn
      invariant dirsForThisLevel == Power(base, |levels| + 1) && dirsForThisLevel > 0
      invariant forall i :: 0 <= i < |levels| ==> IsLevel(levels, i, base)
      invariant |levels| > 0 ==> levels[|levels| - 1] <= dirIn
      decreases dirIn - dirsForThisLevel
    {
      ghost var before := levels;
      levels := levels + [dirsForThisLevel];
      forall i | 0 <= i < |levels| ensures IsLevel(levels, i, base) {
        assert i < |before| ==> IsLevel(before, i, base);
      }
      Larger(dirsForThisLevel, base);
      dirsForThisLevel := dirsForThisLevel * base;
      assert Power(base, |levels| + 1) == base * Power(base, |levels|);
    }
  }

  /** The digits so far and the number still to be split make up the whole. */
  ghost predicate Partial(parts: seq<nat>, dirIn: nat, weight: nat, base: nat, n: nat) {
    && dirIn < weight && AllDigits(parts, base) && (|parts| > 0 ==> parts[0] > 0)
    && Fold(parts, base) * weight + dirIn == n
  }

  lemma PartialStep(parts: seq<nat>, dirIn: nat, level: nat, base: nat, n: nat)
    requires level > 0 && Partial(parts, dirIn, base * level, base, n)
    requires parts == [] ==> level <= dirIn
    ensures dirIn / level * level <= dirIn
    ensures Partial(parts + [dirIn / level], dirIn - dirIn / level * level, level, base, n)
  {
    var q := dirIn / level;
    LevelStep(Fold(parts, base), level, base, dirIn, q);
    if parts == [] {
      FirstDigit(dirIn, level);
    }
    assert (parts + [q])[..|parts|] == parts;
  }

  /** The components of the directory of a file. In all other cases the first loop would not
      end, as `LevelsNeverExceed` shows. */
  method MkSeqDirName(p: Params, fileNum: nat) returns (parts: seq<nat>)
    requires p.filesPerDir > 0 && (p.dirsPerDir >= 2 || fileNum / p.filesPerDir < p.dirsPerDir)
    ensures parts == Numeral(fileNum / p.filesPerDir, p.dirsPerDir)
  {
    parts := SplitNumber(fileNum / p.filesPerDir, p.dirsPerDir);
  }

  method SplitNumber(n: nat, base: nat) returns (parts: seq<nat>)
    requires base >= 2 || n < base
    ensures parts == Numeral(n, base)
  {
    var dirIn: nat := n;
    var levels := Levels(base, dirIn);
    parts := [];
    var i: nat := |levels|;
    while i > 0
      invariant i <= |levels| && |parts| == |levels| - i
      invariant Partial(parts, dirIn, Power(base, i + 1), base, n)
    {
      i := i - 1;
      assert IsLevel(levels, i, base);
      if parts == [] {
        EmptyIsWhole(parts, dirIn, Power(base, i + 2), base, n);
      }
      parts, dirIn := NextDigit(parts, dirIn, levels[i], base, n);
    }
    LastDigit(parts, dirIn, base, n);
    parts := parts + [dirIn];
  }

  lemma EmptyIsWhole(parts: seq<nat>, dirIn: nat, weight: nat, base: nat, n: nat)
    requires Partial(parts, dirIn, weight, base, n) && parts == []
    ensures dirIn == n
  {
  }

  /** Splits one digit off the front of the number. */
  method NextDigit(parts: seq<nat>, dirIn: nat, level: nat, ghost base: nat, ghost n: nat)
      returns (longer: seq<nat>, rest: nat)
    requires level > 0 && Partial(parts, dirIn, base * level, base, n)
    requires parts == [] ==> level <= dirIn
    ensures Partial(longer, rest, level, base, n) && |longer| == |parts| + 1
  {
    PartialStep(parts, dirIn, level, base, n);
    var quotient: nat := dirIn / level;
    return parts + [quotient], dirIn - quotient * level;
  }

  lemma LastDigit(parts: seq<nat>, dirIn: nat, base: nat, n: nat)
    requires (base >= 2 || n < base) && Partial(parts, dirIn, Power(base, 1), base, n)
    ensures parts + [dirIn] == Numeral(n, base)
  {
    assert Power(base, 1) == base * Power(base, 0) == base;
    if base >= 2 {
      assert (parts + [dirIn])[..|parts|] == parts;
      NumeralIsCanonical(n, base);
      NumeralsAreUnique(parts + [dirIn], Numeral(n, base), base);
    } else {
      assert parts == [];
      assert Fold([], base) == 0;
    }
  }

  lemma FirstDigit(n: nat, level: nat)
    requires 0 < level <= n
    ensures n / level > 0
  {
  }

  // ---------- directory names ----------

  /** A path is the numbers of its components. */
  type Path = seq<nat>

  function ComponentName(prefix: string, n: nat): string {
    prefix + Padded(n, 3)
  }

  /** Different numbers give different component names. */
  lemma ComponentsDiffer(prefix: string, m: nat, n: nat)
    ensures ComponentName(prefix, m) == ComponentName(prefix, n) <==> m == n
  {
    if ComponentName(prefix, m) == ComponentName(prefix, n) {
      assert ComponentName(prefix, m)[|prefix|..] == Padded(m, 3);
      assert ComponentName(prefix, n)[|prefix|..] == Padded(n, 3);
      PaddedIsInjective(m, n, 3);
    }
  }

  /** A component is the prefix and its number in decimal, with at least three digits. */
  lemma ComponentIsRead(prefix: string, n: nat)
    ensures var name := ComponentName(prefix, n);
            |name| >= |prefix| + 3 && name[..|prefix|] == prefix && Value(name[|prefix|..]) == n
    ensures |Decimal(n)| >= 3 ==> ComponentName(prefix, n) == prefix + Decimal(n)
  {
    assert ComponentName(prefix, n)[|prefix|..] == Padded(n, 3);
    PaddedIsRead(n, 3);
  }

  predicate Sensible(p: Params) {
    p.filesPerDir > 0 && p.dirsPerDir >= 2 && (p.hashed ==> p.iterations > 0)
  }

  function Hashed(dirNum: nat, base: nat): Path
    requires base >= 2
    decreases dirNum
  {
    if dirNum <= 1 then []
    else
      Shorter(dirNum, base);
      Hashed(dirNum / base, base) + [HashDigit(dirNum, base)]
  }

  lemma Shorter(n: nat, base: nat)
    requires n > 0 && base >= 2
    ensures n / base < n
  {
    if n >= base {
      Shrinks(n, base);
    }
  }

  function HashedDirNum(p: Params, fileNum: nat): nat
    requires Sensible(p) && p.hashed
  {
    fileNum * SOME_PRIME % p.iterations / p.filesPerDir
  }

  /** The component for a directory number. */
  function HashDigit(dirNum: nat, base: nat): nat
    requires base >= 2
  {
    dirNum * SOME_PRIME % base
  }

  method MkHashedDirName(p: Params, fileNum: nat) returns (path: Path)
    requires Sensible(p) && p.hashed
    ensures path == Hashed(HashedDirNum(p, fileNum), p.dirsPerDir)
  {
    path := HashedPath(HashedDirNum(p, fileNum), p.dirsPerDir);
  }

  method HashedPath(start: nat, base: nat) returns (path: Path)
    requires base >= 2
    ensures path == Hashed(start, base)
  {
    path := [];
    var dirNum: nat := start;
    while dirNum > 1
      invariant Hashed(dirNum, base) + path == Hashed(start, base)
      decreases dirNum
    {
      Shorter(dirNum, base);
      var digit := HashDigit(dirNum, base);
      HashedStep(dirNum, base, path);
      path := [digit] + path;
      dirNum := dirNum / base;
    }
  }

  /** The number on level k of a hashed path: divided k times by the base. */
  function Scaled(dirNum: nat, base: nat, k: nat): nat
    requires base >= 2
  {
    PowerPositive(base, k);
    dirNum / Power(base, k)
  }

  /** Two divisions one after the other are one by the product. */
  lemma DivideTwice(x: nat, b: nat, p: nat, bp: nat)
    requires b > 0 && p > 0 && bp == b * p && bp > 0
    ensures x / b / p == x / bp
  {
    var q1: nat := Divide(x, b);
    var q2: nat := Divide(q1, p);
    var q: nat := Divide(x, bp);
    var r1: nat, r2: nat := x % b, q1 % p;
    Monotone(r2 + 1, p, b);
    Flatten(b, p, q2, r2, r1, x, bp);
    QuotientUnique(q, x % bp, q2, r2 * b + r1, bp);
  }

  lemma Flatten(b: nat, p: nat, q: nat, r2: nat, r1: nat, x: nat, bp: nat)
    requires x == (q * p + r2) * b + r1 && bp == b * p
    ensures x == q * bp + (r2 * b + r1)
  {
    assert (q * p + r2) * b == q * p * b + r2 * b;
    assert q * p * b == q * (p * b);
  }

  lemma ScaledNext(dirNum: nat, base: nat, k: nat)
    requires base >= 2
    ensures Scaled(dirNum, base, 0) == dirNum
    ensures Scaled(dirNum / base, base, k) == Scaled(dirNum, base, k + 1)
  {
    assert Power(base, 0) == 1;
    PowerPositive(base, k);
    PowerPositive(base, k + 1);
    DivideTwice(dirNum, base, Power(base, k), Power(base, k + 1));
  }

  /** A hashed path has a component for each level on which the directory number, divided
      down, is still more than 1, counted from the last component; that component is the hash
      of the number there. */
  lemma {:induction false} HashedIs(dirNum: nat, base: nat, k: nat)
    requires base >= 2
    ensures var path := Hashed(dirNum, base);
            && Scaled(dirNum, base, |path|) <= 1
            && (k < |path| ==>
                  Scaled(dirNum, base, k) > 1 && path[|path| - 1 - k] == Scaled(dirNum, base, k) * SOME_PRIME % base)
    decreases dirNum
  {
    ScaledNext(dirNum, base, 0);
    if dirNum > 1 {
      Shorter(dirNum, base);
      var above := Hashed(dirNum / base, base);
      ScaledNext(dirNum, base, |above|);
      if k > 0 {
        HashedIs(dirNum / base, base, k - 1);
        ScaledNext(dirNum, base, k - 1);
      } else {
        HashedIs(dirNum / base, base, 0);
      }
    }
  }

  /** The directory number of a file in hashed mode: the block of files-per-dir that holds the
      hash of the file number below iterations. */
  lemma HashedDirNumIs(p: Params, fileNum: nat) returns (hash: nat)
    requires Sensible(p) && p.hashed
    ensures hash < p.iterations && Congruent(fileNum * SOME_PRIME, hash, p.iterations)
    ensures var d := HashedDirNum(p, fileNum); d * p.filesPerDir <= hash < d * p.filesPerDir + p.filesPerDir
  {
    hash := fileNum * SOME_PRIME % p.iterations;
    var q := Divide(fileNum * SOME_PRIME, p.iterations);
    assert fileNum * SOME_PRIME == Turned(hash, q, p.iterations);
    var d := Divide(hash, p.filesPerDir);
  }

  lemma HashedStep(dirNum: nat, base: nat, path: Path)
    requires base >= 2 && dirNum > 1
    ensures Hashed(dirNum, base) + path == Hashed(dirNum / base, base) + ([HashDigit(dirNum, base)] + path)
  {
    Unroll(Hashed(dirNum / base, base), HashDigit(dirNum, base), path);
  }

  lemma Unroll(a: Path, n: nat, b: Path)
    ensures a + [n] + b == a + ([n] + b)
  {
  }

  /** The directory of a file. */
  function DirOf(p: Params, fileNum: nat): Path
    requires Sensible(p)
  {
    if p.hashed then Hashed(HashedDirNum(p, fileNum), p.dirsPerDir)
    else Numeral(fileNum / p.filesPerDir, p.dirsPerDir)
  }

  method MkDirName(p: Params, fileNum: nat) returns (path: Path)
    requires Sensible(p)
    ensures path == DirOf(p, fileNum)
  {
    if p.hashed {
      path := MkHashedDirName(p, fileNum);
    } else {
      path := MkSeqDirName(p, fileNum);
    }
  }

  /** Two files share a directory exactly if they have the same directory number, which is
      the number that the components of the path stand for. */
  lemma SequentialNamesAreInjective(p: Params, f: nat, g: nat)
    requires Sensible(p) && !p.hashed
    ensures DirOf(p, f) == DirOf(p, g) <==> f / p.filesPerDir == g / p.filesPerDir
    ensures Fold(DirOf(p, f), p.dirsPerDir) == f / p.filesPerDir
  {
    NumeralIsCanonical(f / p.filesPerDir, p.dirsPerDir);
    NumeralIsCanonical(g / p.filesPerDir, p.dirsPerDir);
  }

  /** The files of a directory are files-per-dir consecutive ones. */
  lemma FilesOfADirectory(p: Params, f: nat, g: nat)
    requires Sensible(p) && !p.hashed && DirOf(p, f) == DirOf(p, g)
    ensures var first := f / p.filesPerDir * p.filesPerDir; first <= g < first + p.filesPerDir
  {
    SequentialNamesAreInjective(p, f, g);
    assert g == g / p.filesPerDir * p.filesPerDir + g % p.filesPerDir;
  }

  lemma {:induction false} ComponentsAreDigits(p: Params, fileNum: nat)
    requires Sensible(p)
    ensures AllDigits(DirOf(p, fileNum), p.dirsPerDir)
  {
    if p.hashed {
      HashedDigits(HashedDirNum(p, fileNum), p.dirsPerDir);
    } else {
      NumeralIsCanonical(fileNum / p.filesPerDir, p.dirsPerDir);
    }
  }

  lemma {:induction false} HashedDigits(dirNum: nat, base: nat)
    requires base >= 2
    ensures AllDigits(Hashed(dirNum, base), base)
    decreases dirNum
  {
    if dirNum > 1 {
      Shorter(dirNum, base);
      HashedDigits(dirNum / base, base);
    }
  }

  lemma {:induction false} IntervalIsSmall(s: set<nat>, first: nat, n: nat)
    requires forall k :: k in s ==> first <= k < first + n
    ensures |s| <= n
    decreases n
  {
    if n == 0 {
      assert s == {};
    } else {
      IntervalIsSmall(s - {first + n - 1}, first, n - 1);
    }
  }

  /** No directory holds more than files-per-dir files. */
  lemma FilesPerDirectory(p: Params, path: Path, files: set<nat>)
    requires Sensible(p) && !p.hashed && forall f :: f in files ==> DirOf(p, f) == path
    ensures |files| <= p.filesPerDir
  {
    if f :| f in files {
      forall g | g in files ensures f / p.filesPerDir * p.filesPerDir <= g < f / p.filesPerDir * p.filesPerDir + p.filesPerDir {
        FilesOfADirectory(p, f, g);
      }
      IntervalIsSmall(files, f / p.filesPerDir * p.filesPerDir, p.filesPerDir);
    }
  }

  /** A directory with this component below the path leads to the directory of some file. */
  ghost predicate IsSubdirectory(p: Params, path: Path, component: nat)
    requires Sensible(p)
  {
    exists f :: path + [component] <= DirOf(p, f)
  }

  /** No directory has more than dirs-per-dir subdirectories. */
  lemma SubdirectoriesPerDirectory(p: Params, path: Path, components: set<nat>)
    requires Sensible(p) && forall c :: c in components ==> IsSubdirectory(p, path, c)
    ensures |components| <= p.dirsPerDir
  {
    forall c | c in components ensures 0 <= c < 0 + p.dirsPerDir {
      assert IsSubdirectory(p, path, c);
      var f :| path + [c] <= DirOf(p, f);
      ComponentsAreDigits(p, f);
      assert DirOf(p, f)[|path|] == (path + [c])[|path|];
    }
    IntervalIsSmall(components, 0, p.dirsPerDir);
  }

  // ---------- which directories are made ----------

  /** The file numbers whose directories are made and cleaned up. */
  predicate IsSubdirNum(p: Params, j: nat)
    requires Sensible(p)
  {
    if p.hashed then j <= p.iterations else j < p.iterations + p.filesPerDir && j % p.filesPerDir == 0
  }

  method SubdirFileNums(p: Params) returns (nums: set<nat>)
    requires Sensible(p)
    ensures forall j: nat :: j in nums <==> IsSubdirNum(p, j)
  {
    nums := {};
    if p.hashed {
      for j: nat := 0 to p.iterations + 1
        invariant forall k: nat :: k in nums <==> k < j
      {
        nums := nums + {j};
      }
    } else {
      var j: nat := 0;
      ghost var i: nat := 0;
      while j < p.iterations + p.filesPerDir
        invariant j == i * p.filesPerDir
        invariant forall k: nat :: k in nums <==> k < j && k % p.filesPerDir == 0 && k < p.iterations + p.filesPerDir
        decreases p.iterations + p.filesPerDir - j
      {
        NextMultiple(i, p.filesPerDir);
        nums := nums + {j};
        j := j + p.filesPerDir;
        i := i + 1;
      }
    }
  }

  /** Between two multiples in a row there is no other. */
  lemma NextMultiple(i: nat, d: nat)
    requires d > 0
    ensures i * d % d == 0 && i * d + d == (i + 1) * d
    ensures forall k: nat :: i * d < k < i * d + d ==> k % d != 0
  {
    MultipleRest(i, 0, d);
    forall k: nat | i * d < k < i * d + d ensures k % d != 0 {
      MultipleRest(i, k - i * d, d);
    }
  }

  lemma MultipleRest(i: nat, r: nat, d: nat)
    requires r < d
    ensures (i * d + r) % d == r
  {
    var n := i * d + r;
    assert n == n / d * d + n % d;
    QuotientUnique(i, r, n / d, n % d, d);
  }

  /** Every file from 1 to the number of iterations finds its directory among those made,
      and every number used there has a precomputed name. */
  lemma EveryFileIsCovered(p: Params, f: nat) returns (j: nat)
    requires Sensible(p) && 1 <= f <= p.iterations
    ensures IsSubdirNum(p, j) && DirOf(p, j) == DirOf(p, f) && j < p.iterations + p.filesPerDir
  {
    if p.hashed {
      j := f;
    } else {
      var i := f / p.filesPerDir;
      j := i * p.filesPerDir;
      assert f == i * p.filesPerDir + f % p.filesPerDir;
      MultipleRest(i, 0, p.filesPerDir);
      assert j == j / p.filesPerDir * p.filesPerDir + j % p.filesPerDir;
      QuotientUnique(i, 0, j / p.filesPerDir, j % p.filesPerDir, p.filesPerDir);
    }
  }

  // ---------- making and cleaning up ----------

  datatype RemoveResult = Removed | NotFound | NotEmpty

  /** The directory is the other one or above it. */
  predicate LeadsTo(q: Path, d: Path) {
    q <= d
  }

  lemma LeadsToParent(q: Path, d: Path)
    requires d != []
    ensures LeadsTo(q, d) <==> q == d || LeadsTo(q, d[..|d| - 1])
  {
    if q <= d && q != d {
      assert |q| < |d|;
    }
  }

  lemma LeadsToParents(d: Path)
    requires d != []
    ensures forall q :: LeadsTo(q, d) <==> q == d || LeadsTo(q, d[..|d| - 1])
  {
    forall q | true ensures LeadsTo(q, d) <==> q == d || LeadsTo(q, d[..|d| - 1]) {
      LeadsToParent(q, d);
    }
  }

  function Prefixes(path: Path): (all: set<Path>)
    ensures forall q :: q in all <==> LeadsTo(q, path)
  {
    if path == [] then {[]}
    else
      LeadsToParents(path);
      {path} + Prefixes(path[..|path| - 1])
  }

  /** A tree of directories without files. The root is the empty path. */
  class Tree {
    var dirs: set<Path>

    constructor ()
      ensures dirs == {[]}
    {
      dirs := {[]};
    }

    method CreateDirAll(path: Path)
      modifies this
      ensures dirs == old(dirs) + Prefixes(path)
    {
      dirs := dirs + Prefixes(path);
    }

    /** Fails if anything is below the directory. */
    method RemoveDir(path: Path) returns (r: RemoveResult)
      modifies this
      ensures r == NotFound <==> path !in old(dirs)
      ensures r == NotEmpty <==> path in old(dirs) && exists q :: q in old(dirs) && path < q
      ensures dirs == if r == Removed then old(dirs) - {path} else old(dirs)
    {
      if path !in dirs {
        return NotFound;
      } else if exists q :: q in dirs && path < q {
        return NotEmpty;
      }
      dirs := dirs - {path};
      return Removed;
    }
  }

  method DirSet(p: Params) returns (names: set<Path>)
    requires Sensible(p)
    ensures forall q :: q in names <==> Needed(p, q)
  {
    names := {};
    var nums := SubdirFileNums(p);
    ghost var all := nums;
    while nums != {}
      invariant nums <= all
      invariant forall q :: q in names <==> exists j :: j in all - nums && DirOf(p, j) == q
      decreases nums
    {
      var j :| j in nums;
      var path := MkDirName(p, j);
      names, nums := names + {path}, nums - {j};
    }
  }

  ghost predicate Needed(p: Params, path: Path)
    requires Sensible(p)
  {
    exists j: nat :: IsSubdirNum(p, j) && DirOf(p, j) == path
  }

  /** The directory is needed itself or leads to a needed one. */
  ghost predicate OnTheWay(names: set<Path>, q: Path) {
    exists d :: d in names && LeadsTo(q, d)
  }

  /** Makes the needed directories and those on the way to them, and no others. */
  method MakeAllSubdirs(p: Params, tree: Tree, ghost names: set<Path>)
    requires Sensible(p) && forall q :: q in names <==> Needed(p, q)
    modifies tree
    ensures forall q :: q in tree.dirs <==> q in old(tree.dirs) || OnTheWay(names, q)
  {
    var todo := DirSet(p);
    assert todo == names;
    while todo != {}
      invariant todo <= names
      invariant forall q :: q in tree.dirs <==> q in old(tree.dirs) || OnTheWay(names - todo, q)
      decreases todo
    {
      var d :| d in todo;
      tree.CreateDirAll(d);
      MoreOnTheWay(names - todo, d);
      assert names - (todo - {d}) == names - todo + {d};
      todo := todo - {d};
    }
    assert names - todo == names;
  }

  lemma MoreOnTheWay(names: set<Path>, d: Path)
    ensures forall q :: OnTheWay(names + {d}, q) <==> OnTheWay(names, q) || LeadsTo(q, d)
  {
    forall q | true ensures OnTheWay(names + {d}, q) <==> OnTheWay(names, q) || LeadsTo(q, d) {
      if OnTheWay(names, q) {
        var e :| e in names && LeadsTo(q, e);
        assert e in names + {d};
      } else if LeadsTo(q, d) {
        assert d in names + {d};
      }
    }
  }

  /** Removes a directory and those above it, up to the first that is not empty. What is
      left leads to a directory that is still to come. */
  method WalkUp(tree: Tree, d: Path, ghost rest: set<Path>)
    requires forall q :: q in tree.dirs && q != [] ==> OnTheWay(rest + {d}, q)
    modifies tree
    ensures forall q :: q in tree.dirs && q != [] ==> OnTheWay(rest, q)
    ensures tree.dirs <= old(tree.dirs) && ([] in tree.dirs <==> [] in old(tree.dirs))
  {
    var cur := d;
    MoreOnTheWay(rest, d);
    while cur != []
      invariant forall q :: q in tree.dirs && q != [] ==> OnTheWay(rest, q) || LeadsTo(q, cur)
      invariant tree.dirs <= old(tree.dirs) && ([] in tree.dirs <==> [] in old(tree.dirs))
      decreases |cur|
    {
      var r := tree.RemoveDir(cur);
      if r == NotEmpty {
        KeptForAnother(tree.dirs, cur, rest);
        return;
      }
      forall q | q in tree.dirs && q != [] ensures OnTheWay(rest, q) || LeadsTo(q, cur[..|cur| - 1]) {
        LeadsToParent(q, cur);
      }
      cur := cur[..|cur| - 1];
    }
  }

  lemma KeptForAnother(dirs: set<Path>, cur: Path, rest: set<Path>)
    requires exists q :: q in dirs && cur < q
    requires forall q :: q in dirs && q != [] ==> OnTheWay(rest, q) || LeadsTo(q, cur)
    ensures forall q :: q in dirs && q != [] ==> OnTheWay(rest, q)
  {
    var below :| below in dirs && cur < below;
    assert OnTheWay(rest, below);
    var e :| e in rest && LeadsTo(below, e);
    forall q | q in dirs && q != [] ensures OnTheWay(rest, q) {
      if LeadsTo(q, cur) {
        assert LeadsTo(q, e);
      }
    }
  }

  /** If no file is left and every directory leads to a needed one, nothing is left below
      the root, in whatever order the needed directories are visited. */
  method CleanAllSubdirs(p: Params, tree: Tree, ghost names: set<Path>)
    requires Sensible(p) && forall q :: q in names <==> Needed(p, q)
    requires forall q :: q in tree.dirs && q != [] ==> OnTheWay(names, q)
    modifies tree
    ensures tree.dirs == old(tree.dirs) * {[]}
  {
    var todo := DirSet(p);
    assert todo == names;
    while todo != {}
      invariant forall q :: q in tree.dirs && q != [] ==> OnTheWay(todo, q)
      invariant tree.dirs <= old(tree.dirs) && ([] in tree.dirs <==> [] in old(tree.dirs))
      decreases todo
    {
      var d :| d in todo;
      assert todo - {d} + {d} == todo;
      WalkUp(tree, d, todo - {d});
      todo := todo - {d};
    }
  }

  /** A whole cycle: every file has its directory in between, and at the end only the root
      is left. */
  method MakeThenClean(p: Params, f: nat) returns (present: bool, left: set<Path>)
    requires Sensible(p) && 1 <= f <= p.iterations
    ensures present && left == {[]}
  {
    var tree := new Tree();
    var names := DirSet(p);
    MakeAllSubdirs(p, tree, names);
    ghost var j := EveryFileIsCovered(p, f);
    assert Needed(p, DirOf(p, f));
    var dir := MkDirName(p, f);
    assert OnTheWay(names, dir);
    present := dir in tree.dirs;
    forall q | q in tree.dirs && q != [] ensures OnTheWay(names, q) {
    }
    CleanAllSubdirs(p, tree, names);
    left := tree.dirs;
    assert OnTheWay(names, []);
  }
}
