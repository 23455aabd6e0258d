/** The renaming phase of mdtest: item 0 moves to a spare name, every other item takes its
    predecessor's name, and the last step brings the spare name back. */
module RenameChain {
  import opened Common
  import opened Decimals
  import opened MdtestTree
  import opened MdtestRun

  type Name = string

  /** The names that exist and what each stands for. */
  class Namespace<Content> {
    var files: map<Name, Content>

    constructor (initial: map<Name, Content>)
      ensures files == initial
    {
      files := initial;
    }

    /** Fails without a source; an existing target would be replaced. */
    method Rename(src: Name, target: Name) returns (ok: bool)
      modifies this
      ensures ok <==> src in old(files)
      ensures !ok ==> files == old(files)
      ensures ok ==> files == (old(files) - {src})[target := old(files)[src]]
    {
      ok := src in files;
      if ok {
        files := (files - {src})[target := files[src]];
      }
    }
  }

  /** Which item's content item k has at the end: the first n-1 are rotated by one, the
      last stays. */
  function Source(k: nat, n: nat): (j: nat)
    requires k < n
    ensures j < n
  {
    if k + 2 < n then k + 1 else if k + 2 == n then 0 else k
  }

  /** After i steps: the spare name holds item 0, the items before i - 1 have moved down by
      one, the name of item i - 1 is free. */
  ghost predicate Moved<Content>(before: map<Name, Content>, now: map<Name, Content>, names: seq<Name>, spare: Name, i: nat)
    requires 0 < i <= |names| && forall k :: 0 <= k < |names| ==> names[k] in before
  {
    && now.Keys == before.Keys - {names[i - 1]} + {spare}
    && now[spare] == before[names[0]]
    && (forall k :: 0 <= k < i - 1 ==> names[k] in now && now[names[k]] == before[names[k + 1]])
    && (forall k :: i <= k < |names| ==> names[k] in now && now[names[k]] == before[names[k]])
    && (forall x :: x in before && x !in names ==> x in now && now[x] == before[x])
  }

  /** The first n-1 items rotated by one, everything else as it was. */
  ghost predicate Rotated<Content>(before: map<Name, Content>, now: map<Name, Content>, names: seq<Name>)
    requires forall k :: 0 <= k < |names| ==> names[k] in before
  {
    && now.Keys == before.Keys
    && (forall k :: 0 <= k < |names| ==> now[names[k]] == before[names[Source(k, |names|)]])
    && (forall x :: x in before && x !in names ==> now[x] == before[x])
  }

  /** What step i renames, and to what. */
  function StepOf(names: seq<Name>, spare: Name, i: nat): (Name, Name)
    requires i < |names| && |names| > 1
  {
    (if i == |names| - 1 then spare else names[i],
     if i == 0 then spare else names[i - 1])
  }

  ghost predicate AllSteps(names: seq<Name>, spare: Name, steps: seq<(Name, Name)>) {
    |steps| <= |names| && (|names| > 1 ==> forall i :: 0 <= i < |steps| ==> steps[i] == StepOf(names, spare, i))
  }

  /** Every step finds its source and moves it to a free name; at the end exactly the
      original names exist. */
  method RenamePhase<Content>(ns: Namespace<Content>, names: seq<Name>, spare: Name) returns (clean: bool, steps: seq<(Name, Name)>)
    requires Distinct(names) && forall k :: 0 <= k < |names| ==> names[k] in ns.files
    requires spare !in ns.files
    modifies ns
    ensures clean && Rotated(old(ns.files), ns.files, names)
    ensures |steps| == if |names| <= 1 then 0 else |names|
    ensures AllSteps(names, spare, steps)
  {
    clean, steps := true, [];
    var stop := |names|;
    if stop <= 1 {
      return;
    }
    var last := "";
    ghost var before := ns.files;
    for i := 0 to stop
      invariant clean && |steps| == i && AllSteps(names, spare, steps)
      invariant i == 0 ==> ns.files == before
      invariant 0 < i < stop ==> last == names[i - 1] && Moved(before, ns.files, names, spare, i)
      invariant i == stop ==> Rotated(before, ns.files, names)
    {
      var src, target := names[i], last;
      if i == 0 {
        target := spare;
      } else if i == stop - 1 {
        src := spare;
      }
      clean := clean && src in ns.files && target !in ns.files;
      ghost var now := ns.files;
      var ok := ns.Rename(src, target);
      steps := steps + [(src, target)];
      if i == 0 {
        FirstMove(before, ns.files, names, spare);
      } else if i == stop - 1 {
        LastMove(before, now, ns.files, names, spare);
      } else {
        NextMove(before, now, ns.files, names, spare, i);
      }
      if i != stop - 1 {
        last := names[i];
      }
    }
  }

  lemma FirstMove<Content>(before: map<Name, Content>, next: map<Name, Content>, names: seq<Name>, spare: Name)
    requires Distinct(names) && |names| > 0 && (forall k :: 0 <= k < |names| ==> names[k] in before) && spare !in before
    requires next == (before - {names[0]})[spare := before[names[0]]]
    ensures Moved(before, next, names, spare, 1)
  {
  }

  lemma NextMove<Content>(before: map<Name, Content>, now: map<Name, Content>, next: map<Name, Content>, names: seq<Name>,
                          spare: Name, i: nat)
    requires Distinct(names) && 0 < i < |names| && (forall k :: 0 <= k < |names| ==> names[k] in before) && spare !in before
    requires Moved(before, now, names, spare, i)
    requires next == (now - {names[i]})[names[i - 1] := now[names[i]]]
    ensures Moved(before, next, names, spare, i + 1)
  {
    forall k | 0 <= k < i ensures names[k] in next && next[names[k]] == before[names[k + 1]] {
    }
  }

  lemma LastMove<Content>(before: map<Name, Content>, now: map<Name, Content>, next: map<Name, Content>, names: seq<Name>,
                          spare: Name)
    requires Distinct(names) && |names| > 1 && (forall k :: 0 <= k < |names| ==> names[k] in before) && spare !in before
    requires Moved(before, now, names, spare, |names| - 1)
    requires next == (now - {spare})[names[|names| - 2] := now[spare]]
    ensures Rotated(before, next, names)
  {
    forall k | 0 <= k < |names| ensures next[names[k]] == before[names[Source(k, |names|)]] {
      if k < |names| - 2 {
        assert now[names[k]] == before[names[k + 1]];
      }
    }
  }

  // ---------- the names of the items ----------

  /** What the names of a phase have in common: the root of the tree, the kind of the items
      with the rank in it, and the name of the directories. */
  datatype Style = Style(root: string, kind: string, base: string)

  function Numbered(text: string, n: nat): Name {
    text + ("." + Decimal(n))
  }

  function DirText(style: Style, path: Path): string {
    if path == [] then style.root + "/"
    else Numbered(DirText(style, path[..|path| - 1]) + style.base, path[|path| - 1]) + "/"
  }

  function ItemName(style: Style, item: Item): Name {
    Numbered(DirText(style, item.path) + style.kind, item.num)
  }

  /** The directories of a path, each with its number and a separator. */
  function DirsText(base: string, path: Path): string {
    if path == [] then "" else base + "." + Decimal(path[0]) + "/" + DirsText(base, path[1..])
  }

  lemma {:induction false} DirsTextAppend(base: string, path: Path, d: nat)
    ensures DirsText(base, path + [d]) == DirsText(base, path) + (base + "." + Decimal(d) + "/")
  {
    var piece := base + "." + Decimal(d) + "/";
    if path == [] {
      assert (path + [d])[1..] == [];
      assert DirsText(base, path + [d]) == piece + "" && "" + piece == piece + "";
    } else {
      assert (path + [d])[1..] == path[1..] + [d];
      DirsTextAppend(base, path[1..], d);
      Regroup(base + "." + Decimal(path[0]) + "/", DirsText(base, path[1..]), piece);
    }
  }

  lemma Regroup(a: string, b: string, c: string)
    ensures a + (b + c) == (a + b) + c
  {
  }

  /** The text of a path is the root and its directories from the top down. */
  lemma {:induction false} DirTextIs(style: Style, path: Path)
    ensures DirText(style, path) == style.root + "/" + DirsText(style.base, path)
  {
    if path == [] {
      assert style.root + "/" + "" == style.root + "/";
    } else {
      var init, d := path[..|path| - 1], path[|path| - 1];
      assert path == init + [d];
      DirTextIs(style, init);
      DirsTextAppend(style.base, init, d);
      Spread(DirText(style, init), style.base, Decimal(d));
      Regroup(style.root + "/", DirsText(style.base, init), style.base + "." + Decimal(d) + "/");
    }
  }

  lemma Spread(text: string, base: string, number: string)
    ensures text + base + ("." + number) + "/" == text + (base + "." + number + "/")
  {
  }

  /** An item's name is its directory's text, its kind and its number. */
  lemma ItemNameIs(style: Style, item: Item)
    ensures ItemName(style, item) ==
            style.root + "/" + DirsText(style.base, item.path) + (style.kind + "." + Decimal(item.num))
  {
    DirTextIs(style, item.path);
    Regroup(DirText(style, item.path), style.kind, "." + Decimal(item.num));
  }

  /** The names in the order of a later phase. */
  function ItemNames(p: Params, style: Style): (names: seq<Name>)
    requires Sensible(p) && p.items <= Capacity(p)
    ensures |names| == p.items
    ensures forall i :: 0 <= i < |names| ==> names[i] == ItemName(style, Rebuilt(p, i))
  {
    seq(p.items, i requires 0 <= i < p.items => ItemName(style, Rebuilt(p, i)))
  }

  lemma DotBefore(text: string, n: nat, i: nat)
    requires i < |Numbered(text, n)| && |Numbered(text, n)| - i <= |Decimal(n)| + 1
    ensures Numbered(text, n)[i] == '.' <==> |Numbered(text, n)| - i == |Decimal(n)| + 1
  {
    var k := |Decimal(n)| - (|Numbered(text, n)| - i);
    if k >= 0 {
      assert Numbered(text, n)[i] == Decimal(n)[k];
      DecimalIsDigits(n, k);
    }
  }

  lemma LongerHasNoDot(s: string, m: nat, t: string, n: nat)
    requires Numbered(s, m) == Numbered(t, n)
    ensures |Decimal(m)| >= |Decimal(n)|
  {
    if |Decimal(m)| < |Decimal(n)| {
      var i := |s|;
      DotBefore(s, m, i);
      DotBefore(t, n, i);
    }
  }

  /** The number at the end of a name can be read back. */
  lemma TrailingNumber(s: string, m: nat, t: string, n: nat)
    requires Numbered(s, m) == Numbered(t, n)
    ensures m == n && s == t
  {
    LongerHasNoDot(s, m, t, n);
    LongerHasNoDot(t, n, s, m);
    var z, k := Numbered(s, m), |s|;
    assert z[..k] == s && z[..k] == t;
    assert z[k + 1..] == Decimal(m) && z[k + 1..] == Decimal(n);
    DecimalIsRead(m);
    DecimalIsRead(n);
  }

  predicate EndsWithDigit(name: Name) {
    name != "" && '0' <= name[|name| - 1] <= '9'
  }

  /** The names of the items differ, and end with a digit. */
  lemma ItemNamesDiffer(p: Params, style: Style)
    requires Sensible(p) && p.items <= Capacity(p)
    ensures Distinct(ItemNames(p, style))
    ensures forall i :: 0 <= i < p.items ==> EndsWithDigit(ItemNames(p, style)[i])
  {
    var names := ItemNames(p, style);
    forall i, j | 0 <= i < j < |names| ensures names[i] != names[j] {
      if names[i] == names[j] {
        SameName(p, style, i, j);
      }
    }
    forall i | 0 <= i < |names| ensures EndsWithDigit(names[i]) {
      EndDigit(DirText(style, Rebuilt(p, i).path) + style.kind, Rebuilt(p, i).num);
    }
  }

  lemma SameName(p: Params, style: Style, i: nat, j: nat)
    requires Sensible(p) && p.items <= Capacity(p) && i < p.items && j < p.items
    requires ItemName(style, Rebuilt(p, i)) == ItemName(style, Rebuilt(p, j))
    ensures i == j
  {
    var x, y := Rebuilt(p, i), Rebuilt(p, j);
    TrailingNumber(DirText(style, x.path) + style.kind, x.num, DirText(style, y.path) + style.kind, y.num);
  }

  lemma EndDigit(text: string, n: nat)
    ensures EndsWithDigit(Numbered(text, n))
  {
    DecimalIsDigits(n, |Decimal(n)| - 1);
  }

  /** The phase over the items that were placed, in a namespace where all names end with a
      number, as the names of the tree and of the items do. */
  method RenameItems<Content>(ns: Namespace<Content>, p: Params, style: Style) returns (clean: bool, steps: seq<(Name, Name)>)
    requires Sensible(p) && 1 < p.items <= Capacity(p)
    requires forall i :: 0 <= i < p.items ==> ItemNames(p, style)[i] in ns.files
    requires forall x :: x in ns.files ==> EndsWithDigit(x)
    modifies ns
    ensures clean && Rotated(old(ns.files), ns.files, ItemNames(p, style))
    ensures |steps| == p.items
    ensures AllSteps(ItemNames(p, style), ItemNames(p, style)[0] + "-XX", steps)
  {
    var names := ItemNames(p, style);
    var spare := names[0] + "-XX";
    ItemNamesDiffer(p, style);
    assert spare[|spare| - 1] == 'X';
    assert !EndsWithDigit(spare);
    clean, steps := RenamePhase(ns, names, spare);
  }

  // ---------- rotation ----------

  function Turns(k: nat, n: nat, times: nat): nat
    requires k < n
    ensures Turns(k, n, times) < n
    decreases times
  {
    if times == 0 then k else Turns(Source(k, n), n, times - 1)
  }

  lemma {:induction false} TurnsFrom(k: nat, n: nat, times: nat)
    requires k + 1 < n && times <= n - 1
    ensures Turns(k, n, times) == if k + times < n - 1 then k + times else k + times - (n - 1)
    decreases times
  {
    if times > 0 {
      TurnsFrom(Source(k, n), n, times - 1);
    }
  }

  /** It is a rotation: no two items get the same content, and n-1 renaming phases in a row
      put every item back. */
  lemma RotationIsCyclic(n: nat, j: nat, k: nat)
    requires j < n && k < n
    ensures Source(j, n) == Source(k, n) ==> j == k
    ensures n > 1 ==> Turns(k, n, n - 1) == k
  {
    if k + 1 < n {
      TurnsFrom(k, n, n - 1);
    } else if n > 1 {
      LastStays(n, n - 1);
    }
  }

  lemma {:induction false} LastStays(n: nat, times: nat)
    requires n > 0
    ensures Turns(n - 1, n, times) == n - 1
  {
    if times > 0 {
      LastStays(n, times - 1);
    }
  }
}
