/** The entry lists of fsstress: what a thread remembers of the tree that it builds and
    takes apart, and the cleanup at the end of a run.

    One thread works on an initially empty base directory. Any operation of the file system
    may fail without an effect. A path lists the components below the base. */
module EntryLists {
  import opened Common

  datatype Ft = Dir | Reg | Sym | Chr | Blk | Sock

  datatype Fent = Fent(id: nat, parent: int)

  datatype Component = Component(ft: Ft, id: nat)

  type Path = seq<Component>

  type Lists = map<Ft, seq<Fent>>

  // ---------- names ----------

  function Tag(t: Ft): char {
    match t
    case Dir => 'd'
    case Reg => 'f'
    case Sym => 'l'
    case Chr => 'c'
    case Blk => 'r'
    case Sock => 's'
  }

  function HexDigit(n: nat): char
    requires n < 16
  {
    "0123456789abcdef"[n]
  }

  function Hex(n: nat): (s: string)
    ensures |s| >= 1 && (|s| == 1 <==> n < 16)
  {
    if n < 16 then [HexDigit(n)] else Hex(n / 16) + [HexDigit(n % 16)]
  }

  function NameOf(c: Component): string {
    [Tag(c.ft)] + Hex(c.id)
  }

  lemma HexDigitsDiffer(m: nat, n: nat)
    requires m < 16 && n < 16 && HexDigit(m) == HexDigit(n)
    ensures m == n
  {
  }

  lemma HexEnds(m: nat, n: nat)
    requires Hex(m) == Hex(n)
    ensures m % 16 == n % 16 && (m < 16 <==> n < 16)
    ensures m >= 16 ==> Hex(m / 16) == Hex(n / 16)
  {
    var s, t := Hex(m), Hex(n);
    var last := |s| - 1;
    assert s[last] == HexDigit(m % 16) && t[last] == HexDigit(n % 16);
    HexDigitsDiffer(m % 16, n % 16);
    assert m >= 16 ==> s[..last] == Hex(m / 16) && t[..last] == Hex(n / 16);
  }

  lemma {:induction false} HexIsInjective(m: nat, n: nat)
    requires Hex(m) == Hex(n)
    ensures m == n
  {
    HexEnds(m, n);
    if m >= 16 {
      HexIsInjective(m / 16, n / 16);
    }
  }

  function HexValue(s: string): int {
    if s == "" then 0
    else
      var c := s[|s| - 1];
      16 * HexValue(s[..|s| - 1]) + if '0' <= c <= '9' then c as int - '0' as int else 10 + (c as int - 'a' as int)
  }

  lemma HexDigitIsRead(n: nat)
    requires n < 16
    ensures n < 10 ==> HexDigit(n) as int == '0' as int + n
    ensures n >= 10 ==> HexDigit(n) as int == 'a' as int + (n - 10)
  {
  }

  /** The digits of a name are its id in hexadecimal. */
  lemma {:induction false} HexIsRead(n: nat)
    ensures HexValue(Hex(n)) == n
  {
    HexDigitIsRead(n % 16);
    if n >= 16 {
      HexIsRead(n / 16);
      assert Hex(n)[..|Hex(n)| - 1] == Hex(n / 16);
    } else {
      assert Hex(n)[..0] == "";
    }
  }

  /** A name is the letter of its type and the id in hexadecimal. */
  lemma NameIsRead(c: Component)
    ensures NameOf(c) != "" && HexValue(NameOf(c)[1..]) == c.id
    ensures NameOf(c)[0] == "dflcrs"[if c.ft == Dir then 0 else if c.ft == Reg then 1 else if c.ft == Sym then 2
                                     else if c.ft == Chr then 3 else if c.ft == Blk then 4 else 5]
  {
    HexIsRead(c.id);
    assert NameOf(c)[1..] == Hex(c.id);
  }

  /** Different components have different names. */
  lemma NamesDiffer(a: Component, b: Component)
    ensures NameOf(a) == NameOf(b) <==> a == b
  {
    if NameOf(a) == NameOf(b) {
      assert NameOf(a)[0] == Tag(a.ft) && NameOf(a)[1..] == Hex(a.id);
      assert NameOf(b)[0] == Tag(b.ft) && NameOf(b)[1..] == Hex(b.id);
      HexIsInjective(a.id, b.id);
    }
  }

  // ---------- lookups ----------

  function FindDir(dirs: seq<Fent>, id: int): (d: Option<Fent>)
    ensures d.Some? ==> d.value in dirs && d.value.id == id
    ensures d.None? ==> forall e :: e in dirs ==> e.id != id
  {
    if dirs == [] then None
    else if dirs[0].id == id then Some(dirs[0])
    else FindDir(dirs[1..], id)
  }

  /** Parents come before their children; so following them ends. */
  ghost predicate Grounded(dirs: seq<Fent>) {
    forall d :: d in dirs ==> d.parent < d.id
  }

  /** The path of an entry. A parent that is not listed is taken for the base. */
  function PathOf(dirs: seq<Fent>, t: Ft, f: Fent): (path: Path)
    requires Grounded(dirs) && f.parent < f.id
    ensures path != [] && path[|path| - 1] == Component(t, f.id)
    decreases f.id
  {
    var parent := if f.parent >= 0 then FindDir(dirs, f.parent) else None;
    (if parent.Some? then PathOf(dirs, Dir, parent.value) else []) + [Component(t, f.id)]
  }

  predicate Listed(lists: Lists, t: Ft, f: Fent) {
    t in lists && f in lists[t]
  }

  /** All entries of some types, list after list. */
  function Choices(lists: Lists, types: seq<Ft>): seq<(Ft, Fent)>
    requires forall t: Ft :: t in lists
  {
    if types == [] then [] else Tagged(types[0], lists[types[0]]) + Choices(lists, types[1..])
  }

  function Tagged(t: Ft, list: seq<Fent>): (s: seq<(Ft, Fent)>)
    ensures |s| == |list| && forall i :: 0 <= i < |s| ==> s[i] == (t, list[i])
  {
    if list == [] then [] else Tagged(t, list[..|list| - 1]) + [(t, list[|list| - 1])]
  }

  function Chosen(lists: Lists, types: seq<Ft>, r: nat): Option<(Ft, Fent)>
    requires forall t: Ft :: t in lists
  {
    var all := Choices(lists, types);
    if all == [] then None else Some(all[r % |all|])
  }

  lemma {:induction false} ChoicesAreListed(lists: Lists, types: seq<Ft>, i: nat)
    requires (forall t: Ft :: t in lists) && i < |Choices(lists, types)|
    ensures Choices(lists, types)[i].0 in types && Listed(lists, Choices(lists, types)[i].0, Choices(lists, types)[i].1)
  {
    var n := |lists[types[0]]|;
    if i >= n {
      ChoicesAreListed(lists, types[1..], i - n);
    }
  }

  // ---------- the lists and the tree agree ----------

  ghost predicate ParentOk(lists: Lists, f: Fent) {
    f.parent == -1 || (0 <= f.parent < f.id && Dir in lists && FindDir(lists[Dir], f.parent).Some?)
  }

  ghost predicate EntryOk(lists: Lists, nameseq: nat, f: Fent) {
    f.id < nameseq && ParentOk(lists, f)
  }

  /** Ids are unique, within a list and between lists. */
  ghost predicate UniqueIds(lists: Lists) {
    && (forall t, u, f, g :: Listed(lists, t, f) && Listed(lists, u, g) && f.id == g.id ==> t == u && f == g)
    && (forall t, i, j :: t in lists && 0 <= i < j < |lists[t]| ==> lists[t][i].id != lists[t][j].id)
  }

  ghost predicate ListsOk(nameseq: nat, lists: Lists) {
    && (forall t: Ft :: t in lists)
    && UniqueIds(lists)
    && (forall t, f :: Listed(lists, t, f) ==> EntryOk(lists, nameseq, f))
    && Grounded(lists[Dir])
  }

  /** The entry's path is a node of the tree. */
  ghost predicate HasNode(lists: Lists, nodes: set<Path>, t: Ft, f: Fent) {
    Dir in lists && Grounded(lists[Dir]) && f.parent < f.id && PathOf(lists[Dir], t, f) in nodes
  }

  /** The node is the path of an entry. */
  ghost predicate HasEntry(lists: Lists, q: Path) {
    exists t, f :: Listed(lists, t, f) && Names(lists, t, f, q)
  }

  ghost predicate Names(lists: Lists, t: Ft, f: Fent, q: Path) {
    Dir in lists && Grounded(lists[Dir]) && f.parent < f.id && PathOf(lists[Dir], t, f) == q
  }

  /** The entries' paths are exactly the nodes below the base. */
  ghost predicate Agree(nameseq: nat, lists: Lists, nodes: set<Path>) {
    && ListsOk(nameseq, lists)
    && [] in nodes
    && AllHaveNodes(lists, nodes)
    && AllHaveEntries(lists, nodes)
  }

  ghost predicate AllHaveNodes(lists: Lists, nodes: set<Path>) {
    forall t, f :: Listed(lists, t, f) ==> HasNode(lists, nodes, t, f)
  }

  ghost predicate AllHaveEntries(lists: Lists, nodes: set<Path>) {
    forall q :: q in nodes && q != [] ==> HasEntry(lists, q)
  }

  /** In lists that agree with the tree the paths are in bijection with the nodes, and no
      lookup of a parent fails. */
  lemma Bijection(nameseq: nat, lists: Lists, nodes: set<Path>, t: Ft, f: Fent, u: Ft, g: Fent)
    requires Agree(nameseq, lists, nodes) && Listed(lists, t, f) && Listed(lists, u, g)
    ensures PathOf(lists[Dir], t, f) in nodes
    ensures PathOf(lists[Dir], t, f) == PathOf(lists[Dir], u, g) <==> (t, f) == (u, g)
    ensures f.parent >= 0 ==> FindDir(lists[Dir], f.parent).Some?
  {
    assert EntryOk(lists, nameseq, f) && EntryOk(lists, nameseq, g);
    assert HasNode(lists, nodes, t, f);
    var p, q := PathOf(lists[Dir], t, f), PathOf(lists[Dir], u, g);
    if p == q {
      assert p[|p| - 1] == q[|q| - 1];
    }
  }

  lemma {:induction false} FindAppended(dirs: seq<Fent>, d: Fent, id: int)
    requires id != d.id
    ensures FindDir(dirs + [d], id) == FindDir(dirs, id)
  {
    if dirs != [] {
      FindAppended(dirs[1..], d, id);
      assert (dirs + [d])[1..] == dirs[1..] + [d];
    }
  }

  function Without(list: seq<Fent>, id: nat): (rest: seq<Fent>)
    ensures forall f :: f in rest <==> f in list && f.id != id
  {
    if list == [] then []
    else (if list[0].id == id then [] else [list[0]]) + Without(list[1..], id)
  }

  lemma {:induction false} WithoutOthers(list: seq<Fent>, id: nat)
    requires forall f :: f in list ==> f.id != id
    ensures Without(list, id) == list
  {
    if list != [] {
      WithoutOthers(list[1..], id);
    }
  }

  /** Striking out takes the one entry with the id out of a list and leaves the others in
      their places. */
  lemma {:induction false} WithoutTakesOut(before: seq<Fent>, f: Fent, behind: seq<Fent>, id: nat)
    requires f.id == id && forall g :: g in before || g in behind ==> g.id != id
    ensures Without(before + [f] + behind, id) == before + behind
  {
    var all := before + [f] + behind;
    if before == [] {
      assert all[1..] == behind && [] + behind == behind;
      WithoutOthers(behind, id);
    } else {
      assert all[1..] == before[1..] + [f] + behind;
      WithoutTakesOut(before[1..], f, behind, id);
      assert [before[0]] + (before[1..] + behind) == before + behind;
    }
  }

  lemma {:induction false} FindWithout(dirs: seq<Fent>, gone: nat, id: int)
    requires id != gone
    ensures FindDir(Without(dirs, gone), id) == FindDir(dirs, id)
  {
    if dirs != [] {
      FindWithout(dirs[1..], gone, id);
      var rest := Without(dirs[1..], gone);
      assert ([dirs[0]] + rest)[1..] == rest;
      assert [] + rest == rest;
    }
  }

  /** Directories that nobody has as a parent do not matter for paths. */
  lemma {:induction false} PathSame(dirs: seq<Fent>, dirs': seq<Fent>, x: int, t: Ft, f: Fent)
    requires Grounded(dirs) && Grounded(dirs') && f.parent < f.id && f.parent != x
    requires forall id :: id != x ==> FindDir(dirs', id) == FindDir(dirs, id)
    requires forall d :: d in dirs ==> d.parent != x
    ensures PathOf(dirs', t, f) == PathOf(dirs, t, f)
    decreases f.id
  {
    if f.parent >= 0 && FindDir(dirs, f.parent).Some? {
      PathSame(dirs, dirs', x, Dir, FindDir(dirs, f.parent).value);
    }
  }

  lemma AddUnique(nameseq: nat, lists: Lists, t: Ft, f: Fent, lists': Lists)
    requires ListsOk(nameseq, lists) && f.id == nameseq && lists' == lists[t := lists[t] + [f]]
    ensures UniqueIds(lists')
  {
    forall u, v, g, h | Listed(lists', u, g) && Listed(lists', v, h) && g.id == h.id ensures u == v && g == h {
      assert Listed(lists, u, g) || (u == t && g == f);
      assert Listed(lists, v, h) || (v == t && h == f);
      assert Listed(lists, u, g) ==> EntryOk(lists, nameseq, g);
      assert Listed(lists, v, h) ==> EntryOk(lists, nameseq, h);
    }
    forall u, i, j | u in lists' && 0 <= i < j < |lists'[u]| ensures lists'[u][i].id != lists'[u][j].id {
      if u == t && j == |lists[t]| {
        assert Listed(lists, t, lists[t][i]);
        assert EntryOk(lists, nameseq, lists[t][i]);
      }
    }
  }

  lemma FindAfterAdd(lists: Lists, t: Ft, f: Fent, lists': Lists, id: int)
    requires (forall u: Ft :: u in lists) && lists' == lists[t := lists[t] + [f]] && id != f.id
    ensures FindDir(lists'[Dir], id) == FindDir(lists[Dir], id)
  {
    if t == Dir {
      FindAppended(lists[Dir], f, id);
    }
  }

  lemma AddOk(nameseq: nat, lists: Lists, t: Ft, f: Fent, lists': Lists)
    requires ListsOk(nameseq, lists) && f.id == nameseq && ParentOk(lists, f) && lists' == lists[t := lists[t] + [f]]
    ensures ListsOk(nameseq + 1, lists')
  {
    AddUnique(nameseq, lists, t, f, lists');
    forall u, g | Listed(lists', u, g) ensures EntryOk(lists', nameseq + 1, g) {
      assert Listed(lists, u, g) ==> EntryOk(lists, nameseq, g);
      FindAfterAdd(lists, t, f, lists', g.parent);
    }
  }

  lemma AddKeepsPaths(nameseq: nat, lists: Lists, t: Ft, f: Fent, lists': Lists, u: Ft, g: Fent)
    requires ListsOk(nameseq, lists) && f.id == nameseq && ParentOk(lists, f) && lists' == lists[t := lists[t] + [f]]
    requires g.parent < g.id && g.parent < nameseq
    ensures Grounded(lists'[Dir]) && PathOf(lists'[Dir], u, g) == PathOf(lists[Dir], u, g)
  {
    AddOk(nameseq, lists, t, f, lists');
    forall id | id != nameseq ensures FindDir(lists'[Dir], id) == FindDir(lists[Dir], id) {
      FindAfterAdd(lists, t, f, lists', id);
    }
    forall d | d in lists[Dir] ensures d.parent != nameseq {
      assert Listed(lists, Dir, d);
      assert EntryOk(lists, nameseq, d);
    }
    PathSame(lists[Dir], lists'[Dir], nameseq, u, g);
  }

  lemma AddedNode(nameseq: nat, lists: Lists, nodes: set<Path>, t: Ft, f: Fent, lists': Lists, u: Ft, g: Fent)
    requires Agree(nameseq, lists, nodes) && f.id == nameseq && ParentOk(lists, f) && lists' == lists[t := lists[t] + [f]]
    requires Listed(lists', u, g)
    ensures HasNode(lists', nodes + {PathOf(lists[Dir], t, f)}, u, g)
  {
    if Listed(lists, u, g) {
      assert EntryOk(lists, nameseq, g) && HasNode(lists, nodes, u, g);
    }
    AddKeepsPaths(nameseq, lists, t, f, lists', u, g);
  }

  lemma AddedEntry(nameseq: nat, lists: Lists, nodes: set<Path>, t: Ft, f: Fent, lists': Lists, q: Path)
    requires Agree(nameseq, lists, nodes) && f.id == nameseq && ParentOk(lists, f) && lists' == lists[t := lists[t] + [f]]
    requires q in nodes + {PathOf(lists[Dir], t, f)} && q != []
    ensures HasEntry(lists', q)
  {
    if q in nodes {
      assert HasEntry(lists, q);
      var u, g :| Listed(lists, u, g) && Names(lists, u, g, q);
      assert EntryOk(lists, nameseq, g);
      AddKeepsPaths(nameseq, lists, t, f, lists', u, g);
      assert Listed(lists', u, g) && Names(lists', u, g, q);
    } else {
      AddKeepsPaths(nameseq, lists, t, f, lists', t, f);
      assert Listed(lists', t, f) && Names(lists', t, f, q);
    }
  }

  /** A new entry for a new node. */
  lemma AddAgrees(nameseq: nat, lists: Lists, nodes: set<Path>, t: Ft, f: Fent, lists': Lists)
    requires Agree(nameseq, lists, nodes) && f.id == nameseq && ParentOk(lists, f) && lists' == lists[t := lists[t] + [f]]
    ensures Agree(nameseq + 1, lists', nodes + {PathOf(lists[Dir], t, f)})
  {
    AddOk(nameseq, lists, t, f, lists');
    var nodes' := nodes + {PathOf(lists[Dir], t, f)};
    forall u, g | Listed(lists', u, g) ensures HasNode(lists', nodes', u, g) {
      AddedNode(nameseq, lists, nodes, t, f, lists', u, g);
    }
    forall q | q in nodes' && q != [] ensures HasEntry(lists', q) {
      AddedEntry(nameseq, lists, nodes, t, f, lists', q);
    }
  }

  /** Nobody has the id as a parent. */
  ghost predicate Childless(lists: Lists, id: nat) {
    forall t, f :: Listed(lists, t, f) ==> f.parent != id
  }

  lemma {:induction false} WithoutDistinct(list: seq<Fent>, id: nat)
    requires forall i, j :: 0 <= i < j < |list| ==> list[i].id != list[j].id
    ensures forall i, j :: 0 <= i < j < |Without(list, id)| ==> Without(list, id)[i].id != Without(list, id)[j].id
  {
    if list != [] {
      var rest := Without(list[1..], id);
      WithoutDistinct(list[1..], id);
      forall f | f in rest ensures f.id != list[0].id {
        var k :| 0 <= k < |list[1..]| && list[1..][k] == f;
        assert list[0].id != list[k + 1].id;
      }
      if list[0].id != id {
        var all := [list[0]] + rest;
        assert forall j :: 0 < j < |all| ==> all[j] == rest[j - 1] && rest[j - 1] in rest;
      }
    }
  }

  lemma RemoveUnique(lists: Lists, t: Ft, id: nat, lists': Lists)
    requires UniqueIds(lists) && t in lists && lists' == lists[t := Without(lists[t], id)]
    ensures UniqueIds(lists')
  {
    forall u, v, g, h | Listed(lists', u, g) && Listed(lists', v, h) && g.id == h.id ensures u == v && g == h {
      assert Listed(lists, u, g) && Listed(lists, v, h);
    }
    WithoutDistinct(lists[t], id);
  }

  lemma FindAfterRemove(lists: Lists, t: Ft, gone: nat, lists': Lists, id: int)
    requires (forall u: Ft :: u in lists) && lists' == lists[t := Without(lists[t], gone)] && id != gone
    ensures FindDir(lists'[Dir], id) == FindDir(lists[Dir], id)
  {
    if t == Dir {
      FindWithout(lists[Dir], gone, id);
    }
  }

  lemma RemoveOk(nameseq: nat, lists: Lists, t: Ft, id: nat, lists': Lists)
    requires ListsOk(nameseq, lists) && Childless(lists, id) && lists' == lists[t := Without(lists[t], id)]
    ensures ListsOk(nameseq, lists')
  {
    RemoveUnique(lists, t, id, lists');
    forall u, g | Listed(lists', u, g) ensures EntryOk(lists', nameseq, g) {
      assert Listed(lists, u, g);
      assert EntryOk(lists, nameseq, g);
      FindAfterRemove(lists, t, id, lists', g.parent);
    }
  }

  lemma RemoveKeepsPaths(nameseq: nat, lists: Lists, t: Ft, id: nat, lists': Lists, u: Ft, g: Fent)
    requires ListsOk(nameseq, lists) && Childless(lists, id) && lists' == lists[t := Without(lists[t], id)]
    requires Listed(lists, u, g)
    ensures g.parent < g.id && Grounded(lists'[Dir]) && PathOf(lists'[Dir], u, g) == PathOf(lists[Dir], u, g)
  {
    assert EntryOk(lists, nameseq, g);
    RemoveOk(nameseq, lists, t, id, lists');
    forall x | x != id ensures FindDir(lists'[Dir], x) == FindDir(lists[Dir], x) {
      FindAfterRemove(lists, t, id, lists', x);
    }
    forall d | d in lists[Dir] ensures d.parent != id {
      assert Listed(lists, Dir, d);
    }
    PathSame(lists[Dir], lists'[Dir], id, u, g);
  }

  lemma KeptNode(nameseq: nat, lists: Lists, nodes: set<Path>, t: Ft, f: Fent, lists': Lists, u: Ft, g: Fent)
    requires Agree(nameseq, lists, nodes) && Listed(lists, t, f) && Childless(lists, f.id)
    requires lists' == lists[t := Without(lists[t], f.id)] && Listed(lists', u, g)
    ensures f.parent < f.id && HasNode(lists', nodes - {PathOf(lists[Dir], t, f)}, u, g)
  {
    assert EntryOk(lists, nameseq, f);
    assert Listed(lists, u, g);
    RemoveKeepsPaths(nameseq, lists, t, f.id, lists', u, g);
    Bijection(nameseq, lists, nodes, u, g, t, f);
  }

  lemma StillListed(lists: Lists, t: Ft, f: Fent, lists': Lists, u: Ft, g: Fent)
    requires UniqueIds(lists) && Listed(lists, t, f) && Listed(lists, u, g) && (u, g) != (t, f)
    requires lists' == lists[t := Without(lists[t], f.id)]
    ensures Listed(lists', u, g)
  {
  }

  lemma KeptEntry(nameseq: nat, lists: Lists, nodes: set<Path>, t: Ft, f: Fent, lists': Lists, q: Path)
    requires Agree(nameseq, lists, nodes) && Listed(lists, t, f) && Childless(lists, f.id) && f.parent < f.id
    requires lists' == lists[t := Without(lists[t], f.id)]
    requires q in nodes && q != [] && q != PathOf(lists[Dir], t, f)
    ensures HasEntry(lists', q)
  {
    assert HasEntry(lists, q);
    var u, g :| Listed(lists, u, g) && Names(lists, u, g, q);
    StillListed(lists, t, f, lists', u, g);
    RemoveKeepsPaths(nameseq, lists, t, f.id, lists', u, g);
    assert Names(lists', u, g, q);
  }

  /** An entry and its node go together. */
  lemma RemoveAgrees(nameseq: nat, lists: Lists, nodes: set<Path>, t: Ft, f: Fent, lists': Lists)
    requires Agree(nameseq, lists, nodes) && Listed(lists, t, f) && Childless(lists, f.id)
    requires lists' == lists[t := Without(lists[t], f.id)]
    ensures f.parent < f.id && Agree(nameseq, lists', nodes - {PathOf(lists[Dir], t, f)})
  {
    assert EntryOk(lists, nameseq, f);
    RemoveOk(nameseq, lists, t, f.id, lists');
    var nodes' := nodes - {PathOf(lists[Dir], t, f)};
    forall u, g | Listed(lists', u, g) ensures HasNode(lists', nodes', u, g) {
      KeptNode(nameseq, lists, nodes, t, f, lists', u, g);
    }
    forall q | q in nodes' && q != [] ensures HasEntry(lists', q) {
      KeptEntry(nameseq, lists, nodes, t, f, lists', q);
    }
  }

  /** Without a node below a directory no entry has it as a parent. */
  lemma EmptyIsChildless(nameseq: nat, lists: Lists, nodes: set<Path>, d: Fent)
    requires Agree(nameseq, lists, nodes) && Listed(lists, Dir, d) && d.parent < d.id
    requires forall q :: q in nodes ==> !(PathOf(lists[Dir], Dir, d) < q)
    ensures Childless(lists, d.id)
  {
    forall t, f | Listed(lists, t, f) ensures f.parent != d.id {
      if f.parent == d.id {
        ChildIsBelow(nameseq, lists, nodes, d, t, f);
      }
    }
  }

  lemma ChildIsBelow(nameseq: nat, lists: Lists, nodes: set<Path>, d: Fent, t: Ft, f: Fent)
    requires Agree(nameseq, lists, nodes) && Listed(lists, Dir, d) && d.parent < d.id
    requires Listed(lists, t, f) && f.parent == d.id
    ensures exists q :: q in nodes && PathOf(lists[Dir], Dir, d) < q
  {
    assert EntryOk(lists, nameseq, f) && HasNode(lists, nodes, t, f);
    var p := FindDir(lists[Dir], f.parent).value;
    assert Listed(lists, Dir, p);
    assert p == d;
    assert PathOf(lists[Dir], Dir, d) < PathOf(lists[Dir], t, f);
  }

  /** What is not a directory has no children. */
  lemma LeafIsChildless(nameseq: nat, lists: Lists, t: Ft, f: Fent)
    requires ListsOk(nameseq, lists) && Listed(lists, t, f) && t != Dir
    ensures Childless(lists, f.id)
  {
    forall u, g | Listed(lists, u, g) ensures g.parent != f.id {
      assert EntryOk(lists, nameseq, g);
      if g.parent == f.id {
        var d := FindDir(lists[Dir], g.parent).value;
        assert Listed(lists, Dir, d);
      }
    }
  }

  lemma MoreNames(nameseq: nat, lists: Lists, nodes: set<Path>)
    requires Agree(nameseq, lists, nodes)
    ensures Agree(nameseq + 1, lists, nodes)
  {
    forall t, f | Listed(lists, t, f) ensures EntryOk(lists, nameseq + 1, f) {
      assert EntryOk(lists, nameseq, f);
    }
  }

  /** The names in the tree have ids that were given out. */
  lemma NodesHaveOldIds(nameseq: nat, lists: Lists, nodes: set<Path>, path: Path)
    requires Agree(nameseq, lists, nodes) && path in nodes && path != []
    ensures path[|path| - 1].id < nameseq
  {
    assert HasEntry(lists, path);
    var t, f :| Listed(lists, t, f) && Names(lists, t, f, path);
    assert EntryOk(lists, nameseq, f);
  }

  /** A listed directory is the one found for its id. */
  lemma FoundItself(nameseq: nat, lists: Lists, d: Fent)
    requires ListsOk(nameseq, lists) && Listed(lists, Dir, d)
    ensures FindDir(lists[Dir], d.id) == Some(d) && d.parent < d.id < nameseq
  {
    assert EntryOk(lists, nameseq, d);
    var e := FindDir(lists[Dir], d.id);
    assert e.Some?;
    assert Listed(lists, Dir, e.value);
  }

  const NOT_DIRS := [Reg, Sym, Chr, Blk, Sock]

  function EmptyLists(): Lists {
    map[Dir := [], Reg := [], Sym := [], Chr := [], Blk := [], Sock := []]
  }

  lemma EmptyListsHaveAllTypes(t: Ft)
    ensures t in EmptyLists() && EmptyLists()[t] == []
  {
    match t
    case Dir =>
    case Reg =>
    case Sym =>
    case Chr =>
    case Blk =>
    case Sock =>
  }

  // ---------- what each operation comes to ----------

  /** The path of an entry, for lists of any kind. */
  ghost function PathIn(lists: Lists, t: Ft, f: Fent): Path {
    if Dir in lists && Grounded(lists[Dir]) && f.parent < f.id then PathOf(lists[Dir], t, f) else []
  }

  /** The entry for the next name, in the given directory or in the base. */
  function NewFent(nameseq: nat, parent: Option<(Ft, Fent)>): Fent {
    Fent(nameseq, if parent.Some? then parent.value.1.id else -1)
  }

  function Entered(lists: Lists, t: Ft, f: Fent): Lists
    requires t in lists
  {
    lists[t := lists[t] + [f]]
  }

  function Struck(lists: Lists, t: Ft, f: Fent): Lists
    requires t in lists
  {
    lists[t := Without(lists[t], f.id)]
  }

  /** What a thread remembers, what there is, and what was ever created. */
  datatype Snap = Snap(nameseq: nat, lists: Lists, nodes: set<Path>, created: set<Path>)

  /** A new node of the type in the directory. The name is used up even if the file system
      refuses. */
  ghost function Making(s: Snap, t: Ft, parent: Option<(Ft, Fent)>, willing: bool): Snap
    requires forall u: Ft :: u in s.lists
  {
    var f := NewFent(s.nameseq, parent);
    if !willing then s.(nameseq := s.nameseq + 1)
    else Snap(s.nameseq + 1, Entered(s.lists, t, f), s.nodes + {PathIn(s.lists, t, f)}, s.created + {PathIn(s.lists, t, f)})
  }

  ghost function Removing(s: Snap, t: Ft, f: Fent): Snap
    requires forall u: Ft :: u in s.lists
  {
    s.(lists := Struck(s.lists, t, f), nodes := s.nodes - {PathIn(s.lists, t, f)})
  }

  /** The entry is struck out and the new one entered, for the same node under a new name. */
  ghost function Moving(s: Snap, t: Ft, f: Fent, parent: Option<(Ft, Fent)>, willing: bool): Snap
    requires forall u: Ft :: u in s.lists
  {
    var g := NewFent(s.nameseq, parent);
    if !willing then s.(nameseq := s.nameseq + 1)
    else Snap(s.nameseq + 1, Entered(Struck(s.lists, t, f), t, g),
              s.nodes - {PathIn(s.lists, t, f)} + {PathIn(s.lists, t, g)}, s.created + {PathIn(s.lists, t, g)})
  }

  lemma MakingIs(s: Snap, t: Ft, parent: Option<(Ft, Fent)>, willing: bool, f: Fent, path: Path, s': Snap)
    requires (forall u: Ft :: u in s.lists) && f == NewFent(s.nameseq, parent) && path == PathIn(s.lists, t, f)
    requires s'.nameseq == s.nameseq + 1
    requires s'.lists == if willing then s.lists[t := s.lists[t] + [f]] else s.lists
    requires s'.nodes == if willing then s.nodes + {path} else s.nodes
    requires s'.created == if willing then s.created + {path} else s.created
    ensures s' == Making(s, t, parent, willing)
  {
  }

  lemma MovingIs(s: Snap, t: Ft, f: Fent, parent: Option<(Ft, Fent)>, willing: bool, g: Fent, src: Path, dest: Path, s': Snap)
    requires (forall u: Ft :: u in s.lists) && g == NewFent(s.nameseq, parent)
    requires src == PathIn(s.lists, t, f) && dest == PathIn(s.lists, t, g)
    requires s'.nameseq == s.nameseq + 1
    requires s'.lists == if willing then s.lists[t := Without(s.lists[t], f.id) + [g]] else s.lists
    requires s'.nodes == if willing then s.nodes - {src} + {dest} else s.nodes
    requires s'.created == if willing then s.created + {dest} else s.created
    ensures s' == Moving(s, t, f, parent, willing)
  {
    TwoChanges(s.lists, t, f, g);
  }

  lemma TwoChanges(lists: Lists, t: Ft, f: Fent, g: Fent)
    requires t in lists
    ensures Entered(Struck(lists, t, f), t, g) == lists[t := Without(lists[t], f.id) + [g]]
  {
  }

  /** The operation makes a node of the type. */
  predicate Creates(op: Op, t: Ft, r: nat, willing: bool) {
    match t
    case Reg => op == Creat(r, willing)
    case Dir => op == Mkdir(r, willing)
    case Chr => r % 2 == 0 && op == Mknod(r, willing)
    case Blk => r % 2 == 1 && op == Mknod(r, willing)
    case Sym => op == Symlink(r, willing)
    case Sock => false
  }

  /** The state after an operation. */
  ghost function After(s: Snap, op: Op): Snap {
    if exists u: Ft :: u !in s.lists then s else
    match op
    case Creat(r, willing) => Making(s, Reg, Chosen(s.lists, [Dir], r), willing)
    case Mkdir(r, willing) => Making(s, Dir, Chosen(s.lists, [Dir], r), willing)
    case Mknod(r, willing) => Making(s, if r % 2 == 0 then Chr else Blk, Chosen(s.lists, [Dir], r), willing)
    case Symlink(r, willing) => Making(s, Sym, Chosen(s.lists, [Dir], r), willing)
    case LinkOp(r, rr, willing) =>
      var e := Chosen(s.lists, NOT_DIRS, r);
      if e.None? then s else Making(s, e.value.0, Chosen(s.lists, [Dir], rr), willing)
    case UnlinkOp(r, willing) =>
      var e := Chosen(s.lists, NOT_DIRS, r);
      if e.None? || !willing then s else Removing(s, e.value.0, e.value.1)
    case RmdirOp(r, willing) =>
      var e := Chosen(s.lists, [Dir], r);
      if e.None? || !willing || !Childless(s.lists, e.value.1.id) then s else Removing(s, Dir, e.value.1)
    case RenameOp(r, rr, willing) =>
      var e := Chosen(s.lists, NOT_DIRS, r);
      if e.None? then s else Moving(s, e.value.0, e.value.1, Chosen(s.lists, [Dir], rr), willing)
  }

  lemma AfterCreate(s: Snap, op: Op, t: Ft, r: nat, willing: bool)
    requires Creates(op, t, r, willing) && forall u: Ft :: u in s.lists
    ensures After(s, op) == Making(s, t, Chosen(s.lists, [Dir], r), willing)
  {
  }

  /** The state after a sequence of operations. */
  ghost function AfterAll(s: Snap, ops: seq<Op>): Snap
    decreases ops
  {
    if ops == [] then s else AfterAll(After(s, ops[0]), ops[1..])
  }

  // ---------- a thread at work ----------

  class Proc {
    var nameseq: nat
    var lists: Lists
    var nodes: set<Path>
    var created: set<Path>

    ghost predicate Valid()
      reads this
    {
      Agree(nameseq, lists, nodes) && forall q :: q in nodes && q != [] ==> q in created
    }

    ghost function Snapshot(): Snap
      reads this
    {
      Snap(nameseq, lists, nodes, created)
    }

    constructor ()
      ensures Valid() && Snapshot() == Snap(0, EmptyLists(), {[]}, {})
    {
      nameseq, nodes, created := 0, {[]}, {};
      lists := EmptyLists();
      new;
      forall t: Ft | true ensures t in lists && lists[t] == [] {
        EmptyListsHaveAllTypes(t);
      }
    }

    // ----- the file system; it may always refuse -----

    predicate IsDir(path: Path)
      reads this
    {
      path in nodes && (path == [] || path[|path| - 1].ft == Dir)
    }

    method MakeNode(path: Path, willing: bool) returns (ok: bool)
      modifies this`nodes
      ensures ok <==> willing && path != [] && old(IsDir(path[..|path| - 1])) && path !in old(nodes)
      ensures nodes == if ok then old(nodes) + {path} else old(nodes)
    {
      ok := willing && path != [] && IsDir(path[..|path| - 1]) && path !in nodes;
      if ok {
        nodes := nodes + {path};
      }
    }

    method RemoveNode(path: Path, willing: bool) returns (ok: bool)
      modifies this`nodes
      ensures ok <==> willing && path != [] && path in old(nodes) && forall q :: q in old(nodes) ==> !(path < q)
      ensures nodes == if ok then old(nodes) - {path} else old(nodes)
    {
      ok := willing && path != [] && path in nodes && forall q :: q in nodes ==> !(path < q);
      if ok {
        nodes := nodes - {path};
      }
    }

    method RenameNode(src: Path, dest: Path, willing: bool) returns (ok: bool)
      modifies this`nodes
      ensures ok <==>
              willing && src != [] && src in old(nodes) && dest != [] && old(IsDir(dest[..|dest| - 1]))
      ensures nodes == if ok then old(nodes) - {src} + {dest} else old(nodes)
    {
      ok := willing && src != [] && src in nodes && dest != [] && IsDir(dest[..|dest| - 1]);
      if ok {
        nodes := nodes - {src} + {dest};
      }
    }

    // ----- lookups -----

    /** One of all entries of the types, by number. */
    method GetFent(types: seq<Ft>, r: nat) returns (e: Option<(Ft, Fent)>)
      requires forall t: Ft :: t in lists
      ensures e == Chosen(lists, types, r)
    {
      var total := 0;
      for i := 0 to |types|
        invariant total + |Choices(lists, types[i..])| == |Choices(lists, types)|
      {
        assert types[i..][1..] == types[i + 1..];
        total := total + |lists[types[i]]|;
      }
      if total == 0 {
        return None;
      }
      var x := r % total;
      for i := 0 to |types|
        invariant 0 <= x < |Choices(lists, types[i..])|
        invariant Choices(lists, types[i..])[x] == Choices(lists, types)[r % total]
      {
        assert types[i..][1..] == types[i + 1..];
        var list := lists[types[i]];
        if x < |list| {
          return Some((types[i], list[x]));
        }
        x := x - |list|;
      }
      return None;
    }

    /** The same, for lists that agree with the tree. */
    method Pick(types: seq<Ft>, r: nat) returns (e: Option<(Ft, Fent)>)
      requires Valid()
      ensures e == Chosen(lists, types, r)
      ensures e.Some? ==> e.value.0 in types && Listed(lists, e.value.0, e.value.1)
      ensures e.Some? ==> e.value.1.parent < e.value.1.id < nameseq
      ensures e.Some? ==> PathOf(lists[Dir], e.value.0, e.value.1) in nodes
    {
      e := GetFent(types, r);
      if e.Some? {
        ChoicesAreListed(lists, types, r % |Choices(lists, types)|);
        assert EntryOk(lists, nameseq, e.value.1);
        assert HasNode(lists, nodes, e.value.0, e.value.1);
      }
    }

    /** A new name, in the given directory or in the base. */
    method GenerateName(parent: Option<(Ft, Fent)>, t: Ft) returns (path: Path, f: Fent)
      requires Valid() && (parent.Some? ==> parent.value.0 == Dir && Listed(lists, Dir, parent.value.1))
      modifies this`nameseq
      ensures Valid() && nameseq == old(nameseq) + 1
      ensures f == Fent(old(nameseq), if parent.Some? then parent.value.1.id else -1)
      ensures ParentOk(lists, f) && path == PathOf(lists[Dir], t, f)
      ensures path !in nodes && IsDir(path[..|path| - 1])
    {
      f := Fent(nameseq, if parent.Some? then parent.value.1.id else -1);
      path := [];
      if parent.Some? {
        FoundItself(nameseq, lists, parent.value.1);
        path := PathOf(lists[Dir], Dir, parent.value.1);
        assert HasNode(lists, nodes, Dir, parent.value.1);
      }
      ghost var above := path;
      path := path + [Component(t, nameseq)];
      assert path[..|path| - 1] == above;
      if path in nodes {
        NodesHaveOldIds(nameseq, lists, nodes, path);
      }
      MoreNames(nameseq, lists, nodes);
      nameseq := nameseq + 1;
    }

    // ----- the operations -----

    /** Enters a node that was just made. */
    method AddFent(t: Ft, f: Fent, path: Path, ghost before: set<Path>)
      requires nameseq == f.id + 1 && Agree(f.id, lists, before) && ParentOk(lists, f)
      requires path == PathOf(lists[Dir], t, f) && nodes == before + {path}
      requires forall q :: q in before && q != [] ==> q in created
      modifies this`lists, this`created
      ensures Valid() && lists == old(lists)[t := old(lists)[t] + [f]] && created == old(created) + {path}
    {
      AddAgrees(f.id, lists, before, t, f, lists[t := lists[t] + [f]]);
      lists := lists[t := lists[t] + [f]];
      created := created + {path};
    }

    /** Strikes out an entry whose node was just removed. */
    method DropFent(t: Ft, f: Fent, ghost before: set<Path>)
      requires Agree(nameseq, lists, before) && Listed(lists, t, f) && Childless(lists, f.id) && f.parent < f.id
      requires nodes == before - {PathOf(lists[Dir], t, f)}
      requires forall q :: q in before && q != [] ==> q in created
      modifies this`lists
      ensures Valid() && lists == old(lists)[t := Without(old(lists)[t], f.id)]
    {
      RemoveAgrees(nameseq, lists, before, t, f, lists[t := Without(lists[t], f.id)]);
      lists := lists[t := Without(lists[t], f.id)];
    }

    /** Creates a file, directory, device or symbolic link in the directory drawn. It fails
        only if the file system refuses: its directory is there and its name is free. */
    method Create(t: Ft, r: nat, willing: bool) returns (made: Option<Path>)
      requires Valid()
      modifies this
      ensures Snapshot() == Making(old(Snapshot()), t, Chosen(old(lists), [Dir], r), willing)
      ensures Valid() && nameseq == old(nameseq) + 1
      ensures var f := NewFent(old(nameseq), Chosen(old(lists), [Dir], r));
              && made == (if willing then Some(PathIn(old(lists), t, f)) else None)
              && lists == if willing then old(lists)[t := old(lists)[t] + [f]] else old(lists)
      ensures made.Some? ==> made.value !in old(nodes) && nodes == old(nodes) + {made.value}
      ensures made.Some? ==> created == old(created) + {made.value}
      ensures made.None? ==> nodes == old(nodes) && created == old(created)
    {
      var parent := Pick([Dir], r);
      made := MakeEntry(t, parent, willing);
    }

    method MakeEntry(t: Ft, parent: Option<(Ft, Fent)>, willing: bool) returns (made: Option<Path>)
      requires Valid() && (parent.Some? ==> parent.value.0 == Dir && Listed(lists, Dir, parent.value.1))
      modifies this
      ensures Snapshot() == Making(old(Snapshot()), t, parent, willing)
      ensures Valid() && nameseq == old(nameseq) + 1
      ensures var f := NewFent(old(nameseq), parent);
              && made == (if willing then Some(PathIn(old(lists), t, f)) else None)
              && lists == if willing then old(lists)[t := old(lists)[t] + [f]] else old(lists)
      ensures made.Some? ==> made.value !in old(nodes) && nodes == old(nodes) + {made.value}
      ensures made.Some? ==> created == old(created) + {made.value}
      ensures made.None? ==> nodes == old(nodes) && created == old(created)
    {
      ghost var before := Snapshot();
      ghost var f := NewFent(nameseq, parent);
      made := MakeNamed(t, parent, willing);
      MakingIs(before, t, parent, willing, f, PathIn(before.lists, t, f), Snapshot());
    }

    method MakeNamed(t: Ft, parent: Option<(Ft, Fent)>, willing: bool) returns (made: Option<Path>)
      requires Valid() && (parent.Some? ==> parent.value.0 == Dir && Listed(lists, Dir, parent.value.1))
      modifies this
      ensures Valid() && nameseq == old(nameseq) + 1
      ensures var f := NewFent(old(nameseq), parent);
              && made == (if willing then Some(PathIn(old(lists), t, f)) else None)
              && lists == if willing then old(lists)[t := old(lists)[t] + [f]] else old(lists)
      ensures made.Some? ==> made.value !in old(nodes) && nodes == old(nodes) + {made.value}
      ensures made.Some? ==> created == old(created) + {made.value}
      ensures made.None? ==> nodes == old(nodes) && created == old(created)
    {
      ghost var n := nameseq;
      assert Agree(n, lists, nodes);
      var path, f := GenerateName(parent, t);
      assert f == NewFent(n, parent) && path == PathIn(lists, t, f);
      var ok := MakeNode(path, willing);
      if ok {
        AddFent(t, f, path, old(nodes));
        return Some(path);
      }
      return None;
    }

    /** Gives the drawn file a second name in the directory drawn. The file is there, so only the file system can refuse. */
    method Link(r: nat, rr: nat, willing: bool) returns (made: Option<Path>)
      requires Valid()
      modifies this
      ensures var e := Chosen(old(lists), NOT_DIRS, r);
              Snapshot() == if e.None? then old(Snapshot())
                            else Making(old(Snapshot()), e.value.0, Chosen(old(lists), [Dir], rr), willing)
      ensures Valid()
      ensures var e, f := Chosen(old(lists), NOT_DIRS, r), NewFent(old(nameseq), Chosen(old(lists), [Dir], rr));
              && nameseq == old(nameseq) + (if e.Some? then 1 else 0)
              && made == (if willing && e.Some? then Some(PathIn(old(lists), e.value.0, f)) else None)
              && lists == if willing && e.Some? then old(lists)[e.value.0 := old(lists)[e.value.0] + [f]] else old(lists)
      ensures made.Some? ==> made.value !in old(nodes) && nodes == old(nodes) + {made.value}
      ensures made.Some? ==> created == old(created) + {made.value}
      ensures made.None? ==> nodes == old(nodes) && created == old(created)
    {
      var src := Pick(NOT_DIRS, r);
      if src.None? {
        return None;
      }
      var srcPath := PathOf(lists[Dir], src.value.0, src.value.1);
      var parent := Pick([Dir], rr);
      made := MakeEntry(src.value.0, parent, willing && srcPath in nodes);
    }

    /** Removes the file drawn. */
    method Unlink(r: nat, willing: bool) returns (gone: Option<Path>)
      requires Valid()
      modifies this
      ensures Valid() && nameseq == old(nameseq) && created == old(created)
      ensures var e := Chosen(old(lists), NOT_DIRS, r);
              && gone == (if willing && e.Some? then Some(PathIn(old(lists), e.value.0, e.value.1)) else None)
              && lists == if willing && e.Some?
                          then old(lists)[e.value.0 := Without(old(lists)[e.value.0], e.value.1.id)] else old(lists)
      ensures gone.Some? ==> gone.value in old(nodes) && nodes == old(nodes) - {gone.value}
      ensures gone.None? ==> nodes == old(nodes)
    {
      var e := Pick(NOT_DIRS, r);
      if e.None? {
        return None;
      }
      var t, f := e.value.0, e.value.1;
      var path := PathOf(lists[Dir], t, f);
      LeafIsChildless(nameseq, lists, t, f);
      NothingBelow(nameseq, lists, nodes, t, f);
      var ok := RemoveNode(path, willing);
      if ok {
        DropFent(t, f, old(nodes));
        return Some(path);
      }
      return None;
    }

    /** Removes the directory drawn, if it is no entry's parent. */
    method Rmdir(r: nat, willing: bool) returns (gone: Option<Path>)
      requires Valid()
      modifies this
      ensures Valid() && nameseq == old(nameseq) && created == old(created)
      ensures var e := Chosen(old(lists), [Dir], r);
              var acts := willing && e.Some? && Childless(old(lists), e.value.1.id);
              && gone == (if acts then Some(PathIn(old(lists), Dir, e.value.1)) else None)
              && lists == if acts then old(lists)[Dir := Without(old(lists)[Dir], e.value.1.id)] else old(lists)
      ensures gone.Some? ==> gone.value in old(nodes) && nodes == old(nodes) - {gone.value}
      ensures gone.None? ==> nodes == old(nodes)
    {
      var e := Pick([Dir], r);
      if e.None? {
        return None;
      }
      var f := e.value.1;
      var path := PathOf(lists[Dir], Dir, f);
      if Childless(lists, f.id) {
        NothingBelow(nameseq, lists, nodes, Dir, f);
      }
      var ok := RemoveNode(path, willing);
      if ok {
        EmptyIsChildless(nameseq, lists, old(nodes), f);
        DropFent(Dir, f, old(nodes));
        return Some(path);
      }
      return None;
    }

    /** Moves the file drawn to a new name in the directory drawn. */
    method Rename(r: nat, rr: nat, willing: bool) returns (moved: Option<(Path, Path)>)
      requires Valid()
      modifies this
      ensures var e := Chosen(old(lists), NOT_DIRS, r);
              Snapshot() == if e.None? then old(Snapshot())
                            else Moving(old(Snapshot()), e.value.0, e.value.1, Chosen(old(lists), [Dir], rr), willing)
      ensures Valid()
      ensures var e, g := Chosen(old(lists), NOT_DIRS, r), NewFent(old(nameseq), Chosen(old(lists), [Dir], rr));
              && nameseq == old(nameseq) + (if e.Some? then 1 else 0)
              && moved == (if willing && e.Some?
                           then Some((PathIn(old(lists), e.value.0, e.value.1), PathIn(old(lists), e.value.0, g))) else None)
              && lists == if willing && e.Some?
                          then old(lists)[e.value.0 := Without(old(lists)[e.value.0], e.value.1.id) + [g]] else old(lists)
      ensures moved.Some? ==>
                && moved.value.0 in old(nodes) && moved.value.1 !in old(nodes)
                && nodes == old(nodes) - {moved.value.0} + {moved.value.1}
      ensures moved.Some? ==> created == old(created) + {moved.value.1}
      ensures moved.None? ==> nodes == old(nodes) && created == old(created)
    {
      var e := Pick(NOT_DIRS, r);
      if e.None? {
        return None;
      }
      var parent := Pick([Dir], rr);
      moved := MoveEntry(e.value.0, e.value.1, parent, willing);
    }

    method MoveEntry(t: Ft, f: Fent, parent: Option<(Ft, Fent)>, willing: bool) returns (moved: Option<(Path, Path)>)
      requires Valid() && t != Dir && Listed(lists, t, f) && f.parent < f.id && PathOf(lists[Dir], t, f) in nodes
      requires parent.Some? ==> parent.value.0 == Dir && Listed(lists, Dir, parent.value.1)
      modifies this
      ensures Snapshot() == Moving(old(Snapshot()), t, f, parent, willing)
      ensures Valid() && nameseq == old(nameseq) + 1
      ensures var g := NewFent(old(nameseq), parent);
              && moved == (if willing then Some((PathIn(old(lists), t, f), PathIn(old(lists), t, g))) else None)
              && lists == if willing then old(lists)[t := Without(old(lists)[t], f.id) + [g]] else old(lists)
      ensures moved.Some? ==>
                && moved.value.0 in old(nodes) && moved.value.1 !in old(nodes)
                && nodes == old(nodes) - {moved.value.0} + {moved.value.1}
      ensures moved.Some? ==> created == old(created) + {moved.value.1}
      ensures moved.None? ==> nodes == old(nodes) && created == old(created)
    {
      ghost var before := Snapshot();
      ghost var g := NewFent(nameseq, parent);
      moved := MoveNamed(t, f, parent, willing);
      MovingIs(before, t, f, parent, willing, g, PathIn(before.lists, t, f), PathIn(before.lists, t, g), Snapshot());
    }

    method MoveNamed(t: Ft, f: Fent, parent: Option<(Ft, Fent)>, willing: bool) returns (moved: Option<(Path, Path)>)
      requires Valid() && t != Dir && Listed(lists, t, f) && f.parent < f.id && PathOf(lists[Dir], t, f) in nodes
      requires parent.Some? ==> parent.value.0 == Dir && Listed(lists, Dir, parent.value.1)
      modifies this
      ensures Valid() && nameseq == old(nameseq) + 1
      ensures var g := NewFent(old(nameseq), parent);
              && moved == (if willing then Some((PathIn(old(lists), t, f), PathIn(old(lists), t, g))) else None)
              && lists == if willing then old(lists)[t := Without(old(lists)[t], f.id) + [g]] else old(lists)
      ensures moved.Some? ==>
                && moved.value.0 in old(nodes) && moved.value.1 !in old(nodes)
                && nodes == old(nodes) - {moved.value.0} + {moved.value.1}
      ensures moved.Some? ==> created == old(created) + {moved.value.1}
      ensures moved.None? ==> nodes == old(nodes) && created == old(created)
    {
      ghost var n := nameseq;
      assert Agree(n, lists, nodes);
      var src := PathOf(lists[Dir], t, f);
      var dest, g := GenerateName(parent, t);
      assert g == NewFent(n, parent) && dest == PathIn(lists, t, g);
      var ok := RenameNode(src, dest, willing);
      if ok {
        ReplaceFent(t, f, g, src, dest, old(nodes));
        return Some((src, dest));
      }
      return None;
    }

    /** Enters the new name of a node in place of the old one. */
    method ReplaceFent(t: Ft, f: Fent, g: Fent, src: Path, dest: Path, ghost before: set<Path>)
      requires nameseq == g.id + 1 && Agree(g.id, lists, before) && ParentOk(lists, g) && t != Dir
      requires Listed(lists, t, f) && f.parent < f.id && src == PathOf(lists[Dir], t, f)
      requires dest == PathOf(lists[Dir], t, g) && dest !in before && nodes == before - {src} + {dest}
      requires forall q :: q in before && q != [] ==> q in created
      modifies this`lists, this`created
      ensures Valid() && created == old(created) + {dest}
      ensures lists == old(lists)[t := Without(old(lists)[t], f.id) + [g]]
    {
      ghost var kept := lists[t := Without(lists[t], f.id)];
      LeafIsChildless(g.id, lists, t, f);
      RemoveAgrees(g.id, lists, before, t, f, kept);
      lists := lists[t := Without(lists[t], f.id)];
      AddFent(t, g, dest, before - {src});
    }

    method RunCreate(op: Op, t: Ft, r: nat, willing: bool)
      requires Valid()
      requires Creates(op, t, r, willing)
      modifies this
      ensures Valid() && Snapshot() == After(old(Snapshot()), op)
    {
      AfterCreate(Snapshot(), op, t, r, willing);
      var made := Create(t, r, willing);
    }

    method RunLink(r: nat, rr: nat, willing: bool)
      requires Valid()
      modifies this
      ensures Valid() && Snapshot() == After(old(Snapshot()), LinkOp(r, rr, willing))
    {
      var made := Link(r, rr, willing);
    }

    method RunUnlink(r: nat, willing: bool)
      requires Valid()
      modifies this
      ensures Valid() && Snapshot() == After(old(Snapshot()), UnlinkOp(r, willing))
    {
      var gone := Unlink(r, willing);
    }

    method RunRmdir(r: nat, willing: bool)
      requires Valid()
      modifies this
      ensures Valid() && Snapshot() == After(old(Snapshot()), RmdirOp(r, willing))
    {
      var gone := Rmdir(r, willing);
    }

    method RunRename(r: nat, rr: nat, willing: bool)
      requires Valid()
      modifies this
      ensures Valid() && Snapshot() == After(old(Snapshot()), RenameOp(r, rr, willing))
    {
      var moved := Rename(r, rr, willing);
    }

    /** One operation, with the numbers it draws. */
    method RunOp(op: Op)
      requires Valid()
      modifies this
      ensures Valid() && Snapshot() == After(old(Snapshot()), op)
    {
      match op
      case Creat(r, willing) => RunCreate(op, Reg, r, willing);
      case Mkdir(r, willing) => RunCreate(op, Dir, r, willing);
      case Mknod(r, willing) => RunCreate(op, if r % 2 == 0 then Chr else Blk, r, willing);
      case Symlink(r, willing) => RunCreate(op, Sym, r, willing);
      case LinkOp(r, rr, willing) => RunLink(r, rr, willing);
      case UnlinkOp(r, willing) => RunUnlink(r, willing);
      case RmdirOp(r, willing) => RunRmdir(r, willing);
      case RenameOp(r, rr, willing) => RunRename(r, rr, willing);
    }

    /** After any operations, whichever of them failed, the lists agree with the tree, and both
        are what the operations make of them one after the other. */
    method Run(ops: seq<Op>)
      requires Valid()
      modifies this
      ensures Valid() && Snapshot() == AfterAll(old(Snapshot()), ops)
    {
      for i := 0 to |ops|
        invariant Valid() && AfterAll(Snapshot(), ops[i..]) == AfterAll(old(Snapshot()), ops)
      {
        assert ops[i..][1..] == ops[i + 1..];
        RunOp(ops[i]);
      }
      assert ops[|ops|..] == [];
    }

    /** The final pass over everything ever created, longest path first: removing succeeds
        each time it can, and the tree ends empty. The passes after it find nothing. */
    method Cleanup(paths: seq<Path>)
      requires forall q :: q in nodes && q != [] ==> q in paths
      requires LongestFirst(paths) && [] in nodes
      modifies this`nodes
      ensures nodes == {[]}
    {
      for i := 0 to |paths|
        invariant [] in nodes && forall q :: q in nodes && q != [] ==> q in paths[i..]
      {
        var p := paths[i];
        forall q | q in nodes ensures !(p < q) {
          NoneBelow(paths, i, q);
        }
        var gone := RemoveNode(p, true);
        forall q | q in nodes && q != [] ensures q in paths[i + 1..] {
          assert q in paths[i..];
        }
      }
      var passes, any := 0, true;
      while passes < 4 && any
        invariant nodes == {[]}
      {
        any := false;
        for i := |paths| downto 0
          invariant nodes == {[]} && !any
        {
          var gone := RemoveNode(paths[i], true);
          any := any || gone;
        }
        passes := passes + 1;
      }
    }

    /** A run and the cleanup after it leave only the base directory. */
    method RunThenCleanup(ops: seq<Op>)
      requires Valid()
      modifies this
      ensures nodes == {[]}
    {
      Run(ops);
      var paths := LongestPathsFirst(created);
      Cleanup(paths);
    }
  }

  predicate Descending(paths: seq<Path>, key: Path -> nat) {
    forall i, j :: 0 <= i < j < |paths| ==> key(paths[i]) >= key(paths[j])
  }

  predicate LongestFirst(paths: seq<Path>) {
    Descending(paths, TextLen)
  }

  lemma InsertKeepsOrder(paths: seq<Path>, key: Path -> nat, i: nat, p: Path, longer: seq<Path>)
    requires Descending(paths, key) && i <= |paths| && longer == paths[..i] + [p] + paths[i..]
    requires forall k :: 0 <= k < i ==> key(paths[k]) >= key(p)
    requires i < |paths| ==> key(paths[i]) < key(p)
    ensures Descending(longer, key)
  {
    forall j, k | 0 <= j < k < |longer| ensures key(longer[j]) >= key(longer[k]) {
      if j < i {
        assert longer[j] == paths[j];
      } else if j > i {
        assert longer[j] == paths[j - 1];
      }
      if k > i {
        assert longer[k] == paths[k - 1];
        assert key(paths[k - 1]) <= key(paths[i]);
      }
    }
  }

  lemma InsertAdds(paths: seq<Path>, i: nat, p: Path, q: Path)
    requires i <= |paths|
    ensures q in paths[..i] + [p] + paths[i..] <==> q == p || q in paths
  {
    assert paths == paths[..i] + paths[i..];
  }

  /** The paths in the order of the cleanup. */
  method LongestPathsFirst(all: set<Path>) returns (paths: seq<Path>)
    ensures forall q :: q in paths <==> q in all
    ensures LongestFirst(paths)
  {
    paths := [];
    var todo := all;
    while todo != {}
      invariant todo <= all && LongestFirst(paths)
      invariant forall q :: q in paths <==> q in all - todo
      decreases todo
    {
      var p :| p in todo;
      var i := 0;
      while i < |paths| && TextLen(paths[i]) >= TextLen(p)
        invariant i <= |paths| && forall k :: 0 <= k < i ==> TextLen(paths[k]) >= TextLen(p)
      {
        i := i + 1;
      }
      ghost var before := paths;
      paths := paths[..i] + [p] + paths[i..];
      InsertKeepsOrder(before, TextLen, i, p, paths);
      forall q | true ensures q in paths <==> q == p || q in before {
        InsertAdds(before, i, p, q);
      }
      todo := todo - {p};
    }
  }

  /** The operations that change the tree, with the random numbers they draw and whether the
      file system is willing. */
  datatype Op =
    | Creat(r: nat, willing: bool)
    | Mkdir(r: nat, willing: bool)
    | Mknod(r: nat, willing: bool)
    | Symlink(r: nat, willing: bool)
    | LinkOp(r: nat, rr: nat, willing: bool)
    | UnlinkOp(r: nat, willing: bool)
    | RmdirOp(r: nat, willing: bool)
    | RenameOp(r: nat, rr: nat, willing: bool)

  /** A path as text. */
  function TextOf(path: Path): string {
    if path == [] then "" else TextOf(path[..|path| - 1]) + ("/" + NameOf(path[|path| - 1]))
  }

  lemma {:induction false} TextLenIs(path: Path)
    ensures TextLen(path) == |TextOf(path)|
  {
    if path != [] {
      TextLenIs(path[..|path| - 1]);
    }
  }

  /** The length of a path as text: each component has a separator and a name. */
  function TextLen(path: Path): nat {
    if path == [] then 0 else TextLen(path[..|path| - 1]) + 1 + |NameOf(path[|path| - 1])|
  }

  lemma {:induction false} DeeperIsLonger(p: Path, q: Path)
    requires p < q
    ensures TextLen(p) < TextLen(q)
  {
    var above := q[..|q| - 1];
    if p != above {
      DeeperIsLonger(p, above);
    }
  }

  /** Nothing that is still to come in the pass lies below the current path. */
  lemma NoneBelow(paths: seq<Path>, i: nat, q: Path)
    requires i < |paths| && (q == [] || q in paths[i..])
    requires LongestFirst(paths)
    ensures !(paths[i] < q)
  {
    if q != [] {
      var k :| 0 <= k < |paths[i..]| && paths[i..][k] == q;
      assert q == paths[i + k];
    }
    if paths[i] < q {
      DeeperIsLonger(paths[i], q);
    }
  }

  /** Without an entry that has it as a parent there is nothing below an entry's node. */
  lemma NothingBelow(nameseq: nat, lists: Lists, nodes: set<Path>, t: Ft, f: Fent)
    requires Agree(nameseq, lists, nodes) && Listed(lists, t, f) && Childless(lists, f.id) && f.parent < f.id
    ensures forall q :: q in nodes ==> !(PathOf(lists[Dir], t, f) < q)
  {
    var path := PathOf(lists[Dir], t, f);
    forall q | q in nodes ensures !(path < q) {
      if q != [] {
        assert HasEntry(lists, q);
        var u, g :| Listed(lists, u, g) && Names(lists, u, g, q);
        NotAbove(nameseq, lists, t, f, u, g);
      }
    }
  }

  lemma {:induction false} NotAbove(nameseq: nat, lists: Lists, t: Ft, f: Fent, u: Ft, g: Fent)
    requires ListsOk(nameseq, lists) && Listed(lists, t, f) && Childless(lists, f.id) && f.parent < f.id
    requires Listed(lists, u, g) && g.parent < g.id
    ensures !(PathOf(lists[Dir], t, f) < PathOf(lists[Dir], u, g))
    decreases g.id
  {
    var path, q := PathOf(lists[Dir], t, f), PathOf(lists[Dir], u, g);
    assert EntryOk(lists, nameseq, g);
    if g.parent >= 0 {
      var d := FindDir(lists[Dir], g.parent).value;
      assert Listed(lists, Dir, d);
      FoundItself(nameseq, lists, d);
      var above := PathOf(lists[Dir], Dir, d);
      assert q[..|q| - 1] == above && above[|above| - 1].id == d.id && path[|path| - 1].id == f.id;
      NotAbove(nameseq, lists, t, f, Dir, d);
      assert path < q ==> path <= above;
    }
  }
}
