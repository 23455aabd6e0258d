/** The glob matcher of mptest: `*`, `?`, `[...]` classes and `#` for a number.

    Bytes are written as characters. A NUL in a pattern ends it, as in the original. */
module Glob {
  import opened Common

  predicate AtEnd(g: string) {
    At(g, 0) == '\0'
  }

  predicate IsDigit(c: char) {
    '0' <= c <= '9'
  }

  lemma DigitsAre(c: char)
    ensures IsDigit(c) <==> c in "0123456789"
  {
    assert c in "0123456789" <==> exists i :: 0 <= i < 10 && "0123456789"[i] == c;
    if IsDigit(c) {
      assert "0123456789"[c as int - '0' as int] == c;
    }
  }

  // ---------- character classes ----------

  datatype Range = Range(lo: char, hi: char)

  /** What follows `[`: the ranges up to the closing bracket, and the pattern after it. */
  datatype Class = Class(invert: bool, ranges: seq<Range>, rest: string) | Unterminated

  function Cons(r: Range, c: Class): (d: Class)
    ensures d.Class? <==> c.Class?
  {
    if c.Class? then c.(ranges := [r] + c.ranges) else c
  }

  /** The members from here to the closing bracket. `prior` is the member just read, or NUL
      at the start and after a range; only then is `-` an ordinary member. */
  function Members(g: string, prior: char): (c: Class)
    ensures c.Class? ==> |c.rest| < |g|
  {
    if AtEnd(g) then Unterminated
    else if g[0] == ']' then Class(false, [], g[1..])
    else if g[0] == '-' && |g| > 1 && g[1] != ']' && prior != '\0' then Cons(Range(prior, g[1]), Members(g[2..], '\0'))
    else Cons(Range(g[0], g[0]), Members(g[1..], g[0]))
  }

  /** The whole class: an optional `^`, and a `]` in first place is a member. */
  function ParseClass(g: string): (c: Class)
    ensures c.Class? ==> |c.rest| < |g|
  {
    var invert := At(g, 0) == '^';
    var h := if invert then g[1..] else g;
    var c := if At(h, 0) == ']' then Cons(Range(']', ']'), Members(h[1..], '\0')) else Members(h, '\0');
    if c.Class? then c.(invert := invert) else c
  }

  ghost predicate Covers(ranges: seq<Range>, c: char) {
    exists i :: 0 <= i < |ranges| && ranges[i].lo <= c <= ranges[i].hi
  }

  ghost predicate Accepts(cls: Class, c: char) {
    cls.Class? && Covers(cls.ranges, c) != cls.invert
  }

  /** Whether a closing bracket was met, and that it is the first one. */
  predicate FirstBracket(g: string, p: nat, rest: string) {
    p < |g| && g[p] == ']' && ']' !in g[..p] && rest == g[p + 1..]
  }

  lemma {:induction false} MembersEnd(g: string, prior: char) returns (p: nat)
    ensures p <= |g|
    ensures var c := Members(g, prior);
            if c.Class? then FirstBracket(g, p, c.rest) else '\0' in g || ']' !in g
    decreases |g|
  {
    if AtEnd(g) || g[0] == ']' {
      p := 0;
    } else if g[0] == '-' && |g| > 1 && g[1] != ']' && prior != '\0' {
      var q := MembersEnd(g[2..], '\0');
      p := q + 2;
      assert g[..2] + g[2..][..q] == g[..p];
    } else {
      var q := MembersEnd(g[1..], g[0]);
      p := q + 1;
      assert [g[0]] + g[1..][..q] == g[..p];
    }
  }

  lemma {:induction false} MembersList(g: string, prior: char, p: nat, ch: char)
    requires Members(g, prior).Class? && p < |g| && g[p] == ']' && ']' !in g[..p] && '-' !in g[..p]
    ensures Covers(Members(g, prior).ranges, ch) <==> ch in g[..p]
    decreases |g|
  {
    if p > 0 {
      assert g[..p] == [g[0]] + g[1..][..p - 1];
      MembersList(g[1..], g[0], p - 1, ch);
      CoversCons(Range(g[0], g[0]), Members(g[1..], g[0]), ch);
    }
  }

  /** Where the members of a class start. */
  function Start(g: string): (s: nat)
    ensures s <= 1 && s <= |g|
  {
    if At(g, 0) == '^' then 1 else 0
  }

  /** The first `]` that is not the first member. */
  predicate Closing(g: string, p: nat) {
    Start(g) < p < |g| && g[p] == ']' && ']' !in g[Start(g) + 1..p]
  }

  /** Members that start at `from` end at a closing bracket, or never. */
  lemma MembersClose(g: string, from: nat) returns (p: nat)
    requires from <= |g|
    ensures var c := Members(g[from..], '\0');
            if c.Class? then from <= p < |g| && g[p] == ']' && ']' !in g[from..p] && c.rest == g[p + 1..]
            else '\0' in g || ']' !in g[from..]
  {
    var h := g[from..];
    var q := MembersEnd(h, '\0');
    p := from + q;
    assert h[..q] == g[from..p];
    if Members(h, '\0').Class? {
      assert h[q + 1..] == g[p + 1..];
    } else {
      assert '\0' in h ==> '\0' in g;
    }
  }

  /** A class ends at the first `]` that is not its first member, and the pattern goes on
      after it. */
  lemma ClassEnds(g: string) returns (p: nat)
    ensures var c := ParseClass(g);
            if c.Class? then Closing(g, p) && c.rest == g[p + 1..]
            else '\0' in g || forall q :: 0 <= q < |g| ==> !Closing(g, q)
  {
    var s := Start(g);
    var from := if At(g[s..], 0) == ']' then s + 1 else s;
    assert from == s + 1 ==> g[s..][1..] == g[from..];
    p := MembersClose(g, from);
    if ParseClass(g).Class? {
      NotBefore(g, s, from, p);
    } else if '\0' !in g {
      forall q | 0 <= q < |g| ensures !Closing(g, q) {
        assert q >= from ==> g[from..][q - from] == g[q];
      }
    }
  }

  lemma NotBefore(g: string, s: nat, from: nat, p: nat)
    requires s <= from <= s + 1 && from <= p < |g| && ']' !in g[from..p] && g[p] == ']'
    requires from == s ==> g[s] != ']'
    ensures s < p && ']' !in g[s + 1..p]
  {
    assert from == s ==> g[from..p] == [g[s]] + g[s + 1..p];
  }

  /** Without a `-` it accepts exactly the characters listed before that `]`, or with `^`
      exactly the others. */
  lemma ClassIsItsMembers(g: string, p: nat, ch: char)
    requires ParseClass(g).Class? && Closing(g, p) && '-' !in g[Start(g)..p]
    ensures Accepts(ParseClass(g), ch) <==> (ch in g[Start(g)..p]) != (Start(g) == 1)
  {
    var s := Start(g);
    var h := g[s..];
    assert g[s..p] == [g[s]] + g[s + 1..p];
    if h[0] == ']' {
      assert h[1..][..p - s - 1] == g[s + 1..p];
      MembersList(h[1..], '\0', p - s - 1, ch);
      CoversCons(Range(']', ']'), Members(h[1..], '\0'), ch);
    } else {
      assert h[..p - s] == g[s..p];
      MembersList(h, '\0', p - s, ch);
    }
  }

  // ---------- a class as it is written ----------

  /** What is written between the brackets: single characters, and spans like `a-z`. */
  datatype Item = One(c: char) | Span(lo: char, hi: char)

  function ItemText(item: Item): string {
    match item
    case One(c) => [c]
    case Span(lo, hi) => [lo, '-', hi]
  }

  function ItemsText(items: seq<Item>): string {
    if items == [] then "" else ItemText(items[0]) + ItemsText(items[1..])
  }

  /** A `-` stands for itself at the start, behind a span, and at the end; nothing is `]`. */
  predicate WellWritten(items: seq<Item>, prior: char) {
    items == [] ||
    match items[0]
    case One(c) =>
      && c !in {'\0', ']'}
      && (c == '-' ==> prior == '\0' || |items| == 1)
      && WellWritten(items[1..], c)
    case Span(lo, hi) =>
      && lo !in {'\0', ']'} && hi != ']'
      && (lo == '-' ==> prior == '\0')
      && WellWritten(items[1..], '\0')
  }

  /** A span stands for the characters from its first to its last one; the first one belongs
      to it even if the last one is smaller. */
  predicate ItemCovers(item: Item, ch: char) {
    match item
    case One(c) => ch == c
    case Span(lo, hi) => ch == lo || lo <= ch <= hi
  }

  predicate SomeCovers(items: seq<Item>, ch: char) {
    items != [] && (ItemCovers(items[0], ch) || SomeCovers(items[1..], ch))
  }

  lemma ItemsTextFirst(items: seq<Item>, tail: string)
    requires items != []
    ensures ItemsText(items) + tail == ItemText(items[0]) + (ItemsText(items[1..]) + tail)
  {
  }

  lemma {:induction false} ItemsAreMembers(items: seq<Item>, prior: char, rest: string, ch: char)
    requires WellWritten(items, prior)
    ensures var c := Members(ItemsText(items) + ("]" + rest), prior);
            c.Class? && c.rest == rest && (Covers(c.ranges, ch) <==> SomeCovers(items, ch))
  {
    var g := ItemsText(items) + ("]" + rest);
    if items == [] {
      assert g == "]" + rest && g[1..] == rest;
    } else {
      var tail := ItemsText(items[1..]) + ("]" + rest);
      ItemsTextFirst(items, "]" + rest);
      match items[0]
      case One(c) =>
        assert g[1..] == tail;
        ItemsAreMembers(items[1..], c, rest, ch);
        CoversCons(Range(c, c), Members(tail, c), ch);
        assert c == '-' && prior != '\0' ==> tail == "]" + rest;
      case Span(lo, hi) =>
        SpanIsMember(g, lo, hi, tail, prior);
        ItemsAreMembers(items[1..], '\0', rest, ch);
        CoversCons(Range(lo, hi), Members(tail, '\0'), ch);
        CoversCons(Range(lo, lo), Cons(Range(lo, hi), Members(tail, '\0')), ch);
    }
  }

  lemma SpanIsMember(g: string, lo: char, hi: char, tail: string, prior: char)
    requires g == [lo, '-', hi] + tail && lo !in {'\0', ']'} && hi != ']' && (lo == '-' ==> prior == '\0')
    ensures Members(g, prior) == Cons(Range(lo, lo), Cons(Range(lo, hi), Members(tail, '\0')))
  {
    var h := g[1..];
    assert h == ['-', hi] + tail && h[2..] == tail;
  }

  /** A class accepts exactly what its items stand for, or with a leading `^` exactly the
      other characters, and the pattern goes on behind its bracket. */
  lemma ClassIsItsItems(items: seq<Item>, invert: bool, rest: string, ch: char)
    requires items != [] && WellWritten(items, '\0') && (!invert ==> ItemText(items[0])[0] != '^')
    ensures var c := ParseClass((if invert then "^" else "") + (ItemsText(items) + ("]" + rest)));
            c.Class? && c.rest == rest && (Accepts(c, ch) <==> SomeCovers(items, ch) != invert)
  {
    var h := ItemsText(items) + ("]" + rest);
    var g := (if invert then "^" else "") + h;
    ItemsTextFirst(items, "]" + rest);
    ItemsAreMembers(items, '\0', rest, ch);
    assert h[0] == ItemText(items[0])[0];
    assert invert ==> g[1..] == h;
    assert !invert ==> g == h;
  }

  /** So `[a-b]` accepts exactly the characters from a to b. */
  lemma SpanAccepts(lo: char, hi: char, rest: string, ch: char)
    requires lo !in {'\0', ']', '^'} && hi != ']' && lo <= hi
    ensures var c := ParseClass([lo, '-', hi] + ("]" + rest));
            c.Class? && c.rest == rest && (Accepts(c, ch) <==> lo <= ch <= hi)
  {
    var items := [Span(lo, hi)];
    assert items[1..] == [];
    assert ItemsText(items) == [lo, '-', hi] + "";
    assert [lo, '-', hi] + "" == [lo, '-', hi];
    ClassIsItsItems(items, false, rest, ch);
    var h := ItemsText(items) + ("]" + rest);
    assert "" + h == h;
  }

  // ---------- numbers ----------

  function Digits(z: string): (n: nat)
    ensures n <= |z| && (forall i :: 0 <= i < n ==> IsDigit(z[i])) && (n < |z| ==> !IsDigit(z[n]))
  {
    if z == [] || !IsDigit(z[0]) then 0 else 1 + Digits(z[1..])
  }

  predicate Signed(z: string) {
    |z| > 1 && (z[0] == '-' || z[0] == '+') && IsDigit(z[1])
  }

  /** The length of the number that `z` starts with, all of its digits included; 0 if none. */
  function Number(z: string): (n: nat)
    ensures n <= |z|
  {
    if Signed(z) then 1 + Digits(z[1..]) else Digits(z)
  }

  lemma {:induction false} AllDigits(digits: string, rest: string)
    requires (forall i :: 0 <= i < |digits| ==> IsDigit(digits[i])) && (rest == "" || !IsDigit(rest[0]))
    ensures Digits(digits + rest) == |digits|
  {
    if digits == "" {
      assert digits + rest == rest;
    } else {
      assert (digits + rest)[1..] == digits[1..] + rest;
      AllDigits(digits[1..], rest);
    }
  }

  /** A number is an optional sign and all digits behind it. */
  lemma NumberIs(sign: string, digits: string, rest: string)
    requires sign in {"", "+", "-"} && digits != "" && forall i :: 0 <= i < |digits| ==> IsDigit(digits[i])
    requires rest == "" || !IsDigit(rest[0])
    ensures Number(sign + (digits + rest)) == |sign| + |digits|
  {
    AllDigits(digits, rest);
    var z := sign + (digits + rest);
    assert sign == "" ==> z == digits + rest;
    assert sign != "" ==> z[1..] == digits + rest;
    assert z[|sign|] == digits[0];
  }

  /** Where neither a digit nor a sign and a digit stands, there is no number. */
  lemma NoNumber(z: string)
    ensures Number(z) == 0 <==>
            z == "" || (!IsDigit(z[0]) && (z[0] !in "+-" || |z| == 1 || !IsDigit(z[1])))
  {
    assert z != "" ==> (z[0] in "+-" <==> z[0] == '+' || z[0] == '-') by {
      assert "+-" == ['+', '-'];
    }
  }

  // ---------- what a pattern means ----------

  /** The intended meaning: `*` stands for any text whatever follows it. */
  ghost predicate Matches(g: string, z: string)
    decreases |g|
  {
    if AtEnd(g) then z == []
    else match g[0]
      case '*' => exists k :: 0 <= k <= |z| && Matches(g[1..], z[k..])
      case '?' => z != [] && Matches(g[1..], z[1..])
      case '[' =>
        var cls := ParseClass(g[1..]);
        z != [] && Accepts(cls, z[0]) && Matches(cls.rest, z[1..])
      case '#' => Number(z) > 0 && Matches(g[1..], z[Number(z)..])
      case c => z != [] && z[0] == c && Matches(g[1..], z[1..])
  }

  /** A run of `*` and `?`: how many `?` it has and what follows it. */
  function Wild(g: string): (n: nat) {
    if At(g, 0) == '*' then Wild(g[1..])
    else if At(g, 0) == '?' then 1 + Wild(g[1..])
    else 0
  }

  function AfterRun(g: string): (rest: string)
    ensures |rest| <= |g|
    ensures At(rest, 0) != '*' && At(rest, 0) != '?'
  {
    if At(g, 0) == '*' || At(g, 0) == '?' then AfterRun(g[1..]) else g
  }

  /** What the code decides for every pattern. It differs from `Matches` after a run that
      has a star: there `#` is compared as a plain character, and `[` looks for a place
      where the text after the bracket does not match. */
  ghost predicate Decides(g: string, z: string)
    decreases |g|
  {
    if AtEnd(g) then z == []
    else match g[0]
      case '*' => Wild(g[1..]) <= |z| && DecidesAfterRun(AfterRun(g[1..]), z[Wild(g[1..])..])
      case '?' => z != [] && Decides(g[1..], z[1..])
      case '[' =>
        var cls := ParseClass(g[1..]);
        z != [] && Accepts(cls, z[0]) && Decides(cls.rest, z[1..])
      case '#' => Number(z) > 0 && Decides(g[1..], z[Number(z)..])
      case c => z != [] && z[0] == c && Decides(g[1..], z[1..])
  }

  ghost predicate DecidesAfterRun(g: string, z: string)
    decreases |g|
  {
    if AtEnd(g) then true
    else if g[0] == '[' then exists k :: 0 <= k < |z| && !Decides(g[1..], z[k..])
    else exists k :: 0 <= k < |z| && z[k] == g[0] && Decides(g[1..], z[k + 1..])
  }

  /** No `[` and no `#` directly after a run of wildcards that starts with a star. */
  predicate StarSafe(g: string)
    decreases |g|
  {
    if AtEnd(g) then true
    else match g[0]
      case '*' => At(AfterRun(g[1..]), 0) !in {'[', '#'} && StarSafe(g[1..])
      case '[' => var cls := ParseClass(g[1..]); cls.Class? ==> StarSafe(cls.rest)
      case _ => StarSafe(g[1..])
  }

  // ---------- the code decides what patterns mean ----------

  ghost predicate MatchesFrom(g: string, z: string, from: nat) {
    exists k :: from <= k <= |z| && Matches(g, z[k..])
  }

  lemma Shift(g: string, z: string, d: nat, from: nat)
    requires d <= |z|
    ensures MatchesFrom(g, z, d + from) <==> MatchesFrom(g, z[d..], from)
  {
    var y := z[d..];
    if k :| d + from <= k <= |z| && Matches(g, z[k..]) {
      assert y[k - d..] == z[k..];
    }
    if k :| from <= k <= |y| && Matches(g, y[k..]) {
      assert y[k..] == z[k + d..];
    }
  }

  lemma StarMatches(g: string, z: string)
    requires At(g, 0) == '*'
    ensures MatchesFrom(g, z, 0) <==> MatchesFrom(g[1..], z, 0)
  {
    if k :| 0 <= k <= |z| && Matches(g, z[k..]) {
      var y := z[k..];
      assert MatchesFrom(g[1..], y, 0);
      Shift(g[1..], z, k, 0);
    }
    if k :| 0 <= k <= |z| && Matches(g[1..], z[k..]) {
      var y := z[k..];
      assert y[0..] == y;
      assert Matches(g, z[k..]);
    }
  }

  lemma AnyMatches(g: string, z: string)
    requires At(g, 0) == '?' && z != []
    ensures MatchesFrom(g, z, 0) <==> MatchesFrom(g[1..], z[1..], 0)
  {
    var y := z[1..];
    if k :| 0 <= k <= |z| && Matches(g, z[k..]) {
      assert z[k..][1..] == y[k..];
    }
    if k :| 0 <= k <= |y| && Matches(g[1..], y[k..]) {
      assert z[k..][1..] == y[k..];
      assert Matches(g, z[k..]);
    }
  }

  /** A run of wildcards after a star stands for any text of at least its number of `?`. */
  lemma {:induction false} RunMatches(g: string, z: string)
    ensures MatchesFrom(g, z, 0) <==> MatchesFrom(AfterRun(g), z, Wild(g))
    decreases |g|
  {
    if At(g, 0) == '*' {
      StarMatches(g, z);
      RunMatches(g[1..], z);
    } else if At(g, 0) == '?' && z != [] {
      AnyMatches(g, z);
      RunMatches(g[1..], z[1..]);
      Shift(AfterRun(g), z, 1, Wild(g[1..]));
    }
  }

  lemma {:induction false} SafeAfterRun(g: string)
    requires StarSafe(g)
    ensures StarSafe(AfterRun(g))
    decreases |g|
  {
    if At(g, 0) == '*' || At(g, 0) == '?' {
      SafeAfterRun(g[1..]);
    }
  }

  /** On safe patterns the code decides exactly the intended meaning, for every subject. */
  lemma {:induction false} SafePatternsMeanWhatTheySay(g: string, z: string)
    requires StarSafe(g)
    ensures Decides(g, z) <==> Matches(g, z)
    decreases |g|
  {
    if !AtEnd(g) {
      match g[0]
      case '*' => SafeStar(g, z);
      case '?' => if z != [] { SafePatternsMeanWhatTheySay(g[1..], z[1..]); }
      case '[' =>
        var cls := ParseClass(g[1..]);
        if cls.Class? && z != [] {
          SafePatternsMeanWhatTheySay(cls.rest, z[1..]);
        }
      case '#' => SafePatternsMeanWhatTheySay(g[1..], z[Number(z)..]);
      case _ => if z != [] { SafePatternsMeanWhatTheySay(g[1..], z[1..]); }
    }
  }

  lemma {:induction false} SafeAfter(rest: string, y: string)
    requires StarSafe(rest) && At(rest, 0) !in {'*', '?', '[', '#'}
    ensures DecidesAfterRun(rest, y) <==> MatchesFrom(rest, y, 0)
    decreases |rest|, 0
  {
    if AtEnd(rest) {
      assert Matches(rest, y[|y|..]);
    } else {
      if k :| 0 <= k < |y| && y[k] == rest[0] && Decides(rest[1..], y[k + 1..]) {
        SafePatternsMeanWhatTheySay(rest[1..], y[k + 1..]);
        assert y[k..][1..] == y[k + 1..];
        assert Matches(rest, y[k..]);
      }
      if k :| 0 <= k <= |y| && Matches(rest, y[k..]) {
        assert y[k..][1..] == y[k + 1..];
        SafePatternsMeanWhatTheySay(rest[1..], y[k + 1..]);
      }
    }
  }

  lemma {:induction false} SafeStar(g: string, z: string)
    requires StarSafe(g) && At(g, 0) == '*'
    ensures Decides(g, z) <==> Matches(g, z)
    decreases |g|, 0
  {
    var n, rest := Wild(g[1..]), AfterRun(g[1..]);
    assert Matches(g, z) <==> MatchesFrom(g[1..], z, 0);
    RunMatches(g[1..], z);
    SafeAfterRun(g[1..]);
    if n <= |z| {
      Shift(rest, z, n, 0);
      SafeAfter(rest, z[n..]);
    }
  }

  // ---------- the code ----------

  /** The number at `z[zi..]`; -1 if there is none. */
  method SkipNumber(z: string, zi: nat) returns (next: int)
    requires zi <= |z|
    ensures next == if Number(z[zi..]) == 0 then -1 else zi + Number(z[zi..])
  {
    var i := zi;
    ghost var y := z[zi..];
    if i < |z| && (z[i] == '-' || z[i] == '+') && i + 1 < |z| && IsDigit(z[i + 1]) {
      i := i + 1;
      assert y[1..] == z[i..];
    }
    if i >= |z| || !IsDigit(z[i]) {
      return -1;
    }
    next := SkipDigits(z, i);
  }

  method SkipDigits(z: string, from: nat) returns (next: nat)
    requires from < |z| && IsDigit(z[from])
    ensures next == from + Digits(z[from..])
  {
    next := from + 1;
    assert z[from..][1..] == z[next..];
    while next < |z| && IsDigit(z[next])
      invariant from < next <= |z|
      invariant Digits(z[from..]) == next - from + Digits(z[next..])
    {
      assert z[next..][1..] == z[next + 1..];
      next := next + 1;
    }
  }

  /** Reads members up to the closing bracket: whether there is one, whether some member
      covers the character (or `first` already did), and where the pattern goes on. */
  method ScanMembers(g: string, from: nat, ch: char, first: bool) returns (closed: bool, seen: bool, gi: nat)
    requires from <= |g|
    ensures closed <==> Members(g[from..], '\0').Class?
    ensures closed ==> (seen <==> first || Covers(Members(g[from..], '\0').ranges, ch))
    ensures closed ==> gi <= |g| && g[gi..] == Members(g[from..], '\0').rest
  {
    var prior := '\0';
    seen := first;
    gi := from;
    ghost var all := Members(g[from..], '\0');
    ghost var left := all;
    var c := At(g, gi);
    while c != '\0' && c != ']'
      invariant gi <= |g| && c == At(g, gi)
      invariant left == Members(g[gi..], prior)
      invariant Agrees(first, all, seen, left, ch)
      decreases |g| - gi
    {
      ghost var h := g[gi..];
      assert At(h, 0) == c && At(h, 1) == At(g, gi + 1);
      gi := gi + 1;
      assert h[1..] == g[gi..];
      if c == '-' && gi < |g| && g[gi] != ']' && prior != '\0' {
        assert h[2..] == g[gi + 1..];
        AgreesCons(first, all, seen, Range(prior, g[gi]), Members(g[gi + 1..], '\0'), ch);
        if prior <= ch <= g[gi] {
          seen := true;
        }
        gi := gi + 1;
        prior := '\0';
      } else {
        AgreesCons(first, all, seen, Range(c, c), Members(g[gi..], c), ch);
        if ch == c {
          seen := true;
        }
        prior := c;
      }
      left := Members(g[gi..], prior);
      c := At(g, gi);
    }
    assert At(g[gi..], 0) == c;
    if c == '\0' {
      return false, seen, gi;
    }
    assert g[gi..][1..] == g[gi + 1..];
    return true, seen, gi + 1;
  }

  /** Reads the class that starts at `g[from..]`: whether it accepts the character and where
      the pattern goes on. */
  method MatchClass(g: string, from: nat, ch: char) returns (accepted: bool, gi: nat)
    requires from <= |g|
    ensures accepted == Accepts(ParseClass(g[from..]), ch)
    ensures accepted ==> gi <= |g| && g[gi..] == ParseClass(g[from..]).rest
  {
    gi := from;
    var seen, invert, closed := false, false, false;
    if At(g, gi) == '^' {
      invert := true;
      gi := gi + 1;
    }
    ghost var h := g[gi..];
    assert h == if At(g[from..], 0) == '^' then g[from..][1..] else g[from..];
    assert At(h, 0) == At(g, gi);
    if At(g, gi) == ']' {
      seen := ch == ']';
      gi := gi + 1;
      assert h[1..] == g[gi..];
      CoversCons(Range(']', ']'), Members(h[1..], '\0'), ch);
    }
    closed, seen, gi := ScanMembers(g, gi, ch, seen);
    return closed && seen != invert, gi;
  }

  /** Half way through a class, what was seen and what is to come decide like the whole. */
  ghost predicate Agrees(first: bool, all: Class, seen: bool, rest: Class, ch: char) {
    && (rest.Class? <==> all.Class?)
    && (all.Class? ==>
          rest.rest == all.rest && ((first || Covers(all.ranges, ch)) <==> (seen || Covers(rest.ranges, ch))))
  }

  lemma AgreesCons(first: bool, all: Class, seen: bool, r: Range, rest: Class, ch: char)
    requires Agrees(first, all, seen, Cons(r, rest), ch)
    ensures Agrees(first, all, seen || r.lo <= ch <= r.hi, rest, ch)
  {
    CoversCons(r, rest, ch);
  }

  /** Steps over a run of wildcards, and in the subject over one character for each `?`. */
  method SkipRun(g: string, from: nat, z: string, at: nat) returns (ok: bool, gi: nat, zi: nat)
    requires from <= |g| && at <= |z|
    ensures ok <==> Wild(g[from..]) <= |z| - at
    ensures ok ==> gi <= |g| && g[gi..] == AfterRun(g[from..]) && zi == at + Wild(g[from..])
  {
    gi, zi := from, at;
    while true
      invariant gi <= |g| && at <= zi <= |z|
      invariant zi - at + Wild(g[gi..]) == Wild(g[from..]) && AfterRun(g[gi..]) == AfterRun(g[from..])
      decreases |g| - gi
    {
      var c := At(g, gi);
      ghost var h := g[gi..];
      assert At(h, 0) == c;
      if c == '*' {
        gi := gi + 1;
        assert h[1..] == g[gi..];
      } else if c == '?' {
        gi := gi + 1;
        assert h[1..] == g[gi..];
        if zi >= |z| {
          return false, gi, zi;
        }
        zi := zi + 1;
      } else {
        return true, gi, zi;
      }
    }
  }

  method FindMismatch(g: string, z: string) returns (found: bool)
    ensures found <==> exists k :: 0 <= k < |z| && !Decides(g, z[k..])
    decreases |g|, 1
  {
    var zi := 0;
    while zi < |z|
      invariant zi <= |z|
      invariant forall k :: 0 <= k < zi ==> Decides(g, z[k..])
    {
      var more := Inner(g, z[zi..]);
      if !more {
        return true;
      }
      zi := zi + 1;
    }
    return false;
  }

  method FindMatch(c: char, g: string, z: string) returns (found: bool)
    ensures found <==> exists k :: 0 <= k < |z| && z[k] == c && Decides(g, z[k + 1..])
    decreases |g|, 1
  {
    var zi := 0;
    while zi < |z|
      invariant zi <= |z|
      invariant forall k :: 0 <= k < zi ==> !(z[k] == c && Decides(g, z[k + 1..]))
    {
      var c2 := z[zi];
      zi := zi + 1;
      if c2 == c {
        var rest := Inner(g, z[zi..]);
        if rest {
          return true;
        }
      }
    }
    return false;
  }

  /** The matching after a star. */
  method MatchStar(g: string, from: nat, z: string, at: nat) returns (matched: bool)
    requires from <= |g| && at <= |z|
    ensures matched <==>
            Wild(g[from..]) <= |z[at..]| && DecidesAfterRun(AfterRun(g[from..]), z[at..][Wild(g[from..])..])
    decreases |g| - from, 2
  {
    var ok, gi, zi := SkipRun(g, from, z, at);
    if !ok {
      return false;
    }
    assert z[at..][Wild(g[from..])..] == z[zi..];
    var c := At(g, gi);
    if c == '\0' {
      return true;
    }
    assert g[gi..][1..] == g[gi + 1..];
    if c == '[' {
      matched := FindMismatch(g[gi + 1..], z[zi..]);
    } else {
      matched := FindMatch(c, g[gi + 1..], z[zi..]);
    }
  }

  method Inner(g: string, z: string) returns (matched: bool)
    ensures matched <==> Decides(g, z)
    decreases |g|, 0
  {
    var gi, zi := 0, 0;
    while true
      invariant gi <= |g| && zi <= |z|
      invariant Decides(g, z) <==> Decides(g[gi..], z[zi..])
      decreases |g| - gi
    {
      var c := At(g, gi);
      ghost var h, y := g[gi..], z[zi..];
      assert At(h, 0) == c;
      gi := gi + 1;
      if c == '\0' {
        return zi == |z|;
      }
      assert h[1..] == g[gi..];
      if c == '*' {
        matched := MatchStar(g, gi, z, zi);
        return;
      } else if c == '?' {
        if zi >= |z| {
          return false;
        }
        zi := zi + 1;
        assert y[1..] == z[zi..];
      } else if c == '[' {
        if zi >= |z| {
          return false;
        }
        var ch := z[zi];
        zi := zi + 1;
        assert y[1..] == z[zi..];
        var accepted, next := MatchClass(g, gi, ch);
        if !accepted {
          return false;
        }
        gi := next;
      } else if c == '#' {
        var next := SkipNumber(z, zi);
        if next < 0 {
          return false;
        }
        assert y[Number(y)..] == z[next..];
        zi := next;
      } else {
        if zi >= |z| || z[zi] != c {
          return false;
        }
        zi := zi + 1;
        assert y[1..] == z[zi..];
      }
    }
  }

  /** On every pattern and subject the matcher stops with the described decision; on safe
      patterns that is the intended meaning. */
  method StrGlob(glob: string, s: string) returns (matched: bool)
    ensures matched <==> Decides(glob, s)
    ensures StarSafe(glob) ==> (matched <==> Matches(glob, s))
  {
    matched := Inner(glob, s);
    if StarSafe(glob) {
      SafePatternsMeanWhatTheySay(glob, s);
    }
  }

  lemma CoversCons(r: Range, c: Class, ch: char)
    ensures c.Class? ==> (Covers(Cons(r, c).ranges, ch) <==> (r.lo <= ch <= r.hi || Covers(c.ranges, ch)))
  {
    if c.Class? {
      var all := [r] + c.ranges;
      if i :| 0 <= i < |c.ranges| && c.ranges[i].lo <= ch <= c.ranges[i].hi {
        assert all[i + 1] == c.ranges[i];
      }
      assert all[0] == r;
    }
  }
}
