/** Patterns on which the glob matcher and the intended meaning part: a `#` or a `[` right
    after a run of wildcards with a star. */
module GlobUnsafe {
  import opened Common
  import opened Glob

  ghost predicate AgreesEverywhere(g: string) {
    forall z :: Agreement(g, z)
  }

  ghost predicate Agreement(g: string, z: string) {
    Decides(g, z) <==> Matches(g, z)
  }

  // ---------- a number after a star ----------

  /** No `[` directly after a run of wildcards that starts with a star. */
  predicate BracketSafe(g: string)
    decreases |g|
  {
    if AtEnd(g) then true
    else match g[0]
      case '*' => At(AfterRun(g[1..]), 0) != '[' && BracketSafe(g[1..])
      case '[' => var cls := ParseClass(g[1..]); cls.Class? ==> BracketSafe(cls.rest)
      case _ => BracketSafe(g[1..])
  }

  /** The pattern can only be met by a text that starts with a digit. */
  ghost predicate WantsDigit(g: string) {
    && !AtEnd(g)
    && (IsDigit(g[0]) || (g[0] == '[' && forall c :: Accepts(ParseClass(g[1..]), c) ==> IsDigit(c)))
  }

  /** Every class is closed, and no `#` is followed by what only a digit meets: the digits
      of a number are never split. */
  ghost predicate Live(g: string)
    decreases |g|
  {
    if AtEnd(g) then true
    else match g[0]
      case '*' => var r := AfterRun(g[1..]); AtEnd(r) || Live(r[1..])
      case '[' => var cls := ParseClass(g[1..]); cls.Class? && Live(cls.rest)
      case '#' => Live(g[1..]) && !WantsDigit(g[1..])
      case _ => Live(g[1..])
  }

  predicate StartsWithDigit(z: string) {
    z != [] && IsDigit(z[0])
  }

  lemma {:induction false} BracketSafeRun(g: string)
    requires BracketSafe(g)
    ensures BracketSafe(AfterRun(g))
    ensures At(g, 0) == '*' ==> At(AfterRun(g), 0) != '['
    decreases |g|
  {
    if At(g, 0) == '*' || At(g, 0) == '?' {
      BracketSafeRun(g[1..]);
    }
  }

  lemma {:induction false} StarSafeRun(g: string)
    requires StarSafe(AfterRun(g)) && At(AfterRun(g), 0) !in {'[', '#'}
    ensures StarSafe(g)
    decreases |g|
  {
    if At(g, 0) == '*' || At(g, 0) == '?' {
      StarSafeRun(g[1..]);
    }
  }

  /** Its length, digits counted twice. */
  function Weight(z: string): nat {
    if z == [] then 0 else (if IsDigit(z[0]) then 2 else 1) + Weight(z[1..])
  }

  lemma {:induction false} WeightAppend(a: string, b: string)
    ensures Weight(a + b) == Weight(a) + Weight(b)
  {
    if a == [] {
      assert a + b == b;
    } else {
      assert (a + b)[1..] == a[1..] + b;
      WeightAppend(a[1..], b);
    }
  }

  lemma WeightSplit(z: string, k: nat)
    requires k <= |z|
    ensures Weight(z) == Weight(z[..k]) + Weight(z[k..])
  {
    WeightAppend(z[..k], z[k..]);
    assert z[..k] + z[k..] == z;
  }

  lemma {:induction false} DigitsBefore(a: string, b: string)
    requires Digits(a) == |a| && !StartsWithDigit(b)
    ensures Digits(a + b) == |a|
  {
    if a == [] {
      assert a + b == b;
    } else {
      assert (a + b)[1..] == a[1..] + b;
      DigitsBefore(a[1..], b);
    }
  }

  lemma {:induction false} DigitsCut(z: string)
    ensures Digits(z[..Digits(z)]) == Digits(z)
  {
    if Digits(z) > 0 {
      DigitsCut(z[1..]);
      assert z[..Digits(z)][1..] == z[1..][..Digits(z[1..])];
    }
  }

  lemma NumberEnds(z: string)
    ensures !(Number(z) > 0 && StartsWithDigit(z[Number(z)..]))
  {
    if Signed(z) {
      assert z[Number(z)..] == z[1..][Digits(z[1..])..];
    }
  }

  /** What follows a number may be replaced by anything that does not start with a digit. */
  lemma NumberBefore(z: string, y: string)
    requires Number(z) > 0 && !StartsWithDigit(y)
    ensures Number(z[..Number(z)] + y) == Number(z)
  {
    var n := Number(z);
    var x := z[..n] + y;
    if Signed(z) {
      var d := Digits(z[1..]);
      DigitsCut(z[1..]);
      DigitsBefore(z[1..][..d], y);
      assert x[1..] == z[1..][..d] + y;
    } else {
      DigitsCut(z);
      DigitsBefore(z[..n], y);
      assert x[0] == z[0] && IsDigit(z[0]);
    }
  }

  lemma NumberWeighs(z: string)
    requires Number(z) > 0
    ensures Weight(z) >= 2 + Weight(z[Number(z)..])
  {
    var n := Number(z);
    WeightSplit(z, n);
    var d := if Signed(z) then 1 else 0;
    WeightSplit(z[..n], d);
    assert Signed(z) ==> Digits(z[1..]) > 0;
    assert IsDigit(z[..n][d..][0]);
  }

  lemma StarMeaning(g: string, z: string) returns (k: nat)
    requires At(g, 0) == '*' && Matches(g, z)
    ensures Wild(g[1..]) <= k <= |z| && Matches(AfterRun(g[1..]), z[k..])
  {
    RunMatches(g[1..], z);
    assert MatchesFrom(g[1..], z, 0);
    k :| Wild(g[1..]) <= k <= |z| && Matches(AfterRun(g[1..]), z[k..]);
  }

  /** After a star the code takes `x` up to the character it looks for, whatever `x` is. */
  lemma StarDecides(g: string, x: string, y: string)
    requires At(g, 0) == '*' && Wild(g[1..]) <= |x| && At(AfterRun(g[1..]), 0) !in {'\0', '['}
    requires Decides(AfterRun(g[1..])[1..], y)
    ensures Decides(g, x + [AfterRun(g[1..])[0]] + y)
  {
    var n, r := Wild(g[1..]), AfterRun(g[1..]);
    var z := x + [r[0]] + y;
    var w, k := z[n..], |x| - n;
    assert w[k] == r[0] && w[k + 1..] == y;
    assert DecidesAfterRun(r, w);
  }

  /** For every text that the pattern means there is one that the code accepts and that
      weighs no more, and less if a number follows a star. */
  lemma {:induction false} Cheaper(g: string, z: string) returns (c: string)
    requires BracketSafe(g) && Matches(g, z)
    ensures Decides(g, c) && Weight(c) <= Weight(z)
    ensures !StarSafe(g) ==> Weight(c) < Weight(z)
    ensures StartsWithDigit(c) ==> StartsWithDigit(z)
    decreases |g|
  {
    if AtEnd(g) {
      c := [];
    } else if g[0] == '*' {
      c := CheaperStar(g, z);
    } else if g[0] == '#' {
      var n := Number(z);
      var y := Cheaper(g[1..], z[n..]);
      c := CheaperNumber(z, y);
      assert Number(c) == n && c[n..] == y;
    } else {
      var rest := if g[0] == '[' then ParseClass(g[1..]).rest else g[1..];
      var y := Cheaper(rest, z[1..]);
      c := [z[0]] + y;
      assert c[1..] == y;
    }
  }

  lemma CheaperNumber(z: string, y: string) returns (c: string)
    requires Number(z) > 0 && (StartsWithDigit(y) ==> StartsWithDigit(z[Number(z)..]))
    ensures Number(c) == Number(z) && c[Number(z)..] == y
    ensures Weight(c) - Weight(y) == Weight(z) - Weight(z[Number(z)..])
    ensures StartsWithDigit(c) <==> StartsWithDigit(z)
  {
    var n := Number(z);
    NumberEnds(z);
    NumberBefore(z, y);
    c := z[..n] + y;
    WeightSplit(z, n);
    WeightAppend(z[..n], y);
    assert c[0] == z[0];
  }

  lemma {:induction false} CheaperStar(g: string, z: string) returns (c: string)
    requires At(g, 0) == '*' && BracketSafe(g) && Matches(g, z)
    ensures Decides(g, c) && Weight(c) <= Weight(z)
    ensures !StarSafe(g) ==> Weight(c) < Weight(z)
    ensures StartsWithDigit(c) ==> StartsWithDigit(z)
    decreases |g|, 0
  {
    var r := AfterRun(g[1..]);
    var k := StarMeaning(g, z);
    BracketSafeRun(g[1..]);
    if AtEnd(r) {
      c := z;
      StarSafeRun(g[1..]);
    } else {
      var m := if r[0] == '#' then Number(z[k..]) else 1;
      assert z[k..][m..] == z[k + m..];
      var y := Cheaper(r[1..], z[k + m..]);
      c := z[..k] + [r[0]] + y;
      StarDecides(g, z[..k], y);
      CheaperPart(z, k, m, r[0], y);
      if r[0] == '#' {
        NumberWeighs(z[k..]);
      } else if StarSafe(r[1..]) {
        StarSafeRun(g[1..]);
      }
    }
  }

  lemma CheaperPart(z: string, k: nat, m: nat, ch: char, y: string)
    requires k + m <= |z| && m > 0 && (z[k] == ch || !IsDigit(ch))
    ensures var c := z[..k] + [ch] + y;
            && Weight(c) == Weight(z[..k]) + Weight([ch]) + Weight(y)
            && Weight(z) == Weight(z[..k]) + Weight(z[k..])
            && Weight(z[k..]) == Weight(z[k..][..m]) + Weight(z[k + m..])
            && (z[k] == ch ==> Weight([ch]) <= Weight(z[k..][..m]))
            && (StartsWithDigit(c) ==> StartsWithDigit(z))
  {
    WeightAppend(z[..k] + [ch], y);
    WeightAppend(z[..k], [ch]);
    WeightSplit(z, k);
    WeightSplit(z[k..], m);
    assert z[k..][m..] == z[k + m..];
    assert z[k..][..m][0] == z[k];
  }

  lemma {:induction false} Lightest(g: string, y: string) returns (z: string)
    requires Matches(g, y)
    ensures Matches(g, z) && forall x :: Matches(g, x) ==> Weight(z) <= Weight(x)
    decreases Weight(y)
  {
    if x :| Matches(g, x) && Weight(x) < Weight(y) {
      z := Lightest(g, x);
    } else {
      z := y;
    }
  }

  // ---------- patterns that are met at all ----------

  lemma {:induction false} FirstMember(g: string)
    requires ParseClass(g).Class?
    ensures exists c :: Accepts(ParseClass(g), c)
  {
    var cls := ParseClass(g);
    if cls.invert {
      NulIsNotCovered(g);
      assert Accepts(cls, '\0');
    } else {
      var r := cls.ranges[0];
      assert r.lo <= r.lo <= r.hi;
      assert Accepts(cls, r.lo);
    }
  }

  ghost predicate NoNul(c: Class) {
    c.Class? ==> forall i :: 0 <= i < |c.ranges| ==> c.ranges[i].lo != '\0'
  }

  lemma {:induction false} MembersNoNul(g: string, prior: char)
    ensures NoNul(Members(g, prior))
    decreases |g|
  {
    if !AtEnd(g) && g[0] != ']' {
      if g[0] == '-' && |g| > 1 && g[1] != ']' && prior != '\0' {
        MembersNoNul(g[2..], '\0');
      } else {
        MembersNoNul(g[1..], g[0]);
      }
    }
  }

  lemma NulIsNotCovered(g: string)
    ensures ParseClass(g).Class? ==> !Covers(ParseClass(g).ranges, '\0')
  {
    var h := if At(g, 0) == '^' then g[1..] else g;
    MembersNoNul(h, '\0');
    if h != [] {
      MembersNoNul(h[1..], '\0');
    }
  }

  function Filler(n: nat): (s: string)
    ensures |s| == n && !StartsWithDigit(s)
  {
    seq(n, _ => 'x')
  }

  lemma AMember(g: string) returns (c: char)
    requires ParseClass(g).Class?
    ensures Accepts(ParseClass(g), c)
    ensures !WantsDigit("[" + g) ==> !IsDigit(c)
  {
    FirstMember(g);
    c :| Accepts(ParseClass(g), c);
    assert ("[" + g)[1..] == g;
    if !WantsDigit("[" + g) {
      c :| Accepts(ParseClass(g), c) && !IsDigit(c);
    }
  }

  lemma SignedNumber(y: string)
    requires !StartsWithDigit(y)
    ensures Number("+1" + y) == 2 && ("+1" + y)[2..] == y
  {
    assert Digits("1") == 1 by { assert "1"[1..] == ""; }
    DigitsBefore("1", y);
    assert ("+1" + y)[1..] == "1" + y;
  }

  /** A text that meets a live pattern. */
  lemma {:induction false} Example(g: string) returns (z: string)
    requires BracketSafe(g) && Live(g)
    ensures Decides(g, z) && (!WantsDigit(g) ==> !StartsWithDigit(z))
    decreases |g|
  {
    if AtEnd(g) {
      z := [];
    } else if g[0] == '*' {
      z := StarExample(g);
    } else if g[0] == '#' {
      var y := Example(g[1..]);
      SignedNumber(y);
      z := "+1" + y;
    } else if g[0] == '[' {
      assert "[" + g[1..] == g;
      var c := AMember(g[1..]);
      var y := Example(ParseClass(g[1..]).rest);
      z := [c] + y;
      assert z[1..] == y;
    } else {
      var y := Example(g[1..]);
      z := [if g[0] == '?' then 'x' else g[0]] + y;
      assert z[1..] == y;
    }
  }

  lemma {:induction false} StarExample(g: string) returns (z: string)
    requires At(g, 0) == '*' && BracketSafe(g) && Live(g)
    ensures Decides(g, z) && !StartsWithDigit(z)
    decreases |g|, 0
  {
    var n, r := Wild(g[1..]), AfterRun(g[1..]);
    BracketSafeRun(g[1..]);
    if AtEnd(r) {
      z := Filler(n);
    } else {
      var y := Example(r[1..]);
      StarDecides(g, Filler(n + 1), y);
      z := Filler(n + 1) + [r[0]] + y;
    }
  }

  lemma {:induction false} MetIsLive(g: string, z: string)
    requires BracketSafe(g) && Decides(g, z)
    ensures Live(g) && (WantsDigit(g) ==> StartsWithDigit(z))
    decreases |g|
  {
    if !AtEnd(g) {
      match g[0]
      case '*' =>
        var n, r := Wild(g[1..]), AfterRun(g[1..]);
        BracketSafeRun(g[1..]);
        if !AtEnd(r) {
          var y := z[n..];
          assert DecidesAfterRun(r, y);
          var k :| 0 <= k < |y| && y[k] == r[0] && Decides(r[1..], y[k + 1..]);
          MetIsLive(r[1..], y[k + 1..]);
        }
      case '[' => MetIsLive(ParseClass(g[1..]).rest, z[1..]);
      case '#' =>
        MetIsLive(g[1..], z[Number(z)..]);
        NumberEnds(z);
      case _ => MetIsLive(g[1..], z[1..]);
    }
  }

  ghost predicate AcceptsNothing(g: string) {
    forall z :: !Accepted(g, z)
  }

  ghost predicate Accepted(g: string, z: string) {
    Decides(g, z)
  }

  /** With no class after a star, the code accepts some text exactly if the pattern is
      live. */
  lemma SomethingIsAcceptedIff(g: string)
    requires BracketSafe(g)
    ensures Live(g) <==> !AcceptsNothing(g)
  {
    if Live(g) {
      var z := Example(g);
      assert Accepted(g, z);
    } else {
      forall z | true ensures !Accepted(g, z) {
        if Decides(g, z) {
          MetIsLive(g, z);
        }
      }
    }
  }

  lemma Disagrees(g: string, z: string)
    requires !Agreement(g, z)
    ensures !AgreesEverywhere(g)
  {
  }

  lemma NumberAfterStarDisagrees(g: string)
    requires BracketSafe(g) && !StarSafe(g) && Live(g)
    ensures !AgreesEverywhere(g)
  {
    var e := Example(g);
    if Matches(g, e) {
      var z := Lightest(g, e);
      var c := Cheaper(g, z);
      Disagrees(g, c);
    } else {
      Disagrees(g, e);
    }
  }

  lemma DeadAgrees(g: string, z: string)
    requires BracketSafe(g) && !Live(g)
    ensures !Decides(g, z) && !Matches(g, z)
  {
    if Decides(g, z) {
      MetIsLive(g, z);
    } else if Matches(g, z) {
      var c := Cheaper(g, z);
      MetIsLive(g, c);
    }
  }

  /** With no class after a star, the code agrees with the intended meaning on every text
      exactly if no number follows a star either, or nothing is ever accepted. */
  lemma AgreesIff(g: string)
    requires BracketSafe(g)
    ensures AgreesEverywhere(g) <==> StarSafe(g) || !Live(g)
  {
    if StarSafe(g) {
      forall z | true ensures Agreement(g, z) {
        SafePatternsMeanWhatTheySay(g, z);
      }
    } else if !Live(g) {
      forall z | true ensures Agreement(g, z) {
        DeadAgrees(g, z);
      }
    } else {
      NumberAfterStarDisagrees(g);
    }
  }

  /** A number after a star is not recognised. */
  lemma StarNumberFails()
    ensures Matches("*#", "7") && !Decides("*#", "7")
  {
    assert Digits("7") == 1;
    assert Number("7") == 1;
    assert Matches("#", "7"[0..]);
  }

  // ---------- a class after a star ----------

  /** The pattern starts with a star, and `h` is what follows the `[` right after the run. */
  predicate ClassAfterStar(g: string, h: string) {
    At(g, 0) == '*' && At(AfterRun(g[1..]), 0) == '[' && h == AfterRun(g[1..])[1..]
  }

  lemma CodeSkipsMismatch(g: string, h: string, y: string)
    requires ClassAfterStar(g, h) && y != [] && !Decides(h, y)
    ensures Decides(g, Filler(Wild(g[1..])) + y)
  {
    var n := Wild(g[1..]);
    var w := (Filler(n) + y)[n..];
    assert w == y && w[0..] == y;
    assert DecidesAfterRun(AfterRun(g[1..]), w);
  }

  lemma FirstIsMember(r: string, z: string, k: nat)
    requires At(r, 0) == '[' && k <= |z| && Matches(r, z[k..])
    ensures k < |z| && Accepts(ParseClass(r[1..]), z[k])
  {
  }

  lemma MeaningNeedsMember(g: string, h: string, ch: char)
    requires ClassAfterStar(g, h) && !Accepts(ParseClass(h), ch)
    ensures !Matches(g, Filler(Wild(g[1..])) + [ch])
  {
    var n := Wild(g[1..]);
    var z := Filler(n) + [ch];
    if Matches(g, z) {
      var k := StarMeaning(g, z);
      FirstIsMember(AfterRun(g[1..]), z, k);
    }
  }

  /** A single character on which the code and the meaning part. */
  lemma CharacterDisagrees(g: string, h: string, ch: char)
    requires ClassAfterStar(g, h) && !Decides(h, [ch]) && !Accepts(ParseClass(h), ch)
    ensures !AgreesEverywhere(g)
  {
    CodeSkipsMismatch(g, h, [ch]);
    MeaningNeedsMember(g, h, ch);
    Disagrees(g, Filler(Wild(g[1..])) + [ch]);
  }

  lemma ListedIsCovered(h: string)
    requires At(h, 0) == '^' && ParseClass(h).Class?
    ensures |h| > 1 && !Accepts(ParseClass(h), h[1])
  {
    var r := ParseClass(h).ranges[0];
    assert r.lo <= h[1] <= r.hi;
  }

  lemma OnlyItself(h: string, ch: char)
    requires At(h, 0) !in {'\0', '*', '?', '#', '['} && ch != h[0]
    ensures !Decides(h, [ch])
  {
  }

  /** With a class after the star, and after the `[` a character that is not special, the
      code disagrees with the meaning whatever else the pattern holds. */
  lemma ClassAfterStarDisagrees(g: string, h: string)
    requires ClassAfterStar(g, h) && At(h, 0) !in {'*', '?', '#', '['}
    ensures !AgreesEverywhere(g)
  {
    if AtEnd(h) {
      CharacterDisagrees(g, h, 'x');
    } else if ParseClass(h).Unterminated? {
      var ch := if h[0] == 'x' then 'y' else 'x';
      OnlyItself(h, ch);
      CharacterDisagrees(g, h, ch);
    } else if h[0] == '^' {
      ListedIsCovered(h);
      var ch := h[1];
      if ch == '^' {
        assert !Decides(h[1..], []) && [ch][1..] == [];
      } else {
        OnlyItself(h, ch);
      }
      CharacterDisagrees(g, h, ch);
    } else {
      NulIsNotCovered(h);
      OnlyItself(h, '\0');
      CharacterDisagrees(g, h, '\0');
    }
  }

  /** The `]` at `p` is a plain character of the pattern. */
  predicate PlainBracket(h: string, p: nat) {
    p < |h| && h[p] == ']' && forall i :: 0 <= i < p ==> h[i] != '[' && h[i] != '\0'
  }

  lemma {:induction false} RunKeepsBracket(h: string, p: nat) returns (q: nat)
    requires PlainBracket(h, p)
    ensures PlainBracket(AfterRun(h), q)
    decreases |h|
  {
    if h[0] == '*' || h[0] == '?' {
      q := RunKeepsBracket(h[1..], p - 1);
    } else {
      q := p;
    }
  }

  lemma {:induction false} NeedsBracket(h: string, p: nat, y: string)
    requires PlainBracket(h, p) && Decides(h, y)
    ensures ']' in y
    decreases |h|
  {
    if h[0] == '*' {
      var q := RunKeepsBracket(h[1..], p - 1);
      var r, w := AfterRun(h[1..]), y[Wild(h[1..])..];
      assert DecidesAfterRun(r, w);
      var k :| 0 <= k < |w| && w[k] == r[0] && Decides(r[1..], w[k + 1..]);
      if q > 0 {
        NeedsBracket(r[1..], q - 1, w[k + 1..]);
      } else {
        assert w[k] in y;
      }
    } else if p > 0 {
      NeedsBracket(h[1..], p - 1, y[if h[0] == '#' then Number(y) else 1..]);
    } else {
      assert y[0] in y;
    }
  }

  predicate StarsOnly(g: string) {
    AtEnd(g) || (g[0] == '*' && StarsOnly(g[1..]))
  }

  lemma {:induction false} RunOfStars(g: string)
    requires Wild(g) == 0 && AtEnd(AfterRun(g))
    ensures StarsOnly(g)
    decreases |g|
  {
    if At(g, 0) == '*' {
      RunOfStars(g[1..]);
    }
  }

  lemma EmptyMeansStars(g: string)
    requires Decides(g, [])
    ensures StarsOnly(g)
  {
    if !AtEnd(g) && g[0] == '*' {
      RunOfStars(g[1..]);
    }
  }

  lemma {:induction false} StarsDoNotClose(g: string, prior: char)
    requires StarsOnly(g)
    ensures Members(g, prior).Unterminated?
    decreases |g|
  {
    if !AtEnd(g) {
      StarsDoNotClose(g[1..], '*');
    }
  }

  /** With a closed class after the star, the code disagrees with the meaning unless the
      first member is a star or another `[`. */
  lemma ClosedClassDisagrees(g: string, h: string)
    requires ClassAfterStar(g, h) && ParseClass(h).Class? && At(h, 0) !in {'*', '['}
    ensures !AgreesEverywhere(g)
  {
    if h == [] || h[0] !in {'?', '#'} {
      ClassAfterStarDisagrees(g, h);
    } else {
      NulIsNotCovered(h);
      NulAlone(h);
      CharacterDisagrees(g, h, '\0');
    }
  }

  lemma NulAlone(h: string)
    requires ParseClass(h).Class? && h != [] && h[0] in {'?', '#'}
    ensures !Decides(h, ['\0'])
  {
    var z := ['\0'];
    assert z[1..] == [];
    assert h[0] == '#' ==> Number(z) == 0;
    if h[0] == '?' && Decides(h[1..], []) {
      EmptyMeansStars(h[1..]);
      StarsDoNotClose(h[1..], '?');
    }
  }

  /** It also disagrees with a closed class that has no further `[` before its `]`. */
  lemma SimpleClassDisagrees(g: string, h: string, p: nat)
    requires ClassAfterStar(g, h) && ParseClass(h).Class? && PlainBracket(h, p)
    ensures !AgreesEverywhere(g)
  {
    if h[0] == '^' {
      ClassAfterStarDisagrees(g, h);
    } else {
      NulIsNotCovered(h);
      if Decides(h, ['\0']) {
        NeedsBracket(h, p, ['\0']);
      }
      CharacterDisagrees(g, h, '\0');
    }
  }

  lemma OpenClassDead(g: string, h: string, z: string)
    requires ClassAfterStar(g, h) && ParseClass(h).Unterminated?
    ensures !Matches(g, z)
  {
    if Matches(g, z) {
      var k := StarMeaning(g, z);
    }
  }

  lemma MismatchIsSomewhere(g: string, h: string, z: string) returns (y: string)
    requires ClassAfterStar(g, h) && Decides(g, z)
    ensures y != [] && !Decides(h, y)
  {
    var w := z[Wild(g[1..])..];
    assert DecidesAfterRun(AfterRun(g[1..]), w);
    var k :| 0 <= k < |w| && !Decides(h, w[k..]);
    y := w[k..];
  }

  ghost predicate TakesAll(h: string) {
    forall y :: y != [] ==> Decides(h, y)
  }

  /** With a class after the star that is never closed, the meaning accepts nothing, and
      the code agrees exactly if the text after the `[` as a pattern takes everything. */
  lemma OpenClassAgreesIff(g: string, h: string)
    requires ClassAfterStar(g, h) && ParseClass(h).Unterminated?
    ensures AgreesEverywhere(g) <==> TakesAll(h)
  {
    if TakesAll(h) {
      forall z | true ensures Agreement(g, z) {
        OpenClassDead(g, h, z);
        if Decides(g, z) {
          var y := MismatchIsSomewhere(g, h, z);
        }
      }
    } else {
      var y :| y != [] && !Decides(h, y);
      CodeSkipsMismatch(g, h, y);
      OpenClassDead(g, h, Filler(Wild(g[1..])) + y);
      Disagrees(g, Filler(Wild(g[1..])) + y);
    }
  }

  // ---------- what stands before ----------

  /** The pattern after its first token, if that is a plain character, a `?` or a closed
      class. */
  predicate PlainStart(g: string, rest: string) {
    && At(g, 0) !in {'\0', '*', '#'}
    && (if g[0] == '[' then ParseClass(g[1..]).Class? && rest == ParseClass(g[1..]).rest else rest == g[1..])
  }

  lemma AnyFirst(g: string, rest: string) returns (c: char)
    requires PlainStart(g, rest)
    ensures forall z: string :: (Decides(g, [c] + z) <==> Decides(rest, z)) && (Matches(g, [c] + z) <==> Matches(rest, z))
  {
    if g[0] == '[' {
      FirstMember(g[1..]);
      c :| Accepts(ParseClass(g[1..]), c);
    } else {
      c := g[0];
    }
    forall z: string | true
      ensures (Decides(g, [c] + z) <==> Decides(rest, z)) && (Matches(g, [c] + z) <==> Matches(rest, z))
    {
      assert ([c] + z)[1..] == z;
    }
  }

  /** Such a token in front changes nothing. */
  lemma PlainStartDoesNotMatter(g: string, rest: string)
    requires PlainStart(g, rest)
    ensures AgreesEverywhere(g) <==> AgreesEverywhere(rest)
  {
    if AgreesEverywhere(rest) {
      forall z | true ensures Agreement(g, z) {
        assert z != [] ==> Agreement(rest, z[1..]);
      }
    }
    if AgreesEverywhere(g) {
      var c := AnyFirst(g, rest);
      forall z | true ensures Agreement(rest, z) {
        assert Agreement(g, [c] + z);
      }
    }
  }
}
