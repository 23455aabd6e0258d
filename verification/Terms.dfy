/** The result buffer of mptest: terms separated by blanks, quoted where needed, and
    compared byte for byte by `--match`. */
module Terms {
  import Script

  datatype Term = Nil | Text(s: string)

  // ---------- what the buffer holds ----------

  predicate HasSpace(s: string) {
    exists i :: 0 <= i < |s| && Script.IsSpace(s[i])
  }

  /** Printed as it is. */
  predicate Raw(s: string) {
    s != "" && !HasSpace(s)
  }

  function Twice(c: char): string {
    if c == '\'' then [c, c] else [c]
  }

  function Double(s: string): string {
    if s == "" then "" else Twice(s[0]) + Double(s[1..])
  }

  function Quote(s: string): string {
    "'" + Double(s) + "'"
  }

  function Encode(t: Term): (e: string)
    ensures e != ""
  {
    match t
    case Nil => "nil"
    case Text(s) => if Raw(s) then s else Quote(s)
  }

  /** The buffer after the terms were appended one by one. */
  function Print(terms: seq<Term>): (buf: string)
    ensures buf == "" <==> terms == []
  {
    if terms == [] then "" else Join(Print(terms[..|terms| - 1]), Encode(terms[|terms| - 1]))
  }

  /** A blank between two parts that are not empty. */
  function Join(x: string, y: string): (z: string)
    ensures z == "" <==> x == y == ""
  {
    if x == "" then y else if y == "" then x else x + (" " + y)
  }

  lemma JoinAssoc(x: string, y: string, z: string)
    ensures Join(Join(x, y), z) == Join(x, Join(y, z))
  {
    if x != "" && y != "" && z != "" {
      assert (x + (" " + y)) + (" " + z) == x + (" " + (y + (" " + z)));
    }
  }

  lemma Assoc(a: string, b: string, c: string)
    ensures (a + b) + c == a + (b + c)
  {
  }

  lemma {:induction false} DoubleAppend(s: string, t: string)
    ensures Double(s + t) == Double(s) + Double(t)
  {
    if s == "" {
      assert s + t == t;
    } else {
      DoubleAppend(s[1..], t);
      assert (s + t)[1..] == s[1..] + t;
      Assoc(Twice(s[0]), Double(s[1..]), Double(t));
    }
  }

  lemma {:induction false} DoublePlain(s: string)
    requires '\'' !in s
    ensures Double(s) == s
  {
    if s != "" {
      DoublePlain(s[1..]);
    }
  }

  /** The position of the first character that is a quote (or a blank), or the length. */
  method Position(z: string, from: nat, blank: bool) returns (i: nat)
    requires from <= |z|
    ensures from <= i <= |z|
    ensures forall k :: from <= k < i ==> !(if blank then Script.IsSpace(z[k]) else z[k] == '\'')
    ensures i < |z| ==> if blank then Script.IsSpace(z[i]) else z[i] == '\''
  {
    i := from;
    while i < |z| && !(if blank then Script.IsSpace(z[i]) else z[i] == '\'')
      invariant from <= i <= |z|
      invariant forall k :: from <= k < i ==> !(if blank then Script.IsSpace(z[k]) else z[k] == '\'')
    {
      i := i + 1;
    }
  }

  class TermString {
    var buf: string
    ghost var terms: seq<Term>

    ghost predicate Valid()
      reads this
    {
      buf == Print(terms)
    }

    constructor ()
      ensures Valid() && terms == []
    {
      buf, terms := "", [];
    }

    method Reset()
      modifies this
      ensures Valid() && terms == []
    {
      buf, terms := "", [];
    }

    method AppendTerm(term: Term)
      requires Valid()
      modifies this
      ensures Valid() && terms == old(terms) + [term]
    {
      PrintAppend(terms, term);
      JoinIsAppend(buf, Encode(term));
      terms := terms + [term];
      if buf != "" {
        buf := buf + " ";
      }
      AppendEncoded(term);
    }

    method AppendEncoded(term: Term)
      modifies this`buf
      ensures buf == old(buf) + Encode(term)
    {
      match term
      case Nil =>
        buf := buf + "nil";
      case Text(z) =>
        var i := Position(z, 0, true);
        assert i > 0 && i == |z| <==> Raw(z);
        if i > 0 && i == |z| {
          buf := buf + z;
        } else {
          AppendQuoted(z);
        }
    }

    method AppendQuoted(z: string)
      modifies this`buf
      ensures buf == old(buf) + Quote(z)
    {
      ghost var start := buf;
      buf := buf + "'";
      ghost var prefix := buf;
      var at := 0;
      while true
        invariant at <= |z| && buf == prefix + Double(z[..at])
        decreases |z| - at
      {
        var j := Position(z, at, false);
        DoublePiece(z, at, j);
        Assoc(prefix, Double(z[..at]), z[at..j]);
        buf := buf + z[at..j];
        if j == |z| {
          break;
        }
        DoubleQuote(z, j);
        Assoc(prefix, Double(z[..j]), "''");
        buf := buf + "''";
        at := j + 1;
      }
      assert z[..|z|] == z;
      buf := buf + "'";
      QuoteJoin(start, Double(z));
    }
  }

  lemma JoinIsAppend(x: string, e: string)
    requires e != ""
    ensures Join(x, e) == (if x == "" then "" else x + " ") + e
  {
    if x != "" {
      assert (x + " ") + e == x + (" " + e);
    } else {
      assert "" + e == e;
    }
  }

  lemma QuoteJoin(start: string, d: string)
    ensures start + "'" + d + "'" == start + ("'" + d + "'")
  {
  }

  lemma PrintAppend(terms: seq<Term>, t: Term)
    ensures Print(terms + [t]) == Join(Print(terms), Encode(t))
  {
    assert (terms + [t])[..|terms|] == terms;
  }

  lemma PrintOne(t: Term)
    ensures Print([t]) == Encode(t)
  {
    PrintAppend([], t);
    assert [] + [t] == [t];
  }

  lemma {:induction false} PrintConcat(a: seq<Term>, b: seq<Term>)
    ensures Print(a + b) == Join(Print(a), Print(b))
  {
    if b == [] {
      assert a + b == a;
    } else {
      PrintConcat(a, b[..|b| - 1]);
      PrintConcatStep(a, b[..|b| - 1], b[|b| - 1], b);
    }
  }

  lemma PrintConcatStep(a: seq<Term>, init: seq<Term>, t: Term, b: seq<Term>)
    requires b == init + [t] && Print(a + init) == Join(Print(a), Print(init))
    ensures Print(a + b) == Join(Print(a), Print(b))
  {
    assert a + b == (a + init) + [t];
    PrintAppend(a + init, t);
    PrintAppend(init, t);
    JoinAssoc(Print(a), Print(init), Encode(t));
  }

  /** Terms that print alike can be exchanged anywhere in a result. */
  lemma PrintSame(before: seq<Term>, x: seq<Term>, y: seq<Term>, after: seq<Term>)
    requires Print(x) == Print(y)
    ensures Print(before + x + after) == Print(before + y + after)
  {
    PrintConcat(before, x);
    PrintConcat(before, y);
    PrintConcat(before + x, after);
    PrintConcat(before + y, after);
  }

  lemma DoublePiece(z: string, i: nat, j: nat)
    requires i <= j <= |z| && forall k :: i <= k < j ==> z[k] != '\''
    ensures Double(z[..j]) == Double(z[..i]) + z[i..j]
  {
    DoublePlain(z[i..j]);
    DoubleAppend(z[..i], z[i..j]);
    assert z[..j] == z[..i] + z[i..j];
  }

  lemma DoubleQuote(z: string, j: nat)
    requires j < |z| && z[j] == '\''
    ensures Double(z[..j + 1]) == Double(z[..j]) + "''"
  {
    DoubleAppend(z[..j], [z[j]]);
    assert z[..j + 1] == z[..j] + [z[j]];
    assert [z[j]][1..] == "";
    assert Double([z[j]]) == Twice(z[j]) + "";
  }

  // ---------- reading the buffer back ----------

  datatype Quoted = Quoted(text: string, rest: string)

  /** The text up to a quote that stands alone, and what follows that quote. */
  function Unquote(z: string): (q: Quoted)
    ensures |q.rest| <= |z|
  {
    if z == "" then Quoted("", "")
    else if z[0] != '\'' then var q := Unquote(z[1..]); q.(text := [z[0]] + q.text)
    else if |z| > 1 && z[1] == '\'' then var q := Unquote(z[2..]); q.(text := "'" + q.text)
    else Quoted("", z[1..])
  }

  function WordEnd(z: string): (n: nat)
    ensures n <= |z| && (n < |z| ==> z[n] == ' ') && (forall i :: 0 <= i < n ==> z[i] != ' ')
  {
    if z == "" || z[0] == ' ' then 0 else 1 + WordEnd(z[1..])
  }

  function First(z: string): Quoted
    requires z != ""
  {
    if z[0] == '\'' then Unquote(z[1..]) else Quoted(z[..WordEnd(z)], z[WordEnd(z)..])
  }

  /** The first term that the decoder reads. */
  function FirstTerm(z: string): Term
    requires z != ""
  {
    if z[0] != '\'' && First(z).text == "nil" then Nil else Text(First(z).text)
  }

  function Decode(z: string): seq<Term>
    decreases |z|
  {
    if z == "" then []
    else [FirstTerm(z)] + (if First(z).rest == "" then [] else Decode(First(z).rest[1..]))
  }

  /** A term that the decoder cannot take for another. */
  predicate Plain(t: Term) {
    t.Nil? || (t.s != "nil" && (Raw(t.s) ==> t.s[0] != '\''))
  }

  predicate AllPlain(terms: seq<Term>) {
    forall i :: 0 <= i < |terms| ==> Plain(terms[i])
  }

  /** What follows the first term in the buffer. */
  function AfterFirst(terms: seq<Term>): string
    requires terms != []
  {
    if |terms| == 1 then "" else " " + Print(terms[1..])
  }

  /** The buffer from the front: a term, a blank, and the other terms. */
  lemma PrintFirst(terms: seq<Term>)
    requires terms != []
    ensures Print(terms) == Encode(terms[0]) + AfterFirst(terms)
  {
    PrintOne(terms[0]);
    PrintConcat([terms[0]], terms[1..]);
    assert [terms[0]] + terms[1..] == terms;
    assert |terms| == 1 ==> Encode(terms[0]) + "" == Encode(terms[0]);
  }

  lemma UnquoteStep(c: char, tail: string)
    requires tail != ""
    ensures Unquote(Twice(c) + tail) == Unquote(tail).(text := [c] + Unquote(tail).text)
  {
    var z := Twice(c) + tail;
    if c == '\'' {
      assert z[2..] == tail;
    } else {
      assert z[1..] == tail;
    }
  }

  lemma {:induction false} UnquoteDouble(s: string, rest: string)
    requires rest == "" || rest[0] != '\''
    ensures Unquote(Double(s) + ("'" + rest)) == Quoted(s, rest)
  {
    if s == "" {
      var z := "'" + rest;
      assert Double(s) + z == z && z[1..] == rest;
    } else {
      UnquoteDouble(s[1..], rest);
      var tail := Double(s[1..]) + ("'" + rest);
      UnquoteStep(s[0], tail);
      Assoc(Twice(s[0]), Double(s[1..]), "'" + rest);
    }
  }

  lemma {:induction false} WordEndAt(w: string, rest: string)
    requires ' ' !in w && (rest == "" || rest[0] == ' ')
    ensures WordEnd(w + rest) == |w|
  {
    if w != "" {
      WordEndAt(w[1..], rest);
      assert (w + rest)[1..] == w[1..] + rest;
    }
  }

  lemma WordIsFirst(w: string, rest: string)
    requires w != "" && ' ' !in w && w[0] != '\'' && (rest == "" || rest[0] == ' ')
    ensures First(w + rest) == Quoted(w, rest)
  {
    WordEndAt(w, rest);
    assert (w + rest)[..|w|] == w && (w + rest)[|w|..] == rest;
  }

  lemma QuotedIsFirst(s: string, rest: string)
    requires rest == "" || rest[0] == ' '
    ensures First(Quote(s) + rest) == Quoted(s, rest)
  {
    UnquoteDouble(s, rest);
    assert (Quote(s) + rest)[1..] == Double(s) + ("'" + rest);
  }

  lemma RawHasNoBlank(s: string)
    requires Raw(s)
    ensures ' ' !in s
  {
    if i :| 0 <= i < |s| && s[i] == ' ' {
      assert Script.IsSpace(s[i]);
    }
  }

  lemma FirstIsTerm(t: Term, rest: string)
    requires Plain(t) && (rest == "" || rest[0] == ' ')
    ensures First(Encode(t) + rest).rest == rest && FirstTerm(Encode(t) + rest) == t
  {
    if t.Nil? {
      WordIsFirst("nil", rest);
    } else if Raw(t.s) {
      RawHasNoBlank(t.s);
      WordIsFirst(t.s, rest);
    } else {
      QuotedIsFirst(t.s, rest);
    }
  }

  function LeadingQuotes(s: string): (n: nat)
    ensures n <= |s|
  {
    if s == "" || s[0] != '\'' then 0 else 1 + LeadingQuotes(s[1..])
  }

  lemma {:induction false} UnquoteHalves(z: string)
    ensures 2 * LeadingQuotes(Unquote(z).text) <= LeadingQuotes(z)
  {
    if |z| > 1 && z[0] == z[1] == '\'' {
      UnquoteHalves(z[2..]);
      assert ("'" + Unquote(z[2..]).text)[1..] == Unquote(z[2..]).text;
      assert z[1..][1..] == z[2..];
    }
  }

  lemma {:induction false} LeadingQuotesOf(w: string, rest: string)
    requires rest == "" || rest[0] == ' '
    ensures LeadingQuotes(w + rest) == LeadingQuotes(w)
  {
    if w != "" {
      LeadingQuotesOf(w[1..], rest);
      assert (w + rest)[1..] == w[1..] + rest;
    } else {
      assert w + rest == rest;
    }
  }

  lemma FirstIsNotTerm(t: Term, rest: string)
    requires !Plain(t) && (rest == "" || rest[0] == ' ')
    ensures FirstTerm(Encode(t) + rest) != t
  {
    if t.s == "nil" {
      assert !HasSpace(t.s);
      WordIsFirst("nil", rest);
    } else {
      var z := t.s + rest;
      LeadingQuotesOf(t.s, rest);
      UnquoteHalves(z[1..]);
      assert LeadingQuotes(z) == 1 + LeadingQuotes(z[1..]);
    }
  }

  /** Decoding the buffer gives the terms back exactly when all of them are plain. */
  lemma {:induction false} RoundTripIff(terms: seq<Term>)
    ensures Decode(Print(terms)) == terms <==> AllPlain(terms)
  {
    if terms != [] {
      PrintFirst(terms);
      RoundTripIff(terms[1..]);
      RoundTripStep(terms[0], terms[1..], AfterFirst(terms));
      assert terms == [terms[0]] + terms[1..];
    }
  }

  lemma RoundTripStep(t: Term, others: seq<Term>, rest: string)
    requires rest == (if others == [] then "" else " " + Print(others))
    requires Decode(Print(others)) == others <==> AllPlain(others)
    ensures Decode(Encode(t) + rest) == [t] + others <==> AllPlain([t] + others)
  {
    PlainFirst(t, others);
    var d := Decode(Print(others));
    if Plain(t) {
      FirstIsTerm(t, rest);
      DecodeStep(Encode(t) + rest, t, others, rest);
      assert ([t] + d)[1..] == d && ([t] + others)[1..] == others;
    } else {
      FirstIsNotTerm(t, rest);
      assert Decode(Encode(t) + rest)[0] != ([t] + others)[0];
    }
  }

  lemma DecodeStep(z: string, t: Term, others: seq<Term>, rest: string)
    requires rest == (if others == [] then "" else " " + Print(others))
    requires z != "" && First(z).rest == rest && FirstTerm(z) == t
    ensures Decode(z) == [t] + Decode(Print(others))
  {
    assert rest != "" ==> rest[1..] == Print(others);
  }

  lemma PlainFirst(t: Term, others: seq<Term>)
    ensures AllPlain([t] + others) <==> Plain(t) && AllPlain(others)
  {
    var terms := [t] + others;
    assert forall i :: 0 <= i < |others| ==> others[i] == terms[i + 1];
    assert terms[0] == t;
  }

  /** The comparison of `--match` decides equality of plain results. */
  lemma MatchDecidesEquality(a: seq<Term>, b: seq<Term>)
    requires AllPlain(a) && AllPlain(b)
    ensures Print(a) == Print(b) <==> a == b
  {
    RoundTripIff(a);
    RoundTripIff(b);
  }

  /** A text `nil` anywhere in a result prints like a null there, and the text `''` like the
      empty text. */
  lemma AmbiguousTerms(before: seq<Term>, after: seq<Term>)
    ensures Print(before + [Text("nil")] + after) == Print(before + [Nil] + after)
    ensures Print(before + [Text("''")] + after) == Print(before + [Text("")] + after)
  {
    assert Raw("nil") && Raw("''");
    assert Double("") == "";
    PrintOne(Text("nil"));
    PrintOne(Nil);
    PrintOne(Text("''"));
    PrintOne(Text(""));
    PrintSame(before, [Text("nil")], [Nil], after);
    PrintSame(before, [Text("''")], [Text("")], after);
  }

  lemma NoSpaceAppend(x: string, y: string)
    requires !HasSpace(x) && !HasSpace(y)
    ensures !HasSpace(x + y)
  {
    forall i | 0 <= i < |x + y| ensures !Script.IsSpace((x + y)[i]) {
      assert (x + y)[i] == if i < |x| then x[i] else y[i - |x|];
    }
  }

  lemma {:induction false} DoubleHasNoSpace(s: string)
    requires !HasSpace(s)
    ensures !HasSpace(Double(s))
  {
    if s != "" {
      assert forall i :: 0 <= i < |s[1..]| ==> s[1..][i] == s[i + 1];
      DoubleHasNoSpace(s[1..]);
      NoSpaceAppend(Twice(s[0]), Double(s[1..]));
    }
  }

  lemma HalvesAreRaw(a: string, b: string)
    requires !HasSpace(a) && !HasSpace(b)
    ensures Raw("'" + Double(a)) && Raw(Double(b) + "'")
  {
    DoubleHasNoSpace(a);
    DoubleHasNoSpace(b);
    assert !Script.IsSpace('\'');
  }

  lemma DoubleBlank(a: string, blank: string, b: string)
    requires blank == " "
    ensures Double(a + blank + b) == Double(a) + blank + Double(b)
  {
    DoubleAppend(a + blank, b);
    DoubleAppend(a, blank);
    DoublePlain(blank);
  }

  lemma Regroup(q: string, x: string, blank: string, y: string)
    ensures q + (x + blank + y) + q == q + x + (blank + (y + q))
  {
  }

  /** Any text with a blank in it prints, anywhere in a result, like two texts that carry
      its quotes at their outer ends. */
  lemma QuotedHalvesLookWhole(before: seq<Term>, a: string, b: string, after: seq<Term>)
    requires !HasSpace(a) && !HasSpace(b)
    ensures Print(before + [Text("'" + Double(a)), Text(Double(b) + "'")] + after) ==
            Print(before + [Text(a + " " + b)] + after)
  {
    var x, y, z := Text("'" + Double(a)), Text(Double(b) + "'"), Text(a + " " + b);
    HalvesAreRaw(a, b);
    DoubleBlank(a, " ", b);
    Regroup("'", Double(a), " ", Double(b));
    assert z.s[|a|] == ' ' && Script.IsSpace(z.s[|a|]);
    PrintOne(x);
    PrintOne(z);
    PrintAppend([x], y);
    assert [x] + [y] == [x, y];
    PrintSame(before, [x, y], [z], after);
  }
}
