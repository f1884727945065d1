/**
 Every line there is and what it is split into, in character codes: 0x20 is the space, 0x22 the quote and 0x5C the
 escape character.
 */
module SplitLines {
  import opened Basics
  import opened SplitArgv

  /** A character of an argument as it is written: alone, or behind the escape character. */
  datatype Piece = Plain(c: Char) | Escaped(c: Char)

  /** A part of a line: a single space, an argument in quotes, or one without, ended by a space. */
  datatype Part = Gap | InQuotes(ps: seq<Piece>) | Word(ps: seq<Piece>)

  /** The end of a line: nothing more, or an argument that is not ended, perhaps with an escape character last. */
  datatype End = Nothing | OpenQuotes(ps: seq<Piece>, lone: bool) | OpenWord(ps: seq<Piece>, lone: bool)

  function OneWritten(p: Piece): seq<Char> {
    match p case Plain(c) => [c] case Escaped(c) => [0x5C, c]
  }

  function Written(ps: seq<Piece>): seq<Char> {
    if ps == [] then [] else OneWritten(ps[0]) + Written(ps[1..])
  }

  /** Behind the escape character a character stands for itself if it is one of three, and any other vanishes. */
  function OneMeant(p: Piece): seq<Char> {
    match p
    case Plain(c) => [c]
    case Escaped(c) => if c in {0x5C, 0x22, 0x20} then [c] else []
  }

  function Meant(ps: seq<Piece>): seq<Char> {
    if ps == [] then [] else OneMeant(ps[0]) + Meant(ps[1..])
  }

  /** In quotes a quote and an escape character cannot stand alone. */
  predicate QuotesOk(ps: seq<Piece>) {
    forall k :: 0 <= k < |ps| && ps[k].Plain? ==> ps[k].c !in {0x22, 0x5C}
  }

  /** Outside quotes a space and an escape character cannot stand alone. */
  predicate WordOk(ps: seq<Piece>) {
    forall k :: 0 <= k < |ps| && ps[k].Plain? ==> ps[k].c !in {0x20, 0x5C}
  }

  /** Such an argument has something written, which does not begin with a quote. */
  predicate Begins(ps: seq<Piece>, lone: bool) {
    if ps == [] then lone else ps[0] != Plain(0x22)
  }

  predicate PartOk(p: Part) {
    match p
    case Gap => true
    case InQuotes(ps) => QuotesOk(ps)
    case Word(ps) => WordOk(ps) && Begins(ps, false)
  }

  predicate EndOk(e: End) {
    match e
    case Nothing => true
    case OpenQuotes(ps, _) => QuotesOk(ps)
    case OpenWord(ps, lone) => WordOk(ps) && Begins(ps, lone)
  }

  function PartWritten(p: Part): seq<Char> {
    match p
    case Gap => [0x20]
    case InQuotes(ps) => [0x22] + Written(ps) + [0x22]
    case Word(ps) => Written(ps) + [0x20]
  }

  function Lone(lone: bool): seq<Char> {
    if lone then [0x5C] else []
  }

  function LineOf(parts: seq<Part>, end: End): seq<Char> {
    if parts != [] then PartWritten(parts[0]) + LineOf(parts[1..], end)
    else
      match end
      case Nothing => []
      case OpenQuotes(ps, lone) => [0x22] + Written(ps) + Lone(lone)
      case OpenWord(ps, lone) => Written(ps) + Lone(lone)
  }

  function ArgumentsOf(parts: seq<Part>, end: End): seq<seq<Char>> {
    if parts != [] then
      (match parts[0] case Gap => [] case InQuotes(ps) => [Meant(ps)] case Word(ps) => [Meant(ps)])
      + ArgumentsOf(parts[1..], end)
    else
      match end
      case Nothing => []
      case OpenQuotes(ps, _) => [Meant(ps)]
      case OpenWord(ps, _) => [Meant(ps)]
  }

  // ---------------------------------------------------------------- splitting what is written

  lemma WrittenFirst(ps: seq<Piece>, rest: seq<Char>)
    requires ps != []
    ensures Written(ps) + rest == OneWritten(ps[0]) + (Written(ps[1..]) + rest)
    ensures (Written(ps) + rest)[|OneWritten(ps[0])|..] == Written(ps[1..]) + rest
  {
    Assoc(OneWritten(ps[0]), Written(ps[1..]), rest);
  }

  /** How an argument goes on after the pieces of it: it is ended, or the line is. */
  lemma {:induction false} QuotedPieces(ps: seq<Piece>, rest: seq<Char>)
    requires QuotesOk(ps)
    ensures Quoted(Written(ps) + rest) == (Meant(ps) + Quoted(rest).0, Quoted(rest).1)
  {
    if ps == [] {
      assert [] + rest == rest && [] + Quoted(rest).0 == Quoted(rest).0;
    } else {
      WrittenFirst(ps, rest);
      QuotedPieces(ps[1..], rest);
      Assoc(OneMeant(ps[0]), Meant(ps[1..]), Quoted(rest).0);
    }
  }

  lemma {:induction false} BarePieces(ps: seq<Piece>, rest: seq<Char>)
    requires WordOk(ps)
    ensures Bare(Written(ps) + rest) == (Meant(ps) + Bare(rest).0, Bare(rest).1)
  {
    if ps == [] {
      assert [] + rest == rest && [] + Bare(rest).0 == Bare(rest).0;
    } else {
      WrittenFirst(ps, rest);
      BarePieces(ps[1..], rest);
      Assoc(OneMeant(ps[0]), Meant(ps[1..]), Bare(rest).0);
    }
  }

  lemma QuotedArgument(ps: seq<Piece>, rest: seq<Char>)
    requires QuotesOk(ps)
    ensures Tokens([0x22] + Written(ps) + rest) == [Meant(ps) + Quoted(rest).0] + Tokens(Quoted(rest).1)
  {
    assert ([0x22] + Written(ps) + rest)[1..] == Written(ps) + rest;
    QuotedPieces(ps, rest);
  }

  lemma BareArgument(ps: seq<Piece>, rest: seq<Char>)
    requires WordOk(ps) && Begins(ps, rest != [] && rest[0] == 0x5C)
    ensures Tokens(Written(ps) + rest) == [Meant(ps) + Bare(rest).0] + Tokens(Bare(rest).1)
  {
    var s := Written(ps) + rest;
    assert s[0] !in {0x20, 0x22};
    BarePieces(ps, rest);
  }

  lemma QuotesSplit(ps: seq<Piece>, rest: seq<Char>)
    requires QuotesOk(ps)
    ensures Tokens([0x22] + Written(ps) + [0x22] + rest) == [Meant(ps)] + Tokens(rest)
  {
    QuotedArgument(ps, [0x22] + rest);
    hide Tokens, Written, Meant;
    Assoc([0x22] + Written(ps), [0x22], rest);
    assert ([0x22] + rest)[1..] == rest && Meant(ps) + [] == Meant(ps);
  }

  lemma WordSplit(ps: seq<Piece>, rest: seq<Char>)
    requires WordOk(ps) && Begins(ps, false)
    ensures Tokens(Written(ps) + [0x20] + rest) == [Meant(ps)] + Tokens(rest)
  {
    BareArgument(ps, [0x20] + rest);
    hide Tokens, Written, Meant;
    Assoc(Written(ps), [0x20], rest);
    assert ([0x20] + rest)[1..] == rest && Meant(ps) + [] == Meant(ps);
  }

  lemma PartSplits(p: Part, rest: seq<Char>)
    requires PartOk(p)
    ensures Tokens(PartWritten(p) + rest) ==
            (match p case Gap => [] case InQuotes(ps) => [Meant(ps)] case Word(ps) => [Meant(ps)]) + Tokens(rest)
  {
    match p
    case Gap => assert ([0x20] + rest)[1..] == rest && [] + Tokens(rest) == Tokens(rest);
    case InQuotes(ps) => QuotesSplit(ps, rest);
    case Word(ps) => WordSplit(ps, rest);
  }

  /** However a line is written, with or without quotes and escapes, it is split into what is meant. */
  lemma {:induction false} SplitOfWritten(parts: seq<Part>, end: End)
    requires (forall k :: 0 <= k < |parts| ==> PartOk(parts[k])) && EndOk(end)
    ensures Tokens(LineOf(parts, end)) == ArgumentsOf(parts, end)
  {
    if parts != [] {
      SplitOfWritten(parts[1..], end);
      PartSplits(parts[0], LineOf(parts[1..], end));
    } else {
      match end
      case Nothing =>
      case OpenQuotes(ps, lone) =>
        QuotedArgument(ps, Lone(lone));
        assert Meant(ps) + [] == Meant(ps);
      case OpenWord(ps, lone) =>
        BareArgument(ps, Lone(lone));
        assert Meant(ps) + [] == Meant(ps);
    }
  }

  // ---------------------------------------------------------------- every line is written so

  /** The pieces up to the end of an argument, and what follows them. */
  lemma {:induction false} PiecesOf(s: seq<Char>, stop: Char) returns (ps: seq<Piece>, rest: seq<Char>)
    requires stop == 0x22 || stop == 0x20
    ensures s == Written(ps) + rest && |rest| <= |s|
    ensures rest == [] || rest[0] == stop || rest == [0x5C]
    ensures forall k :: 0 <= k < |ps| && ps[k].Plain? ==> ps[k].c !in {stop, 0x5C}
    ensures s != [] && s[0] != 0x5C && s[0] != stop ==> ps != [] && ps[0] == Plain(s[0])
    ensures s != [] && s[0] == 0x5C ==> if |s| == 1 then ps == [] else ps != [] && ps[0].Escaped?
  {
    if s == [] || s[0] == stop || s == [0x5C] {
      ps, rest := [], s;
      assert [] + s == s;
    } else {
      var p := if s[0] == 0x5C then Escaped(s[1]) else Plain(s[0]);
      var more;
      more, rest := PiecesOf(s[|OneWritten(p)|..], stop);
      ps := [p] + more;
      assert s == OneWritten(p) + s[|OneWritten(p)|..];
      assert ps[1..] == more;
      WrittenFirst(ps, rest);
    }
  }

  predicate LineOk(parts: seq<Part>, end: End) {
    (forall k :: 0 <= k < |parts| ==> PartOk(parts[k])) && EndOk(end)
  }

  lemma OneMorePart(p: Part, parts: seq<Part>, end: End, s: seq<Char>)
    requires PartOk(p) && LineOk(parts, end) && s == PartWritten(p) + LineOf(parts, end)
    ensures LineOk([p] + parts, end) && LineOf([p] + parts, end) == s
  {
    assert ([p] + parts)[1..] == parts;
  }

  lemma QuotesPart(s: seq<Char>) returns (ps: seq<Piece>, rest: seq<Char>, ended: bool)
    requires s != [] && s[0] == 0x22
    ensures QuotesOk(ps)
    ensures ended ==> s == PartWritten(InQuotes(ps)) + rest && |rest| < |s|
    ensures !ended ==> exists lone :: s == LineOf([], OpenQuotes(ps, lone))
  {
    hide Written, Meant, Begins;
    ps, rest := PiecesOf(s[1..], 0x22);
    assert s == [0x22] + s[1..];
    ended := rest != [] && rest[0] == 0x22;
    if ended {
      assert s == [0x22] + Written(ps) + [0x22] + rest[1..];
      rest := rest[1..];
    } else {
      assert s == LineOf([], OpenQuotes(ps, rest != []));
    }
  }

  lemma NothingWritten()
    ensures forall rest: seq<Char> :: Written([]) + rest == rest
  {
    assert forall rest: seq<Char> :: [] + rest == rest;
  }

  lemma WordPart(s: seq<Char>) returns (ps: seq<Piece>, rest: seq<Char>, ended: bool)
    requires s != [] && s[0] !in {0x20, 0x22}
    ensures WordOk(ps)
    ensures ended ==> Begins(ps, false) && s == PartWritten(Word(ps)) + rest && |rest| < |s|
    ensures !ended ==> exists lone :: Begins(ps, lone) && s == LineOf([], OpenWord(ps, lone))
  {
    hide Written, Meant;
    ps, rest := PiecesOf(s, 0x20);
    assert rest == [] ==> s == Written(ps);
    assert ps == [] ==> s == rest by { NothingWritten(); }
    ended := rest != [] && rest[0] == 0x20;
    if ended {
      assert s == Written(ps) + [0x20] + rest[1..];
      rest := rest[1..];
    } else {
      assert s == LineOf([], OpenWord(ps, rest != [])) && Begins(ps, rest != []);
    }
  }

  /** There is no other line. */
  lemma {:induction false} EveryLineIsWritten(s: seq<Char>) returns (parts: seq<Part>, end: End)
    ensures LineOk(parts, end) && LineOf(parts, end) == s
    decreases |s|
  {
    if s == [] {
      parts, end := [], Nothing;
    } else {
      var p, ps, rest, ended := Gap, [], s[1..], true;
      if s[0] == 0x22 {
        ps, rest, ended := QuotesPart(s);
        p := InQuotes(ps);
      } else if s[0] != 0x20 {
        ps, rest, ended := WordPart(s);
        p := Word(ps);
      }
      hide Written, PartWritten, Meant;
      if ended {
        parts, end := EveryLineIsWritten(rest);
        assert s == PartWritten(p) + LineOf(parts, end) by { GapFirst(s); }
        OneMorePart(p, parts, end, s);
        parts := [p] + parts;
      } else if s[0] == 0x22 {
        var lone :| s == LineOf([], OpenQuotes(ps, lone));
        parts, end := [], OpenQuotes(ps, lone);
      } else {
        var lone :| Begins(ps, lone) && s == LineOf([], OpenWord(ps, lone));
        parts, end := [], OpenWord(ps, lone);
      }
    }
  }

  lemma GapFirst(s: seq<Char>)
    ensures s != [] && s[0] == 0x20 ==> s == PartWritten(Gap) + s[1..]
  {
  }
}
