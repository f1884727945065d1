/**
 Splitting a console line into arguments inside its own buffer: `esp_console_split_argv`.
 */
module SplitArgv {
  import opened Basics

  type Char = byte

  const NUL: Char := 0
  const SPACE: Char := 0x20
  const QUOTE: Char := 0x22
  const ESCAPE: Char := 0x5C

  predicate NoNul(s: seq<Char>) {
    forall k :: 0 <= k < |s| ==> s[k] != NUL
  }

  // ---------------------------------------------------------------- the language of lines

  predicate Escapable(c: Char) {
    c == ESCAPE || c == QUOTE || c == SPACE
  }

  /** The text of an unquoted argument starting here, and what follows it. */
  function Bare(s: seq<Char>): (r: (seq<Char>, seq<Char>))
    ensures |r.1| <= |s| && (s != [] ==> |r.1| < |s|)
  {
    if s == [] then ([], [])
    else if s[0] == SPACE then ([], s[1..])
    else if s[0] == ESCAPE then
      if |s| == 1 then ([], [])
      else
        var r := Bare(s[2..]);
        ((if Escapable(s[1]) then [s[1]] else []) + r.0, r.1)
    else
      var r := Bare(s[1..]);
      ([s[0]] + r.0, r.1)
  }

  /** The text of a quoted argument after its opening quote, and what follows it. */
  function Quoted(s: seq<Char>): (r: (seq<Char>, seq<Char>))
    ensures |r.1| <= |s|
  {
    if s == [] then ([], [])
    else if s[0] == QUOTE then ([], s[1..])
    else if s[0] == ESCAPE then
      if |s| == 1 then ([], [])
      else
        var r := Quoted(s[2..]);
        ((if Escapable(s[1]) then [s[1]] else []) + r.0, r.1)
    else
      var r := Quoted(s[1..]);
      ([s[0]] + r.0, r.1)
  }

  /** All arguments of a line. */
  function Tokens(s: seq<Char>): seq<seq<Char>>
    decreases |s|
  {
    if s == [] then []
    else if s[0] == SPACE then Tokens(s[1..])
    else if s[0] == QUOTE then
      var (arg, rest) := Quoted(s[1..]);
      [arg] + Tokens(rest)
    else
      var (arg, rest) := Bare(s);
      [arg] + Tokens(rest)
  }

  // ---------------------------------------------------------------- writing a line

  function EscapeChar(c: Char): seq<Char> {
    if c == 0x5C || c == 0x22 || c == 0x20 then [0x5C, c] else [c]
  }

  function EscapeAll(a: seq<Char>): seq<Char> {
    if a == [] then [] else EscapeChar(a[0]) + EscapeAll(a[1..])
  }

  /** A line for a list of arguments: each one quoted, with spaces between. */
  function Line(args: seq<seq<Char>>): seq<Char> {
    if args == [] then [] else [0x22] + EscapeAll(args[0]) + [0x22, 0x20] + Line(args[1..])
  }

  lemma {:induction false} QuotedOfEscaped(a: seq<Char>, rest: seq<Char>)
    ensures Quoted(EscapeAll(a) + [QUOTE] + rest) == (a, rest)
  {
    var s := EscapeAll(a) + [QUOTE] + rest;
    if a == [] {
      assert s == [QUOTE] + rest;
    } else {
      QuotedOfEscaped(a[1..], rest);
      assert s == EscapeChar(a[0]) + (EscapeAll(a[1..]) + [QUOTE] + rest);
      assert s[|EscapeChar(a[0])|..] == EscapeAll(a[1..]) + [QUOTE] + rest;
      assert [a[0]] + a[1..] == a;
    }
  }

  lemma TokensOfFirst(a: seq<Char>, rest: seq<Char>)
    ensures Tokens([QUOTE] + EscapeAll(a) + [QUOTE, SPACE] + rest) == [a] + Tokens(rest)
  {
    var s := [QUOTE] + EscapeAll(a) + [QUOTE, SPACE] + rest;
    QuotedOfEscaped(a, [SPACE] + rest);
    assert s[1..] == EscapeAll(a) + [QUOTE] + ([SPACE] + rest);
    assert ([SPACE] + rest)[1..] == rest;
  }

  /** Quoting and escaping any list of arguments, then splitting, gives the list back. */
  lemma {:induction false} SplitOfLine(args: seq<seq<Char>>)
    ensures Tokens(Line(args)) == args
  {
    if args != [] {
      SplitOfLine(args[1..]);
      TokensOfFirst(args[0], Line(args[1..]));
    }
  }

  /** Arguments of a C string are C strings. */
  lemma {:induction false} TokensNoNul(s: seq<Char>)
    requires NoNul(s)
    ensures forall k :: 0 <= k < |Tokens(s)| ==> NoNul(Tokens(s)[k])
    decreases |s|
  {
    if s == [] {
    } else if s[0] == SPACE {
      TokensNoNul(s[1..]);
    } else {
      PiecesNoNul(s);
      PiecesNoNul(s[1..]);
      TokensNoNul(if s[0] == QUOTE then Quoted(s[1..]).1 else Bare(s).1);
    }
  }

  lemma {:induction false} PiecesNoNul(s: seq<Char>)
    requires NoNul(s)
    ensures NoNul(Bare(s).0) && NoNul(Bare(s).1) && NoNul(Quoted(s).0) && NoNul(Quoted(s).1)
  {
    if s != [] {
      PiecesNoNul(s[1..]);
      if |s| > 1 {
        PiecesNoNul(s[2..]);
      }
    }
  }

  // ---------------------------------------------------------------- the automaton

  datatype SplitState = Space | Arg | QuotedArg | ArgEscaped | QuotedArgEscaped

  /** What the input `s` still yields in state `st` with `cur` written of the current argument. */
  function Rest(st: SplitState, cur: seq<Char>, s: seq<Char>): seq<seq<Char>>
    decreases |s|
  {
    match st
    case Space => Tokens(s)
    case Arg => [cur + Bare(s).0] + Tokens(Bare(s).1)
    case QuotedArg => [cur + Quoted(s).0] + Tokens(Quoted(s).1)
    case ArgEscaped => if s == [] then [cur] else Rest(Arg, cur + Unescaped(s[0]), s[1..])
    case QuotedArgEscaped => if s == [] then [cur] else Rest(QuotedArg, cur + Unescaped(s[0]), s[1..])
  }

  function Unescaped(c: Char): seq<Char> {
    if Escapable(c) then [c] else []
  }

  /** One character in the middle of an argument. */
  lemma RestInArg(st: SplitState, cur: seq<Char>, s: seq<Char>)
    requires s != []
    ensures s[0] == SPACE ==> Rest(Arg, cur, s) == [cur] + Rest(Space, [], s[1..])
    ensures s[0] == QUOTE ==> Rest(QuotedArg, cur, s) == [cur] + Rest(Space, [], s[1..])
    ensures s[0] == ESCAPE ==> Rest(Arg, cur, s) == Rest(ArgEscaped, cur, s[1..])
    ensures s[0] == ESCAPE ==> Rest(QuotedArg, cur, s) == Rest(QuotedArgEscaped, cur, s[1..])
    ensures s[0] != SPACE && s[0] != ESCAPE ==> Rest(Arg, cur, s) == Rest(Arg, cur + [s[0]], s[1..])
    ensures s[0] != QUOTE && s[0] != ESCAPE ==> Rest(QuotedArg, cur, s) == Rest(QuotedArg, cur + [s[0]], s[1..])
  {
    assert cur + [] == cur;
    if s[0] == ESCAPE && |s| > 1 {
      assert s[1..][1..] == s[2..];
      Assoc(cur, Unescaped(s[1]), Bare(s[2..]).0);
      Assoc(cur, Unescaped(s[1]), Quoted(s[2..]).0);
    } else {
      Assoc(cur, [s[0]], Bare(s[1..]).0);
      Assoc(cur, [s[0]], Quoted(s[1..]).0);
    }
  }

  /** The first character of an argument. */
  lemma RestInSpace(s: seq<Char>)
    requires s != []
    ensures s[0] == SPACE ==> Rest(Space, [], s) == Rest(Space, [], s[1..])
    ensures s[0] == QUOTE ==> Rest(Space, [], s) == Rest(QuotedArg, [], s[1..])
    ensures s[0] == ESCAPE ==> Rest(Space, [], s) == Rest(ArgEscaped, [], s[1..])
    ensures !Escapable(s[0]) ==> Rest(Space, [], s) == Rest(Arg, [s[0]], s[1..])
  {
    RestInArg(Arg, [], s);
    assert [] + [s[0]] == [s[0]];
    assert [] + Bare(s).0 == Bare(s).0;
    assert [] + Quoted(s[1..]).0 == Quoted(s[1..]).0;
  }

  // ---------------------------------------------------------------- the splitter

  /** A C string with text `t` lies at position `p`. */
  predicate StringAt(mem: seq<Char>, p: nat, t: seq<Char>) {
    p + |t| < |mem| && mem[p..p + |t|] == t && mem[p + |t|] == NUL
  }

  /** The finished arguments lie in memory below `limit`, and argv points at them. */
  ghost predicate Stored(mem: seq<Char>, argv: seq<Option<nat>>, done: seq<seq<Char>>, limit: nat) {
    && |done| <= |argv|
    && forall k :: 0 <= k < |done| ==>
         argv[k].Some? && argv[k].value + |done[k]| < limit && StringAt(mem, argv[k].value, done[k])
  }

  lemma StoredAfterWrite(mem: seq<Char>, mem': seq<Char>, argv: seq<Option<nat>>, done: seq<seq<Char>>, limit: nat)
    requires Stored(mem, argv, done, limit) && limit <= |mem| == |mem'| && forall j :: 0 <= j < limit ==> mem'[j] == mem[j]
    ensures Stored(mem', argv, done, limit)
  {
    forall k | 0 <= k < |done|
      ensures StringAt(mem', argv[k].value, done[k])
    {
      var p, n := argv[k].value, |done[k]|;
      assert StringAt(mem, p, done[k]);
      assert mem'[p..p + n] == mem[p..p + n];
    }
  }

  /** One round of the automaton: the next state, the character to write (0 ends the argument), and
      whether an argument begins. */
  function Step(st: SplitState, c: Char): (r: (SplitState, Option<Char>, bool))
  {
    match st
    case Space =>
      if c == SPACE then (Space, None, false)
      else if c == QUOTE then (QuotedArg, None, true)
      else if c == ESCAPE then (ArgEscaped, None, true)
      else (Arg, Some(c), true)
    case QuotedArg =>
      if c == QUOTE then (Space, Some(NUL), false)
      else if c == ESCAPE then (QuotedArgEscaped, None, false)
      else (QuotedArg, Some(c), false)
    case ArgEscaped => (Arg, if Escapable(c) then Some(c) else None, false)
    case QuotedArgEscaped => (QuotedArg, if Escapable(c) then Some(c) else None, false)
    case Arg =>
      if c == SPACE then (Space, Some(NUL), false)
      else if c == ESCAPE then (ArgEscaped, None, false)
      else (Arg, Some(c), false)
  }

  /** A round yields exactly the arguments it ends. */
  lemma StepYields(st: SplitState, cur: seq<Char>, s: seq<Char>)
    requires s != [] && s[0] != NUL && (st == Space ==> cur == [])
    ensures var (st', out, _) := Step(st, s[0]);
            && (out == Some(NUL) ==> st' == Space && Rest(st, cur, s) == [cur] + Rest(Space, [], s[1..]))
            && (out.None? ==> Rest(st, cur, s) == Rest(st', cur, s[1..]))
            && (out.Some? && out != Some(NUL) ==> Rest(st, cur, s) == Rest(st', cur + [out.value], s[1..]))
  {
    assert cur + [] == cur;
    assert [] + [s[0]] == [s[0]];
    if st == Space {
      RestInSpace(s);
    } else {
      RestInArg(st, cur, s);
    }
  }

  /** What is true between two rounds: `done` are the finished arguments, `cur` the written part of
      the current one, `i` characters are read, and writing never overtakes reading. */
  ghost predicate LoopInv(mem: seq<Char>, argv: seq<Option<nat>>, line: seq<Char>, st: SplitState,
                          done: seq<seq<Char>>, cur: seq<Char>, start: nat, out: nat, i: nat)
  {
    && i <= |line| < |mem| && out <= i
    && (forall k :: i <= k < |line| ==> mem[k] == line[k]) && mem[|line|] == NUL
    && Tokens(line) == done + Rest(st, cur, line[i..])
    && (if st == Space then cur == [] else start + |cur| == out && mem[start..out] == cur)
    && Stored(mem, argv, done, if st == Space then out else start)
  }

  /** A round that writes nothing. */
  lemma RoundWithoutOutput(mem: seq<Char>, argv: seq<Option<nat>>, line: seq<Char>, st: SplitState,
                           done: seq<seq<Char>>, cur: seq<Char>, start: nat, out: nat, i: nat)
    requires NoNul(line) && i < |line| && LoopInv(mem, argv, line, st, done, cur, start, out, i)
    requires Step(st, line[i]).1.None?
    ensures var (st', _, begins) := Step(st, line[i]);
            LoopInv(mem, argv, line, st', done, cur, if begins then out else start, out, i + 1)
  {
    assert line[i..][1..] == line[i + 1..];
    StepYields(st, cur, line[i..]);
  }

  /** A round that writes a character of the current argument. */
  lemma RoundWithCharacter(mem: seq<Char>, argv: seq<Option<nat>>, line: seq<Char>, st: SplitState,
                           done: seq<seq<Char>>, cur: seq<Char>, start: nat, out: nat, i: nat)
    requires NoNul(line) && i < |line| && LoopInv(mem, argv, line, st, done, cur, start, out, i)
    requires Step(st, line[i]).1.Some? && Step(st, line[i]).1 != Some(NUL)
    ensures var (st', c, begins) := Step(st, line[i]);
            LoopInv(mem[out := c.value], argv, line, st', done, cur + [c.value], if begins then out else start, out + 1, i + 1)
  {
    assert line[i..][1..] == line[i + 1..];
    StepYields(st, cur, line[i..]);
    var (st', c, begins) := Step(st, line[i]);
    StoredAfterWrite(mem, mem[out := c.value], argv, done, if st == Space then out else start);
    var from := if begins then out else start;
    assert mem[out := c.value][from..out + 1] == mem[from..out] + [c.value];
  }

  /** A round that ends the current argument. */
  lemma RoundWithEnd(mem: seq<Char>, argv: seq<Option<nat>>, line: seq<Char>, st: SplitState,
                     done: seq<seq<Char>>, cur: seq<Char>, start: nat, out: nat, i: nat)
    requires NoNul(line) && i < |line| && LoopInv(mem, argv, line, st, done, cur, start, out, i)
    requires Step(st, line[i]).1 == Some(NUL) && |done| < |argv|
    ensures LoopInv(mem[out := NUL], argv[|done| := Some(start)], line, Space, done + [cur], [], start, out + 1, i + 1)
  {
    assert line[i..][1..] == line[i + 1..];
    StepYields(st, cur, line[i..]);
    assert done + ([cur] + Rest(Space, [], line[i + 1..])) == done + [cur] + Rest(Space, [], line[i + 1..]);
    StoredAfterWrite(mem, mem[out := NUL], argv, done, start);
    var mem' := mem[out := NUL];
    assert mem'[start..start + |cur|] == mem[start..out];
    assert StringAt(mem', start, cur);
  }

  lemma RestAtEnd(st: SplitState, cur: seq<Char>)
    ensures Rest(st, cur, []) == if st == Space then [] else [cur]
  {
    assert cur + [] == cur;
  }

  /** At the end: terminating and storing the argument being written completes the list. */
  lemma LastArgument(mem: seq<Char>, argv: seq<Option<nat>>, line: seq<Char>, st: SplitState,
                     done: seq<seq<Char>>, cur: seq<Char>, start: nat, out: nat, i: nat)
    requires LoopInv(mem, argv, line, st, done, cur, start, out, i)
    ensures Stored(mem[out := NUL], argv, done, out) && done <= Tokens(line)
    ensures i == |line| ==> Tokens(line) == if st == Space then done else done + [cur]
    ensures st != Space ==> StringAt(mem[out := NUL], start, cur)
  {
    TerminatedAt(mem, argv, st, done, cur, start, out);
    hide Stored, StringAt;
    if i == |line| {
      assert line[i..] == [];
      RestAtEnd(st, cur);
      assert done + [] == done;
    }
  }

  lemma TerminatedAt(mem: seq<Char>, argv: seq<Option<nat>>, st: SplitState,
                     done: seq<seq<Char>>, cur: seq<Char>, start: nat, out: nat)
    requires out < |mem| && Stored(mem, argv, done, if st == Space then out else start)
    requires st != Space ==> start + |cur| == out && mem[start..out] == cur
    ensures Stored(mem[out := NUL], argv, done, out)
    ensures st != Space ==> StringAt(mem[out := NUL], start, cur)
  {
    StoredAfterWrite(mem, mem[out := NUL], argv, done, if st == Space then out else start);
    if st != Space {
      assert mem[out := NUL][start..start + |cur|] == mem[start..out];
    }
  }

  // The switch of the loop body: next state, start of the argument, and the character to write;
  // `ended` is END_ARG.
  method Switch(state: SplitState, charIn: Char, start: nat, outPtr: nat)
    returns (next: SplitState, nextStart: nat, charOut: int, ended: bool)
    ensures var (st, out, begins) := Step(state, charIn);
            && next == st && nextStart == (if begins then outPtr else start)
            && (ended <==> out == Some(NUL) && state != Space && charIn != NUL)
            && (ended ==> charOut == 0)
            && (charIn != NUL && !ended ==> if out.Some? then charOut == out.value as int else charOut < 0)
  {
    next, nextStart, charOut, ended := state, start, -1, false;
    match state {
      case Space =>
        if charIn == SPACE {
        } else if charIn == QUOTE {
          nextStart := outPtr;
          next := QuotedArg;
        } else if charIn == ESCAPE {
          nextStart := outPtr;
          next := ArgEscaped;
        } else {
          nextStart := outPtr;
          next := Arg;
          charOut := charIn;
        }
      case QuotedArg =>
        if charIn == QUOTE {
          charOut, ended, next := 0, true, Space;
        } else if charIn == ESCAPE {
          next := QuotedArgEscaped;
        } else {
          charOut := charIn;
        }
      case ArgEscaped =>
        if Escapable(charIn) {
          charOut := charIn;
        }
        next := Arg;
      case QuotedArgEscaped =>
        if Escapable(charIn) {
          charOut := charIn;
        }
        next := QuotedArg;
      case Arg =>
        if charIn == SPACE {
          charOut, ended, next := 0, true, Space;
        } else if charIn == ESCAPE {
          next := ArgEscaped;
        } else {
          charOut := charIn;
        }
    }
  }

  // The loop body.
  method Round(buf: array<Char>, argv: array<Option<nat>>, ghost line: seq<Char>, st: SplitState, argc: nat,
               start: nat, out: nat, i: nat, ghost done: seq<seq<Char>>, ghost cur: seq<Char>)
    returns (st': SplitState, argc': nat, start': nat, out': nat, ghost done': seq<seq<Char>>, ghost cur': seq<Char>)
    requires NoNul(line) && argc == |done| < argv.Length && i < |line|
    requires LoopInv(buf[..], argv[..], line, st, done, cur, start, out, i)
    modifies buf, argv
    ensures argc' == |done'| <= argv.Length && (argc' == argc || (argc' == argc + 1 && st' == Space))
    ensures LoopInv(buf[..], argv[..], line, st', done', cur', start', out', i + 1)
  {
    var charOut, ended;
    ghost var mem, av := buf[..], argv[..];
    st', start', charOut, ended := Switch(st, buf[i], start, out);
    argc', out', done', cur' := argc, out, done, cur;
    if ended {
      RoundWithEnd(mem, av, line, st, done, cur, start, out, i);
      argv[argc] := Some(start');
      argc' := argc + 1;
      done', cur' := done + [cur], [];
    } else if charOut >= 0 {
      RoundWithCharacter(mem, av, line, st, done, cur, start, out, i);
      cur' := cur + [charOut];
    } else {
      RoundWithoutOutput(mem, av, line, st, done, cur, start, out, i);
    }
    if charOut >= 0 {
      buf[out] := charOut;
      assert buf[..] == mem[out := charOut];
      out' := out + 1;
    }
  }

  /** The in-place splitter.  `buf` holds a C string `line`; afterwards argv points at C strings
      inside `buf` that are the first argv.Length - 1 arguments of the line, and ends with NULL. */
  method SplitInPlace(buf: array<Char>, argv: array<Option<nat>>, ghost line: seq<Char>) returns (argc: nat)
    requires NoNul(line) && |line| < buf.Length && buf[..|line|] == line && buf[|line|] == NUL
    requires argv.Length >= 1
    modifies buf, argv
    ensures argc == if |Tokens(line)| < argv.Length then |Tokens(line)| else argv.Length - 1
    ensures forall k :: 0 <= k < argc ==> argv[k].Some? && StringAt(buf[..], argv[k].value, Tokens(line)[k])
    ensures argv[argc] == None
  {
    var state := Space;
    var start: nat, out: nat, i: nat := 0, 0, 0;
    argc := 0;
    ghost var done: seq<seq<Char>>, cur: seq<Char> := [], [];
    assert line[0..] == line;
    while argc < argv.Length - 1 && buf[i] != NUL
      invariant argc == |done| <= argv.Length - 1
      invariant argc == argv.Length - 1 ==> state == Space
      invariant LoopInv(buf[..], argv[..], line, state, done, cur, start, out, i)
      decreases |line| - i
    {
      state, argc, start, out, done, cur := Round(buf, argv, line, state, argc, start, out, i, done, cur);
      i := i + 1;
    }
    LastArgument(buf[..], argv[..], line, state, done, cur, start, out, i);
    ghost var mem := buf[..];
    buf[out] := NUL;
    assert buf[..] == mem[out := NUL];
    if state != Space && argc < argv.Length - 1 {
      argv[argc] := Some(start);
      argc := argc + 1;
    }
    argv[argc] := None;
  }
}
