/** The language of xv6-riscv/user/sh.c: tokens, command trees, what each parser routine accepts of a
    list of tokens, and a printer that writes only the parentheses precedence needs. */
module ShellSyntax {

  datatype Option<T> = None | Some(value: T)

  /** Sym('+') is ">>". */
  datatype Token = Word(w: string) | Sym(c: char)

  /** "<", ">" and ">>". */
  datatype Mode = Read | Truncate | Append

  datatype Cmd =
    | Exec(argv: seq<string>)
    | Redir(cmd: Cmd, file: string, mode: Mode)
    | Pipe(left: Cmd, right: Cmd)
    | List(left: Cmd, right: Cmd)
    | Back(cmd: Cmd)

  const MAXARGS: nat := 10

  // ----- The parser's routines, on tokens; None is a panic -----

  predicate Head(ts: seq<Token>, cs: set<char>) {
    ts != [] && ts[0].Sym? && ts[0].c in cs
  }

  function ModeOf(c: char): Mode {
    if c == '<' then Read else if c == '>' then Truncate else Append
  }

  /** A word more for the command under the redirections. */
  function AddArg(c: Cmd, w: string): Cmd {
    match c
    case Exec(argv) => Exec(argv + [w])
    case Redir(d, f, m) => Redir(AddArg(d, w), f, m)
    case _ => c
  }

  function Redirs(c: Cmd, ts: seq<Token>): (r: Option<(Cmd, seq<Token>)>)
    ensures r.Some? ==> |r.value.1| <= |ts|
    decreases |ts|
  {
    if !Head(ts, {'<', '>', '+'}) then Some((c, ts))
    else if |ts| >= 2 && ts[1].Word? then Redirs(Redir(c, ts[1].w, ModeOf(ts[0].c)), ts[2..])
    else None
  }

  function Args(c: Cmd, argc: nat, ts: seq<Token>): (r: Option<(Cmd, seq<Token>)>)
    ensures r.Some? ==> |r.value.1| <= |ts|
    decreases |ts|
  {
    if ts == [] || Head(ts, {'|', ')', '&', ';'}) then Some((c, ts))
    else if ts[0].Sym? || argc + 1 >= MAXARGS then None
    else
      match Redirs(AddArg(c, ts[0].w), ts[1..])
      case None => None
      case Some((d, rest)) => Args(d, argc + 1, rest)
  }

  function ExecOf(ts: seq<Token>): (r: Option<(Cmd, seq<Token>)>)
    ensures r.Some? ==> |r.value.1| <= |ts|
    decreases |ts|, 1
  {
    if Head(ts, {'('}) then Block(ts)
    else
      match Redirs(Exec([]), ts)
      case None => None
      case Some((c, rest)) => Args(c, 0, rest)
  }

  function Block(ts: seq<Token>): (r: Option<(Cmd, seq<Token>)>)
    requires Head(ts, {'('})
    ensures r.Some? ==> |r.value.1| <= |ts|
    decreases |ts|, 0
  {
    match Line(ts[1..])
    case None => None
    case Some((c, rest)) => if Head(rest, {')'}) then Redirs(c, rest[1..]) else None
  }

  function PipeOf(ts: seq<Token>): (r: Option<(Cmd, seq<Token>)>)
    ensures r.Some? ==> |r.value.1| <= |ts|
    decreases |ts|, 2
  {
    match ExecOf(ts)
    case None => None
    case Some((c, rest)) =>
      if Head(rest, {'|'}) then
        match PipeOf(rest[1..])
        case None => None
        case Some((d, rest2)) => Some((Pipe(c, d), rest2))
      else Some((c, rest))
  }

  function Line(ts: seq<Token>): (r: Option<(Cmd, seq<Token>)>)
    ensures r.Some? ==> |r.value.1| <= |ts|
    decreases |ts|, 4
  {
    match PipeOf(ts)
    case None => None
    case Some((c, rest)) => Tail(c, rest)
  }

  /** What follows a pipe in parseline. */
  function Tail(c: Cmd, ts: seq<Token>): (r: Option<(Cmd, seq<Token>)>)
    ensures r.Some? ==> |r.value.1| <= |ts|
    decreases |ts|, 3
  {
    if Head(ts, {'&'}) then Tail(Back(c), ts[1..])
    else if Head(ts, {';'}) then
      match Line(ts[1..])
      case None => None
      case Some((d, rest)) => Some((List(c, d), rest))
    else Some((c, ts))
  }

  /** parsecmd. */
  function Whole(ts: seq<Token>): Option<Cmd> {
    match Line(ts)
    case None => None
    case Some((c, rest)) => if rest == [] then Some(c) else None
  }

  // ----- The printer -----

  /** What the redirections of a command apply to. */
  function Base(c: Cmd): Cmd {
    if c.Redir? then Base(c.cmd) else c
  }

  function ModeSym(m: Mode): char {
    match m case Read => '<' case Truncate => '>' case Append => '+'
  }

  function RedirTokens(c: Cmd): seq<Token> {
    if c.Redir? then RedirTokens(c.cmd) + [Sym(ModeSym(c.mode)), Word(c.file)] else []
  }

  function Words(argv: seq<string>): (r: seq<Token>)
    ensures |r| == |argv|
  {
    seq(|argv|, i requires 0 <= i < |argv| => Word(argv[i]))
  }

  /** Which of the four printers comes down to which on the same command. */
  function Rank(c: Cmd, level: nat): nat
  {
    if c.List? then (if level == 0 then 0 else if level <= 3 then 5 - level else 0)
    else if c.Back? then (if level == 1 then 0 else if level == 0 then 1 else if level == 3 then 2 else 3)
    else if c.Pipe? then (if level == 2 then 0 else if level == 1 then 1 else if level == 0 then 2 else 3)
    else 3 - (if level <= 3 then level else 3)
  }

  function PrintLine(c: Cmd): seq<Token>
    decreases c, Rank(c, 0)
  {
    if c.List? then PrintBack(c.left) + [Sym(';')] + PrintLine(c.right) else PrintBack(c)
  }

  function PrintBack(c: Cmd): seq<Token>
    decreases c, Rank(c, 1)
  {
    if c.Back? then PrintBack(c.cmd) + [Sym('&')] else PrintPipe(c)
  }

  function PrintPipe(c: Cmd): seq<Token>
    decreases c, Rank(c, 2)
  {
    if c.Pipe? then PrintExec(c.left) + [Sym('|')] + PrintPipe(c.right) else PrintExec(c)
  }

  function PrintExec(c: Cmd): seq<Token>
    decreases c, Rank(c, 3)
  {
    if Base(c).Exec? then Words(Base(c).argv) + RedirTokens(c)
    else if c.Redir? then (BaseSmaller(c); [Sym('(')] + PrintLine(Base(c)) + [Sym(')')] + RedirTokens(c))
    else [Sym('(')] + PrintLine(c) + [Sym(')')]
  }

  lemma {:induction false} BaseSmaller(c: Cmd)
    requires c.Redir?
    ensures Base(c) < c && !Base(c).Redir?
  {
    if c.cmd.Redir? { BaseSmaller(c.cmd); }
  }

  /** At most 9 words a command, as the parser allows. */
  ghost predicate Printable(c: Cmd) {
    match c
    case Exec(argv) => |argv| < MAXARGS
    case Redir(d, _, _) => Printable(d)
    case Pipe(l, r) => Printable(l) && Printable(r)
    case List(l, r) => Printable(l) && Printable(r)
    case Back(d) => Printable(d)
  }

  // ----- Parsing what was printed -----

  /** Where an operand ends. */
  predicate Ends(ts: seq<Token>, cs: set<char>) { ts == [] || Head(ts, cs) }

  lemma {:induction false} RedirsTrip(c: Cmd, rest: seq<Token>)
    requires Ends(rest, {'|', ')', '&', ';'})
    ensures Redirs(Base(c), RedirTokens(c) + rest) == Some((c, rest))
  {
    RedirsPrefix(c, rest);
  }

  lemma {:induction false} RedirsPrefix(c: Cmd, rest: seq<Token>)
    ensures Redirs(Base(c), RedirTokens(c) + rest) == Redirs(c, rest)
  {
    if c.Redir? {
      var more := [Sym(ModeSym(c.mode)), Word(c.file)] + rest;
      assert RedirTokens(c) + rest == RedirTokens(c.cmd) + more;
      RedirsPrefix(c.cmd, more);
      assert more[2..] == rest;
    } else {
      assert RedirTokens(c) + rest == rest;
    }
  }

  /** Words of the command, and then its redirections. */
  lemma {:induction false} ArgsTrip(c: Cmd, done: seq<string>, todo: seq<string>, rest: seq<Token>)
    requires Base(c).Exec? && Base(c).argv == done + todo && |done + todo| < MAXARGS && todo != []
    requires Ends(rest, {'|', ')', '&', ';'})
    ensures Args(Exec(done), |done|, Words(todo) + (RedirTokens(c) + rest)) == Some((c, rest))
    decreases |todo|
  {
    var ts := Words(todo) + (RedirTokens(c) + rest);
    assert ts[1..] == Words(todo[1..]) + (RedirTokens(c) + rest);
    var d2 := done + [todo[0]];
    assert d2 + todo[1..] == done + todo;
    if |todo| == 1 {
      assert todo[1..] == [] && Words(todo[1..]) == [];
      assert ts[1..] == RedirTokens(c) + rest;
      assert Base(c) == Exec(d2);
      RedirsTrip(c, rest);
    } else {
      assert ts[1] == Word(todo[1]);
      ArgsTrip(c, d2, todo[1..], rest);
    }
  }

  lemma {:induction false} ExecTrip(c: Cmd, rest: seq<Token>)
    requires Printable(c) && Ends(rest, {'|', ')', '&', ';'})
    ensures ExecOf(PrintExec(c) + rest) == Some((c, rest))
    decreases c, Rank(c, 3)
  {
    var ts := PrintExec(c) + rest;
    if Base(c).Exec? {
      PlainTrip(c, rest);
    } else if c.Redir? {
      BaseSmaller(c);
      PrintableBase(c);
      var close := [Sym(')')] + (RedirTokens(c) + rest);
      assert ts == [Sym('(')] + (PrintLine(Base(c)) + close);
      LineTrip(Base(c), close);
      assert ts[1..] == PrintLine(Base(c)) + close && close[1..] == RedirTokens(c) + rest;
      RedirsTrip(c, rest);
    } else {
      var close := [Sym(')')] + rest;
      assert ts == [Sym('(')] + (PrintLine(c) + close);
      LineTrip(c, close);
      assert ts[1..] == PrintLine(c) + close && close[1..] == rest;
    }
  }

  lemma PlainTrip(c: Cmd, rest: seq<Token>)
    requires Printable(c) && Base(c).Exec? && Ends(rest, {'|', ')', '&', ';'})
    ensures ExecOf(Words(Base(c).argv) + RedirTokens(c) + rest) == Some((c, rest))
  {
    PrintableBase(c);
    var argv := Base(c).argv;
    var ts := Words(argv) + RedirTokens(c) + rest;
    assert ts == Words(argv) + (RedirTokens(c) + rest);
    if argv == [] {
      assert ts == RedirTokens(c) + rest;
      RedirsTrip(c, rest);
      RedirsStart(c, rest);
    } else {
      assert ts[0] == Word(argv[0]);
      assert [] + argv == argv;
      ArgsTrip(c, [], argv, rest);
    }
  }

  lemma {:induction false} RedirsStart(c: Cmd, rest: seq<Token>)
    requires Ends(rest, {'|', ')', '&', ';'})
    ensures !Head(RedirTokens(c) + rest, {'('})
  {
    if c.Redir? {
      var more := [Sym(ModeSym(c.mode)), Word(c.file)] + rest;
      assert RedirTokens(c) + rest == RedirTokens(c.cmd) + more;
      if c.cmd.Redir? { RedirsFirst(c.cmd); }
    } else {
      assert RedirTokens(c) + rest == rest;
    }
  }

  lemma {:induction false} RedirsFirst(c: Cmd)
    requires c.Redir?
    ensures RedirTokens(c) != [] && Head(RedirTokens(c), {'<', '>', '+'})
  {
    if c.cmd.Redir? { RedirsFirst(c.cmd); }
  }

  lemma {:induction false} PrintableBase(c: Cmd)
    requires Printable(c)
    ensures Printable(Base(c))
  {
    if c.Redir? { PrintableBase(c.cmd); }
  }

  lemma {:induction false} PipeTrip(c: Cmd, rest: seq<Token>)
    requires Printable(c) && Ends(rest, {')', '&', ';'})
    ensures PipeOf(PrintPipe(c) + rest) == Some((c, rest))
    decreases c, Rank(c, 2)
  {
    hide ExecOf, PrintExec;
    if c.Pipe? {
      var more := [Sym('|')] + (PrintPipe(c.right) + rest);
      assert PrintPipe(c) + rest == PrintExec(c.left) + more;
      ExecTrip(c.left, more);
      assert more[1..] == PrintPipe(c.right) + rest;
      PipeTrip(c.right, rest);
    } else {
      ExecTrip(c, rest);
    }
  }

  lemma {:induction false} BackTrip(c: Cmd, rest: seq<Token>)
    requires Printable(c) && Ends(rest, {')', '&', ';'})
    ensures Line(PrintBack(c) + rest) == Tail(c, rest)
    decreases c, Rank(c, 1)
  {
    if c.Back? {
      var more := [Sym('&')] + rest;
      assert PrintBack(c) + rest == PrintBack(c.cmd) + more;
      BackTrip(c.cmd, more);
      assert more[1..] == rest;
    } else {
      PipeTrip(c, rest);
    }
  }

  lemma {:induction false} LineTrip(c: Cmd, rest: seq<Token>)
    requires Printable(c) && Ends(rest, {')'})
    ensures Line(PrintLine(c) + rest) == Some((c, rest))
    decreases c, Rank(c, 0)
  {
    if c.List? {
      var more := [Sym(';')] + (PrintLine(c.right) + rest);
      assert PrintLine(c) + rest == PrintBack(c.left) + more;
      BackTrip(c.left, more);
      assert more[1..] == PrintLine(c.right) + rest;
      LineTrip(c.right, rest);
    } else {
      BackTrip(c, rest);
    }
  }

  /** Parsing a printed command gives the command. */
  lemma RoundTrip(c: Cmd)
    requires Printable(c)
    ensures Whole(PrintLine(c)) == Some(c)
  {
    assert PrintLine(c) + [] == PrintLine(c);
    LineTrip(c, []);
  }

  // ----- Every tree the parser builds can be printed -----

  lemma {:induction false} RedirsPrintable(c: Cmd, ts: seq<Token>)
    requires Printable(c)
    ensures Redirs(c, ts).Some? ==> Printable(Redirs(c, ts).value.0) && Base(Redirs(c, ts).value.0) == Base(c)
    decreases |ts|
  {
    if Head(ts, {'<', '>', '+'}) && |ts| >= 2 && ts[1].Word? {
      RedirsPrintable(Redir(c, ts[1].w, ModeOf(ts[0].c)), ts[2..]);
    }
  }

  lemma {:induction false} AddArgPrintable(c: Cmd, w: string)
    requires Printable(c) && Base(c).Exec? && |Base(c).argv| + 1 < MAXARGS
    ensures Printable(AddArg(c, w)) && Base(AddArg(c, w)) == Exec(Base(c).argv + [w])
  {
    if c.Redir? { AddArgPrintable(c.cmd, w); }
  }

  lemma {:induction false} ArgsPrintable(c: Cmd, argc: nat, ts: seq<Token>)
    requires Printable(c) && Base(c).Exec? && |Base(c).argv| == argc
    ensures Args(c, argc, ts).Some? ==> Printable(Args(c, argc, ts).value.0)
    decreases |ts|
  {
    if ts != [] && ts[0].Word? && argc + 1 < MAXARGS {
      AddArgPrintable(c, ts[0].w);
      var d := AddArg(c, ts[0].w);
      RedirsPrintable(d, ts[1..]);
      if Redirs(d, ts[1..]).Some? {
        ArgsPrintable(Redirs(d, ts[1..]).value.0, argc + 1, Redirs(d, ts[1..]).value.1);
      }
    }
  }

  lemma {:induction false} ExecPrintable(ts: seq<Token>)
    ensures ExecOf(ts).Some? ==> Printable(ExecOf(ts).value.0)
    decreases |ts|, 1
  {
    if Head(ts, {'('}) {
      LinePrintable(ts[1..]);
      if Line(ts[1..]).Some? && Head(Line(ts[1..]).value.1, {')'}) {
        RedirsPrintable(Line(ts[1..]).value.0, Line(ts[1..]).value.1[1..]);
      }
    } else {
      RedirsPrintable(Exec([]), ts);
      if Redirs(Exec([]), ts).Some? {
        ArgsPrintable(Redirs(Exec([]), ts).value.0, 0, Redirs(Exec([]), ts).value.1);
      }
    }
  }

  lemma {:induction false} PipePrintable(ts: seq<Token>)
    ensures PipeOf(ts).Some? ==> Printable(PipeOf(ts).value.0)
    decreases |ts|, 2
  {
    ExecPrintable(ts);
    if ExecOf(ts).Some? && Head(ExecOf(ts).value.1, {'|'}) {
      PipePrintable(ExecOf(ts).value.1[1..]);
    }
  }

  lemma {:induction false} LinePrintable(ts: seq<Token>)
    ensures Line(ts).Some? ==> Printable(Line(ts).value.0)
    decreases |ts|, 4
  {
    PipePrintable(ts);
    if PipeOf(ts).Some? {
      TailPrintable(PipeOf(ts).value.0, PipeOf(ts).value.1);
    }
  }

  lemma {:induction false} TailPrintable(c: Cmd, ts: seq<Token>)
    requires Printable(c)
    ensures Tail(c, ts).Some? ==> Printable(Tail(c, ts).value.0)
    decreases |ts|, 3
  {
    if Head(ts, {'&'}) {
      TailPrintable(Back(c), ts[1..]);
    } else if Head(ts, {';'}) {
      LinePrintable(ts[1..]);
    }
  }

  /** So printing what was parsed, and parsing that, gives the same tree. */
  lemma Reparse(ts: seq<Token>)
    ensures Whole(ts).Some? ==> Whole(PrintLine(Whole(ts).value)) == Whole(ts)
  {
    LinePrintable(ts);
    if Whole(ts).Some? {
      RoundTrip(Whole(ts).value);
    }
  }

  // ----- The printer writes the fewest parentheses -----

  function Parens(ts: seq<Token>): nat {
    if ts == [] then 0 else (if ts[0] == Sym('(') then 1 else 0) + Parens(ts[1..])
  }

  lemma {:induction false} ParensAdd(a: seq<Token>, b: seq<Token>)
    ensures Parens(a + b) == Parens(a) + Parens(b)
  {
    if a == [] {
      assert a + b == b;
    } else {
      ParensAdd(a[1..], b);
      assert (a + b)[1..] == a[1..] + b;
    }
  }

  lemma {:induction false} ParensNone(ts: seq<Token>)
    requires forall i :: 0 <= i < |ts| ==> ts[i] != Sym('(')
    ensures Parens(ts) == 0
  {
    if ts == [] {
    } else {
      ParensNone(ts[1..]);
    }
  }

  lemma {:induction false} RedirParens(c: Cmd)
    ensures Parens(RedirTokens(c)) == 0
  {
    if c.Redir? {
      RedirParens(c.cmd);
      var last := [Sym(ModeSym(c.mode)), Word(c.file)];
      ParensNone(last);
      ParensAdd(RedirTokens(c.cmd), last);
    } else {
    }
  }

  /** What each printer writes, in parentheses. */
  lemma ExecParens(c: Cmd)
    ensures Base(c).Exec? ==> Parens(PrintExec(c)) == 0
    ensures !Base(c).Exec? ==> Parens(PrintExec(c)) == 1 + Parens(PrintLine(Base(c)))
  {
    RedirParens(c);
    if Base(c).Exec? {
      ParensNone(Words(Base(c).argv));
      ParensAdd(Words(Base(c).argv), RedirTokens(c));
    } else {
      if c.Redir? { BaseSmaller(c); }
      var open: seq<Token>, close: seq<Token> := [Sym('(')], [Sym(')')];
      ParensAdd(open, PrintLine(Base(c)));
      ParensAdd(open + PrintLine(Base(c)), close);
      ParensAdd(open + PrintLine(Base(c)) + close, RedirTokens(c));
      assert RedirTokens(Base(c)) == [] || c.Redir?;
      assert !c.Redir? ==> PrintExec(c) == open + PrintLine(Base(c)) + close;
    }
  }

  lemma OpParens(c: Cmd)
    ensures c.Pipe? ==> Parens(PrintPipe(c)) == Parens(PrintExec(c.left)) + Parens(PrintPipe(c.right))
    ensures c.Back? ==> Parens(PrintBack(c)) == Parens(PrintBack(c.cmd))
    ensures c.List? ==> Parens(PrintLine(c)) == Parens(PrintBack(c.left)) + Parens(PrintLine(c.right))
  {
    if c.Pipe? {
      ParensAdd(PrintExec(c.left), [Sym('|')]);
      ParensAdd(PrintExec(c.left) + [Sym('|')], PrintPipe(c.right));
    } else if c.Back? {
      ParensAdd(PrintBack(c.cmd), [Sym('&')]);
    } else if c.List? {
      ParensAdd(PrintBack(c.left), [Sym(';')]);
      ParensAdd(PrintBack(c.left) + [Sym(';')], PrintLine(c.right));
    }
  }

  /** A command in a place that binds more loosely needs no more of them. */
  lemma LooserParens(c: Cmd)
    ensures Parens(PrintLine(c)) <= Parens(PrintBack(c)) <= Parens(PrintPipe(c)) <= Parens(PrintExec(c))
  {
    ExecParens(c);
    OpParens(c);
  }

  lemma {:induction false} RedirsParens(c: Cmd, ts: seq<Token>)
    ensures Redirs(c, ts).Some? ==>
              Parens(Redirs(c, ts).value.1) == Parens(ts) && Base(Redirs(c, ts).value.0) == Base(c)
    decreases |ts|
  {
    if Head(ts, {'<', '>', '+'}) && |ts| >= 2 && ts[1].Word? {
      RedirsParens(Redir(c, ts[1].w, ModeOf(ts[0].c)), ts[2..]);
      assert ts[1..][1..] == ts[2..];
    } else {
    }
  }

  lemma {:induction false} AddArgBase(c: Cmd, w: string)
    requires Base(c).Exec?
    ensures Base(AddArg(c, w)).Exec?
  {
    if c.Redir? {
      AddArgBase(c.cmd, w);
    } else {
    }
  }

  lemma {:induction false} ArgsParens(c: Cmd, argc: nat, ts: seq<Token>)
    requires Base(c).Exec?
    ensures Args(c, argc, ts).Some? ==>
              Parens(Args(c, argc, ts).value.1) == Parens(ts) && Base(Args(c, argc, ts).value.0).Exec?
    decreases |ts|
  {
    if ts != [] && ts[0].Word? && argc + 1 < MAXARGS {
      var d := AddArg(c, ts[0].w);
      AddArgBase(c, ts[0].w);
      RedirsParens(d, ts[1..]);
      if Redirs(d, ts[1..]).Some? {
        ArgsParens(Redirs(d, ts[1..]).value.0, argc + 1, Redirs(d, ts[1..]).value.1);
      }
    } else {
    }
  }

  /** What a routine took of the line holds at least the parentheses its tree is printed with. */
  lemma {:induction false} ExecFewest(ts: seq<Token>)
    ensures ExecOf(ts).Some? ==> Parens(PrintExec(ExecOf(ts).value.0)) + Parens(ExecOf(ts).value.1) <= Parens(ts)
    decreases |ts|, 1
  {
    if ExecOf(ts).Some? {
      ExecParens(ExecOf(ts).value.0);
      if Head(ts, {'('}) {
        assert ExecOf(ts) == Block(ts);
        LineFewest(ts[1..]);
        var (c, rest) := Line(ts[1..]).value;
        RedirsParens(c, rest[1..]);
        ExecParens(c);
        LooserParens(c);
        InsideParens(c);
      } else {
        RedirsParens(Exec([]), ts);
        ArgsParens(Redirs(Exec([]), ts).value.0, 0, Redirs(Exec([]), ts).value.1);
      }
    }
  }

  /** A redirected command in parentheses has them already. */
  lemma InsideParens(c: Cmd)
    ensures !Base(c).Exec? ==> Parens(PrintLine(Base(c))) <= Parens(PrintLine(c))
  {
    if c.Redir? && !Base(c).Exec? {
      assert PrintBack(c) == PrintPipe(c) == PrintExec(c);
      ExecParens(c);
    }
  }

  lemma {:induction false} PipeFewest(ts: seq<Token>)
    ensures PipeOf(ts).Some? ==> Parens(PrintPipe(PipeOf(ts).value.0)) + Parens(PipeOf(ts).value.1) <= Parens(ts)
    decreases |ts|, 2
  {
    ExecFewest(ts);
    if PipeOf(ts).Some? {
      var (c, rest) := ExecOf(ts).value;
      LooserParens(c);
      if Head(rest, {'|'}) {
        PipeFewest(rest[1..]);
        OpParens(PipeOf(ts).value.0);
      }
    }
  }

  lemma {:induction false} LineFewest(ts: seq<Token>)
    ensures Line(ts).Some? ==> Parens(PrintLine(Line(ts).value.0)) + Parens(Line(ts).value.1) <= Parens(ts)
    decreases |ts|, 4
  {
    PipeFewest(ts);
    if PipeOf(ts).Some? {
      var (c, rest) := PipeOf(ts).value;
      LooserParens(c);
      TailFewest(c, rest);
    }
  }

  lemma {:induction false} TailFewest(c: Cmd, ts: seq<Token>)
    ensures Tail(c, ts).Some? ==>
              Parens(PrintLine(Tail(c, ts).value.0)) + Parens(Tail(c, ts).value.1) <= Parens(PrintBack(c)) + Parens(ts)
    decreases |ts|, 3
  {
    if Head(ts, {'&'}) {
      OpParens(Back(c));
      TailFewest(Back(c), ts[1..]);
    } else if Head(ts, {';'}) {
      LineFewest(ts[1..]);
      if Tail(c, ts).Some? {
        OpParens(Tail(c, ts).value.0);
      }
    } else {
      LooserParens(c);
    }
  }

  /** Of all the lines that parse to a tree, none has fewer parentheses than the printed one. */
  lemma FewestParens(c: Cmd, ts: seq<Token>)
    requires Whole(ts) == Some(c)
    ensures Whole(PrintLine(c)) == Some(c) && Parens(PrintLine(c)) <= Parens(ts)
  {
    Reparse(ts);
    LineFewest(ts);
  }
}
