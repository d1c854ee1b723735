/** What a command line says, told from the line alone: which of its words are arguments and which are
    files, and how commands are put together. The parser of ShellSyntax builds exactly this. */
module ShellGrammar {
  import opened ShellSyntax

  // ----- The words and files of a line -----

  /** "<", ">" or ">>": the word after it is a file. */
  predicate Opener(t: Token) { t == Sym('<') || t == Sym('>') || t == Sym('+') }

  predicate AfterOpener(ts: seq<Token>) { ts != [] && Opener(ts[|ts| - 1]) }

  /** The words that do not directly follow an opener, in order. */
  function LineWords(ts: seq<Token>): seq<string> {
    if ts == [] then []
    else
      var most, last := ts[..|ts| - 1], ts[|ts| - 1];
      LineWords(most) + if last.Word? && !AfterOpener(most) then [last.w] else []
  }

  /** The words that do, each with its opener. */
  function LineFiles(ts: seq<Token>): seq<(char, string)> {
    if ts == [] then []
    else
      var most, last := ts[..|ts| - 1], ts[|ts| - 1];
      LineFiles(most) + if last.Word? && AfterOpener(most) then [(most[|most| - 1].c, last.w)] else []
  }

  lemma LineLast(ts: seq<Token>)
    requires ts != []
    ensures var most, last := ts[..|ts| - 1], ts[|ts| - 1];
            && LineWords(ts) == LineWords(most) + (if last.Word? && !AfterOpener(most) then [last.w] else [])
            && LineFiles(ts) == LineFiles(most) + if last.Word? && AfterOpener(most) then [(most[|most| - 1].c, last.w)] else []
  {
  }

  lemma {:induction false} LineAdd(a: seq<Token>, b: seq<Token>)
    requires !AfterOpener(a)
    ensures LineWords(a + b) == LineWords(a) + LineWords(b)
    ensures LineFiles(a + b) == LineFiles(a) + LineFiles(b)
    decreases |b|
  {
    hide LineWords, LineFiles;
    if b == [] {
      LineNone();
      assert a + b == a;
    } else {
      var most := b[..|b| - 1];
      LineAdd(a, most);
      LineLast(b);
      LineLast(a + b);
      assert (a + b)[..|a + b| - 1] == a + most;
      assert AfterOpener(a + most) <==> AfterOpener(most);
    }
  }

  lemma LineNone()
    ensures LineWords([]) == [] && LineFiles([]) == []
  {
  }

  lemma LineOne(t: Token)
    ensures LineWords([t]) == if t.Word? then [t.w] else []
    ensures LineFiles([t]) == []
  {
    assert [t][..0] == [];
    assert LineWords([]) == [] && LineFiles([]) == [];
  }

  lemma LineFile(t: Token, w: string)
    requires Opener(t)
    ensures LineWords([t, Word(w)]) == [] && LineFiles([t, Word(w)]) == [(t.c, w)]
  {
    assert [t, Word(w)][..1] == [t];
    LineOne(t);
  }

  // ----- The words and files of a tree -----

  /** The arguments of its commands, from left to right. */
  function CmdWords(c: Cmd): seq<string> {
    match c
    case Exec(argv) => argv
    case Redir(d, _, _) => CmdWords(d)
    case Pipe(l, r) => CmdWords(l) + CmdWords(r)
    case List(l, r) => CmdWords(l) + CmdWords(r)
    case Back(d) => CmdWords(d)
  }

  /** Its redirections, from left to right, those of one command innermost first. */
  function CmdFiles(c: Cmd): seq<(Mode, string)> {
    match c
    case Exec(_) => []
    case Redir(d, f, m) => CmdFiles(d) + [(m, f)]
    case Pipe(l, r) => CmdFiles(l) + CmdFiles(r)
    case List(l, r) => CmdFiles(l) + CmdFiles(r)
    case Back(d) => CmdFiles(d)
  }

  predicate Opens(ch: char, m: Mode) {
    (ch == '<' <==> m == Read) && (ch == '>' <==> m == Truncate) && (ch == '+' <==> m == Append)
  }

  predicate SameFiles(fs: seq<(Mode, string)>, gs: seq<(char, string)>) {
    |fs| == |gs| && forall i :: 0 <= i < |fs| ==> Opens(gs[i].0, fs[i].0) && fs[i].1 == gs[i].1
  }

  // ----- The grammar: what command a piece of a line says -----

  /** Words and redirections only. */
  predicate Plain(ts: seq<Token>) {
    forall i: nat :: i < |ts| ==> PlainAt(ts, i)
  }

  predicate PlainAt(ts: seq<Token>, i: nat)
    requires i < |ts|
  {
    ts[i].Word? || (Opener(ts[i]) && i + 1 < |ts| && ts[i + 1].Word?)
  }

  predicate OnlyFiles(ts: seq<Token>) { Plain(ts) && LineWords(ts) == [] }

  /** c is d under the redirections fs, the first of them innermost. */
  predicate Wraps(c: Cmd, d: Cmd, fs: seq<(char, string)>)
    decreases |fs|
  {
    if fs == [] then c == d
    else
      var last := fs[|fs| - 1];
      c.Redir? && c.file == last.1 && Opens(last.0, c.mode) && Wraps(c.cmd, d, fs[..|fs| - 1])
  }

  /** Words and redirections in any order: one command with those words, under those redirections. */
  predicate SaysSimple(c: Cmd, ts: seq<Token>) {
    Plain(ts) && Wraps(c, Exec(LineWords(ts)), LineFiles(ts))
  }

  /** A line in parentheses, and redirections for all of it. */
  ghost predicate SaysGroup(c: Cmd, ts: seq<Token>)
    decreases |ts|, 0
  {
    exists d: Cmd, k: nat :: k < |ts| && GroupAt(c, ts, d, k)
  }

  ghost predicate GroupAt(c: Cmd, ts: seq<Token>, d: Cmd, k: nat)
    requires k < |ts|
    decreases |ts|, 0, 0
  {
    && k > 0 && ts[0] == Sym('(') && ts[k] == Sym(')')
    && SaysLine(d, ts[1..k])
    && OnlyFiles(ts[k + 1..]) && Wraps(c, d, LineFiles(ts[k + 1..]))
  }

  ghost predicate SaysCommand(c: Cmd, ts: seq<Token>)
    decreases |ts|, 1
  {
    SaysSimple(c, ts) || SaysGroup(c, ts)
  }

  ghost predicate SaysPipe(c: Cmd, ts: seq<Token>)
    decreases |ts|, 2
  {
    || SaysCommand(c, ts)
    || (c.Pipe? && exists k: nat :: k < |ts| && PipeAt(c, ts, k))
  }

  ghost predicate PipeAt(c: Cmd, ts: seq<Token>, k: nat)
    requires c.Pipe? && k < |ts|
    decreases |ts|, 0
  {
    ts[k] == Sym('|') && SaysCommand(c.left, ts[..k]) && SaysPipe(c.right, ts[k + 1..])
  }

  ghost predicate SaysBack(c: Cmd, ts: seq<Token>)
    decreases |ts|, 3
  {
    || SaysPipe(c, ts)
    || (c.Back? && ts != [] && ts[|ts| - 1] == Sym('&') && SaysBack(c.cmd, ts[..|ts| - 1]))
  }

  ghost predicate SaysLine(c: Cmd, ts: seq<Token>)
    decreases |ts|, 4
  {
    || SaysBack(c, ts)
    || (c.List? && exists k: nat :: k < |ts| && ListAt(c, ts, k))
  }

  ghost predicate ListAt(c: Cmd, ts: seq<Token>, k: nat)
    requires c.List? && k < |ts|
    decreases |ts|, 0
  {
    ts[k] == Sym(';') && SaysBack(c.left, ts[..k]) && SaysLine(c.right, ts[k + 1..])
  }

  // ----- Redirections -----

  lemma {:induction false} WrapsTrans(c: Cmd, d: Cmd, e: Cmd, f1: seq<(char, string)>, f2: seq<(char, string)>)
    requires Wraps(d, e, f1) && Wraps(c, d, f2)
    ensures Wraps(c, e, f1 + f2)
    decreases |f2|
  {
    if f2 == [] {
      assert f1 + f2 == f1;
    } else {
      WrapsTrans(c.cmd, d, e, f1, f2[..|f2| - 1]);
      assert (f1 + f2)[..|f1 + f2| - 1] == f1 + f2[..|f2| - 1];
    }
  }

  lemma WrapsNone(c: Cmd, d: Cmd)
    ensures Wraps(c, d, []) <==> c == d
  {
  }

  lemma {:induction false} WrapsOne(a: Cmd, b: Cmd, d: Cmd, fs: seq<(char, string)>)
    requires Wraps(a, d, fs) && Wraps(b, d, fs)
    ensures a == b
    decreases |fs|
  {
    if fs != [] { WrapsOne(a.cmd, b.cmd, d, fs[..|fs| - 1]); }
  }

  lemma {:induction false} WrapsArg(c: Cmd, argv: seq<string>, fs: seq<(char, string)>, w: string)
    requires Wraps(c, Exec(argv), fs)
    ensures Wraps(AddArg(c, w), Exec(argv + [w]), fs)
    decreases |fs|
  {
    if fs != [] { WrapsArg(c.cmd, argv, fs[..|fs| - 1], w); }
  }

  lemma {:induction false} WrapsPrintable(c: Cmd, d: Cmd, fs: seq<(char, string)>)
    requires Wraps(c, d, fs)
    ensures Printable(c) <==> Printable(d)
    decreases |fs|
  {
    if fs != [] { WrapsPrintable(c.cmd, d, fs[..|fs| - 1]); }
  }

  lemma {:induction false} WrapsKeeps(c: Cmd, d: Cmd, fs: seq<(char, string)>)
    requires Wraps(c, d, fs)
    ensures CmdWords(c) == CmdWords(d)
    ensures |CmdFiles(c)| == |CmdFiles(d)| + |fs|
    ensures CmdFiles(c)[..|CmdFiles(d)|] == CmdFiles(d) && SameFiles(CmdFiles(c)[|CmdFiles(d)|..], fs)
    decreases |fs|
  {
    if fs != [] { WrapsKeeps(c.cmd, d, fs[..|fs| - 1]); }
  }

  /** One opener and its file. */
  lemma Redirected(c: Cmd, ts: seq<Token>)
    requires Head(ts, {'<', '>', '+'}) && |ts| >= 2 && ts[1].Word?
    ensures var fs := LineFiles(ts[..2]);
            OnlyFiles(ts[..2]) && Wraps(Redir(c, ts[1].w, ModeOf(ts[0].c)), c, fs) && !AfterOpener(ts[..2])
  {
    assert ts[..2] == [ts[0], Word(ts[1].w)];
    LineFile(ts[0], ts[1].w);
    assert [(ts[0].c, ts[1].w)][..0] == [];
  }

  lemma PlainRest(ts: seq<Token>)
    requires Plain(ts) && ts != []
    ensures ts[0].Word? ==> Plain(ts[1..])
    ensures ts[0].Sym? ==> Opener(ts[0]) && Head(ts, {'<', '>', '+'}) && |ts| >= 2 && ts[1].Word? && Plain(ts[2..])
  {
    assert PlainAt(ts, 0);
    var n := if ts[0].Word? then 1 else 2;
    forall i: nat | i < |ts[n..]| ensures PlainAt(ts[n..], i) {
      assert PlainAt(ts, i + n);
    }
  }

  lemma PlainAdd(a: seq<Token>, b: seq<Token>)
    requires Plain(a) && Plain(b)
    ensures Plain(a + b) && !AfterOpener(a)
  {
    if a != [] { assert PlainAt(a, |a| - 1); }
    forall i: nat | i < |a + b| ensures PlainAt(a + b, i) {
      if i < |a| { assert PlainAt(a, i); } else { assert PlainAt(b, i - |a|); }
    }
  }

  // ----- What the parser builds is what the line says -----

  /** rest is what is left of ts. */
  predicate Left(ts: seq<Token>, rest: seq<Token>) {
    |rest| <= |ts| && ts[|ts| - |rest|..] == rest
  }

  function Taken(ts: seq<Token>, rest: seq<Token>): seq<Token>
    requires |rest| <= |ts|
  {
    ts[..|ts| - |rest|]
  }

  lemma TakenAfter(ts: seq<Token>, n: nat, rest: seq<Token>)
    requires n <= |ts| && Left(ts[n..], rest)
    ensures Left(ts, rest) && Taken(ts, rest) == ts[..n] + Taken(ts[n..], rest)
  {
    assert ts == ts[..n] + ts[n..];
  }

  lemma {:induction false} RedirsSay(c: Cmd, ts: seq<Token>)
    requires Redirs(c, ts).Some?
    ensures var (d, rest) := Redirs(c, ts).value;
            && Left(ts, rest) && OnlyFiles(Taken(ts, rest)) && Wraps(d, c, LineFiles(Taken(ts, rest)))
    decreases |ts|
  {
    if Head(ts, {'<', '>', '+'}) {
      var c2 := Redir(c, ts[1].w, ModeOf(ts[0].c));
      var (d, rest) := Redirs(c, ts).value;
      RedirsSay(c2, ts[2..]);
      Redirected(c, ts);
      TakenAfter(ts, 2, rest);
      var more := Taken(ts[2..], rest);
      PlainAdd(ts[..2], more);
      LineAdd(ts[..2], more);
      WrapsTrans(d, c2, c, LineFiles(ts[..2]), LineFiles(more));
    }
  }

  /** Redirections, then words with redirections after each: the loop of parseexec from there. */
  function Go(c: Cmd, argc: nat, ts: seq<Token>): Option<(Cmd, seq<Token>)> {
    match Redirs(c, ts)
    case None => None
    case Some((d, rest)) => Args(d, argc, rest)
  }

  lemma SayMore(d: Cmd, c: Cmd, p: seq<Token>, q: seq<Token>)
    requires SaysSimple(c, p) && OnlyFiles(q) && Wraps(d, c, LineFiles(q))
    ensures SaysSimple(d, p + q)
  {
    hide LineWords, LineFiles, Wraps;
    PlainAdd(p, q);
    LineAdd(p, q);
    WrapsTrans(d, c, Exec(LineWords(p)), LineFiles(p), LineFiles(q));
    assert LineWords(p) + [] == LineWords(p);
  }

  lemma SayWord(c: Cmd, p: seq<Token>, w: string)
    requires SaysSimple(c, p)
    ensures SaysSimple(AddArg(c, w), p + [Word(w)]) && LineWords(p + [Word(w)]) == LineWords(p) + [w]
  {
    hide LineWords, LineFiles, Wraps, AddArg;
    PlainAdd(p, [Word(w)]);
    LineAdd(p, [Word(w)]);
    assert LineFiles(p) + [] == LineFiles(p);
    LineOne(Word(w));
    WrapsArg(c, LineWords(p), LineFiles(p), w);
  }

  lemma Regroup(p: seq<Token>, q: seq<Token>, t: Token, ts: seq<Token>, rest: seq<Token>, last: seq<Token>)
    requires rest != [] && t == rest[0] && Left(ts, rest) && q == Taken(ts, rest) && Left(rest[1..], last)
    ensures Left(ts, last) && p + q + [t] + Taken(rest[1..], last) == p + Taken(ts, last)
  {
    TakenAfter(rest, 1, last);
    TakenAfter(ts, |ts| - |rest|, last);
  }

  lemma GoStep(c: Cmd, argc: nat, ts: seq<Token>)
    requires Go(c, argc, ts).Some?
    ensures var (d, rest) := Redirs(c, ts).value;
            if Ends(rest, {'|', ')', '&', ';'}) then Go(c, argc, ts) == Some((d, rest))
            else rest[0].Word? && Go(c, argc, ts) == Go(AddArg(d, rest[0].w), argc + 1, rest[1..])
  {
  }

  lemma {:induction false} GoSays(c: Cmd, p: seq<Token>, argc: nat, ts: seq<Token>)
    requires SaysSimple(c, p) && Go(c, argc, ts).Some?
    ensures var (d, rest) := Go(c, argc, ts).value; Left(ts, rest) && SaysSimple(d, p + Taken(ts, rest))
    decreases |ts|
  {
    hide LineWords, LineFiles, Wraps, AddArg, Redirs, Args, SaysSimple, Plain, Taken;
    RedirsSay(c, ts);
    GoStep(c, argc, ts);
    var (d, rest) := Redirs(c, ts).value;
    var q := Taken(ts, rest);
    SayMore(d, c, p, q);
    if Ends(rest, {'|', ')', '&', ';'}) {
    } else {
      var w := rest[0].w;
      SayWord(d, p + q, w);
      GoSays(AddArg(d, w), p + q + [Word(w)], argc + 1, rest[1..]);
      var (e, last) := Go(c, argc, ts).value;
      Regroup(p, q, Word(w), ts, rest, last);
    }
  }

  lemma {:induction false} ExecSays(ts: seq<Token>)
    requires ExecOf(ts).Some?
    ensures var (c, rest) := ExecOf(ts).value; Left(ts, rest) && SaysCommand(c, Taken(ts, rest))
    decreases |ts|, 1
  {
    if Head(ts, {'('}) {
      BlockSays(ts);
    } else {
      var p: seq<Token> := [];
      assert SaysSimple(Exec([]), p);
      GoSays(Exec([]), p, 0, ts);
      var (c, rest) := ExecOf(ts).value;
      assert ExecOf(ts) == Go(Exec([]), 0, ts);
      assert p + Taken(ts, rest) == Taken(ts, rest);
    }
  }

  lemma {:induction false} BlockSays(ts: seq<Token>)
    requires Head(ts, {'('}) && Block(ts).Some?
    ensures var (c, rest) := Block(ts).value; Left(ts, rest) && SaysGroup(c, Taken(ts, rest))
    decreases |ts|, 0
  {
    hide LineWords, LineFiles, Wraps, SaysLine, Line, Redirs, Plain;
    LineSays(ts[1..]);
    var (d, close) := Line(ts[1..]).value;
    var k := |ts| - |close|;
    RedirsSay(d, close[1..]);
    var (c, rest) := Block(ts).value;
    TakenAfter(ts, 1, close);
    TakenAfter(close, 1, rest);
    TakenAfter(ts, k, rest);
    var p := Taken(ts, rest);
    assert p[1..k] == Taken(ts[1..], close);
    assert p[k + 1..] == Taken(close[1..], rest);
    assert GroupAt(c, p, d, k);
  }

  lemma {:induction false} PipeSays(ts: seq<Token>)
    requires PipeOf(ts).Some?
    ensures var (c, rest) := PipeOf(ts).value; Left(ts, rest) && SaysPipe(c, Taken(ts, rest))
    decreases |ts|, 2
  {
    ExecSays(ts);
    var (c, mid) := ExecOf(ts).value;
    if Head(mid, {'|'}) {
      PipeSays(mid[1..]);
      var (d, rest) := PipeOf(mid[1..]).value;
      var k := |ts| - |mid|;
      TakenAfter(mid, 1, rest);
      TakenAfter(ts, k, rest);
      var p := Taken(ts, rest);
      assert p[..k] == Taken(ts, mid) && p[k + 1..] == Taken(mid[1..], rest);
      assert PipeAt(Pipe(c, d), p, k);
    }
  }

  lemma {:induction false} LineSays(ts: seq<Token>)
    requires Line(ts).Some?
    ensures var (c, rest) := Line(ts).value; Left(ts, rest) && SaysLine(c, Taken(ts, rest))
    decreases |ts|, 4
  {
    PipeSays(ts);
    var (c, mid) := PipeOf(ts).value;
    TailSays(c, Taken(ts, mid), mid);
    TakenAfter(ts, |ts| - |mid|, Line(ts).value.1);
  }

  lemma {:induction false} TailSays(c: Cmd, p: seq<Token>, ts: seq<Token>)
    requires SaysBack(c, p) && Tail(c, ts).Some?
    ensures var (d, rest) := Tail(c, ts).value; Left(ts, rest) && SaysLine(d, p + Taken(ts, rest))
    decreases |ts|, 3
  {
    var (d, rest) := Tail(c, ts).value;
    if Head(ts, {'&'}) {
      assert (p + [Sym('&')])[..|p|] == p;
      TailSays(Back(c), p + [Sym('&')], ts[1..]);
      TakenAfter(ts, 1, rest);
      assert p + Taken(ts, rest) == p + [Sym('&')] + Taken(ts[1..], rest);
    } else if Head(ts, {';'}) {
      LineSays(ts[1..]);
      TakenAfter(ts, 1, rest);
      var q := p + Taken(ts, rest);
      assert q[..|p|] == p && q[|p| + 1..] == Taken(ts[1..], rest);
      assert ListAt(d, q, |p|);
    } else {
      assert p + Taken(ts, rest) == p;
    }
  }

  // ----- Whatever a line says is what the parser builds -----

  lemma {:induction false} RedirsReads(c: Cmd, d: Cmd, p: seq<Token>, rest: seq<Token>)
    requires OnlyFiles(p) && Wraps(d, c, LineFiles(p)) && !Head(rest, {'<', '>', '+'})
    ensures Redirs(c, p + rest) == Some((d, rest))
    decreases |p|
  {
    hide LineWords, LineFiles, Wraps;
    if p == [] {
      LineNone();
      WrapsNone(d, c);
      assert p + rest == rest;
    } else {
      FirstOpens(p);
      PlainRest(p);
      var c2 := Redir(c, p[1].w, ModeOf(p[0].c));
      Redirected(c, p);
      assert p == p[..2] + p[2..] && (p + rest)[2..] == p[2..] + rest;
      LineAdd(p[..2], p[2..]);
      WrapsFirst(d, c, c2, LineFiles(p[..2]), LineFiles(p[2..]));
      RedirsReads(c2, d, p[2..], rest);
    }
  }

  lemma FirstOpens(p: seq<Token>)
    requires OnlyFiles(p) && p != []
    ensures Opener(p[0]) && |p| >= 2 && p[1].Word?
  {
    hide LineWords, LineFiles;
    PlainRest(p);
    if p[0].Word? {
      assert p == p[..1] + p[1..] && p[..1] == [p[0]];
      LineAdd(p[..1], p[1..]);
      LineOne(p[0]);
      assert false;
    }
  }

  lemma {:induction false} WrapsFirst(d: Cmd, c: Cmd, c2: Cmd, f1: seq<(char, string)>, f2: seq<(char, string)>)
    requires Wraps(d, c, f1 + f2) && Wraps(c2, c, f1)
    ensures Wraps(d, c2, f2)
    decreases |f2|
  {
    if f2 == [] {
      assert f1 + f2 == f1;
      WrapsOne(d, c2, c, f1);
    } else {
      assert (f1 + f2)[..|f1 + f2| - 1] == f1 + f2[..|f2| - 1];
      WrapsFirst(d.cmd, c, c2, f1, f2[..|f2| - 1]);
    }
  }

  /** The command that p says, with q still to read. */
  lemma {:induction false} GoReads(c: Cmd, p: seq<Token>, d: Cmd, q: seq<Token>, rest: seq<Token>)
    requires SaysSimple(c, p) && SaysSimple(d, p + q) && Plain(q) && |LineWords(p + q)| < MAXARGS
    requires Ends(rest, {'|', ')', '&', ';'})
    ensures Go(c, |LineWords(p)|, q + rest) == Some((d, rest))
    decreases |q|
  {
    hide LineWords, LineFiles, Wraps, AddArg;
    if q == [] {
      assert p + q == p && q + rest == rest;
      WrapsOne(c, d, Exec(LineWords(p)), LineFiles(p));
    } else if q[0].Word? {
      PlainRest(q);
      var w := q[0].w;
      SayWord(c, p, w);
      assert p + q == p + [Word(w)] + q[1..] && (q + rest)[1..] == q[1..] + rest;
      PlainAdd(p + [Word(w)], q[1..]);
      LineAdd(p + [Word(w)], q[1..]);
      GoReads(AddArg(c, w), p + [Word(w)], d, q[1..], rest);
    } else {
      PlainRest(q);
      var c2 := Redir(c, q[1].w, ModeOf(q[0].c));
      Redirected(c, q);
      PlainAdd(p, q[..2]);
      SayMore(c2, c, p, q[..2]);
      LineAdd(p, q[..2]);
      assert p + q == p + q[..2] + q[2..] && (q + rest)[2..] == q[2..] + rest;
      GoReads(c2, p + q[..2], d, q[2..], rest);
    }
  }

  lemma {:induction false} CommandReads(c: Cmd, p: seq<Token>, rest: seq<Token>)
    requires SaysCommand(c, p) && Printable(c) && Ends(rest, {'|', ')', '&', ';'})
    ensures ExecOf(p + rest) == Some((c, rest))
    decreases |p|, 1
  {
    hide LineWords, LineFiles, Redirs, Args, SaysGroup, Block;
    if SaysSimple(c, p) {
      var none: seq<Token> := [];
      assert none + p == p;
      WrapsPrintable(c, Exec(LineWords(p)), LineFiles(p));
      LineNone();
      if p != [] { PlainRest(p); }
      GoReads(Exec([]), none, c, p, rest);
      assert ExecOf(p + rest) == Go(Exec([]), 0, p + rest);
    } else {
      GroupReads(c, p, rest);
    }
  }

  lemma {:induction false} GroupReads(c: Cmd, p: seq<Token>, rest: seq<Token>)
    requires SaysGroup(c, p) && Printable(c) && Ends(rest, {'|', ')', '&', ';'})
    ensures ExecOf(p + rest) == Some((c, rest))
    decreases |p|, 0
  {
    hide LineWords, LineFiles, Wraps, SaysLine, Line, Redirs;
    var d: Cmd, k: nat :| k < |p| && GroupAt(c, p, d, k);
    WrapsPrintable(c, d, LineFiles(p[k + 1..]));
    var close := [Sym(')')] + (p[k + 1..] + rest);
    assert p + rest == [Sym('(')] + (p[1..k] + close);
    assert (p + rest)[1..] == p[1..k] + close && close[1..] == p[k + 1..] + rest;
    LineReads(d, p[1..k], close);
    RedirsReads(d, c, p[k + 1..], rest);
  }

  lemma {:induction false} PipeReads(c: Cmd, p: seq<Token>, rest: seq<Token>)
    requires SaysPipe(c, p) && Printable(c) && Ends(rest, {')', '&', ';'})
    ensures PipeOf(p + rest) == Some((c, rest))
    decreases |p|, 2
  {
    if SaysCommand(c, p) {
      CommandReads(c, p, rest);
    } else {
      var k: nat :| k < |p| && PipeAt(c, p, k);
      var more := [Sym('|')] + (p[k + 1..] + rest);
      assert p + rest == p[..k] + more && more[1..] == p[k + 1..] + rest;
      CommandReads(c.left, p[..k], more);
      PipeReads(c.right, p[k + 1..], rest);
    }
  }

  lemma {:induction false} BackReads(c: Cmd, p: seq<Token>, rest: seq<Token>)
    requires SaysBack(c, p) && Printable(c) && Ends(rest, {')', '&', ';'})
    ensures Line(p + rest) == Tail(c, rest)
    decreases |p|, 3
  {
    if SaysPipe(c, p) {
      PipeReads(c, p, rest);
    } else {
      var more := [Sym('&')] + rest;
      assert p + rest == p[..|p| - 1] + more && more[1..] == rest;
      BackReads(c.cmd, p[..|p| - 1], more);
    }
  }

  lemma {:induction false} LineReads(c: Cmd, p: seq<Token>, rest: seq<Token>)
    requires SaysLine(c, p) && Printable(c) && Ends(rest, {')'})
    ensures Line(p + rest) == Some((c, rest))
    decreases |p|, 4
  {
    if SaysBack(c, p) {
      BackReads(c, p, rest);
    } else {
      var k: nat :| k < |p| && ListAt(c, p, k);
      var more := [Sym(';')] + (p[k + 1..] + rest);
      assert p + rest == p[..k] + more && more[1..] == p[k + 1..] + rest;
      BackReads(c.left, p[..k], more);
      LineReads(c.right, p[k + 1..], rest);
    }
  }

  /** The parser accepts a line exactly when the line says a command of at most 9 words each, and gives
      that command. */
  lemma ParsesExactly(ts: seq<Token>, c: Cmd)
    ensures Whole(ts) == Some(c) <==> SaysLine(c, ts) && Printable(c)
  {
    if Whole(ts) == Some(c) {
      LineSays(ts);
      LinePrintable(ts);
      assert Taken(ts, []) == ts;
    }
    if SaysLine(c, ts) && Printable(c) {
      assert ts + [] == ts;
      LineReads(c, ts, []);
    }
  }

  // ----- Nothing of a line is lost -----

  /** The tree has the words and files of the piece of line. */
  ghost predicate Keeps(c: Cmd, ts: seq<Token>) {
    CmdWords(c) == LineWords(ts) && SameFiles(CmdFiles(c), LineFiles(ts))
  }

  lemma SameAdd(a: seq<(Mode, string)>, b: seq<(Mode, string)>, x: seq<(char, string)>, y: seq<(char, string)>)
    requires SameFiles(a, x) && SameFiles(b, y)
    ensures SameFiles(a + b, x + y)
  {
  }

  /** A line with an operator in it. */
  lemma AroundOperator(ts: seq<Token>, k: nat)
    requires k < |ts| && ts[k].Sym? && !Opener(ts[k])
    ensures LineWords(ts) == LineWords(ts[..k]) + LineWords(ts[k + 1..])
    ensures LineFiles(ts) == LineFiles(ts[..k]) + LineFiles(ts[k + 1..])
  {
    hide LineWords, LineFiles;
    assert ts == ts[..k + 1] + ts[k + 1..];
    LineAdd(ts[..k + 1], ts[k + 1..]);
    LineOperator(ts[..k + 1]);
    assert ts[..k + 1][..k] == ts[..k];
  }

  lemma LineOperator(ts: seq<Token>)
    requires ts != [] && ts[|ts| - 1].Sym?
    ensures LineWords(ts) == LineWords(ts[..|ts| - 1]) && LineFiles(ts) == LineFiles(ts[..|ts| - 1])
  {
  }

  lemma {:induction false} CommandKeeps(c: Cmd, ts: seq<Token>)
    requires SaysCommand(c, ts)
    ensures Keeps(c, ts)
    decreases |ts|, 1
  {
    if SaysSimple(c, ts) {
      WrapsKeeps(c, Exec(LineWords(ts)), LineFiles(ts));
      assert CmdFiles(c)[0..] == CmdFiles(c);
    } else {
      GroupKeeps(c, ts);
    }
  }

  lemma {:induction false} GroupKeeps(c: Cmd, ts: seq<Token>)
    requires SaysGroup(c, ts)
    ensures Keeps(c, ts)
    decreases |ts|, 0
  {
    hide LineWords, LineFiles, Wraps, CmdFiles, CmdWords, SaysLine;
    var d: Cmd, k: nat :| k < |ts| && GroupAt(c, ts, d, k);
    LineKeeps(d, ts[1..k]);
    WrapsKeeps(c, d, LineFiles(ts[k + 1..]));
    AroundOperator(ts, k);
    AroundOperator(ts[..k], 0);
    LineNone();
    assert ts[..k][..0] == [] && ts[..k][1..] == ts[1..k];
    var n := |CmdFiles(d)|;
    SameAdd(CmdFiles(c)[..n], CmdFiles(c)[n..], LineFiles(ts[1..k]), LineFiles(ts[k + 1..]));
    assert CmdFiles(c)[..n] + CmdFiles(c)[n..] == CmdFiles(c);
  }

  lemma {:induction false} PipeKeeps(c: Cmd, ts: seq<Token>)
    requires SaysPipe(c, ts)
    ensures Keeps(c, ts)
    decreases |ts|, 2
  {
    if SaysCommand(c, ts) {
      CommandKeeps(c, ts);
    } else {
      var k: nat :| k < |ts| && PipeAt(c, ts, k);
      CommandKeeps(c.left, ts[..k]);
      PipeKeeps(c.right, ts[k + 1..]);
      AroundOperator(ts, k);
    }
  }

  lemma {:induction false} BackKeeps(c: Cmd, ts: seq<Token>)
    requires SaysBack(c, ts)
    ensures Keeps(c, ts)
    decreases |ts|, 3
  {
    if SaysPipe(c, ts) {
      PipeKeeps(c, ts);
    } else {
      BackKeeps(c.cmd, ts[..|ts| - 1]);
    }
  }

  lemma {:induction false} LineKeeps(c: Cmd, ts: seq<Token>)
    requires SaysLine(c, ts)
    ensures Keeps(c, ts)
    decreases |ts|, 4
  {
    if SaysBack(c, ts) {
      BackKeeps(c, ts);
    } else {
      var k: nat :| k < |ts| && ListAt(c, ts, k);
      BackKeeps(c.left, ts[..k]);
      LineKeeps(c.right, ts[k + 1..]);
      AroundOperator(ts, k);
    }
  }

  /** The arguments of the tree are the words of the line that name no file, in order; its redirections
      are those of the line, in order, '<' for reading, '>' for writing from the start, ">>" for the end. */
  lemma TreeKeeps(ts: seq<Token>, c: Cmd)
    requires Whole(ts) == Some(c)
    ensures CmdWords(c) == LineWords(ts)
    ensures |CmdFiles(c)| == |LineFiles(ts)|
    ensures forall i :: 0 <= i < |CmdFiles(c)| ==>
              && CmdFiles(c)[i].1 == LineFiles(ts)[i].1
              && (CmdFiles(c)[i].0 == Read <==> LineFiles(ts)[i].0 == '<')
              && (CmdFiles(c)[i].0 == Truncate <==> LineFiles(ts)[i].0 == '>')
              && (CmdFiles(c)[i].0 == Append <==> LineFiles(ts)[i].0 == '+')
  {
    ParsesExactly(ts, c);
    LineKeeps(c, ts);
  }

  /** A line says one command. */
  lemma SaysOne(ts: seq<Token>, c: Cmd, d: Cmd)
    requires SaysLine(c, ts) && SaysLine(d, ts) && Printable(c) && Printable(d)
    ensures c == d
  {
    ParsesExactly(ts, c);
    ParsesExactly(ts, d);
  }
}
