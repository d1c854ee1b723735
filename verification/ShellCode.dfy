/** The parser of xv6-riscv/user/sh.c on characters: a cursor moved by gettoken and peek, nodes that
    hold pointers into the line, and nulterminate, which writes the terminators into the line. */
module ShellCode {
  import opened ShellSyntax
  import opened ShellGrammar

  // ----- Characters and tokens -----

  predicate IsSpace(c: char) { c in {' ', '\t', '\r', '\n', '\U{000B}'} }

  predicate IsSymbol(c: char) { c in {'<', '|', '>', '&', ';', '(', ')'} }

  predicate IsWordChar(c: char) { !IsSpace(c) && !IsSymbol(c) && c != '\0' }

  function Skip(s: string, i: nat): (j: nat)
    requires i <= |s|
    ensures i <= j <= |s| && (j < |s| ==> !IsSpace(s[j])) && forall k :: i <= k < j ==> IsSpace(s[k])
    decreases |s| - i
  {
    if i < |s| && IsSpace(s[i]) then Skip(s, i + 1) else i
  }

  function WordEnd(s: string, i: nat): (j: nat)
    requires i <= |s|
    ensures i <= j <= |s| && (j < |s| ==> IsSpace(s[j]) || IsSymbol(s[j]))
    ensures forall k :: i <= k < j ==> !IsSpace(s[k]) && !IsSymbol(s[k])
    decreases |s| - i
  {
    if i < |s| && !IsSpace(s[i]) && !IsSymbol(s[i]) then WordEnd(s, i + 1) else i
  }

  function TokenEnd(s: string, j: nat): (e: nat)
    requires j < |s| && !IsSpace(s[j])
    ensures j < e <= |s|
  {
    if s[j] == '>' && j + 1 < |s| && s[j + 1] == '>' then j + 2 else if IsSymbol(s[j]) then j + 1 else WordEnd(s, j)
  }

  function TokenAt(s: string, j: nat): Token
    requires j < |s| && !IsSpace(s[j])
  {
    if s[j] == '>' && j + 1 < |s| && s[j + 1] == '>' then Sym('+')
    else if IsSymbol(s[j]) then Sym(s[j])
    else Word(s[j..TokenEnd(s, j)])
  }

  /** The tokens from place i on. */
  function Lex(s: string, i: nat): seq<Token>
    requires i <= |s|
    decreases |s| - i
  {
    var j := Skip(s, i);
    if j == |s| then [] else [TokenAt(s, j)] + Lex(s, TokenEnd(s, j))
  }

  lemma LexSkip(s: string, i: nat)
    requires i <= |s|
    ensures Lex(s, Skip(s, i)) == Lex(s, i)
  {
    assert Skip(s, Skip(s, i)) == Skip(s, i);
  }

  // ----- Nodes -----

  /** A string of the line, from q up to eq. */
  datatype Span = Span(q: nat, eq: nat)

  datatype Node =
    | NExec(argv: seq<Span>)
    | NRedir(cmd: Node, file: Span, mode: Mode)
    | NPipe(left: Node, right: Node)
    | NList(left: Node, right: Node)
    | NBack(cmd: Node)

  function Text(s: string, p: Span): string {
    if p.q <= p.eq <= |s| then s[p.q..p.eq] else ""
  }

  function Texts(s: string, ps: seq<Span>): (r: seq<string>)
    ensures |r| == |ps| && forall i :: 0 <= i < |ps| ==> r[i] == Text(s, ps[i])
  {
    seq(|ps|, i requires 0 <= i < |ps| => Text(s, ps[i]))
  }

  /** The command a node stands for. */
  function Tree(s: string, n: Node): Cmd {
    match n
    case NExec(argv) => Exec(Texts(s, argv))
    case NRedir(d, f, m) => Redir(Tree(s, d), Text(s, f), m)
    case NPipe(l, r) => Pipe(Tree(s, l), Tree(s, r))
    case NList(l, r) => List(Tree(s, l), Tree(s, r))
    case NBack(d) => Back(Tree(s, d))
  }

  /** A whole word of the line. */
  predicate WholeWord(s: string, p: Span) {
    && p.q < p.eq <= |s| && (p.eq < |s| ==> !IsWordChar(s[p.eq]))
    && forall k :: p.q <= k < p.eq ==> IsWordChar(s[k])
  }

  predicate WholeWords(s: string, n: Node) {
    match n
    case NExec(argv) => forall i :: 0 <= i < |argv| ==> WholeWord(s, argv[i])
    case NRedir(d, f, _) => WholeWords(s, d) && WholeWord(s, f)
    case NPipe(l, r) => WholeWords(s, l) && WholeWords(s, r)
    case NList(l, r) => WholeWords(s, l) && WholeWords(s, r)
    case NBack(d) => WholeWords(s, d)
  }

  function AddSpan(n: Node, p: Span): Node {
    match n
    case NExec(argv) => NExec(argv + [p])
    case NRedir(d, f, m) => NRedir(AddSpan(d, p), f, m)
    case _ => n
  }

  lemma {:induction false} AddSpanTree(s: string, n: Node, p: Span)
    requires WholeWords(s, n) && WholeWord(s, p)
    ensures Tree(s, AddSpan(n, p)) == AddArg(Tree(s, n), Text(s, p)) && WholeWords(s, AddSpan(n, p))
  {
    match n
    case NExec(argv) => assert Texts(s, argv + [p]) == Texts(s, argv) + [Text(s, p)];
    case NRedir(d, f, m) => AddSpanTree(s, d, p);
    case _ =>
  }

  // ----- The parser -----

  lemma SayingExec(ts: seq<Token>)
    ensures ExecOf(ts).Some? ==>
              var (c, rest) := ExecOf(ts).value;
              Left(ts, rest) && SaysCommand(c, Taken(ts, rest)) && Keeps(c, Taken(ts, rest))
  {
    if ExecOf(ts).Some? {
      ExecSays(ts);
      CommandKeeps(ExecOf(ts).value.0, Taken(ts, ExecOf(ts).value.1));
    }
  }

  class Parser {
    const s: string
    /** *ps. */
    var at: nat

    constructor (s: string)
      ensures this.s == s && at == 0
    {
      this.s, at := s, 0;
    }

    predicate Valid()
      reads this
    {
      at <= |s| && forall k :: 0 <= k < |s| ==> s[k] != '\0'
    }

    ghost function Rest(): seq<Token>
      reads this
      requires Valid()
    {
      Lex(s, at)
    }

    method SkipSpace()
      requires Valid()
      modifies this`at
      ensures Valid() && at == Skip(s, old(at)) && Rest() == old(Rest())
    {
      LexSkip(s, at);
      ghost var i0 := at;
      while at < |s| && IsSpace(s[at])
        invariant i0 <= at <= |s| && Skip(s, at) == Skip(s, i0)
        decreases |s| - at
      {
        at := at + 1;
      }
    }

    /** gettoken: '\0' at the end, 'a' for a word, '+' for ">>", else the symbol. */
    method Gettoken() returns (ret: char, p: Span)
      requires Valid()
      modifies this`at
      ensures Valid() && at >= old(at)
      ensures old(Rest()) == [] ==> ret == '\0' && Rest() == []
      ensures old(Rest()) != [] ==> Rest() == old(Rest())[1..] && at > old(at)
      ensures old(Rest()) != [] && old(Rest())[0].Sym? ==> ret == old(Rest())[0].c && (IsSymbol(ret) || ret == '+')
      ensures old(Rest()) != [] && old(Rest())[0].Word? ==> ret == 'a' && WholeWord(s, p) && Text(s, p) == old(Rest())[0].w
    {
      SkipSpace();
      var q := at;
      if at == |s| {
        return '\0', Span(q, q);
      }
      ret := s[at];
      if s[at] == '>' {
        at := at + 1;
        if at < |s| && s[at] == '>' {
          ret := '+';
          at := at + 1;
        }
      } else if IsSymbol(s[at]) {
        at := at + 1;
      } else {
        ret := 'a';
        while at < |s| && !IsSpace(s[at]) && !IsSymbol(s[at])
          invariant q <= at <= |s| && WordEnd(s, at) == WordEnd(s, q)
          decreases |s| - at
        {
          at := at + 1;
        }
      }
      p := Span(q, at);
      assert at == TokenEnd(s, q);
      SkipSpace();
    }

    /** peek, for a string of symbols. */
    method Peek(toks: string) returns (r: bool)
      requires Valid() && forall c :: c in toks ==> IsSymbol(c)
      modifies this`at
      ensures Valid() && at >= old(at) && Rest() == old(Rest())
      ensures Skip(s, at) == at
      ensures r <==> Rest() != [] && Rest()[0].Sym? && (Rest()[0].c in toks || (Rest()[0].c == '+' && '>' in toks))
    {
      SkipSpace();
      assert Skip(s, at) == at;
      r := at < |s| && s[at] in toks;
    }

    method Parseredirs(n0: Node) returns (r: Option<Node>)
      requires Valid() && WholeWords(s, n0)
      modifies this`at
      ensures Valid() && at >= old(at)
      ensures Agrees(r, Redirs(Tree(s, n0), old(Rest())))
    {
      var n := n0;
      while true
        invariant Valid() && at >= old(at) && WholeWords(s, n)
        invariant Redirs(Tree(s, n), Rest()) == Redirs(Tree(s, n0), old(Rest()))
        decreases |s| - at
      {
        var more := Peek("<>");
        if !more {
          break;
        }
        var tok, p0 := Gettoken();
        var a, p := Gettoken();
        if a != 'a' {
          return None;
        }
        n := NRedir(n, p, ModeOf(tok));
      }
      r := Some(n);
    }

    /** The node and the place reached are those the routine gives for the tokens. */
    ghost predicate Agrees(r: Option<Node>, x: Option<(Cmd, seq<Token>)>)
      reads this
      requires Valid()
    {
      && (r.Some? <==> x.Some?)
      && (r.Some? ==> Tree(s, r.value) == x.value.0 && Rest() == x.value.1 && WholeWords(s, r.value))
    }

    method Parseexec() returns (r: Option<Node>)
      requires Valid()
      modifies this`at
      ensures Valid() && at >= old(at)
      ensures Agrees(r, ExecOf(old(Rest())))
      ensures r.Some? ==>
                var c, ts := Tree(s, r.value), old(Rest());
                Left(ts, Rest()) && SaysCommand(c, Taken(ts, Rest())) && Keeps(c, Taken(ts, Rest()))
      decreases |s| - at, 1
    {
      SayingExec(Rest());
      var block := Peek("(");
      if block {
        r := Parseblock();
        return;
      }
      assert Tree(s, NExec([])) == Exec([]);
      r := Parseredirs(NExec([]));
      if r.None? {
        return;
      }
      r := Parseargs(r.value);
    }

    /** The loop of parseexec. */
    method Parseargs(n0: Node) returns (r: Option<Node>)
      requires Valid() && WholeWords(s, n0)
      modifies this`at
      ensures Valid() && at >= old(at)
      ensures Agrees(r, Args(Tree(s, n0), 0, old(Rest())))
    {
      hide Lex, Tree, WholeWords, WholeWord, Text, Redirs, AddArg;
      r := Some(n0);
      var argc := 0;
      while true
        invariant Valid() && at >= old(at) && r.Some? && WholeWords(s, r.value)
        invariant Args(Tree(s, r.value), argc, Rest()) == Args(Tree(s, n0), 0, old(Rest()))
        decreases |s| - at
      {
        var stop := Peek("|)&;");
        if stop {
          break;
        }
        var tok, p := Gettoken();
        if tok == '\0' {
          break;
        }
        if tok != 'a' {
          return None;
        }
        argc := argc + 1;
        if argc >= MAXARGS {
          return None;
        }
        r := Parsearg(r.value, p);
        if r.None? {
          return;
        }
      }
    }

    /** One word more, and the redirections after it. */
    method Parsearg(n: Node, p: Span) returns (r: Option<Node>)
      requires Valid() && WholeWords(s, n) && WholeWord(s, p)
      modifies this`at
      ensures Valid() && at >= old(at)
      ensures Agrees(r, Redirs(AddArg(Tree(s, n), Text(s, p)), old(Rest())))
    {
      AddSpanTree(s, n, p);
      r := Parseredirs(AddSpan(n, p));
    }

    method Parseblock() returns (r: Option<Node>)
      requires Valid() && Head(Rest(), {'('})
      modifies this`at
      ensures Valid() && at >= old(at)
      ensures Agrees(r, Block(old(Rest())))
      decreases |s| - at, 0
    {
      var tok, p := Gettoken();
      r := Parseline();
      if r.None? {
        return;
      }
      var close := Peek(")");
      if !close {
        return None;
      }
      tok, p := Gettoken();
      r := Parseredirs(r.value);
    }

    method Parsepipe() returns (r: Option<Node>)
      requires Valid()
      modifies this`at
      ensures Valid() && at >= old(at)
      ensures Agrees(r, PipeOf(old(Rest())))
      decreases |s| - at, 2
    {
      r := Parseexec();
      if r.None? {
        return;
      }
      var more := Peek("|");
      if more {
        var tok, p := Gettoken();
        var right := Parsepipe();
        r := if right.None? then None else Some(NPipe(r.value, right.value));
      }
    }

    method Parseline() returns (r: Option<Node>)
      requires Valid()
      modifies this`at
      ensures Valid() && at >= old(at)
      ensures Agrees(r, Line(old(Rest())))
      decreases |s| - at, 3
    {
      r := Parsepipe();
      if r.None? {
        return;
      }
      while true
        invariant Valid() && at >= old(at) && r.Some? && WholeWords(s, r.value)
        invariant Tail(Tree(s, r.value), Rest()) == Line(old(Rest()))
        decreases |s| - at
      {
        var back := Peek("&");
        if !back {
          break;
        }
        var tok, p := Gettoken();
        r := Some(NBack(r.value));
      }
      var list := Peek(";");
      if list {
        var tok, p := Gettoken();
        var right := Parseline();
        r := if right.None? then None else Some(NList(r.value, right.value));
      }
    }
  }

  // ----- nulterminate -----

  function Ends(n: Node): set<nat> {
    match n
    case NExec(argv) => set i | 0 <= i < |argv| :: argv[i].eq
    case NRedir(d, f, _) => Ends(d) + {f.eq}
    case NPipe(l, r) => Ends(l) + Ends(r)
    case NList(l, r) => Ends(l) + Ends(r)
    case NBack(d) => Ends(d)
  }

  /** nulterminate. */
  method Nulterminate(n: Node, buf: array<char>, s: string)
    requires WholeWords(s, n) && buf.Length == |s| + 1
    modifies buf
    ensures forall k :: 0 <= k < buf.Length ==> buf[k] == if k in Ends(n) then '\0' else old(buf[k])
    decreases n
  {
    match n
    case NExec(argv) =>
      var i := 0;
      while i < |argv|
        invariant i <= |argv|
        invariant forall k :: 0 <= k < buf.Length ==>
                    buf[k] == if exists j :: 0 <= j < i && argv[j].eq == k then '\0' else old(buf[k])
      {
        buf[argv[i].eq] := '\0';
        i := i + 1;
      }
    case NRedir(d, f, _) =>
      Nulterminate(d, buf, s);
      buf[f.eq] := '\0';
    case NPipe(l, r) =>
      Nulterminate(l, buf, s);
      Nulterminate(r, buf, s);
    case NList(l, r) =>
      Nulterminate(l, buf, s);
      Nulterminate(r, buf, s);
    case NBack(d) =>
      Nulterminate(d, buf, s);
  }

  /** The C string at place q. */
  function CString(b: string, q: nat): string
    decreases |b| - q
  {
    if q >= |b| || b[q] == '\0' then "" else [b[q]] + CString(b, q + 1)
  }

  function CStrings(b: string, ps: seq<Span>): (r: seq<string>)
    ensures |r| == |ps| && forall i :: 0 <= i < |ps| ==> r[i] == CString(b, ps[i].q)
  {
    seq(|ps|, i requires 0 <= i < |ps| => CString(b, ps[i].q))
  }

  /** The command as runcmd reads it, through the pointers alone. */
  function ReadBack(b: string, n: Node): Cmd {
    match n
    case NExec(argv) => Exec(CStrings(b, argv))
    case NRedir(d, f, m) => Redir(ReadBack(b, d), CString(b, f.q), m)
    case NPipe(l, r) => Pipe(ReadBack(b, l), ReadBack(b, r))
    case NList(l, r) => List(ReadBack(b, l), ReadBack(b, r))
    case NBack(d) => Back(ReadBack(b, d))
  }

  /** Terminators, written where words end, leave every word as it was. */
  ghost predicate Terminated(s: string, b: string, ends: set<nat>) {
    |b| == |s| + 1 && forall k :: 0 <= k < |b| ==> b[k] == if k in ends || k == |s| then '\0' else s[k]
  }

  lemma {:induction false} EndsOutside(s: string, n: Node, k: nat)
    requires WholeWords(s, n) && k in Ends(n)
    ensures k <= |s| && (k < |s| ==> !IsWordChar(s[k]))
  {
    match n
    case NExec(argv) =>
    case NRedir(d, f, _) => if k in Ends(d) { EndsOutside(s, d, k); }
    case NPipe(l, r) => if k in Ends(l) { EndsOutside(s, l, k); } else { EndsOutside(s, r, k); }
    case NList(l, r) => if k in Ends(l) { EndsOutside(s, l, k); } else { EndsOutside(s, r, k); }
    case NBack(d) => EndsOutside(s, d, k);
  }

  lemma {:induction false} WordReads(s: string, b: string, ends: set<nat>, p: Span, q: nat)
    requires Terminated(s, b, ends) && WholeWord(s, p) && p.eq in ends && p.q <= q <= p.eq
    requires forall k: nat :: k in ends && k < |s| ==> !IsWordChar(s[k])
    ensures CString(b, q) == s[q..p.eq]
    decreases p.eq - q
  {
    if q < p.eq {
      WordReads(s, b, ends, p, q + 1);
      assert s[q..p.eq] == [s[q]] + s[q + 1..p.eq];
    }
  }

  lemma {:induction false} TreeReads(s: string, b: string, ends: set<nat>, n: Node)
    requires Terminated(s, b, ends) && WholeWords(s, n) && Ends(n) <= ends
    requires forall k: nat :: k in ends && k < |s| ==> !IsWordChar(s[k])
    ensures ReadBack(b, n) == Tree(s, n)
  {
    match n
    case NExec(argv) =>
      forall i | 0 <= i < |argv| ensures CString(b, argv[i].q) == Text(s, argv[i]) {
        assert argv[i].eq in Ends(n);
        WordReads(s, b, ends, argv[i], argv[i].q);
      }
      assert CStrings(b, argv) == Texts(s, argv);
    case NRedir(d, f, _) =>
      TreeReads(s, b, ends, d);
      WordReads(s, b, ends, f, f.q);
    case NPipe(l, r) =>
      TreeReads(s, b, ends, l);
      TreeReads(s, b, ends, r);
    case NList(l, r) =>
      TreeReads(s, b, ends, l);
      TreeReads(s, b, ends, r);
    case NBack(d) => TreeReads(s, b, ends, d);
  }

  /** parsecmd: it always terminates, panics exactly when the line says no command of at most 9 words
      each, and the tree reads, through the line it was parsed from, as the command that the line says,
      with every word and every redirection of the line. */
  method Parsecmd(buf: array<char>) returns (r: Option<Node>)
    requires buf.Length > 0 && buf[buf.Length - 1] == '\0' && forall k :: 0 <= k < buf.Length - 1 ==> buf[k] != '\0'
    modifies buf
    ensures r.Some? <==> Whole(Lex(old(buf[..buf.Length - 1]), 0)).Some?
    ensures r.Some? ==> ReadBack(buf[..], r.value) == Whole(Lex(old(buf[..buf.Length - 1]), 0)).value
    ensures r.None? ==> forall c | SaysLine(c, Lex(old(buf[..buf.Length - 1]), 0)) :: !Printable(c)
    ensures r.Some? ==>
              var c, ts := ReadBack(buf[..], r.value), Lex(old(buf[..buf.Length - 1]), 0);
              && SaysLine(c, ts) && Printable(c)
              && CmdWords(c) == LineWords(ts) && SameFiles(CmdFiles(c), LineFiles(ts))
  {
    var s := buf[..buf.Length - 1];
    Saying(Lex(s, 0));
    var parser := new Parser(s);
    r := parser.Parseline();
    if r.None? {
      return;
    }
    var b := parser.Peek("");
    LexEmpty(s, parser.at);
    if parser.at != |s| {
      return None;
    }
    Nulterminate(r.value, buf, s);
    forall k: nat | k in Ends(r.value) ensures k <= |s| && (k < |s| ==> !IsWordChar(s[k])) {
      EndsOutside(s, r.value, k);
    }
    TreeReads(s, buf[..], Ends(r.value), r.value);
  }

  lemma Saying(ts: seq<Token>)
    ensures Whole(ts).None? ==> forall c | SaysLine(c, ts) :: !Printable(c)
    ensures Whole(ts).Some? ==>
              var c := Whole(ts).value;
              && SaysLine(c, ts) && Printable(c)
              && CmdWords(c) == LineWords(ts) && SameFiles(CmdFiles(c), LineFiles(ts))
  {
    if Whole(ts).Some? {
      ParsesExactly(ts, Whole(ts).value);
      LineKeeps(Whole(ts).value, ts);
    }
    forall c | SaysLine(c, ts) && Printable(c) ensures Whole(ts).Some? {
      ParsesExactly(ts, c);
    }
  }

  lemma LexEmpty(s: string, i: nat)
    requires i <= |s| && Skip(s, i) == i
    ensures Lex(s, i) == [] <==> i == |s|
  {
  }

  // ----- From tokens to characters -----

  function Show(t: Token): string {
    match t
    case Word(w) => w
    case Sym(c) => if c == '+' then ">>" else [c]
  }

  /** Each token and a space. */
  function Render(ts: seq<Token>): string {
    if ts == [] then "" else Show(ts[0]) + " " + Render(ts[1..])
  }

  ghost predicate Proper(t: Token) {
    match t
    case Word(w) => w != "" && forall k :: 0 <= k < |w| ==> IsWordChar(w[k])
    case Sym(c) => IsSymbol(c) || c == '+'
  }

  lemma {:induction false} LexRender(pre: string, ts: seq<Token>)
    requires forall i :: 0 <= i < |ts| ==> Proper(ts[i])
    ensures Lex(pre + Render(ts), |pre|) == ts
    decreases |ts|
  {
    if ts == [] {
      assert pre + Render(ts) == pre;
    } else {
      var p2 := pre + Show(ts[0]) + " ";
      RenderStep(pre, ts);
      hide Lex, Proper, Show, Render;
      LexRender(p2, ts[1..]);
      assert [ts[0]] + ts[1..] == ts;
    }
  }

  lemma RenderStep(pre: string, ts: seq<Token>)
    requires ts != [] && Proper(ts[0])
    ensures var p2 := pre + Show(ts[0]) + " ";
            && pre + Render(ts) == p2 + Render(ts[1..])
            && Lex(p2 + Render(ts[1..]), |pre|) == [ts[0]] + Lex(p2 + Render(ts[1..]), |p2|)
  {
    var x := Show(ts[0]);
    var s := pre + x + " " + Render(ts[1..]);
    Joined(pre, x, Render(ts[1..]));
    hide Render;
    FirstToken(s, |pre|, ts[0]);
    LexFirst(s, |pre|);
    SkipOne(s, |pre| + |x|);
  }

  lemma Joined(a: string, x: string, z: string)
    ensures a + (x + " " + z) == a + x + " " + z
    ensures var s := a + x + " " + z; s[|a|..|a| + |x|] == x && s[|a| + |x|] == ' '
  {
  }

  lemma LexFirst(s: string, i: nat)
    requires i < |s| && Skip(s, i) == i && !IsSpace(s[i])
    ensures Lex(s, i) == [TokenAt(s, i)] + Lex(s, TokenEnd(s, i))
  {
  }

  lemma FirstToken(s: string, i: nat, t: Token)
    requires Proper(t) && i + |Show(t)| < |s| && s[i..i + |Show(t)|] == Show(t) && s[i + |Show(t)|] == ' '
    ensures Skip(s, i) == i && !IsSpace(s[i]) && TokenAt(s, i) == t && TokenEnd(s, i) == i + |Show(t)|
  {
    var x := Show(t);
    forall k | 0 <= k < |x| ensures s[i + k] == x[k] {
      assert s[i..i + |x|][k] == s[i + k];
    }
    if t.Word? {
      WordEndIs(s, i, i + |x|);
    }
  }

  lemma WordEndIs(s: string, i: nat, e: nat)
    requires i <= e < |s| && IsSpace(s[e]) && forall k :: i <= k < e ==> IsWordChar(s[k])
    ensures WordEnd(s, i) == e
  {
    var w := WordEnd(s, i);
    assert w < |s| ==> !IsWordChar(s[w]);
  }

  lemma SkipOne(s: string, i: nat)
    requires i < |s| && s[i] == ' '
    ensures Lex(s, i) == Lex(s, i + 1)
  {
    assert Skip(s, i) == Skip(s, i + 1);
  }

  /** The words of a command are words. */
  ghost predicate ProperWords(c: Cmd) {
    match c
    case Exec(argv) => forall i :: 0 <= i < |argv| ==> Proper(Word(argv[i]))
    case Redir(d, f, _) => ProperWords(d) && Proper(Word(f))
    case Pipe(l, r) => ProperWords(l) && ProperWords(r)
    case List(l, r) => ProperWords(l) && ProperWords(r)
    case Back(d) => ProperWords(d)
  }

  ghost predicate AllProper(ts: seq<Token>) {
    forall i :: 0 <= i < |ts| ==> Proper(ts[i])
  }

  lemma {:induction false} BaseProper(c: Cmd)
    requires ProperWords(c)
    ensures ProperWords(Base(c)) && AllProper(RedirTokens(c))
  {
    if c.Redir? { BaseProper(c.cmd); }
  }

  lemma {:induction false} ExecProper(c: Cmd)
    requires ProperWords(c)
    ensures AllProper(PrintExec(c))
    decreases c, Rank(c, 3)
  {
    BaseProper(c);
    if !Base(c).Exec? {
      if c.Redir? {
        BaseSmaller(c);
        LineProper(Base(c));
      } else {
        LineProper(c);
      }
    }
  }

  lemma {:induction false} PipeProper(c: Cmd)
    requires ProperWords(c)
    ensures AllProper(PrintPipe(c))
    decreases c, Rank(c, 2)
  {
    if c.Pipe? {
      ExecProper(c.left);
      PipeProper(c.right);
    } else {
      ExecProper(c);
    }
  }

  lemma {:induction false} BackProper(c: Cmd)
    requires ProperWords(c)
    ensures AllProper(PrintBack(c))
    decreases c, Rank(c, 1)
  {
    if c.Back? { BackProper(c.cmd); } else { PipeProper(c); }
  }

  lemma {:induction false} LineProper(c: Cmd)
    requires ProperWords(c)
    ensures AllProper(PrintLine(c))
    decreases c, Rank(c, 0)
  {
    if c.List? {
      BackProper(c.left);
      LineProper(c.right);
    } else {
      BackProper(c);
    }
  }

  /** parse(print(c)) == c, on characters, for every command tree with proper words, at most 9 each. */
  lemma PrintParse(c: Cmd)
    requires Printable(c) && ProperWords(c)
    ensures Whole(Lex(Render(PrintLine(c)), 0)) == Some(c)
  {
    LineProper(c);
    assert "" + Render(PrintLine(c)) == Render(PrintLine(c));
    LexRender("", PrintLine(c));
    RoundTrip(c);
  }
}
