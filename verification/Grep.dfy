/** xv6-riscv/user/grep.c: the matcher against the language of a pattern, and the line buffer. */
module Grep {

  // ----- The language of a pattern -----

  /** A literal or ".", once or any number of times. */
  datatype Item = Once(c: char) | Star(c: char)

  /** The items of a pattern, and whether "$" ends it. */
  datatype Pattern = Pattern(items: seq<Item>, atEnd: bool)

  function Parse(re: string): Pattern {
    if re == "" then Pattern([], false)
    else if |re| >= 2 && re[1] == '*' then Prepend(Star(re[0]), Parse(re[2..]))
    else if re == "$" then Pattern([], true)
    else Prepend(Once(re[0]), Parse(re[1..]))
  }

  function Prepend(i: Item, p: Pattern): Pattern {
    p.(items := [i] + p.items)
  }

  predicate Stands(c: char, x: char) { c == '.' || c == x }

  predicate AllStand(c: char, w: string) {
    forall j :: 0 <= j < |w| ==> Stands(c, w[j])
  }

  predicate Fits(i: Item, w: string) {
    match i
    case Once(c) => |w| == 1 && Stands(c, w[0])
    case Star(c) => AllStand(c, w)
  }

  function Concat(ws: seq<string>): string {
    if ws == [] then "" else ws[0] + Concat(ws[1..])
  }

  /** w is made of one piece for each item. */
  ghost predicate Made(items: seq<Item>, ws: seq<string>, w: string) {
    |ws| == |items| && Concat(ws) == w && forall k :: 0 <= k < |items| ==> Fits(items[k], ws[k])
  }

  /** The items match a beginning of the text, or all of it. */
  ghost predicate Here(p: Pattern, text: string) {
    exists ws, e: nat :: e <= |text| && Made(p.items, ws, text[..e]) && (p.atEnd ==> e == |text|)
  }

  /** What match is for: the pattern, unless it begins with "^", may begin anywhere in the text. */
  ghost predicate Selects(re: string, text: string) {
    if |re| > 0 && re[0] == '^' then Here(Parse(re[1..]), text)
    else exists s: nat :: s <= |text| && Here(Parse(re), text[s..])
  }

  lemma HereEmpty(text: string)
    ensures Here(Pattern([], false), text)
    ensures Here(Pattern([], true), text) <==> text == ""
  {
    assert Made([], [], text[..0]);
    if Here(Pattern([], true), text) {
      var ws, e: nat :| e <= |text| && Made([], ws, text[..e]) && e == |text|;
      assert text[..e] == text;
    }
  }

  lemma HereOnce(c: char, p: Pattern, text: string)
    ensures Here(Prepend(Once(c), p), text) <==> text != "" && Stands(c, text[0]) && Here(p, text[1..])
  {
    var p1 := Prepend(Once(c), p);
    if Here(p1, text) {
      var ws, e: nat :| e <= |text| && Made(p1.items, ws, text[..e]) && (p1.atEnd ==> e == |text|);
      assert Fits(p1.items[0], ws[0]);
      MadeRest(p1.items, ws, text, e);
    }
    if text != "" && Stands(c, text[0]) && Here(p, text[1..]) {
      var ws, e: nat :| e <= |text| - 1 && Made(p.items, ws, text[1..][..e]) && (p.atEnd ==> e == |text| - 1);
      MadeMore(Once(c), p.items, ws, text, 1, e);
    }
  }

  lemma HereStar(c: char, p: Pattern, text: string)
    ensures Here(Prepend(Star(c), p), text) <==> exists k: nat :: StarAt(c, p, text, k)
  {
    var p1 := Prepend(Star(c), p);
    if Here(p1, text) {
      var ws, e: nat :| e <= |text| && Made(p1.items, ws, text[..e]) && (p1.atEnd ==> e == |text|);
      assert Fits(p1.items[0], ws[0]);
      MadeRest(p1.items, ws, text, e);
      assert StarAt(c, p, text, |ws[0]|);
    }
    if k: nat :| StarAt(c, p, text, k) {
      var ws, e: nat :| e <= |text| - k && Made(p.items, ws, text[k..][..e]) && (p.atEnd ==> e == |text| - k);
      MadeMore(Star(c), p.items, ws, text, k, e);
    }
  }

  /** c* takes the first k characters and the rest of the pattern matches after them. */
  ghost predicate StarAt(c: char, p: Pattern, text: string, k: nat) {
    k <= |text| && AllStand(c, text[..k]) && Here(p, text[k..])
  }

  /** Without its first piece. */
  lemma MadeRest(items: seq<Item>, ws: seq<string>, text: string, e: nat)
    requires |items| > 0 && e <= |text| && Made(items, ws, text[..e])
    ensures |ws[0]| <= e && ws[0] == text[..|ws[0]|]
    ensures Made(items[1..], ws[1..], text[|ws[0]|..][..e - |ws[0]|])
  {
    var n := |ws[0]|;
    assert text[..e] == ws[0] + Concat(ws[1..]);
    assert text[..e][..n] == text[..n];
    assert text[n..][..e - n] == text[..e][n..] == Concat(ws[1..]);
  }

  lemma MadeMore(i: Item, items: seq<Item>, ws: seq<string>, text: string, k: nat, e: nat)
    requires k <= |text| && e <= |text| - k && Fits(i, text[..k]) && Made(items, ws, text[k..][..e])
    ensures Made([i] + items, [text[..k]] + ws, text[..k + e])
  {
    var ws1 := [text[..k]] + ws;
    assert ws1[1..] == ws;
    assert text[..k + e] == text[..k] + text[k..][..e];
  }

  // ----- The matcher: text[j..] is the string the moving pointer stands for -----

  /** matchhere. */
  method Matchhere(re: string, text: string) returns (r: bool)
    ensures r <==> Here(Parse(re), text)
    decreases |re|, 1
  {
    HereEmpty(text);
    if re == "" {
      return true;
    }
    if |re| >= 2 && re[1] == '*' {
      assert Parse(re) == Prepend(Star(re[0]), Parse(re[2..]));
      HereStar(re[0], Parse(re[2..]), text);
      r := Matchstar(re[0], re[2..], text);
      assert r <==> Here(Prepend(Star(re[0]), Parse(re[2..])), text);
      return;
    }
    if re[0] == '$' && |re| == 1 {
      assert re == "$";
      return text == "";
    }
    assert re != "$";
    HereOnce(re[0], Parse(re[1..]), text);
    if text != "" && (re[0] == '.' || re[0] == text[0]) {
      r := Matchhere(re[1..], text[1..]);
      return;
    }
    r := false;
  }

  /** matchstar. */
  method Matchstar(c: char, re: string, text: string) returns (r: bool)
    ensures r <==> exists k: nat :: StarAt(c, Parse(re), text, k)
    decreases |re|, 2
  {
    var j := 0;
    while true
      invariant j <= |text| && AllStand(c, text[..j])
      invariant forall k: nat :: k < j ==> !StarAt(c, Parse(re), text, k)
      decreases |text| - j
    {
      r := Matchhere(re, text[j..]);
      if r {
        assert StarAt(c, Parse(re), text, j);
        return;
      }
      if !(j < |text| && (text[j] == c || c == '.')) {
        break;
      }
      assert text[..j + 1] == text[..j] + [text[j]];
      j := j + 1;
    }
    forall k: nat ensures !StarAt(c, Parse(re), text, k) {
      if j < k <= |text| {
        assert text[..k][j] == text[j];
      }
    }
  }

  /** match returns 1 exactly when the pattern selects the text. */
  method Match(re: string, text: string) returns (r: bool)
    ensures r <==> Selects(re, text)
  {
    if |re| > 0 && re[0] == '^' {
      r := Matchhere(re[1..], text);
      return;
    }
    var j := 0;
    while true
      invariant j <= |text| && forall s: nat :: s < j ==> !Here(Parse(re), text[s..])
      decreases |text| - j
    {
      r := Matchhere(re, text[j..]);
      if r {
        return;
      }
      if j == |text| {
        return;
      }
      j := j + 1;
    }
  }

  // ----- The lines -----

  const SIZE: nat := 1024

  /** The place of the first newline, or the length. */
  function Newline(s: string): (r: nat)
    ensures r <= |s| && (r < |s| ==> s[r] == '\n') && forall j :: 0 <= j < r ==> s[j] != '\n'
  {
    if s == "" || s[0] == '\n' then 0 else 1 + Newline(s[1..])
  }

  predicate Plain(s: string) { forall j :: 0 <= j < |s| ==> s[j] != '\0' }

  /** Where strchr finds a newline, or the length: it looks no further than a NUL. */
  function LineEnd(s: string): (r: nat)
    ensures r <= |s| && (r < |s| ==> s[r] == '\n' && forall j :: 0 <= j < r ==> s[j] != '\n' && s[j] != '\0')
  {
    if s == "" || s[0] == '\n' then 0 else if s[0] == '\0' then |s| else 1 + LineEnd(s[1..])
  }

  lemma {:induction false} LineEndIs(s: string, n: nat)
    requires n <= |s| && (n < |s| ==> s[n] == '\n' || s[n] == '\0')
    requires forall j :: 0 <= j < n ==> s[j] != '\n' && s[j] != '\0'
    ensures LineEnd(s) == if n < |s| && s[n] == '\0' then |s| else n
  {
    if n == 0 {
    } else {
      LineEndIs(s[1..], n - 1);
    }
  }

  lemma LineEndNewline(s: string)
    ensures LineEnd(s) < |s| ==> Newline(s) == LineEnd(s)
    ensures Plain(s) ==> Newline(s) == LineEnd(s)
  {
    if LineEnd(s) < |s| {
      NewlineIs(s, LineEnd(s));
    } else if Plain(s) {
      LineEndIs(s, Newline(s));
    }
  }

  /** What the buffer shows of the rest of the input. */
  lemma LineEndPrefix(s: string, m: nat)
    requires m <= |s| && LineEnd(s[..m]) == m
    ensures LineEnd(s) == |s| || LineEnd(s) >= m
  {
    var r := LineEnd(s);
    if r < |s| && r < m {
      LineEndIs(s[..m], r);
    }
  }

  /** The newline-terminated lines of s that the pattern selects, each with its newline. */
  ghost function Selected(re: string, s: string): string
    decreases |s|
  {
    var n := Newline(s);
    if n == |s| then "" else (if Selects(re, s[..n]) then s[..n + 1] else "") + Selected(re, s[n + 1..])
  }

  /** Newline-terminated lines that fit the buffer with their newline. */
  ghost predicate ShortLines(s: string)
    decreases |s|
  {
    var n := Newline(s);
    n == |s| || (n < SIZE - 1 && ShortLines(s[n + 1..]))
  }

  lemma NewlineIs(s: string, n: nat)
    requires n <= |s| && (n < |s| ==> s[n] == '\n') && forall j :: 0 <= j < n ==> s[j] != '\n'
    ensures Newline(s) == n
  {
    var m := Newline(s);
    assert m < |s| ==> s[m] == '\n';
  }

  lemma FirstLine(a: string, b: string)
    requires a != "" && a[|a| - 1] == '\n'
    ensures Newline(a) < |a| && Newline(a + b) == Newline(a)
    ensures (a + b)[..Newline(a)] == a[..Newline(a)] && (a + b)[..Newline(a) + 1] == a[..Newline(a) + 1]
    ensures (a + b)[Newline(a) + 1..] == a[Newline(a) + 1..] + b
  {
    var n := Newline(a);
    assert a[|a| - 1] == '\n';
    NewlineIs(a + b, n);
  }

  /** What is selected from whole lines and then the rest. */
  lemma {:induction false} SelectedSplit(re: string, a: string, b: string)
    requires a != "" ==> a[|a| - 1] == '\n'
    ensures Selected(re, a + b) == Selected(re, a) + Selected(re, b)
    decreases |a|
  {
    hide Newline, Selects, Selected;
    SelectedNone(re);
    if a == "" {
      assert a + b == b;
    } else {
      FirstLine(a, b);
      FirstSelected(re, a);
      FirstSelected(re, a + b);
      var n := Newline(a);
      var rest := a[n + 1..];
      assert rest != "" ==> rest[|rest| - 1] == a[|a| - 1];
      SelectedSplit(re, rest, b);
      Associate(if Selects(re, a[..n]) then a[..n + 1] else "", Selected(re, rest), Selected(re, b));
    }
  }

  lemma Associate(a: string, b: string, c: string)
    ensures a + (b + c) == a + b + c
  {
  }

  lemma FirstSelected(re: string, s: string)
    requires Newline(s) < |s|
    ensures Selected(re, s) == (if Selects(re, s[..Newline(s)]) then s[..Newline(s) + 1] else "") + Selected(re, s[Newline(s) + 1..])
  {
  }

  lemma SelectedNone(re: string)
    ensures Selected(re, "") == ""
  {
  }

  lemma {:induction false} ShortRest(a: string, b: string)
    requires (a != "" ==> a[|a| - 1] == '\n') && ShortLines(a + b)
    ensures ShortLines(b)
    decreases |a|
  {
    hide Newline;
    if a == "" {
      assert a + b == b;
    } else {
      FirstLine(a, b);
      ShortRest(a[Newline(a) + 1..], b);
    }
  }

  lemma SelectedLine(re: string, a: string)
    requires a != "" && a[|a| - 1] == '\n' && forall j :: 0 <= j < |a| - 1 ==> a[j] != '\n'
    ensures Selected(re, a) == if Selects(re, a[..|a| - 1]) then a else ""
  {
    NewlineIs(a, |a| - 1);
    assert a[..|a| - 1 + 1] == a && a[|a|..] == "";
  }

  /** grep has dealt with the input up to `cut`, the start of a line, and written out. */
  ghost predicate Upto(re: string, input: string, cut: nat, out: string) {
    && cut <= |input| && Plain(input[..cut]) && (cut > 0 ==> input[cut - 1] == '\n')
    && out == Selected(re, input[..cut])
  }

  /** grep over an input read in pieces of any sizes (sizes[k] is what the k-th read would give if it
      could).  What it writes is what the lines before `cut` select; it stops there because no newline
      follows, or a NUL comes before it, or because a line fills the buffer. */
  method Grep(re: string, input: string, sizes: nat -> nat) returns (out: string, ghost cut: nat)
    requires forall k: nat :: sizes(k) > 0
    ensures Upto(re, input, cut, out)
    ensures LineEnd(input[cut..]) == |input| - cut || LineEnd(input[cut..]) >= SIZE - 1
    ensures ShortLines(input) && Plain(input) ==> out == Selected(re, input)
  {
    hide Selected, Newline, ShortLines, LineEnd, Upto, Plain;
    var buf := new char[SIZE](_ => '\0');
    var m: nat, pos: nat, k: nat := 0, 0, 0;
    out, cut := "", 0;
    Nothing(re, input);
    while true
      invariant m < SIZE && cut + m == pos <= |input| && buf[..m] == input[cut..pos] && LineEnd(input[cut..pos]) == m
      invariant Upto(re, input, cut, out)
      decreases |input| - pos
    {
      var n := Min(Min(sizes(k), SIZE - m - 1), |input| - pos);
      k := k + 1;
      if n == 0 {
        break;
      }
      Adjacent(input, cut, pos, pos + n);
      Copy(buf, m, input[pos..pos + n]);
      pos := pos + n;
      ghost var p0;
      out, m, p0 := Round(re, buf, m + n, out, input, cut);
      cut := cut + p0;
    }
    Finished(re, input, cut, pos, m, out);
  }

  lemma Adjacent(s: string, a: nat, b: nat, c: nat)
    requires a <= b <= c <= |s|
    ensures s[a..b] + s[b..c] == s[a..c]
  {
  }

  lemma Nothing(re: string, input: string)
    ensures Upto(re, input, 0, "") && LineEnd(input[0..0]) == 0
  {
  }

  /** After a read: the lines of the buffer, and the rest moved to its front. */
  method Round(re: string, buf: array<char>, m0: nat, out0: string, ghost input: string, ghost cut: nat) returns (out: string, m: nat, ghost p0: nat)
    requires m0 < buf.Length && cut + m0 <= |input| && buf[..m0] == input[cut..cut + m0]
    requires Upto(re, input, cut, out0)
    modifies buf
    ensures p0 + m == m0 && Upto(re, input, cut + p0, out)
    ensures buf[..m] == input[cut + p0..cut + m0] && LineEnd(input[cut + p0..cut + m0]) == m
  {
    hide Upto, LineEnd;
    buf[m0] := '\0';
    var p;
    out, p := Scan(re, buf, m0, out0, input, cut);
    m, p0 := m0 - p, p;
    MoveDown(buf, p, m);
  }

  function Min(a: nat, b: nat): nat { if a < b then a else b }

  /** read into buf at m. */
  method Copy(buf: array<char>, m: nat, piece: string)
    requires m + |piece| < buf.Length
    modifies buf
    ensures buf[..m + |piece|] == old(buf[..m]) + piece
  {
    var i := 0;
    while i < |piece|
      invariant i <= |piece| && buf[..m + i] == old(buf[..m]) + piece[..i]
    {
      buf[m + i] := piece[i];
      assert buf[..m + i + 1] == buf[..m + i] + [piece[i]];
      i := i + 1;
    }
  }

  /** memmove(buf, p, m). */
  method MoveDown(buf: array<char>, p: nat, m: nat)
    requires p + m <= buf.Length
    modifies buf
    ensures buf[..m] == old(buf[p..p + m])
  {
    var i := 0;
    while i < m
      invariant i <= m && buf[..i] == old(buf[p..p + i])
      invariant forall j :: i <= j < buf.Length ==> buf[j] == old(buf[j])
    {
      buf[i] := buf[p + i];
      i := i + 1;
    }
  }

  /** strchr(p, '\n'): the place of the newline, or m when the string that ends at the first NUL has none. */
  method Strchr(buf: array<char>, p: nat, m: nat) returns (q: nat)
    requires p <= m < buf.Length && buf[m] == '\0'
    ensures p <= q <= m && q == p + LineEnd(buf[p..m])
  {
    q := p;
    while buf[q] != '\0'
      invariant p <= q <= m && forall j :: p <= j < q ==> buf[j] != '\n' && buf[j] != '\0'
      decreases m - q
    {
      if buf[q] == '\n' {
        LineEndIs(buf[p..m], q - p);
        return;
      }
      q := q + 1;
    }
    LineEndIs(buf[p..m], q - p);
    q := m;
  }

  /** The loop over the lines in the buffer, which holds the input from `cut` on. */
  method Scan(re: string, buf: array<char>, m: nat, out0: string, ghost input: string, ghost cut: nat) returns (out: string, p: nat)
    requires m < buf.Length && buf[m] == '\0' && cut + m <= |input| && buf[..m] == input[cut..cut + m]
    requires Upto(re, input, cut, out0)
    modifies buf
    ensures p <= m && Upto(re, input, cut + p, out)
    ensures buf[p..m] == input[cut + p..cut + m] && LineEnd(input[cut + p..cut + m]) == m - p
  {
    hide Upto, LineEnd;
    out, p := out0, 0;
    while true
      invariant p <= m && Upto(re, input, cut + p, out)
      invariant buf[m] == '\0' && buf[p..m] == input[cut + p..cut + m]
      decreases m - p
    {
      var more;
      more, out, p := Line(re, buf, p, m, out, input, cut);
      if !more {
        break;
      }
    }
  }

  /** One round of that loop. */
  method Line(re: string, buf: array<char>, p0: nat, m: nat, out0: string, ghost input: string, ghost cut: nat)
    returns (more: bool, out: string, p: nat)
    requires p0 <= m < buf.Length && buf[m] == '\0' && cut + m <= |input| && buf[p0..m] == input[cut + p0..cut + m]
    requires Upto(re, input, cut + p0, out0)
    modifies buf
    ensures p <= m && Upto(re, input, cut + p, out)
    ensures buf[m] == '\0' && buf[p..m] == input[cut + p..cut + m]
    ensures if more then p > p0 else p == p0 && LineEnd(input[cut + p..cut + m]) == m - p
  {
    hide Upto, LineEnd, Selected, Selects;
    ghost var s := buf[p0..m];
    out, p := out0, p0;
    var q := Strchr(buf, p, m);
    if q == m {
      return false, out, p;
    }
    BufferSlices(buf[..], p, q, m);
    out := Emit(re, buf, p, q, m, out);
    OneMore(re, input, cut + p, cut + q, s, out0, out);
    p := q + 1;
    more := true;
  }

  /** The next line is dealt with. */
  lemma OneMore(re: string, input: string, a: nat, q: nat, s: string, out0: string, out: string)
    requires Upto(re, input, a, out0) && a <= q < a + |s| <= |input| && s == input[a..a + |s|] && q - a == LineEnd(s)
    requires out == out0 + if Selects(re, s[..q - a]) then s[..q - a + 1] else ""
    ensures Upto(re, input, q + 1, out) && input[q + 1..a + |s|] == s[q - a + 1..]
  {
    hide Selected, Selects, Newline, Plain, LineEnd;
    LineEndNewline(s);
    PlainMore(input, a, q - a + 1, s);
    OneLine(re, input, a, q, s);
  }

  lemma PlainMore(input: string, a: nat, n: nat, s: string)
    requires a + |s| <= |input| && s == input[a..a + |s|] && n <= |s| && Plain(input[..a])
    requires forall j :: 0 <= j < n ==> s[j] != '\0'
    ensures Plain(input[..a + n])
  {
    assert input[..a + n] == input[..a] + s[..n];
  }

  lemma BufferSlices(b: string, p: nat, q: nat, m: nat)
    requires p <= q < m <= |b|
    ensures b[p..m][..q - p] == b[p..q] && b[p..m][..q - p + 1] == b[p..q + 1] && b[p..m][q - p + 1..] == b[q + 1..m]
    ensures b[p..m][q - p] == b[q]
  {
  }

  /** The line is ended with a NUL for match, and written with its newline if it matches. */
  method Emit(re: string, buf: array<char>, p: nat, q: nat, m: nat, out0: string) returns (out: string)
    requires p <= q < m < buf.Length && buf[q] == '\n'
    modifies buf
    ensures buf[m] == old(buf[m]) && buf[q + 1..m] == old(buf[q + 1..m])
    ensures out == out0 + if Selects(re, old(buf[p..q])) then old(buf[p..q + 1]) else ""
  {
    out := out0;
    buf[q] := '\0';
    assert buf[p..q] == old(buf[p..q]);
    var yes := Match(re, buf[p..q]);
    if yes {
      buf[q] := '\n';
      assert buf[p..q + 1] == old(buf[p..q + 1]);
      out := out + buf[p..q + 1];
    }
  }

  /** One more line. */
  lemma OneLine(re: string, input: string, a: nat, q: nat, s: string)
    requires a <= q < a + |s| <= |input| && s == input[a..a + |s|] && q - a == Newline(s)
    requires a > 0 ==> input[a - 1] == '\n'
    ensures input[q] == '\n' && s[q - a] == '\n' && input[a..q] == s[..q - a] && input[a..q + 1] == s[..q - a + 1]
    ensures input[q + 1..a + |s|] == s[q - a + 1..]
    ensures Selected(re, input[..q + 1]) == Selected(re, input[..a]) + if Selects(re, input[a..q]) then input[a..q + 1] else ""
  {
    SameSlices(input, a, q, s);
    LineAdded(re, input[..a], s[..q - a], s[..q - a + 1]);
  }

  lemma LineAdded(re: string, pre: string, body: string, line: string)
    requires (pre != "" ==> pre[|pre| - 1] == '\n') && line == body + "\n" && forall j :: 0 <= j < |body| ==> body[j] != '\n'
    ensures Selected(re, pre + line) == Selected(re, pre) + if Selects(re, body) then line else ""
  {
    assert line[..|line| - 1] == body;
    hide Selected, Selects, Newline, LineEnd;
    SelectedLine(re, line);
    SelectedSplit(re, pre, line);
  }

  lemma SameSlices(input: string, a: nat, q: nat, s: string)
    requires a <= q < a + |s| <= |input| && s == input[a..a + |s|]
    ensures input[a..q] == s[..q - a] && input[a..q + 1] == s[..q - a + 1] && input[q + 1..a + |s|] == s[q - a + 1..]
    ensures input[q] == s[q - a] && s[..q - a + 1] == s[..q - a] + [s[q - a]]
    ensures input[..a] + s[..q - a + 1] == input[..q + 1]
  {
    assert input[..a] + input[a..q + 1] == input[..q + 1];
  }

  /** Why the loop may stop. */
  lemma Finished(re: string, input: string, cut: nat, pos: nat, m: nat, out: string)
    requires m < SIZE && cut + m == pos <= |input| && LineEnd(input[cut..pos]) == m
    requires Upto(re, input, cut, out)
    requires m == SIZE - 1 || pos == |input|
    ensures LineEnd(input[cut..]) == |input| - cut || LineEnd(input[cut..]) >= SIZE - 1
    ensures ShortLines(input) && Plain(input) ==> out == Selected(re, input)
  {
    var tail := input[cut..];
    assert tail[..m] == input[cut..pos];
    LineEndPrefix(tail, m);
    LineEndNewline(tail);
    assert input == input[..cut] + tail;
    SelectedSplit(re, input[..cut], tail);
    if ShortLines(input) && Plain(input) {
      ShortRest(input[..cut], tail);
    }
  }
}
