/** Printing a command tree with every sub-command in parentheses, and parsing it
    back with the grammar of bin/sh/sh.c. */
module ShellRoundTrip {
  import opened Options
  import opened ShellGrammar

  /** A command as the shell runs it. */
  datatype Tree =
    | Simple(args: seq<string>)
    | File(tree: Tree, name: string, output: bool)
    | Piped(left: Tree, right: Tree)
    | Then(left: Tree, right: Tree)
    | Background(tree: Tree)

  predicate Word(w: string) {
    w != [] && forall i :: 0 <= i < |w| ==> WordChar(w[i])
  }

  /** At most MAXARGS - 1 arguments, and words without white space or symbols. */
  predicate WellFormed(t: Tree) {
    match t
    case Simple(args) => |args| < MAXARGS && forall i :: 0 <= i < |args| ==> Word(args[i])
    case File(u, name, _) => WellFormed(u) && Word(name)
    case Piped(l, r) => WellFormed(l) && WellFormed(r)
    case Then(l, r) => WellFormed(l) && WellFormed(r)
    case Background(u) => WellFormed(u)
  }

  function PrintArgs(args: seq<string>): string {
    if args == [] then "" else args[0] + " " + PrintArgs(args[1..])
  }

  function Paren(s: string): string { "(" + s + ")" }

  function Print(t: Tree): string {
    match t
    case Simple(args) => PrintArgs(args)
    case File(u, name, output) => Paren(Print(u)) + (if output then ">" else "<") + name + " "
    case Piped(l, r) => Paren(Print(l)) + "|" + Paren(Print(r))
    case Then(l, r) => Paren(Print(l)) + ";" + Paren(Print(r))
    case Background(u) => Paren(Print(u)) + "&"
  }

  // ----- trees of spans as trees -----

  function Text(b: Line, p: Span): string {
    if p.q <= p.eq <= |b| then b[p.q..p.eq] else ""
  }

  function Texts(b: Line, ps: seq<Span>): seq<string> {
    seq(|ps|, i requires 0 <= i < |ps| => Text(b, ps[i]))
  }

  function Meaning(b: Line, c: Cmd): Tree {
    match c
    case Exec(argv) => Simple(Texts(b, argv))
    case Redir(d, file, mode, fd) => File(Meaning(b, d), Text(b, file), fd == 1)
    case Pipe(l, r) => Piped(Meaning(b, l), Meaning(b, r))
    case List(l, r) => Then(Meaning(b, l), Meaning(b, r))
    case Back(d) => Background(Meaning(b, d))
  }

  // ----- text at a position -----

  predicate Holds(b: Line, s: nat, x: string) {
    s + |x| <= |b| && b[s..s + |x|] == x
  }

  lemma Split(b: Line, s: nat, x: string, y: string)
    requires Holds(b, s, x + y)
    ensures Holds(b, s, x) && Holds(b, s + |x|, y)
  {
    var z := x + y;
    assert x == z[..|x|] && y == z[|x|..];
  }

  /** The text ends the line or a closing parenthesis follows. */
  predicate Closed(b: Line, e: nat) {
    e <= |b| && (e == |b| || b[e] == ')')
  }

  lemma CharAt(b: Line, s: nat, c: char)
    requires Holds(b, s, [c])
    ensures s < |b| && b[s] == c
  {
    assert b[s..s + 1][0] == b[s];
  }

  // ----- tokens in place -----

  /** A word followed by a blank, which is followed by something else. */
  lemma WordToken(b: Line, s: nat, w: string)
    requires Word(w) && Holds(b, s, w + " ") && !White(At(b, s + |w| + 1))
    ensures s + |w| + 1 <= |b| && GetToken(b, s) == Token('a', Span(s, s + |w|), s + |w| + 1)
    ensures Text(b, Span(s, s + |w|)) == w
  {
    Split(b, s, w, " ");
    CharAt(b, s + |w|, ' ');
    forall i | s <= i < s + |w| ensures b[i] == w[i - s] && WordChar(b[i]) {
      assert b[s..s + |w|][i - s] == b[i];
    }
    assert Skip(b, s) == s;
    WordEndAt(b, s, s + |w|);
    assert Skip(b, s + |w|) == s + |w| + 1;
  }

  lemma {:induction false} WordEndAt(b: Line, s: nat, e: nat)
    requires s <= e <= |b| && !WordChar(At(b, e)) && forall i :: s <= i < e ==> WordChar(b[i])
    ensures WordEnd(b, s) == e
    decreases e - s
  {
    if s < e {
      WordEndAt(b, s + 1, e);
    }
  }

  /** A symbol other than > followed by something that is not blank. */
  lemma SymbolToken(b: Line, s: nat)
    requires s < |b| && Symbol(b[s]) && !White(At(b, s + 1)) && (b[s] == '>' ==> At(b, s + 1) != '>')
    ensures GetToken(b, s).kind == b[s] && GetToken(b, s).next == s + 1
  {
  }

  lemma Stays(b: Line, s: nat)
    requires s <= |b| && !White(At(b, s))
    ensures Skip(b, s) == s
  {
  }

  // ----- simple commands -----

  lemma NoRedirs(b: Line, s: nat)
    requires s <= |b| && !White(At(b, s)) && At(b, s) != '<' && At(b, s) != '>'
    ensures ParseRedirs(b, s) == Some(([], s))
  {
    Stays(b, s);
  }

  lemma ArgsStart(b: Line, s: nat, args: seq<string>)
    requires Holds(b, s, PrintArgs(args)) && Closed(b, s + |PrintArgs(args)|) && forall i :: 0 <= i < |args| ==> Word(args[i])
    ensures if args == [] then At(b, s) == ')' || s == |b| else s < |b| && WordChar(b[s])
  {
    if args != [] {
      Split(b, s, args[0], " " + PrintArgs(args[1..]));
      assert args[0] + (" " + PrintArgs(args[1..])) == PrintArgs(args);
      assert b[s..s + |args[0]|][0] == b[s];
    }
  }

  lemma {:induction false} ArgsParse(b: Line, s: nat, args: seq<string>, argc: nat) returns (spans: seq<Span>)
    requires Holds(b, s, PrintArgs(args)) && Closed(b, s + |PrintArgs(args)|) && forall i :: 0 <= i < |args| ==> Word(args[i])
    requires argc + |args| < MAXARGS
    ensures ParseArgs(b, s, argc) == Some((spans, [], s + |PrintArgs(args)|)) && Texts(b, spans) == args
    decreases |args|
  {
    hide Skip, WordEnd, GetToken, ParseRedirs, ParseArgs, PrintArgs, Texts;
    ArgsStart(b, s, args);
    if args == [] {
      spans := [];
      ArgsEnd(b, s, argc);
    } else {
      var w, rest := args[0], args[1..];
      PrintArgsStep(args);
      Split(b, s, w + " ", PrintArgs(rest));
      var n := s + |w| + 1;
      ArgsStart(b, n, rest);
      WordToken(b, s, w);
      NoRedirs(b, n);
      var more := ArgsParse(b, n, rest, argc + 1);
      spans := [Span(s, s + |w|)] + more;
      TextsStep(b, Span(s, s + |w|), more);
      ArgsStep(b, s, argc, Span(s, s + |w|), n, more, s + |PrintArgs(args)|);
    }
  }

  lemma PrintArgsStep(args: seq<string>)
    ensures args == [] ==> PrintArgs(args) == ""
    ensures args != [] ==> PrintArgs(args) == (args[0] + " ") + PrintArgs(args[1..])
  {
  }

  lemma TextsStep(b: Line, p: Span, more: seq<Span>)
    ensures Texts(b, []) == [] && Texts(b, [p] + more) == [Text(b, p)] + Texts(b, more)
  {
  }

  lemma ArgsEnd(b: Line, s: nat, argc: nat)
    requires s <= |b| && Closed(b, s)
    ensures ParseArgs(b, s, argc) == Some(([], [], s)) && PrintArgs([]) == "" && Texts(b, []) == []
  {
    Stays(b, s);
  }

  /** One argument of a printed list, and the rest. */
  lemma ArgsStep(b: Line, s: nat, argc: nat, p: Span, n: nat, more: seq<Span>, e: nat)
    requires s < n <= |b| && s < |b| && WordChar(b[s]) && GetToken(b, s) == Token('a', p, n) && argc + 1 < MAXARGS
    requires ParseRedirs(b, n) == Some(([], n)) && ParseArgs(b, n, argc + 1) == Some((more, [], e))
    ensures ParseArgs(b, s, argc) == Some(([p] + more, [], e))
  {
    Stays(b, s);
    hide Skip, GetToken, ParseRedirs;
    var none: seq<Redirection> := [];
    assert none + none == none;
  }

  /** A command that is all there is before the end or a parenthesis. */
  lemma PipeIsLine(b: Line, s: nat, c: Cmd, e: nat)
    requires s <= |b| && ParsePipe(b, s) == Some((c, e)) && Closed(b, e)
    ensures ParseLine(b, s) == Some((c, e))
  {
    Stays(b, e);
  }

  lemma ExecIsPipe(b: Line, s: nat, c: Cmd, e: nat)
    requires s <= |b| && ParseExec(b, s) == Some((c, e)) && e <= |b| && !White(At(b, e)) && At(b, e) != '|'
    ensures ParsePipe(b, s) == Some((c, e))
  {
    Stays(b, e);
  }

  lemma SimpleParses(b: Line, s: nat, args: seq<string>) returns (c: Cmd)
    requires WellFormed(Simple(args)) && Holds(b, s, PrintArgs(args)) && Closed(b, s + |PrintArgs(args)|)
    ensures ParseLine(b, s) == Some((c, s + |PrintArgs(args)|)) && Meaning(b, c) == Simple(args)
  {
    hide Skip, GetToken, ParseRedirs, ParseArgs, ParseExec, ParsePipe, ParseLine, PrintArgs, Texts;
    ArgsStart(b, s, args);
    NoRedirs(b, s);
    var spans := ArgsParse(b, s, args, 0);
    var e := s + |PrintArgs(args)|;
    c := Exec(spans);
    SimpleIsExec(b, s, spans, e);
    ExecIsPipe(b, s, c, e);
    PipeIsLine(b, s, c, e);
  }

  lemma SimpleIsExec(b: Line, s: nat, spans: seq<Span>, e: nat)
    requires s <= |b| && !White(At(b, s)) && At(b, s) != '(' && ParseRedirs(b, s) == Some(([], s)) && ParseArgs(b, s, 0) == Some((spans, [], e))
    ensures ParseExec(b, s) == Some((Exec(spans), e))
  {
    Stays(b, s);
    hide Skip, ParseRedirs, ParseArgs;
    var none: seq<Redirection> := [];
    assert none + none == none;
  }

  // ----- blocks -----

  /** Something printed never starts with a blank. */
  lemma PrintStart(b: Line, s: nat, t: Tree)
    requires WellFormed(t) && Holds(b, s, Print(t)) && s + |Print(t)| < |b| && b[s + |Print(t)|] == ')'
    ensures s < |b| && !White(b[s])
  {
    if t.Simple? {
      ArgsStart(b, s, t.args);
    } else {
      assert Print(t)[0] == '(';
      assert b[s..s + |Print(t)|][0] == b[s];
    }
  }

  /** A parenthesised text, with what follows the parenthesis still to read. */
  lemma BlockParses(b: Line, s: nat, t: Tree, c: Cmd)
    requires WellFormed(t) && Holds(b, s, Paren(Print(t)))
    requires ParseLine(b, s + 1) == Some((c, s + 1 + |Print(t)|))
    requires !White(At(b, s + 2 + |Print(t)|))
    ensures s + 2 + |Print(t)| <= |b| && Peek(b, s, {'('})
    ensures var redirs := ParseRedirs(b, s + 2 + |Print(t)|);
            ParseExec(b, s) == if redirs.None? then None else Some((Wrap(c, redirs.value.0), redirs.value.1))
  {
    hide Skip, GetToken, ParseRedirs, ParseLine, ParseExec, Print;
    var x, m := Print(t), s + 1 + |Print(t)|;
    assert Paren(x) == "(" + (x + ")");
    Split(b, s, "(", x + ")");
    Split(b, s + 1, x, ")");
    CharAt(b, s, '(');
    CharAt(b, m, ')');
    PrintStart(b, s + 1, t);
    SymbolToken(b, s);
    SymbolToken(b, m);
    InParens(b, s, m, c);
  }

  lemma InParens(b: Line, s: nat, m: nat, c: Cmd)
    requires s < m < |b| && b[s] == '(' && b[m] == ')' && GetToken(b, s).next == s + 1 && GetToken(b, m).next == m + 1
    requires ParseLine(b, s + 1) == Some((c, m))
    ensures Peek(b, s, {'('})
    ensures var redirs := ParseRedirs(b, m + 1);
            ParseExec(b, s) == if redirs.None? then None else Some((Wrap(c, redirs.value.0), redirs.value.1))
  {
    hide Skip, GetToken, ParseRedirs, ParseLine, ParseSimple, ParseExec, ParseBlock;
    Stays(b, s);
    Stays(b, m);
    BlockBody(b, s);
  }

  /** parseexec at a parenthesis, unrolled through parseblock. */
  lemma BlockBody(b: Line, s: nat)
    requires s <= |b| && Peek(b, s, {'('})
    ensures var inner := ParseLine(b, GetToken(b, s).next);
            ParseExec(b, s) ==
            if inner.None? || !Peek(b, inner.value.1, {')'}) then None
            else
              var redirs := ParseRedirs(b, GetToken(b, inner.value.1).next);
              if redirs.None? then None else Some((Wrap(inner.value.0, redirs.value.0), redirs.value.1))
  {
    hide ParseLine, ParseRedirs, Wrap;
  }

  // ----- the round trip -----

  /** A block with nothing of its own after it. */
  lemma BareBlock(b: Line, s: nat, t: Tree, c: Cmd)
    requires WellFormed(t) && Holds(b, s, Paren(Print(t)))
    requires ParseLine(b, s + 1) == Some((c, s + 1 + |Print(t)|))
    requires var n := s + 2 + |Print(t)|; !White(At(b, n)) && At(b, n) != '<' && At(b, n) != '>'
    ensures s + 2 + |Print(t)| <= |b| && ParseExec(b, s) == Some((c, s + 2 + |Print(t)|))
  {
    hide ParseRedirs, ParseLine, ParseExec, Print;
    BlockParses(b, s, t, c);
    NoRedirs(b, s + 2 + |Print(t)|);
  }

  /** A block closed by the end or a parenthesis is a pipeline and a line. */
  lemma LastBlock(b: Line, s: nat, t: Tree, c: Cmd)
    requires WellFormed(t) && Holds(b, s, Paren(Print(t))) && Closed(b, s + 2 + |Print(t)|)
    requires ParseLine(b, s + 1) == Some((c, s + 1 + |Print(t)|))
    ensures ParsePipe(b, s) == Some((c, s + 2 + |Print(t)|)) && ParseLine(b, s) == Some((c, s + 2 + |Print(t)|))
  {
    hide ParseExec, ParsePipe, ParseLine, Print;
    BareBlock(b, s, t, c);
    ExecIsPipe(b, s, c, s + 2 + |Print(t)|);
    PipeIsLine(b, s, c, s + 2 + |Print(t)|);
  }

  /** A redirection after a block. */
  lemma RedirectedBlock(b: Line, s: nat, t: Tree, c: Cmd, name: string, output: bool) returns (d: Cmd)
    requires WellFormed(File(t, name, output)) && Holds(b, s, Print(File(t, name, output))) && Closed(b, s + |Print(File(t, name, output))|)
    requires ParseLine(b, s + 1) == Some((c, s + 1 + |Print(t)|)) && Meaning(b, c) == t
    ensures ParseLine(b, s) == Some((d, s + |Print(File(t, name, output))|)) && Meaning(b, d) == File(t, name, output)
  {
    hide Skip, GetToken, ParseRedirs, ParseExec, ParsePipe, ParseLine, Print, Paren;
    var n, e := s + 2 + |Print(t)|, s + |Print(File(t, name, output))|;
    FileText(b, s, t, name, output);
    BlockParses(b, s, t, c);
    RedirectParses(b, n, name, output);
    var r := To(n + 1, |name|, output);
    d := Redir(c, r.file, r.mode, r.fd);
    WrapOne(c, r);
    ExecIsPipe(b, s, d, e);
    PipeIsLine(b, s, d, e);
  }

  function To(q: nat, len: nat, output: bool): Redirection {
    if output then Redirection(Span(q, q + len), O_WRONLY_CREATE, 1) else Redirection(Span(q, q + len), O_RDONLY, 0)
  }

  lemma WrapOne(c: Cmd, r: Redirection)
    ensures Wrap(c, [r]) == Redir(c, r.file, r.mode, r.fd)
  {
    assert [r][..0] == [];
  }

  lemma FileText(b: Line, s: nat, t: Tree, name: string, output: bool)
    requires Holds(b, s, Print(File(t, name, output)))
    ensures var n := s + 2 + |Print(t)|;
            && |Print(File(t, name, output))| == |Print(t)| + |name| + 4 && n < |b|
            && Holds(b, s, Paren(Print(t))) && b[n] == (if output then '>' else '<') && Holds(b, n + 1, name + " ")
  {
    var op := if output then '>' else '<';
    PrintFile(t, name, output);
    hide Print;
    Around(b, s, Paren(Print(t)), op, name + " ");
  }

  lemma PrintFile(t: Tree, name: string, output: bool)
    ensures Print(File(t, name, output)) == Paren(Print(t)) + [if output then '>' else '<'] + (name + " ")
    ensures |Print(File(t, name, output))| == |Print(t)| + |name| + 4 && |Paren(Print(t))| == |Print(t)| + 2
  {
    var p := Paren(Print(t));
    assert p + [if output then '>' else '<'] + name + " " == p + [if output then '>' else '<'] + (name + " ");
  }

  lemma RedirectParses(b: Line, n: nat, name: string, output: bool)
    requires Word(name) && n < |b| && b[n] == (if output then '>' else '<') && Holds(b, n + 1, name + " ") && Closed(b, n + 2 + |name|)
    ensures ParseRedirs(b, n) == Some(([To(n + 1, |name|, output)], n + 2 + |name|)) && Text(b, Span(n + 1, n + 1 + |name|)) == name
  {
    hide Skip, GetToken, ParseRedirs;
    WordToken(b, n + 1, name);
    NameStart(b, n + 1, name);
    SymbolToken(b, n);
    NoRedirs(b, n + 2 + |name|);
    OneRedirect(b, n, |name|, n + 2 + |name|, output);
  }

  lemma NameStart(b: Line, s: nat, name: string)
    requires Word(name) && Holds(b, s, name + " ")
    ensures s < |b| && WordChar(b[s])
  {
    assert b[s..s + |name + " "|][0] == b[s];
    assert (name + " ")[0] == name[0];
  }

  lemma OneRedirect(b: Line, n: nat, len: nat, e: nat, output: bool)
    requires n < e <= |b| && b[n] == (if output then '>' else '<') && GetToken(b, n).kind == b[n] && GetToken(b, n).next == n + 1
    requires GetToken(b, n + 1) == Token('a', Span(n + 1, n + 1 + len), e) && ParseRedirs(b, e) == Some(([], e))
    ensures ParseRedirs(b, n) == Some(([To(n + 1, len, output)], e))
  {
    Stays(b, n);
    hide Skip, GetToken;
    var none: seq<Redirection> := [];
    assert [To(n + 1, len, output)] + none == [To(n + 1, len, output)];
  }

  /** Two blocks with a symbol between them. */
  lemma TwoBlocks(b: Line, s: nat, l: Tree, r: Tree, sym: char)
    requires Holds(b, s, Paren(Print(l)) + [sym] + Paren(Print(r)))
    ensures var n := s + 2 + |Print(l)|;
            Holds(b, s, Paren(Print(l))) && n < |b| && b[n] == sym && Holds(b, n + 1, Paren(Print(r))) && At(b, n + 1) == '('
  {
    hide Print;
    Around(b, s, Paren(Print(l)), sym, Paren(Print(r)));
  }

  lemma Around(b: Line, s: nat, x: string, c: char, y: string)
    requires Holds(b, s, x + [c] + y) && y != []
    ensures Holds(b, s, x) && s + |x| < |b| && b[s + |x|] == c && Holds(b, s + |x| + 1, y) && At(b, s + |x| + 1) == y[0]
  {
    hide Holds;
    assert x + [c] + y == x + ([c] + y);
    Split(b, s, x, [c] + y);
    Split(b, s + |x|, [c], y);
    CharAt(b, s + |x|, c);
    FirstOf(b, s + |x| + 1, y);
  }

  lemma FirstOf(b: Line, s: nat, y: string)
    requires Holds(b, s, y) && y != []
    ensures s < |b| && b[s] == y[0]
  {
    assert b[s..s + |y|][0] == b[s];
  }

  lemma OpensWith(b: Line, s: nat, t: Tree)
    requires Holds(b, s, Paren(Print(t)))
    ensures Holds(b, s + 1, Print(t)) && Closed(b, s + 1 + |Print(t)|)
  {
    var x := Print(t);
    assert Paren(x) == "(" + (x + ")");
    Split(b, s, "(", x + ")");
    Split(b, s + 1, x, ")");
    CharAt(b, s + 1 + |x|, ')');
  }

  /** What Print does, one level deep. */
  lemma PrintBody(t: Tree)
    ensures t.Piped? ==> Print(t) == Paren(Print(t.left)) + ['|'] + Paren(Print(t.right)) && |Print(t)| == |Print(t.left)| + |Print(t.right)| + 5
    ensures t.Then? ==> Print(t) == Paren(Print(t.left)) + [';'] + Paren(Print(t.right)) && |Print(t)| == |Print(t.left)| + |Print(t.right)| + 5
    ensures t.Background? ==> Print(t) == Paren(Print(t.tree)) + ['&'] && |Print(t)| == |Print(t.tree)| + 3 && |Paren(Print(t.tree))| == |Print(t.tree)| + 2
  {
  }

  lemma PrintSimple(t: Tree)
    ensures t.Simple? ==> Print(t) == PrintArgs(t.args)
  {
  }

  lemma PipedParses(b: Line, s: nat, l: Tree, r: Tree, cl: Cmd, cr: Cmd)
    requires WellFormed(l) && WellFormed(r) && Holds(b, s, Print(Piped(l, r))) && Closed(b, s + |Print(Piped(l, r))|)
    requires ParseLine(b, s + 1) == Some((cl, s + 1 + |Print(l)|))
    requires ParseLine(b, s + 4 + |Print(l)|) == Some((cr, s + 4 + |Print(l)| + |Print(r)|))
    ensures ParseLine(b, s) == Some((Pipe(cl, cr), s + |Print(Piped(l, r))|))
  {
    var n, e := s + 2 + |Print(l)|, s + |Print(Piped(l, r))|;
    PrintBody(Piped(l, r));
    hide Skip, GetToken, ParseExec, ParsePipe, ParseLine, Print, WellFormed, Paren;
    TwoBlocks(b, s, l, r, '|');
    BareBlock(b, s, l, cl);
    LastBlock(b, n + 1, r, cr);
    SymbolToken(b, n);
    PipeStep(b, s, n, cl, cr, e);
    PipeIsLine(b, s, Pipe(cl, cr), e);
  }

  lemma PipeStep(b: Line, s: nat, n: nat, cl: Cmd, cr: Cmd, e: nat)
    requires s <= n < |b| && b[n] == '|' && GetToken(b, n).next == n + 1
    requires ParseExec(b, s) == Some((cl, n)) && ParsePipe(b, n + 1) == Some((cr, e))
    ensures ParsePipe(b, s) == Some((Pipe(cl, cr), e))
  {
    hide Skip, GetToken, ParseExec, ParsePipe;
    PipeBody(b, s);
    Stays(b, n);
  }

  /** parsepipe, unrolled once. */
  lemma PipeBody(b: Line, s: nat)
    requires s <= |b|
    ensures var left := ParseExec(b, s);
            ParsePipe(b, s) ==
            if left.None? || !Peek(b, left.value.1, {'|'}) then left
            else
              var right := ParsePipe(b, GetToken(b, left.value.1).next);
              if right.None? then None else Some((Pipe(left.value.0, right.value.0), right.value.1))
  {
  }

  /** parseline, unrolled once. */
  lemma LineBody(b: Line, s: nat)
    requires s <= |b|
    ensures var first := ParsePipe(b, s);
            ParseLine(b, s) ==
            if first.None? then None
            else
              var backs := ParseBacks(b, first.value.0, first.value.1);
              if !Peek(b, backs.1, {';'}) then Some(backs)
              else
                var rest := ParseLine(b, GetToken(b, backs.1).next);
                if rest.None? then None else Some((List(backs.0, rest.value.0), rest.value.1))
  {
  }

  lemma ThenParses(b: Line, s: nat, l: Tree, r: Tree, cl: Cmd, cr: Cmd)
    requires WellFormed(l) && WellFormed(r) && Holds(b, s, Print(Then(l, r))) && Closed(b, s + |Print(Then(l, r))|)
    requires ParseLine(b, s + 1) == Some((cl, s + 1 + |Print(l)|))
    requires ParseLine(b, s + 4 + |Print(l)|) == Some((cr, s + 4 + |Print(l)| + |Print(r)|))
    ensures ParseLine(b, s) == Some((List(cl, cr), s + |Print(Then(l, r))|))
  {
    var n, e := s + 2 + |Print(l)|, s + |Print(Then(l, r))|;
    PrintBody(Then(l, r));
    hide Skip, GetToken, ParseExec, ParsePipe, ParseLine, Print, WellFormed, Paren;
    TwoBlocks(b, s, l, r, ';');
    BareBlock(b, s, l, cl);
    ExecIsPipe(b, s, cl, n);
    LastBlock(b, n + 1, r, cr);
    SymbolToken(b, n);
    ThenStep(b, s, n, cl, cr, e);
  }

  lemma BacksStop(b: Line, c: Cmd, s: nat)
    requires s <= |b| && !White(At(b, s)) && At(b, s) != '&'
    ensures ParseBacks(b, c, s) == (c, s)
  {
    Stays(b, s);
  }

  lemma BacksStep(b: Line, c: Cmd, s: nat)
    requires s < |b| && b[s] == '&'
    ensures ParseBacks(b, c, s) == ParseBacks(b, Back(c), GetToken(b, s).next)
  {
    Stays(b, s);
  }

  lemma ThenStep(b: Line, s: nat, n: nat, cl: Cmd, cr: Cmd, e: nat)
    requires s <= n < |b| && b[n] == ';' && GetToken(b, n).next == n + 1
    requires ParsePipe(b, s) == Some((cl, n)) && ParseLine(b, n + 1) == Some((cr, e))
    ensures ParseLine(b, s) == Some((List(cl, cr), e))
  {
    Stays(b, n);
    LineBody(b, s);
    BacksStop(b, cl, n);
    hide Skip, GetToken, ParsePipe, ParseLine, ParseBacks;
  }

  lemma BackgroundParses(b: Line, s: nat, t: Tree, c: Cmd)
    requires WellFormed(t) && Holds(b, s, Print(Background(t))) && Closed(b, s + |Print(Background(t))|)
    requires ParseLine(b, s + 1) == Some((c, s + 1 + |Print(t)|))
    ensures ParseLine(b, s) == Some((Back(c), s + |Print(Background(t))|))
  {
    var n := s + 2 + |Print(t)|;
    PrintBody(Background(t));
    hide Skip, GetToken, ParseExec, ParsePipe, ParseLine, Print, WellFormed, Paren;
    Split(b, s, Paren(Print(t)), "&");
    CharAt(b, n, '&');
    BareBlock(b, s, t, c);
    ExecIsPipe(b, s, c, n);
    SymbolToken(b, n);
    BackStep(b, s, n, c);
  }

  lemma BackStep(b: Line, s: nat, n: nat, c: Cmd)
    requires s <= n < |b| && b[n] == '&' && GetToken(b, n).next == n + 1 && ParsePipe(b, s) == Some((c, n)) && Closed(b, n + 1)
    ensures ParseLine(b, s) == Some((Back(c), n + 1))
  {
    Stays(b, n);
    Stays(b, n + 1);
    LineBody(b, s);
    BacksStop(b, Back(c), n + 1);
    BacksStep(b, c, n);
    hide Skip, GetToken, ParsePipe, ParseLine, ParseBacks;
  }

  lemma BothParts(b: Line, s: nat, l: Tree, r: Tree, sym: char)
    requires Holds(b, s, Paren(Print(l)) + [sym] + Paren(Print(r)))
    ensures Holds(b, s + 1, Print(l)) && Closed(b, s + 1 + |Print(l)|)
    ensures Holds(b, s + 4 + |Print(l)|, Print(r)) && Closed(b, s + 4 + |Print(l)| + |Print(r)|)
  {
    hide Print, Paren, Holds, Closed;
    TwoBlocks(b, s, l, r, sym);
    OpensWith(b, s, l);
    OpensWith(b, s + 3 + |Print(l)|, r);
  }

  lemma InsideFile(b: Line, s: nat, t: Tree, name: string, output: bool)
    requires Holds(b, s, Print(File(t, name, output)))
    ensures Holds(b, s + 1, Print(t)) && Closed(b, s + 1 + |Print(t)|)
  {
    hide Print, Paren, Holds, Closed;
    FileText(b, s, t, name, output);
    OpensWith(b, s, t);
  }

  /** A printed tree in place parses to a tree that means the same. */
  lemma {:induction false} PrintParses(b: Line, s: nat, t: Tree) returns (c: Cmd)
    requires WellFormed(t) && Holds(b, s, Print(t)) && Closed(b, s + |Print(t)|)
    ensures ParseLine(b, s) == Some((c, s + |Print(t)|)) && Meaning(b, c) == t
    decreases t
  {
    hide ParseLine, Print, Paren, PrintArgs, Holds, Closed;
    PrintBody(t);
    PrintSimple(t);
    match t
    case Simple(args) =>
      c := SimpleParses(b, s, args);
    case File(u, name, output) =>
      InsideFile(b, s, u, name, output);
      var d := PrintParses(b, s + 1, u);
      c := RedirectedBlock(b, s, u, d, name, output);
      assert File(u, name, output) == t;
    case Piped(l, r) =>
      BothParts(b, s, l, r, '|');
      var cl := PrintParses(b, s + 1, l);
      var cr := PrintParses(b, s + 4 + |Print(l)|, r);
      PipedParses(b, s, l, r, cl, cr);
      c := Pipe(cl, cr);
      assert Piped(l, r) == t;
    case Then(l, r) =>
      BothParts(b, s, l, r, ';');
      var cl := PrintParses(b, s + 1, l);
      var cr := PrintParses(b, s + 4 + |Print(l)|, r);
      ThenParses(b, s, l, r, cl, cr);
      c := List(cl, cr);
      assert Then(l, r) == t;
    case Background(u) =>
      Split(b, s, Paren(Print(u)), ['&']);
      OpensWith(b, s, u);
      var d := PrintParses(b, s + 1, u);
      BackgroundParses(b, s, u, d);
      c := Back(d);
      assert Background(u) == t;
  }

  lemma {:induction false} ArgsNoNul(args: seq<string>)
    requires forall i :: 0 <= i < |args| ==> Word(args[i])
    ensures '\0' !in PrintArgs(args)
  {
    if args != [] {
      ArgsNoNul(args[1..]);
    }
  }

  lemma {:induction false} NoNul(t: Tree)
    requires WellFormed(t)
    ensures '\0' !in Print(t)
    decreases t
  {
    match t
    case Simple(args) => ArgsNoNul(args);
    case File(u, _, _) => NoNul(u);
    case Piped(l, r) => NoNul(l); NoNul(r);
    case Then(l, r) => NoNul(l); NoNul(r);
    case Background(u) => NoNul(u);
  }

  /** Printing and parsing give the tree back. */
  lemma RoundTrip(t: Tree)
    requires WellFormed(t)
    ensures forall i :: 0 <= i < |Print(t)| ==> Print(t)[i] != '\0'
    ensures ParseCmd(Print(t)).Some? && Meaning(Print(t), ParseCmd(Print(t)).value) == t
  {
    NoNul(t);
    var b: Line := Print(t);
    assert b[0..0 + |b|] == b;
    var c := PrintParses(b, 0, t);
  }
}
