/** The shell's grammar (bin/sh/sh.c): tokens, and the recursive descent that
    turns a line into a command tree, as functions of the line and a position.
    Arguments and file names are kept as spans of the line, as the shell does. */
module ShellGrammar {
  import opened Options

  const MAXARGS := 10
  const O_RDONLY := 0
  const O_WRONLY_CREATE := 0x201

  predicate White(c: char) { c == ' ' || c == '\t' || c == '\r' || c == '\n' || c == '\U{000B}' }

  predicate Symbol(c: char) { c == '<' || c == '|' || c == '>' || c == '&' || c == ';' || c == '(' || c == ')' }

  predicate WordChar(c: char) { !White(c) && !Symbol(c) && c != '\0' }

  datatype Span = Span(q: nat, eq: nat)

  datatype Cmd =
    | Exec(argv: seq<Span>)
    | Redir(cmd: Cmd, file: Span, mode: int, fd: int)
    | Pipe(left: Cmd, right: Cmd)
    | List(left: Cmd, right: Cmd)
    | Back(cmd: Cmd)

  /** A C string: the line up to its NUL, which stands at index |b|. */
  type Line = b: seq<char> | forall i :: 0 <= i < |b| ==> b[i] != '\0'

  function At(b: Line, s: nat): char { if s < |b| then b[s] else '\0' }

  // ----- tokens -----

  function Skip(b: Line, s: nat): (r: nat)
    requires s <= |b|
    ensures s <= r <= |b| && !White(At(b, r)) && forall i :: s <= i < r ==> White(b[i])
    decreases |b| - s
  {
    if s < |b| && White(b[s]) then Skip(b, s + 1) else s
  }

  function WordEnd(b: Line, s: nat): (r: nat)
    requires s <= |b|
    ensures s <= r <= |b| && !WordChar(At(b, r)) && forall i :: s <= i < r ==> WordChar(b[i])
    decreases |b| - s
  {
    if s < |b| && WordChar(b[s]) then WordEnd(b, s + 1) else s
  }

  /** What gettoken returns: the token's kind and span, and where it leaves *ps. */
  datatype Token = Token(kind: char, span: Span, next: nat)

  function GetToken(b: Line, s: nat): (t: Token)
    requires s <= |b|
    ensures s <= t.next <= |b| && t.next == Skip(b, t.next)
    ensures t.kind != '\0' ==> s < t.next
  {
    var q := Skip(b, s);
    var c := At(b, q);
    var kind := if c == '\0' || Symbol(c) then (if c == '>' && At(b, q + 1) == '>' then '+' else c) else 'a';
    var eq := if c == '\0' then q else if kind == '+' then q + 2 else if Symbol(c) then q + 1 else WordEnd(b, q);
    SkipTwice(b, eq);
    Token(kind, Span(q, eq), Skip(b, eq))
  }

  lemma SkipTwice(b: Line, s: nat)
    requires s <= |b|
    ensures Skip(b, Skip(b, s)) == Skip(b, s)
  {
  }

  predicate Peek(b: Line, s: nat, toks: set<char>)
    requires s <= |b|
  {
    At(b, Skip(b, s)) != '\0' && At(b, Skip(b, s)) in toks
  }

  // ----- the parser -----

  /** A tree and where the parser stopped; None where the shell panics. */
  type Parsed = Option<(Cmd, nat)>

  datatype Redirection = Redirection(file: Span, mode: int, fd: int)

  /** A redirection's operator and file name, if that is what comes next. */
  function Redirect(b: Line, s: nat): (r: Option<(Redirection, nat)>)
    requires s <= |b|
    ensures r.Some? ==> s < r.value.1 <= |b|
  {
    var op := GetToken(b, s);
    var file := GetToken(b, op.next);
    if file.kind != 'a' || op.kind == '\0' then None
    else Some((if op.kind == '<' then Redirection(file.span, O_RDONLY, 0) else Redirection(file.span, O_WRONLY_CREATE, 1), file.next))
  }

  /** parseredirs: the redirections from here on. */
  function ParseRedirs(b: Line, s: nat): (r: Option<(seq<Redirection>, nat)>)
    requires s <= |b|
    ensures r.Some? ==> s <= r.value.1 <= |b|
    decreases |b| - s
  {
    if !Peek(b, s, {'<', '>'}) then Some(([], Skip(b, s)))
    else
      var first := Redirect(b, s);
      if first.None? then None
      else
        var rest := ParseRedirs(b, first.value.1);
        if rest.None? then None else Some(([first.value.0] + rest.value.0, rest.value.1))
  }

  /** The command inside its redirections, the first innermost. */
  function Wrap(c: Cmd, rs: seq<Redirection>): Cmd
    decreases |rs|
  {
    if rs == [] then c
    else Redir(Wrap(c, rs[..|rs| - 1]), rs[|rs| - 1].file, rs[|rs| - 1].mode, rs[|rs| - 1].fd)
  }

  /** parseexec's loop: the arguments from here on and the redirections among them. */
  function ParseArgs(b: Line, s: nat, argc: nat): (r: Option<(seq<Span>, seq<Redirection>, nat)>)
    requires s <= |b|
    ensures r.Some? ==> s <= r.value.2 <= |b|
    decreases |b| - s
  {
    if Peek(b, s, {'|', ')', '&', ';'}) then Some(([], [], Skip(b, s)))
    else
      var t := GetToken(b, s);
      if t.kind == '\0' then Some(([], [], t.next))
      else if t.kind != 'a' || argc + 1 >= MAXARGS then None
      else
        var redirs := ParseRedirs(b, t.next);
        if redirs.None? then None
        else
          var rest := ParseArgs(b, redirs.value.1, argc + 1);
          if rest.None? then None
          else Some(([t.span] + rest.value.0, redirs.value.0 + rest.value.1, rest.value.2))
  }

  function ParseSimple(b: Line, s: nat): (r: Parsed)
    requires s <= |b|
    ensures r.Some? ==> s <= r.value.1 <= |b|
  {
    var redirs := ParseRedirs(b, s);
    if redirs.None? then None
    else
      var rest := ParseArgs(b, redirs.value.1, 0);
      if rest.None? then None
      else Some((Wrap(Exec(rest.value.0), redirs.value.0 + rest.value.1), rest.value.2))
  }

  function ParseExec(b: Line, s: nat): (r: Parsed)
    requires s <= |b|
    ensures r.Some? ==> s <= r.value.1 <= |b|
    decreases |b| - s, 1
  {
    if Peek(b, s, {'('}) then ParseBlock(b, s) else ParseSimple(b, s)
  }

  function ParseBlock(b: Line, s: nat): (r: Parsed)
    requires s <= |b| && Peek(b, s, {'('})
    ensures r.Some? ==> s <= r.value.1 <= |b|
    decreases |b| - s, 0
  {
    var inner := ParseLine(b, GetToken(b, s).next);
    if inner.None? || !Peek(b, inner.value.1, {')'}) then None
    else
      var redirs := ParseRedirs(b, GetToken(b, inner.value.1).next);
      if redirs.None? then None else Some((Wrap(inner.value.0, redirs.value.0), redirs.value.1))
  }

  function ParsePipe(b: Line, s: nat): (r: Parsed)
    requires s <= |b|
    ensures r.Some? ==> s <= r.value.1 <= |b|
    decreases |b| - s, 2
  {
    var left := ParseExec(b, s);
    if left.None? || !Peek(b, left.value.1, {'|'}) then left
    else
      var right := ParsePipe(b, GetToken(b, left.value.1).next);
      if right.None? then None else Some((Pipe(left.value.0, right.value.0), right.value.1))
  }

  /** parseline's loop over ampersands. */
  function ParseBacks(b: Line, c: Cmd, s: nat): (r: (Cmd, nat))
    requires s <= |b|
    ensures s <= r.1 <= |b|
    decreases |b| - s
  {
    if Peek(b, s, {'&'}) then ParseBacks(b, Back(c), GetToken(b, s).next) else (c, Skip(b, s))
  }

  function ParseLine(b: Line, s: nat): (r: Parsed)
    requires s <= |b|
    ensures r.Some? ==> s <= r.value.1 <= |b|
    decreases |b| - s, 3
  {
    var first := ParsePipe(b, s);
    if first.None? then None
    else
      var backs := ParseBacks(b, first.value.0, first.value.1);
      if !Peek(b, backs.1, {';'}) then Some(backs)
      else
        var rest := ParseLine(b, GetToken(b, backs.1).next);
        if rest.None? then None else Some((List(backs.0, rest.value.0), rest.value.1))
  }

  /** parsecmd, up to nulterminate: the whole line is one command. */
  function ParseCmd(b: Line): (r: Option<Cmd>) {
    var line := ParseLine(b, 0);
    if line.None? || Skip(b, line.value.1) != |b| then None else Some(line.value.0)
  }
}
