/** The shell's parser as bin/sh/sh.c runs it: loops over the line, recursive
    calls, and nulterminate's writes into the line. Each function is proved to
    follow the grammar. */
module Shell {
  import opened Options
  import opened ShellGrammar
  import opened ShellRoundTrip

  // ----- tokens -----

  method SkipBlanks(b: Line, start: nat) returns (s: nat)
    requires start <= |b|
    ensures s == Skip(b, start)
  {
    s := start;
    while s < |b| && White(b[s])
      invariant start <= s <= |b| && Skip(b, s) == Skip(b, start)
    {
      s := s + 1;
    }
  }

  /** gettoken. */
  method NextToken(b: Line, start: nat) returns (t: Token)
    requires start <= |b|
    ensures t == GetToken(b, start)
  {
    var s := SkipBlanks(b, start);
    var q := s;
    var kind := At(b, s);
    if kind == '\0' {
    } else if kind == '>' {
      s := s + 1;
      if At(b, s) == '>' {
        kind := '+';
        s := s + 1;
      }
    } else if Symbol(kind) {
      s := s + 1;
    } else {
      kind := 'a';
      while s < |b| && WordChar(b[s])
        invariant q <= s <= |b| && WordEnd(b, s) == WordEnd(b, q)
      {
        s := s + 1;
      }
    }
    var next := SkipBlanks(b, s);
    t := Token(kind, Span(q, s), next);
  }

  /** peek: whether one of toks comes next, and where. */
  method PeekAt(b: Line, start: nat, toks: set<char>) returns (found: bool, s: nat)
    requires start <= |b|
    ensures found == Peek(b, start, toks) && s == Skip(b, start)
  {
    s := SkipBlanks(b, start);
    found := At(b, s) != '\0' && At(b, s) in toks;
  }

  // ----- the parser -----

  lemma PeekToken(b: Line, s: nat)
    requires s <= |b|
    ensures GetToken(b, Skip(b, s)) == GetToken(b, s)
    ensures Peek(b, s, {'<', '>'}) ==> GetToken(b, s).kind != '\0'
  {
    SkipTwice(b, s);
  }

  lemma PeekRedirs(b: Line, s: nat)
    requires s <= |b|
    ensures ParseRedirs(b, Skip(b, s)) == ParseRedirs(b, s)
  {
    SkipTwice(b, s);
    PeekToken(b, s);
  }

  function More(rs: seq<Redirection>, rest: Option<(seq<Redirection>, nat)>): Option<(seq<Redirection>, nat)> {
    if rest.None? then None else Some((rs + rest.value.0, rest.value.1))
  }

  lemma TokenNext(b: Line, s: nat)
    requires s <= |b|
    ensures s <= GetToken(b, s).next <= |b| && (GetToken(b, s).kind != '\0' ==> s < GetToken(b, s).next)
  {
  }

  lemma SkipWithin(b: Line, s: nat)
    requires s <= |b|
    ensures s <= Skip(b, s) <= |b|
  {
  }

  lemma MoreNothing(rest: Option<(seq<Redirection>, nat)>)
    ensures More([], rest) == rest
  {
    if rest.Some? {
      assert [] + rest.value.0 == rest.value.0;
    }
  }

  lemma MoreNone(b: Line, rs: seq<Redirection>, s: nat)
    requires s <= |b| && !Peek(b, s, {'<', '>'})
    ensures More(rs, ParseRedirs(b, s)) == Some((rs, Skip(b, s)))
  {
    assert rs + [] == rs;
  }

  lemma MoreStep(b: Line, rs: seq<Redirection>, s: nat)
    requires s <= |b| && Peek(b, s, {'<', '>'})
    ensures var first := Redirect(b, s);
            More(rs, ParseRedirs(b, s)) == if first.None? then None else More(rs + [first.value.0], ParseRedirs(b, first.value.1))
  {
    var first := Redirect(b, s);
    if first.Some? {
      var rest := ParseRedirs(b, first.value.1);
      if rest.Some? {
        assert rs + ([first.value.0] + rest.value.0) == (rs + [first.value.0]) + rest.value.0;
      }
    }
  }

  /** parseredirs: the redirections, in the order in which they wrap the command. */
  method Redirs(b: Line, start: nat) returns (r: Option<(seq<Redirection>, nat)>)
    requires start <= |b|
    ensures r == ParseRedirs(b, start)
  {
    hide GetToken, ParseRedirs, Peek, Skip;
    var rs: seq<Redirection> := [];
    var s := start;
    var found;
    MoreNothing(ParseRedirs(b, s));
    while true
      invariant s <= |b| && More(rs, ParseRedirs(b, s)) == ParseRedirs(b, start)
      decreases |b| - s
    {
      var at;
      found, at := PeekAt(b, s, {'<', '>'});
      SkipWithin(b, s);
      if !found {
        MoreNone(b, rs, s);
        return Some((rs, at));
      }
      MoreStep(b, rs, s);
      PeekToken(b, s);
      TokenNext(b, at);
      var op := NextToken(b, at);
      TokenNext(b, op.next);
      var file := NextToken(b, op.next);
      if file.kind != 'a' {
        return None;
      }
      rs := rs + [if op.kind == '<' then Redirection(file.span, O_RDONLY, 0) else Redirection(file.span, O_WRONLY_CREATE, 1)];
      s := file.next;
    }
  }

  type Arguments = Option<(seq<Span>, seq<Redirection>, nat)>

  function MoreArgs(args: seq<Span>, rs: seq<Redirection>, rest: Arguments): Arguments {
    if rest.None? then None else Some((args + rest.value.0, rs + rest.value.1, rest.value.2))
  }

  lemma MoreArgsNone(rest: Arguments)
    ensures MoreArgs([], [], rest) == rest
  {
    if rest.Some? {
      var none: seq<Redirection> := [];
      assert none + rest.value.1 == rest.value.1;
      assert [] + rest.value.0 == rest.value.0;
    }
  }

  lemma RedirsNext(b: Line, s: nat)
    requires s <= |b|
    ensures ParseRedirs(b, s).Some? ==> s <= ParseRedirs(b, s).value.1 <= |b|
  {
  }

  lemma MoreArgsStep(b: Line, args: seq<Span>, rs: seq<Redirection>, s: nat)
    requires s <= |b| && !Peek(b, s, {'|', ')', '&', ';'}) && GetToken(b, s).kind != '\0'
    ensures var t := GetToken(b, s);
            var redirs := ParseRedirs(b, t.next);
            MoreArgs(args, rs, ParseArgs(b, s, |args|)) ==
            if t.kind != 'a' || |args| + 1 >= MAXARGS || redirs.None? then None
            else MoreArgs(args + [t.span], rs + redirs.value.0, ParseArgs(b, redirs.value.1, |args| + 1))
  {
    hide GetToken, ParseRedirs, Peek;
    TokenNext(b, s);
    RedirsNext(b, GetToken(b, s).next);
    var t := GetToken(b, s);
    var redirs := ParseRedirs(b, t.next);
    if t.kind == 'a' && redirs.Some? {
      var rest := ParseArgs(b, redirs.value.1, |args| + 1);
      if rest.Some? {
        assert args + ([t.span] + rest.value.0) == (args + [t.span]) + rest.value.0;
        assert rs + (redirs.value.0 + rest.value.1) == (rs + redirs.value.0) + rest.value.1;
      }
    }
  }

  /** parseexec's loop: arguments and the redirections among them. */
  method Args(b: Line, start: nat) returns (r: Arguments)
    requires start <= |b|
    ensures r == ParseArgs(b, start, 0)
  {
    hide GetToken, ParseRedirs, MoreArgs;
    var args: seq<Span>, rs: seq<Redirection> := [], [];
    var s := start;
    MoreArgsNone(ParseArgs(b, start, 0));
    while true
      invariant s <= |b| && |args| < MAXARGS && MoreArgs(args, rs, ParseArgs(b, s, |args|)) == ParseArgs(b, start, 0)
      decreases |b| - s
    {
      var ends, at := PeekAt(b, s, {'|', ')', '&', ';'});
      TokenMoves(b, s);
      if ends {
        ArgsStop(b, args, rs, s);
        return Some((args, rs, at));
      }
      PeekToken(b, s);
      var t := NextToken(b, at);
      if t.kind == '\0' {
        ArgsStop(b, args, rs, s);
        return Some((args, rs, t.next));
      }
      MoreArgsStep(b, args, rs, s);
      if t.kind != 'a' {
        return None;
      }
      args := args + [t.span];
      if |args| >= MAXARGS {
        return None;
      }
      var redirs := Redirs(b, t.next);
      if redirs.None? {
        return None;
      }
      RedirsMove(b, t.next);
      rs, s := rs + redirs.value.0, redirs.value.1;
    }
  }

  lemma TokenMoves(b: Line, s: nat)
    requires s <= |b|
    ensures GetToken(b, s).next <= |b| && (GetToken(b, s).kind != '\0' ==> s < GetToken(b, s).next) && Skip(b, s) <= |b|
  {
  }

  lemma RedirsMove(b: Line, s: nat)
    requires s <= |b|
    ensures ParseRedirs(b, s).Some? ==> s <= ParseRedirs(b, s).value.1 <= |b|
  {
  }

  lemma ArgsStop(b: Line, args: seq<Span>, rs: seq<Redirection>, s: nat)
    requires s <= |b| && (Peek(b, s, {'|', ')', '&', ';'}) || GetToken(b, s).kind == '\0')
    ensures var at := if Peek(b, s, {'|', ')', '&', ';'}) then Skip(b, s) else GetToken(b, s).next;
            MoreArgs(args, rs, ParseArgs(b, s, |args|)) == Some((args, rs, at))
  {
    var none: seq<Redirection> := [];
    assert rs + none == rs && args + [] == args;
  }

  /** parseexec. */
  method ExecAt(b: Line, s: nat) returns (r: Parsed)
    requires s <= |b|
    ensures r == ParseExec(b, s)
    decreases |b| - s, 1
  {
    var block, at := PeekAt(b, s, {'('});
    if block {
      r := BlockAt(b, s);
      return;
    }
    PeekRedirs(b, s);
    var first := Redirs(b, at);
    if first.None? {
      return None;
    }
    var rest := Args(b, first.value.1);
    if rest.None? {
      return None;
    }
    r := Some((Wrap(Exec(rest.value.0), first.value.0 + rest.value.1), rest.value.2));
  }

  /** parseblock. */
  method BlockAt(b: Line, s: nat) returns (r: Parsed)
    requires s <= |b| && Peek(b, s, {'('})
    ensures r == ParseBlock(b, s)
    decreases |b| - s, 0
  {
    var open := NextToken(b, s);
    var inner := LineAt(b, open.next);
    if inner.None? {
      return None;
    }
    var close, at := PeekAt(b, inner.value.1, {')'});
    if !close {
      return None;
    }
    PeekToken(b, inner.value.1);
    var t := NextToken(b, at);
    var redirs := Redirs(b, t.next);
    if redirs.None? {
      return None;
    }
    r := Some((Wrap(inner.value.0, redirs.value.0), redirs.value.1));
  }

  /** parsepipe. */
  method PipeAt(b: Line, s: nat) returns (r: Parsed)
    requires s <= |b|
    ensures r == ParsePipe(b, s)
    decreases |b| - s, 2
  {
    r := ExecAt(b, s);
    if r.None? {
      return;
    }
    var bar, at := PeekAt(b, r.value.1, {'|'});
    if bar {
      PeekToken(b, r.value.1);
      var t := NextToken(b, at);
      var right := PipeAt(b, t.next);
      r := if right.None? then None else Some((Pipe(r.value.0, right.value.0), right.value.1));
    }
  }

  /** parseline. */
  method LineAt(b: Line, s: nat) returns (r: Parsed)
    requires s <= |b|
    ensures r == ParseLine(b, s)
    decreases |b| - s, 3
  {
    var first := PipeAt(b, s);
    if first.None? {
      return None;
    }
    var cmd, at := first.value.0, first.value.1;
    while true
      invariant s <= at <= |b| && ParseBacks(b, cmd, at) == ParseBacks(b, first.value.0, first.value.1)
      decreases |b| - at
    {
      var amp, next := PeekAt(b, at, {'&'});
      if !amp {
        at := next;
        break;
      }
      PeekToken(b, at);
      var t := NextToken(b, next);
      cmd, at := Back(cmd), t.next;
    }
    var semi, next := PeekAt(b, at, {';'});
    if !semi {
      return Some((cmd, at));
    }
    PeekToken(b, at);
    var t := NextToken(b, next);
    var rest := LineAt(b, t.next);
    r := if rest.None? then None else Some((List(cmd, rest.value.0), rest.value.1));
  }

  // ----- every span is a whole word -----

  predicate WholeWord(b: Line, p: Span) {
    p.q < p.eq <= |b| && !WordChar(At(b, p.eq)) && forall i :: p.q <= i < p.eq ==> WordChar(b[i])
  }

  predicate WholeWords(b: Line, c: Cmd) {
    match c
    case Exec(argv) => forall i :: 0 <= i < |argv| ==> WholeWord(b, argv[i])
    case Redir(d, file, _, _) => WholeWords(b, d) && WholeWord(b, file)
    case Pipe(l, r) => WholeWords(b, l) && WholeWords(b, r)
    case List(l, r) => WholeWords(b, l) && WholeWords(b, r)
    case Back(d) => WholeWords(b, d)
  }

  predicate WholeFiles(b: Line, rs: seq<Redirection>) {
    forall i :: 0 <= i < |rs| ==> WholeWord(b, rs[i].file)
  }

  lemma TokenWhole(b: Line, s: nat)
    requires s <= |b| && GetToken(b, s).kind == 'a'
    ensures WholeWord(b, GetToken(b, s).span)
  {
  }

  lemma {:induction false} RedirsWhole(b: Line, s: nat)
    requires s <= |b| && ParseRedirs(b, s).Some?
    ensures WholeFiles(b, ParseRedirs(b, s).value.0)
    decreases |b| - s
  {
    if Peek(b, s, {'<', '>'}) {
      var op := GetToken(b, s);
      TokenWhole(b, op.next);
      RedirsWhole(b, Redirect(b, s).value.1);
    }
  }

  lemma {:induction false} ArgsWhole(b: Line, s: nat, argc: nat)
    requires s <= |b| && ParseArgs(b, s, argc).Some?
    ensures WholeFiles(b, ParseArgs(b, s, argc).value.1)
    ensures forall i :: 0 <= i < |ParseArgs(b, s, argc).value.0| ==> WholeWord(b, ParseArgs(b, s, argc).value.0[i])
    decreases |b| - s
  {
    if !Peek(b, s, {'|', ')', '&', ';'}) && GetToken(b, s).kind != '\0' {
      TokenWhole(b, s);
      RedirsWhole(b, GetToken(b, s).next);
      ArgsWhole(b, ParseRedirs(b, GetToken(b, s).next).value.1, argc + 1);
    }
  }

  lemma {:induction false} WrapWhole(b: Line, c: Cmd, rs: seq<Redirection>)
    requires WholeWords(b, c) && WholeFiles(b, rs)
    ensures WholeWords(b, Wrap(c, rs))
    decreases |rs|
  {
    if rs != [] {
      WrapWhole(b, c, rs[..|rs| - 1]);
    }
  }

  lemma {:induction false} BacksWhole(b: Line, c: Cmd, s: nat)
    requires s <= |b| && WholeWords(b, c)
    ensures WholeWords(b, ParseBacks(b, c, s).0)
    decreases |b| - s
  {
    if Peek(b, s, {'&'}) {
      BacksWhole(b, Back(c), GetToken(b, s).next);
    }
  }

  lemma {:induction false} ExecWhole(b: Line, s: nat)
    requires s <= |b| && ParseExec(b, s).Some?
    ensures WholeWords(b, ParseExec(b, s).value.0)
    decreases |b| - s, 1
  {
    if Peek(b, s, {'('}) {
      LineWhole(b, GetToken(b, s).next);
      var inner := ParseLine(b, GetToken(b, s).next).value;
      var n := GetToken(b, inner.1).next;
      RedirsWhole(b, n);
      WrapWhole(b, inner.0, ParseRedirs(b, n).value.0);
    } else {
      RedirsWhole(b, s);
      var redirs := ParseRedirs(b, s).value;
      ArgsWhole(b, redirs.1, 0);
      var rest := ParseArgs(b, redirs.1, 0).value;
      WrapWhole(b, Exec(rest.0), redirs.0 + rest.1);
    }
  }

  lemma {:induction false} PipeWhole(b: Line, s: nat)
    requires s <= |b| && ParsePipe(b, s).Some?
    ensures WholeWords(b, ParsePipe(b, s).value.0)
    decreases |b| - s, 2
  {
    ExecWhole(b, s);
    var left := ParseExec(b, s).value;
    if Peek(b, left.1, {'|'}) {
      PipeWhole(b, GetToken(b, left.1).next);
    }
  }

  /** Every argument and file name of a parsed line is a whole word of it. */
  lemma {:induction false} LineWhole(b: Line, s: nat)
    requires s <= |b| && ParseLine(b, s).Some?
    ensures WholeWords(b, ParseLine(b, s).value.0)
    decreases |b| - s, 3
  {
    PipeWhole(b, s);
    var first := ParsePipe(b, s).value;
    BacksWhole(b, first.0, first.1);
    var backs := ParseBacks(b, first.0, first.1);
    if Peek(b, backs.1, {';'}) {
      LineWhole(b, GetToken(b, backs.1).next);
    }
  }

  // ----- nulterminate -----

  function Elements(ps: seq<Span>): set<Span> {
    set p | p in ps
  }

  /** The spans of a command. */
  function Spans(c: Cmd): set<Span> {
    match c
    case Exec(argv) => Elements(argv)
    case Redir(d, file, _, _) => Spans(d) + {file}
    case Pipe(l, r) => Spans(l) + Spans(r)
    case List(l, r) => Spans(l) + Spans(r)
    case Back(d) => Spans(d)
  }

  ghost predicate EndsOne(ps: set<Span>, i: nat) {
    exists p :: p in ps && p.eq == i
  }

  /** The buffer with a NUL at the end of each span. */
  ghost predicate Cut(was: seq<char>, now: seq<char>, ps: set<Span>) {
    |now| == |was| && forall i :: 0 <= i < |was| ==> now[i] == if EndsOne(ps, i) then '\0' else was[i]
  }

  method Nulterminate(buf: array<char>, c: Cmd)
    requires forall p :: p in Spans(c) ==> p.eq < buf.Length
    modifies buf
    ensures Cut(old(buf[..]), buf[..], Spans(c))
    decreases c
  {
    ghost var was := buf[..];
    match c {
      case Exec(argv) =>
        for i := 0 to |argv|
          invariant Cut(was, buf[..], Elements(argv[..i]))
        {
          assert argv[i] in Spans(c);
          buf[argv[i].eq] := '\0';
          assert argv[..i + 1] == argv[..i] + [argv[i]];
          assert Elements(argv[..i + 1]) == Elements(argv[..i]) + {argv[i]};
        }
        assert argv[..|argv|] == argv;
      case Redir(d, file, _, _) =>
        Nulterminate(buf, d);
        buf[file.eq] := '\0';
      case Pipe(l, r) =>
        Nulterminate(buf, l);
        Nulterminate(buf, r);
      case List(l, r) =>
        Nulterminate(buf, l);
        Nulterminate(buf, r);
      case Back(d) =>
        Nulterminate(buf, d);
    }
  }

  lemma {:induction false} SpanWhole(b: Line, c: Cmd, p: Span)
    requires WholeWords(b, c) && p in Spans(c)
    ensures WholeWord(b, p)
    decreases c
  {
    match c
    case Exec(_) =>
    case Redir(d, file, _, _) => if p != file { SpanWhole(b, d, p); }
    case Pipe(l, r) => if p in Spans(l) { SpanWhole(b, l, p); } else { SpanWhole(b, r, p); }
    case List(l, r) => if p in Spans(l) { SpanWhole(b, l, p); } else { SpanWhole(b, r, p); }
    case Back(d) => SpanWhole(b, d, p);
  }

  /** The C string that starts at q. */
  function CString(s: seq<char>, q: nat): seq<char>
    decreases |s| - q
  {
    if q >= |s| || s[q] == '\0' then [] else [s[q]] + CString(s, q + 1)
  }

  lemma {:induction false} CStringIs(s: seq<char>, q: nat, e: nat)
    requires q <= e < |s| && s[e] == '\0' && forall i :: q <= i < e ==> s[i] != '\0'
    ensures CString(s, q) == s[q..e]
    decreases e - q
  {
    if q < e {
      CStringIs(s, q + 1, e);
    }
  }

  /** Each argument and file name is exactly its token: no write of nulterminate
      falls inside another token. */
  lemma ExactTokens(b: Line, c: Cmd, now: seq<char>, p: Span)
    requires WholeWords(b, c) && Cut(b + ['\0'], now, Spans(c)) && p in Spans(c)
    ensures CString(now, p.q) == Text(b, p)
  {
    SpanWhole(b, c, p);
    forall i | p.q <= i < p.eq ensures now[i] == b[i] && b[i] != '\0' {
      forall r | r in Spans(c) ensures r.eq != i {
        SpanWhole(b, c, r);
      }
    }
    assert EndsOne(Spans(c), p.eq);
    CStringIs(now, p.q, p.eq);
    assert now[p.q..p.eq] == b[p.q..p.eq];
  }

  ghost predicate TokensStand(b: Line, c: Cmd, now: seq<char>) {
    forall p :: p in Spans(c) ==> CString(now, p.q) == Text(b, p)
  }

  /** parsecmd: the tree of the line, and the line cut into its tokens. */
  method CmdAt(buf: array<char>, b: Line) returns (r: Option<Cmd>)
    requires buf[..] == b + ['\0']
    modifies buf
    ensures r == ParseCmd(b)
    ensures r.None? ==> buf[..] == old(buf[..])
    ensures r.Some? ==> TokensStand(b, r.value, buf[..])
  {
    var line := LineAt(b, 0);
    if line.None? {
      return None;
    }
    var at := SkipBlanks(b, line.value.1);
    if at != |b| {
      return None;
    }
    var c := line.value.0;
    LineWhole(b, 0);
    forall p | p in Spans(c) ensures p.eq < buf.Length {
      SpanWhole(b, c, p);
    }
    Nulterminate(buf, c);
    ghost var now := buf[..];
    forall p | p in Spans(c) ensures CString(now, p.q) == Text(b, p) {
      ExactTokens(b, c, now, p);
    }
    r := Some(c);
  }
}
