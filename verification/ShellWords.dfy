/** Nothing in a line is lost by the parser of bin/sh/sh.c: the words of a line that it
    accepts are the arguments and file names of the tree, each once and in order. */
module ShellWords {
  import opened Options
  import opened ShellGrammar
  import opened ShellRoundTrip
  import opened ShellSyntax
  import opened ShellLanguage

  /** A word of the line that is part of no longer one. */
  predicate MaximalWord(b: Line, p: Span) {
    && p.q < p.eq <= |b| && (forall i :: p.q <= i < p.eq ==> WordChar(b[i]))
    && !WordChar(At(b, p.eq)) && (p.q > 0 ==> !WordChar(b[p.q - 1]))
  }

  /** The spans of the words from position s on. */
  function WordSpans(b: Line, s: nat): seq<Span>
    requires s <= |b|
    decreases |b| - s
  {
    var t := GetToken(b, s);
    if t.kind == '\0' then [] else (if t.kind == 'a' then [t.span] else []) + WordSpans(b, t.next)
  }

  predicate Outside(b: Line, s: nat) {
    s <= |b| && (0 < s < |b| ==> !(WordChar(b[s - 1]) && WordChar(b[s])))
  }

  predicate Ascending(ps: seq<Span>, lo: nat, hi: nat) {
    && (forall i :: 0 <= i < |ps| ==> lo <= ps[i].q < ps[i].eq <= hi)
    && (forall i, j :: 0 <= i < j < |ps| ==> ps[i].eq <= ps[j].q)
  }

  /** One token on: what is passed over holds no word but the token. */
  lemma OneToken(b: Line, s: nat, p: Span)
    requires Outside(b, s) && GetToken(b, s).kind != '\0'
    ensures var t := GetToken(b, s);
            && s < t.next && Outside(b, t.next) && s <= t.span.q < t.span.eq <= t.next
            && (MaximalWord(b, p) && s <= p.q ==> t.next <= p.q || (t.kind == 'a' && p == t.span))
            && (t.kind == 'a' ==> MaximalWord(b, t.span))
  {
    TokenLaw(b, s);
    var t := GetToken(b, s);
    assert Skip(b, s) == t.span.q;
    hide GetToken, Skip;
    if t.span.q > 0 && t.kind == 'a' {
      assert s < t.span.q ==> White(b[t.span.q - 1]);
    }
    if MaximalWord(b, p) && s <= p.q < t.next {
      assert WordChar(b[p.q]) && t.span.q <= p.q < t.span.eq;
      if t.kind == 'a' {
        assert forall i :: t.span.q <= i < t.span.eq ==> b[i] == b[t.span.q..t.span.eq][i - t.span.q];
      }
    }
  }

  lemma {:induction false} WordIsFound(b: Line, s: nat, p: Span)
    requires Outside(b, s)
    ensures p in WordSpans(b, s) <==> MaximalWord(b, p) && s <= p.q
    decreases |b| - s
  {
    var t := GetToken(b, s);
    if t.kind == '\0' {
      TokenLaw(b, s);
      assert s <= p.q < |b| ==> White(b[p.q]);
    } else {
      OneToken(b, s, p);
      WordIsFound(b, t.next, p);
      SpansNext(b, s);
      hide GetToken, WordSpans, MaximalWord;
    }
  }

  lemma {:induction false} FoundInOrder(b: Line, s: nat)
    requires s <= |b|
    ensures Ascending(WordSpans(b, s), s, |b|)
    decreases |b| - s
  {
    var t := GetToken(b, s);
    if t.kind != '\0' {
      SpansNext(b, s);
      FoundInOrder(b, t.next);
      hide GetToken, WordSpans;
      AscendingAppend(if t.kind == 'a' then [t.span] else [], WordSpans(b, t.next), s, t.next, |b|);
    }
  }

  /** The words found by the tokens are the maximal words, in order. */
  lemma WordsAre(b: Line)
    ensures Ascending(WordSpans(b, 0), 0, |b|)
    ensures forall p :: p in WordSpans(b, 0) <==> MaximalWord(b, p)
  {
    FoundInOrder(b, 0);
    hide WordSpans, MaximalWord, Ascending;
    forall p ensures p in WordSpans(b, 0) <==> MaximalWord(b, p) {
      WordIsFound(b, 0, p);
    }
  }

  // ----- the words of a tree -----

  function Bag(c: Cmd): multiset<Span> {
    match c
    case Exec(argv) => multiset(argv)
    case Redir(d, file, _, _) => Bag(d) + multiset{file}
    case Pipe(l, r) => Bag(l) + Bag(r)
    case List(l, r) => Bag(l) + Bag(r)
    case Back(d) => Bag(d)
  }

  /** The tree's words stand in the line between lo and hi, in the tree's order: argument
      after argument, file after file from the inside out, left before right. */
  ghost predicate InOrder(c: Cmd, lo: nat, hi: nat) {
    match c
    case Exec(argv) => Ascending(argv, lo, hi)
    case Redir(d, file, _, _) => lo <= file.q < file.eq <= hi && InOrder(d, lo, hi) && (d.Redir? ==> d.file.eq <= file.q)
    case Pipe(l, r) => exists m: nat :: InOrder(l, lo, m) && InOrder(r, m, hi)
    case List(l, r) => exists m: nat :: InOrder(l, lo, m) && InOrder(r, m, hi)
    case Back(d) => InOrder(d, lo, hi)
  }

  lemma {:induction false} Wider(c: Cmd, lo: nat, hi: nat, lo': nat, hi': nat)
    requires InOrder(c, lo, hi) && lo' <= lo && hi <= hi'
    ensures InOrder(c, lo', hi')
    decreases c
  {
    match c
    case Exec(_) =>
    case Redir(d, _, _, _) => Wider(d, lo, hi, lo', hi');
    case Pipe(l, r) =>
      var m: nat :| InOrder(l, lo, m) && InOrder(r, m, hi);
      Wider(l, lo, m, lo', m);
      Wider(r, m, hi, m, hi');
    case List(l, r) =>
      var m: nat :| InOrder(l, lo, m) && InOrder(r, m, hi);
      Wider(l, lo, m, lo', m);
      Wider(r, m, hi, m, hi');
    case Back(d) => Wider(d, lo, hi, lo', hi');
  }

  function Files(rs: seq<Redirection>): seq<Span> {
    seq(|rs|, i requires 0 <= i < |rs| => rs[i].file)
  }

  lemma FilesPush(rs: seq<Redirection>, more: seq<Redirection>)
    ensures Files(rs + more) == Files(rs) + Files(more)
  {
  }

  lemma {:induction false} WrapBag(c: Cmd, rs: seq<Redirection>)
    ensures Bag(Wrap(c, rs)) == Bag(c) + multiset(Files(rs))
    decreases |rs|
  {
    if rs != [] {
      var m := |rs| - 1;
      WrapBag(c, rs[..m]);
      assert Files(rs) == Files(rs[..m]) + [rs[m].file];
    }
  }

  lemma {:induction false} WrapInOrder(c: Cmd, rs: seq<Redirection>, lo: nat, hi: nat)
    requires InOrder(c, lo, hi) && Ascending(Files(rs), lo, hi) && (c.Redir? && rs != [] ==> c.file.eq <= rs[0].file.q)
    ensures InOrder(Wrap(c, rs), lo, hi) && (rs != [] ==> Wrap(c, rs).Redir? && Wrap(c, rs).file == rs[|rs| - 1].file)
    decreases |rs|
  {
    if rs != [] {
      var m := |rs| - 1;
      assert Files(rs)[m] == rs[m].file && Files(rs[..m]) == Files(rs)[..m];
      WrapInOrder(c, rs[..m], lo, hi);
      assert m > 0 ==> Files(rs)[m - 1] == rs[m - 1].file;
    }
  }

  lemma AscendingAppend(x: seq<Span>, y: seq<Span>, lo: nat, m: nat, hi: nat)
    requires lo <= m <= hi && Ascending(x, lo, m) && Ascending(y, m, hi)
    ensures Ascending(x + y, lo, hi)
  {
  }

  // ----- what each part of the parser takes from the line -----

  lemma SpansSkip(b: Line, s: nat)
    requires s <= |b|
    ensures WordSpans(b, Skip(b, s)) == WordSpans(b, s)
  {
    SkipTwice(b, s);
    assert GetToken(b, Skip(b, s)) == GetToken(b, s);
  }

  lemma SpansNext(b: Line, s: nat)
    requires s <= |b| && GetToken(b, s).kind != '\0'
    ensures var t := GetToken(b, s);
            && s <= t.span.q < t.span.eq <= t.next <= |b|
            && WordSpans(b, s) == (if t.kind == 'a' then [t.span] else []) + WordSpans(b, t.next)
  {
    TokenLaw(b, s);
  }

  lemma RedirectTakes(b: Line, s: nat)
    requires s <= |b| && Peek(b, s, {'<', '>'}) && Redirect(b, s).Some?
    ensures var (r, n) := Redirect(b, s).value;
            s <= r.file.q < r.file.eq <= n <= |b| && WordSpans(b, s) == [r.file] + WordSpans(b, n)
  {
    SpansNext(b, s);
    SpansNext(b, GetToken(b, s).next);
    PeekIs(b, s, {'<', '>'});
    NextTok(b, s);
    hide GetToken, WordSpans, Toks;
  }

  lemma {:induction false} RedirsTake(b: Line, s: nat)
    requires s <= |b| && ParseRedirs(b, s).Some?
    ensures var (rs, e) := ParseRedirs(b, s).value; s <= e <= |b| && Ascending(Files(rs), s, e) && WordSpans(b, s) == Files(rs) + WordSpans(b, e)
    decreases |b| - s
  {
    hide GetToken, WordSpans, Skip, Peek, Redirect, ParseRedirs;
    RedirsBody(b, s);
    if Peek(b, s, {'<', '>'}) {
      RedirectTakes(b, s);
      var (r, n) := Redirect(b, s).value;
      RedirectGoesOn(b, s);
      RedirsTake(b, n);
      var (rs, e) := ParseRedirs(b, n).value;
      FilesPush([r], rs);
      assert Files([r]) == [r.file];
      AscendingAppend([r.file], Files(rs), s, n, e);
      assert [r.file] + (Files(rs) + WordSpans(b, e)) == [r.file] + Files(rs) + WordSpans(b, e);
    } else {
      SpansSkip(b, s);
      SkipFits(b, s);
      assert [] + WordSpans(b, s) == WordSpans(b, s);
    }
  }

  lemma RedirectGoesOn(b: Line, s: nat)
    requires s <= |b|
    ensures Redirect(b, s).Some? ==> s < Redirect(b, s).value.1 <= |b|
  {
  }

  lemma {:induction false} ArgsTake(b: Line, s: nat, argc: nat)
    requires s <= |b| && ParseArgs(b, s, argc).Some?
    ensures var (spans, rs, e) := ParseArgs(b, s, argc).value;
            && s <= e <= |b| && Ascending(spans, s, e) && Ascending(Files(rs), s, e)
            && multiset(WordSpans(b, s)) == multiset(spans) + multiset(Files(rs)) + multiset(WordSpans(b, e))
    decreases |b| - s
  {
    hide GetToken, WordSpans, Skip, Peek, ParseRedirs, ParseArgs, Files;
    ArgsBody(b, s, argc);
    if Peek(b, s, ENDS) || GetToken(b, s).kind == '\0' {
      SpansSkip(b, s);
      SkipFits(b, s);
      NothingTaken(b, s);
    } else {
      SpansNext(b, s);
      var t := GetToken(b, s);
      RedirsTake(b, t.next);
      var (rs, m) := ParseRedirs(b, t.next).value;
      ArgsTake(b, m, argc + 1);
      var (spans, rs', e) := ParseArgs(b, m, argc + 1).value;
      AscendingAppend([t.span], spans, s, t.next, e);
      FilesPush(rs, rs');
      AscendingAppend(Files(rs), Files(rs'), s, m, e);
      assert WordSpans(b, s) == [t.span] + (Files(rs) + WordSpans(b, m));
    }
  }

  lemma NothingTaken(b: Line, s: nat)
    requires s <= |b|
    ensures Files([]) == [] && (GetToken(b, s).kind == '\0' ==> GetToken(b, s).next == |b| && WordSpans(b, s) == [] == WordSpans(b, |b|))
  {
    TokenLaw(b, s);
    TokenLaw(b, |b|);
  }

  lemma PlainTakes(b: Line, s: nat)
    requires s <= |b| && !Peek(b, s, {'('}) && ParseExec(b, s).Some?
    ensures var (c, e) := ParseExec(b, s).value;
            s <= e <= |b| && InOrder(c, s, e) && multiset(WordSpans(b, s)) == Bag(c) + multiset(WordSpans(b, e))
  {
    hide GetToken, WordSpans, Skip, Peek, ParseRedirs, ParseArgs, ParseExec, Files, Wrap, InOrder, Bag, Ascending;
    ExecBody(b, s);
    RedirsTake(b, s);
    var (rs, m) := ParseRedirs(b, s).value;
    ArgsTake(b, m, 0);
    var (spans, rs', e) := ParseArgs(b, m, 0).value;
    PlainIs(spans, rs, rs', s, m, e);
  }

  lemma PlainIs(spans: seq<Span>, rs: seq<Redirection>, rs': seq<Redirection>, s: nat, m: nat, e: nat)
    requires s <= m <= e && Ascending(Files(rs), s, m) && Ascending(spans, m, e) && Ascending(Files(rs'), m, e)
    ensures var c := Wrap(Exec(spans), rs + rs');
            InOrder(c, s, e) && Bag(c) == multiset(spans) + multiset(Files(rs)) + multiset(Files(rs'))
  {
    FilesPush(rs, rs');
    AscendingAppend(Files(rs), Files(rs'), s, m, e);
    WrapBag(Exec(spans), rs + rs');
    assert InOrder(Exec(spans), s, e);
    WrapInOrder(Exec(spans), rs + rs', s, e);
  }

  lemma CommandTakes(b: Line, s: nat)
    requires s <= |b| && ParseExec(b, s).Some?
    ensures var (c, e) := ParseExec(b, s).value;
            s <= e <= |b| && InOrder(c, s, e) && multiset(WordSpans(b, s)) == Bag(c) + multiset(WordSpans(b, e))
    decreases |b| - s, 1
  {
    hide GetToken, WordSpans, Skip, Peek, Toks, ParseRedirs, ParseLine, ParseExec, Files, Wrap, InOrder, Bag;
    if !Peek(b, s, {'('}) {
      PlainTakes(b, s);
    } else {
      BlockBody(b, s);
      PassSymbol(b, s, '(');
      var n := GetToken(b, s).next;
      LineTakes(b, n);
      var (c, m) := ParseLine(b, n).value;
      PassSymbol(b, m, ')');
      var k := GetToken(b, m).next;
      RedirsTake(b, k);
      var (rs, e) := ParseRedirs(b, k).value;
      WrapBag(c, rs);
      Wider(c, n, m, s, e);
      InnerBefore(c, n, m, rs, k, e);
      AscendingAppend([], Files(rs), s, k, e);
      assert [] + Files(rs) == Files(rs);
      WrapInOrder(c, rs, s, e);
    }
  }

  /** The files after a block come after all that is in it. */
  lemma InnerBefore(c: Cmd, lo: nat, m: nat, rs: seq<Redirection>, k: nat, e: nat)
    requires InOrder(c, lo, m) && m <= k && Ascending(Files(rs), k, e)
    ensures c.Redir? && rs != [] ==> c.file.eq <= rs[0].file.q
  {
    if c.Redir? && rs != [] {
      assert Files(rs)[0] == rs[0].file;
    }
  }

  lemma PassSymbol(b: Line, s: nat, c: char)
    requires s <= |b| && Symbol(c) && c != '>' && Peek(b, s, {c})
    ensures s < GetToken(b, s).next <= |b| && WordSpans(b, GetToken(b, s).next) == WordSpans(b, s)
  {
    PeekIs(b, s, {c});
    NextTok(b, s);
    hide Toks, Peek;
    SpansNext(b, s);
  }

  lemma PipelineTakes(b: Line, s: nat)
    requires s <= |b| && ParsePipe(b, s).Some?
    ensures var (c, e) := ParsePipe(b, s).value;
            s <= e <= |b| && InOrder(c, s, e) && multiset(WordSpans(b, s)) == Bag(c) + multiset(WordSpans(b, e))
    decreases |b| - s, 2
  {
    hide GetToken, WordSpans, Skip, Peek, ParsePipe, ParseExec;
    PipeBody(b, s);
    CommandTakes(b, s);
    var (c, m) := ParseExec(b, s).value;
    if Peek(b, m, {'|'}) {
      PassSymbol(b, m, '|');
      var n := GetToken(b, m).next;
      PipelineTakes(b, n);
      var (d, e) := ParsePipe(b, n).value;
      Wider(c, s, m, s, n);
      assert InOrder(Pipe(c, d), s, e);
    }
  }

  lemma {:induction false} AmpsTake(b: Line, c: Cmd, s: nat)
    requires s <= |b|
    ensures var (d, e) := ParseBacks(b, c, s);
            && s <= e <= |b| && WordSpans(b, e) == WordSpans(b, s) && Bag(d) == Bag(c)
            && forall lo: nat, hi: nat :: InOrder(c, lo, hi) ==> InOrder(d, lo, hi)
    decreases |b| - s
  {
    hide GetToken, WordSpans, Skip, Peek;
    if Peek(b, s, {'&'}) {
      PassSymbol(b, s, '&');
      AmpsTake(b, Back(c), GetToken(b, s).next);
    } else {
      SpansSkip(b, s);
      SkipFits(b, s);
    }
  }

  lemma LineTakes(b: Line, s: nat)
    requires s <= |b| && ParseLine(b, s).Some?
    ensures var (c, e) := ParseLine(b, s).value;
            s <= e <= |b| && InOrder(c, s, e) && multiset(WordSpans(b, s)) == Bag(c) + multiset(WordSpans(b, e))
    decreases |b| - s, 3
  {
    hide GetToken, WordSpans, Skip, Peek, ParsePipe, ParseLine, ParseBacks;
    LineBody(b, s);
    PipelineTakes(b, s);
    var (c, m) := ParsePipe(b, s).value;
    AmpsTake(b, c, m);
    var (d, n) := ParseBacks(b, c, m);
    Wider(c, s, m, s, n);
    if Peek(b, n, {';'}) {
      PassSymbol(b, n, ';');
      var k := GetToken(b, n).next;
      LineTakes(b, k);
      var (x, e) := ParseLine(b, k).value;
      Wider(d, s, n, s, k);
      assert InOrder(List(d, x), s, e);
    }
  }

  /** Every maximal word of an accepted line is an argument or a file name of the tree,
      exactly once and in order, and the tree has no others. */
  lemma EveryWordOnce(b: Line)
    requires ParseCmd(b).Some?
    ensures var c := ParseCmd(b).value;
            && InOrder(c, 0, |b|) && Bag(c) == multiset(WordSpans(b, 0)) && Ascending(WordSpans(b, 0), 0, |b|)
            && forall p :: p in WordSpans(b, 0) <==> MaximalWord(b, p)
  {
    hide GetToken, WordSpans, ParseLine, InOrder, Bag, Toks, Ascending;
    LineTakes(b, 0);
    var (c, e) := ParseLine(b, 0).value;
    SpansSkip(b, e);
    NoneLeft(b);
    Wider(c, 0, e, 0, |b|);
    WordsAre(b);
  }

  lemma NoneLeft(b: Line)
    ensures WordSpans(b, |b|) == []
  {
    TokenLaw(b, |b|);
  }
}
