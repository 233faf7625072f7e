/** The parser of bin/sh/sh.c accepts exactly the sentences of the language, and the
    tree it returns means what the sentence means. */
module ShellLanguage {
  import opened Options
  import opened ShellGrammar
  import opened ShellRoundTrip
  import opened ShellSyntax

  /** What can follow a command: an operator that ends it, or nothing. */
  predicate Stops(ts: seq<Tok>) {
    ts == [] || (ts[0].Sym? && ts[0].c in {'|', ')', '&', ';'})
  }

  /** No redirection comes next. */
  predicate NoTo(ts: seq<Tok>) {
    ts == [] || Head(ts[0]) !in {'<', '>'}
  }

  // ----- a sentence in the line is parsed -----

  lemma RedirectIs(b: Line, s: nat, item: Item)
    requires s <= |b| && item.To? && ItemOk(item) && |Toks(b, s)| >= 2 && Toks(b, s)[..2] == ItemToks(item)
    ensures Peek(b, s, {'<', '>'}) && Redirect(b, s).Some?
    ensures var (r, n) := Redirect(b, s).value;
            s < n <= |b| && Toks(b, n) == Toks(b, s)[2..] && Text(b, r.file) == item.file && (r.fd == 1 <==> item.op != '<')
  {
    PeekIs(b, s, {'<', '>'});
    NextTok(b, s);
    var ts := Toks(b, s);
    assert ts[0] == ts[..2][0] && ts[1] == ts[..2][1];
    NextTok(b, GetToken(b, s).next);
    hide GetToken, Toks;
  }

  lemma RedirsBody(b: Line, s: nat)
    requires s <= |b|
    ensures Peek(b, s, {'<', '>'}) ==>
              ParseRedirs(b, s) ==
              var first := Redirect(b, s);
              if first.None? then None
              else
                var rest := ParseRedirs(b, first.value.1);
                if rest.None? then None else Some(([first.value.0] + rest.value.0, rest.value.1))
    ensures !Peek(b, s, {'<', '>'}) ==> ParseRedirs(b, s) == Some(([], Skip(b, s)))
  {
  }

  lemma {:induction false} RedirsParsed(b: Line, s: nat, items: seq<Item>, rest: seq<Tok>)
    requires s <= |b| && ItemsOk(items) && OnlyTo(items) && NoTo(rest) && Toks(b, s) == ItemsToks(items) + rest
    ensures ParseRedirs(b, s).Some?
    ensures var (rs, e) := ParseRedirs(b, s).value; s <= e <= |b| && Toks(b, e) == rest && FilesOf(b, rs) == Targets(items)
    decreases |items|
  {
    hide Toks, GetToken, Skip, ParseRedirs, Redirect, Peek;
    RedirsBody(b, s);
    if items == [] {
      PeekIs(b, s, {'<', '>'});
      ToksSkip(b, s);
    } else {
      var ts := Toks(b, s);
      assert ts == ItemToks(items[0]) + (ItemsToks(items[1..]) + rest);
      assert ts[..2] == ItemToks(items[0]) && ts[2..] == ItemsToks(items[1..]) + rest;
      RedirectIs(b, s, items[0]);
      var (r, n) := Redirect(b, s).value;
      RedirsParsed(b, n, items[1..], rest);
      var (rs, e) := ParseRedirs(b, n).value;
      assert ([r] + rs)[1..] == rs;
    }
  }

  const ENDS := {'|', ')', '&', ';'}

  lemma ArgsBody(b: Line, s: nat, argc: nat)
    requires s <= |b|
    ensures ParseArgs(b, s, argc) ==
            if Peek(b, s, ENDS) then Some(([], [], Skip(b, s)))
            else
              var t := GetToken(b, s);
              if t.kind == '\0' then Some(([], [], t.next))
              else if t.kind != 'a' || argc + 1 >= MAXARGS then None
              else
                var redirs := ParseRedirs(b, t.next);
                if redirs.None? then None
                else
                  var rest := ParseArgs(b, redirs.value.1, argc + 1);
                  if rest.None? then None
                  else Some(([t.span] + rest.value.0, redirs.value.0 + rest.value.1, rest.value.2))
  {
  }

  lemma ArgsEnded(b: Line, s: nat, argc: nat)
    requires s <= |b| && Stops(Toks(b, s))
    ensures ParseArgs(b, s, argc).Some?
    ensures var (spans, rs, e) := ParseArgs(b, s, argc).value; spans == [] && rs == [] && s <= e <= |b| && Toks(b, e) == Toks(b, s)
  {
    hide Toks, GetToken, Skip, ParseArgs, ParseRedirs, Peek;
    ArgsBody(b, s, argc);
    PeekIs(b, s, ENDS);
    ToksSkip(b, s);
    if Toks(b, s) == [] {
      NoTok(b, s);
      ToksEnd(b);
    }
  }

  lemma ToksEnd(b: Line)
    ensures Toks(b, |b|) == []
  {
    AtEnd(b, |b|);
  }

  /** The items after an argument: redirections up to the next argument, and the rest. */
  lemma SplitItems(items: seq<Item>, rest: seq<Tok>)
    requires ItemsOk(items) && Stops(rest)
    ensures var n := Leading(items);
            var tos, more := items[..n], items[n..];
            && OnlyTo(tos) && ItemsOk(tos) && ItemsOk(more) && (more == [] || more[0].Arg?)
            && ItemsToks(items) + rest == ItemsToks(tos) + (ItemsToks(more) + rest) && NoTo(ItemsToks(more) + rest)
            && Args(items) == Args(more) && Targets(items) == Targets(tos) + Targets(more)
  {
    hide *;
    LeadingIs(items);
    var n := Leading(items);
    var tos, more := items[..n], items[n..];
    HalvesOk(items, n);
    ItemsAppend(tos, more);
    OnlyToArgs(tos);
    NoToFirst(more, rest);
    Regroup(ItemsToks(tos), ItemsToks(more), rest);
    Regroup([], Args(more), []);
  }

  lemma Regroup<T>(a: seq<T>, b: seq<T>, c: seq<T>)
    ensures a + b + c == a + (b + c) && [] + b == b
  {
  }

  lemma LeadingIs(items: seq<Item>)
    ensures var n := Leading(items); n <= |items| && OnlyTo(items[..n]) && (items[n..] == [] || items[n..][0].Arg?)
  {
    var n := Leading(items);
    assert n < |items| ==> items[n..][0] == items[n];
  }

  lemma HalvesOk(items: seq<Item>, n: nat)
    requires ItemsOk(items) && n <= |items|
    ensures items == items[..n] + items[n..] && ItemsOk(items[..n]) && ItemsOk(items[n..])
  {
    hide ItemOk;
  }

  lemma NoToFirst(more: seq<Item>, rest: seq<Tok>)
    requires (more == [] || more[0].Arg?) && Stops(rest)
    ensures NoTo(ItemsToks(more) + rest)
  {
    if more != [] {
      assert ItemsToks(more)[0] == Name(more[0].word);
    }
  }

  lemma TextsCons(b: Line, p: Span, more: seq<Span>)
    ensures Texts(b, [p] + more) == [Text(b, p)] + Texts(b, more)
  {
  }

  lemma {:induction false} ArgsParsed(b: Line, s: nat, items: seq<Item>, argc: nat, rest: seq<Tok>)
    requires s <= |b| && ItemsOk(items) && (items == [] || items[0].Arg?) && Stops(rest) && Toks(b, s) == ItemsToks(items) + rest
    requires argc + |Args(items)| < MAXARGS
    ensures ParseArgs(b, s, argc).Some?
    ensures var (spans, rs, e) := ParseArgs(b, s, argc).value;
            s <= e <= |b| && Toks(b, e) == rest && Texts(b, spans) == Args(items) && FilesOf(b, rs) == Targets(items)
    decreases |items|
  {
    hide Toks, GetToken, Skip, ParseArgs, ParseRedirs, Peek, Texts, ItemsOk, OnlyTo, Stops, NoTo, Leading, ItemsToks, Args, Targets, FilesOf;
    if items == [] {
      NoItems(b);
      assert Toks(b, s) == rest;
      ArgsEnded(b, s, argc);
    } else {
      var tail := items[1..];
      FirstItem(items);
      SplitItems(tail, rest);
      LeadingFits(tail);
      var n := Leading(tail);
      var tos, more := tail[..n], tail[n..];
      ArgParsed(b, s, items[0].word, ItemsToks(tail) + rest, argc);
      var t := GetToken(b, s);
      RedirsParsed(b, t.next, tos, ItemsToks(more) + rest);
      var (rs, m) := ParseRedirs(b, t.next).value;
      ArgsParsed(b, m, more, argc + 1, rest);
      var (spans, rs', e) := ParseArgs(b, m, argc + 1).value;
      TextsCons(b, t.span, spans);
      FilesAppend(b, rs, rs');
    }
  }

  /** One argument, as parseexec's loop takes it. */
  lemma ArgParsed(b: Line, s: nat, w: string, after: seq<Tok>, argc: nat)
    requires s <= |b| && Toks(b, s) == [Name(w)] + after && argc + 1 < MAXARGS
    ensures var t := GetToken(b, s);
            && s < t.next <= |b| && Toks(b, t.next) == after && Text(b, t.span) == w
            && ParseArgs(b, s, argc) ==
               var redirs := ParseRedirs(b, t.next);
               if redirs.None? then None
               else
                 var rest := ParseArgs(b, redirs.value.1, argc + 1);
                 if rest.None? then None
                 else Some(([t.span] + rest.value.0, redirs.value.0 + rest.value.1, rest.value.2))
  {
    hide Toks, GetToken, Skip, ParseArgs, ParseRedirs, Peek;
    PeekIs(b, s, ENDS);
    NextTok(b, s);
    ArgsBody(b, s, argc);
  }

  lemma LeadingFits(items: seq<Item>)
    ensures Leading(items) <= |items|
  {
  }

  lemma NoItems(b: Line)
    ensures ItemsToks([]) == [] && Args([]) == [] && Targets([]) == [] && Texts(b, []) == [] && FilesOf(b, []) == []
  {
  }

  lemma FirstItem(items: seq<Item>)
    requires ItemsOk(items) && items != []
    ensures ItemOk(items[0]) && ItemsOk(items[1..]) && ItemsToks(items) == ItemToks(items[0]) + ItemsToks(items[1..])
    ensures Args(items) == (if items[0].Arg? then [items[0].word] else []) + Args(items[1..])
    ensures items[0].Arg? ==> Targets(items) == Targets(items[1..])
  {
  }

  lemma ExecBody(b: Line, s: nat)
    requires s <= |b|
    ensures !Peek(b, s, {'('}) ==>
              ParseExec(b, s) ==
              var redirs := ParseRedirs(b, s);
              if redirs.None? then None
              else
                var rest := ParseArgs(b, redirs.value.1, 0);
                if rest.None? then None else Some((Wrap(Exec(rest.value.0), redirs.value.0 + rest.value.1), rest.value.2))
  {
  }

  /** A plain command is parsed, wherever its redirections stand among its arguments. */
  lemma PlainParsed(b: Line, s: nat, items: seq<Item>, rest: seq<Tok>)
    requires s <= |b| && CommandOk(Plain(items)) && Stops(rest) && Toks(b, s) == ItemsToks(items) + rest
    ensures ParseExec(b, s).Some?
    ensures var (c, e) := ParseExec(b, s).value; s <= e <= |b| && Toks(b, e) == rest && Meaning(b, c) == CommandTree(Plain(items))
  {
    NotOpen(items, rest);
    hide Toks, GetToken, Skip, ParseExec, ParseArgs, ParseRedirs, Peek, Texts, Stops, NoTo, Leading, ItemsOk;
    PeekIs(b, s, {'('});
    ExecBody(b, s);
    SplitItems(items, rest);
    LeadingFits(items);
    var n := Leading(items);
    var tos, more := items[..n], items[n..];
    RedirsParsed(b, s, tos, ItemsToks(more) + rest);
    var (rs, m) := ParseRedirs(b, s).value;
    ArgsParsed(b, m, more, 0, rest);
    var (spans, rs', e) := ParseArgs(b, m, 0).value;
    FilesAppend(b, rs, rs');
    WrapMeans(b, Exec(spans), rs + rs');
  }

  lemma NotOpen(items: seq<Item>, rest: seq<Tok>)
    requires ItemsOk(items) && Stops(rest)
    ensures var ts := ItemsToks(items) + rest; ts == [] || Head(ts[0]) != '('
  {
    if items != [] {
      assert ItemsToks(items) == ItemToks(items[0]) + ItemsToks(items[1..]);
      assert (ItemsToks(items) + rest)[0] == ItemToks(items[0])[0];
    }
  }

  /** A parenthesis opens a block. */
  lemma BlockParsed(b: Line, s: nat, body: Sentence, redirs: seq<Item>, rest: seq<Tok>)
    requires s <= |b| && CommandOk(Block(body, redirs)) && Stops(rest) && Toks(b, s) == CommandToks(Block(body, redirs)) + rest
    ensures ParseExec(b, s).Some?
    ensures var (c, e) := ParseExec(b, s).value; s <= e <= |b| && Toks(b, e) == rest && Meaning(b, c) == CommandTree(Block(body, redirs))
    decreases Block(body, redirs), 3
  {
    hide Toks, GetToken, Skip, ParseExec, ParseLine, ParseRedirs, Peek, SentenceOk, ItemsOk, OnlyTo, SentenceToks, ItemsToks;
    var after := [Sym(')')] + (ItemsToks(redirs) + rest);
    var ts := Toks(b, s);
    assert ts == [Sym('(')] + (SentenceToks(body) + after);
    PeekIs(b, s, {'('});
    NextTok(b, s);
    BlockBody(b, s);
    var n := GetToken(b, s).next;
    SentenceParsed(b, n, body, after);
    var (c, m) := ParseLine(b, n).value;
    PeekIs(b, m, {')'});
    NextTok(b, m);
    RedirsParsed(b, GetToken(b, m).next, redirs, rest);
    WrapMeans(b, c, ParseRedirs(b, GetToken(b, m).next).value.0);
  }

  lemma CommandParsed(b: Line, s: nat, x: Command, rest: seq<Tok>)
    requires s <= |b| && CommandOk(x) && Stops(rest) && Toks(b, s) == CommandToks(x) + rest
    ensures ParseExec(b, s).Some?
    ensures var (c, e) := ParseExec(b, s).value; s <= e <= |b| && Toks(b, e) == rest && Meaning(b, c) == CommandTree(x)
    decreases x, 4
  {
    hide Toks, ParseExec, CommandTree, Stops;
    match x
    case Plain(items) =>
      assert CommandToks(x) == ItemsToks(items);
      PlainParsed(b, s, items, rest);
    case Block(body, redirs) => BlockParsed(b, s, body, redirs, rest);
  }

  lemma PipelineParsed(b: Line, s: nat, x: Pipeline, rest: seq<Tok>)
    requires s <= |b| && PipelineOk(x) && Stops(rest) && (rest == [] || rest[0] != Sym('|')) && Toks(b, s) == PipelineToks(x) + rest
    ensures ParsePipe(b, s).Some?
    ensures var (c, e) := ParsePipe(b, s).value; s <= e <= |b| && Toks(b, e) == rest && Meaning(b, c) == PipelineTree(x)
    decreases x, 5
  {
    hide Toks, GetToken, Skip, ParseExec, ParsePipe, Peek, CommandOk, CommandToks, CommandTree;
    PipeBody(b, s);
    var after := if x.rest.Some? then [Sym('|')] + (PipelineToks(x.rest.value) + rest) else rest;
    assert Toks(b, s) == CommandToks(x.first) + after by { PipelineSplit(x, rest); }
    CommandParsed(b, s, x.first, after);
    var (c, m) := ParseExec(b, s).value;
    PeekIs(b, m, {'|'});
    if x.rest.Some? {
      NextTok(b, m);
      PipelineParsed(b, GetToken(b, m).next, x.rest.value, rest);
    }
  }

  lemma PipelineSplit(x: Pipeline, rest: seq<Tok>)
    ensures PipelineToks(x) + rest ==
            CommandToks(x.first) + if x.rest.Some? then [Sym('|')] + (PipelineToks(x.rest.value) + rest) else rest
  {
    hide CommandToks;
    if x.rest.Some? {
      var y := PipelineToks(x.rest.value);
      assert CommandToks(x.first) + ([Sym('|')] + y) + rest == CommandToks(x.first) + ([Sym('|')] + (y + rest));
    } else {
      assert CommandToks(x.first) + [] + rest == CommandToks(x.first) + rest;
    }
  }

  lemma {:induction false} AmpsParsed(b: Line, c: Cmd, s: nat, n: nat, rest: seq<Tok>)
    requires s <= |b| && Toks(b, s) == Amps(n) + rest && (rest == [] || rest[0] != Sym('&'))
    ensures var (d, e) := ParseBacks(b, c, s); s <= e <= |b| && Toks(b, e) == rest && Meaning(b, d) == Backs(Meaning(b, c), n)
    decreases n
  {
    hide Toks, GetToken, Skip, Peek;
    PeekIs(b, s, {'&'});
    if n == 0 {
      assert Amps(n) + rest == rest;
      ToksSkip(b, s);
    } else {
      assert Amps(n) + rest == [Sym('&')] + (Amps(n - 1) + rest);
      NextTok(b, s);
      AmpsParsed(b, Back(c), GetToken(b, s).next, n - 1, rest);
    }
  }

  /** What follows the pipeline of a sentence. */
  function AfterPipe(x: Sentence, rest: seq<Tok>): seq<Tok> {
    Amps(x.amps) + AfterAmps(x, rest)
  }

  function AfterAmps(x: Sentence, rest: seq<Tok>): seq<Tok> {
    if x.rest.Some? then [Sym(';')] + (SentenceToks(x.rest.value) + rest) else rest
  }

  lemma SentenceSplit(x: Sentence, rest: seq<Tok>)
    ensures SentenceToks(x) + rest == PipelineToks(x.pipe) + AfterPipe(x, rest)
    ensures rest == [] || rest[0] == Sym(')') ==>
              && Stops(AfterPipe(x, rest)) && (AfterPipe(x, rest) == [] || AfterPipe(x, rest)[0] != Sym('|'))
              && (AfterAmps(x, rest) == [] || AfterAmps(x, rest)[0] != Sym('&'))
  {
    hide PipelineToks;
    var p, a := PipelineToks(x.pipe), Amps(x.amps);
    if x.rest.Some? {
      var y := SentenceToks(x.rest.value);
      assert p + a + ([Sym(';')] + y) + rest == p + (a + ([Sym(';')] + (y + rest)));
    } else {
      assert p + a + [] + rest == p + (a + rest);
    }
  }

  lemma SentenceParsed(b: Line, s: nat, x: Sentence, rest: seq<Tok>)
    requires s <= |b| && SentenceOk(x) && (rest == [] || rest[0] == Sym(')')) && Toks(b, s) == SentenceToks(x) + rest
    ensures ParseLine(b, s).Some?
    ensures var (c, e) := ParseLine(b, s).value; s <= e <= |b| && Toks(b, e) == rest && Meaning(b, c) == SentenceTree(x)
    decreases x, 6
  {
    hide Toks, GetToken, Skip, ParsePipe, ParseLine, ParseBacks, Peek, PipelineOk, PipelineToks, PipelineTree, Stops, Amps, AfterPipe;
    LineBody(b, s);
    SentenceSplit(x, rest);
    PipelineParsed(b, s, x.pipe, AfterPipe(x, rest));
    var (c, m) := ParsePipe(b, s).value;
    AfterPipeIs(x, rest);
    AmpsParsed(b, c, m, x.amps, AfterAmps(x, rest));
    var (d, n) := ParseBacks(b, c, m);
    PeekIs(b, n, {';'});
    if x.rest.Some? {
      NextTok(b, n);
      SentenceParsed(b, GetToken(b, n).next, x.rest.value, rest);
    }
  }

  lemma AfterPipeIs(x: Sentence, rest: seq<Tok>)
    ensures AfterPipe(x, rest) == Amps(x.amps) + AfterAmps(x, rest)
  {
  }

  // ----- what is parsed is a sentence -----

  /** A redirection that is parsed stands in the line. */
  lemma RedirectMade(b: Line, s: nat) returns (item: Item)
    requires s <= |b| && Peek(b, s, {'<', '>'}) && Redirect(b, s).Some?
    ensures var (r, n) := Redirect(b, s).value;
            && s < n <= |b| && item.To? && ItemOk(item) && Toks(b, s) == ItemToks(item) + Toks(b, n)
            && Text(b, r.file) == item.file && (r.fd == 1 <==> item.op != '<')
  {
    PeekIs(b, s, {'<', '>'});
    NextTok(b, s);
    var op := GetToken(b, s);
    var file := GetToken(b, op.next);
    if Toks(b, op.next) == [] {
      NoTok(b, op.next);
    }
    NextTok(b, op.next);
    hide GetToken, Toks, Peek;
    item := To(op.kind, Text(b, file.span));
  }

  lemma {:induction false} RedirsMade(b: Line, s: nat) returns (items: seq<Item>)
    requires s <= |b| && ParseRedirs(b, s).Some?
    ensures var (rs, e) := ParseRedirs(b, s).value;
            s <= e <= |b| && ItemsOk(items) && OnlyTo(items) && Toks(b, s) == ItemsToks(items) + Toks(b, e) && FilesOf(b, rs) == Targets(items)
    decreases |b| - s
  {
    hide Toks, GetToken, Skip, ParseRedirs, Redirect, Peek;
    RedirsBody(b, s);
    if Peek(b, s, {'<', '>'}) {
      var item := RedirectMade(b, s);
      var (r, n) := Redirect(b, s).value;
      var more := RedirsMade(b, n);
      var (rs, e) := ParseRedirs(b, n).value;
      items := [item] + more;
      assert items[1..] == more && ([r] + rs)[1..] == rs;
    } else {
      items := [];
      ToksSkip(b, s);
      SkipFits(b, s);
    }
  }

  lemma SkipFits(b: Line, s: nat)
    requires s <= |b|
    ensures s <= Skip(b, s) <= |b|
  {
  }

  lemma {:induction false} ArgsMade(b: Line, s: nat, argc: nat) returns (items: seq<Item>)
    requires s <= |b| && argc < MAXARGS && ParseArgs(b, s, argc).Some?
    ensures var (spans, rs, e) := ParseArgs(b, s, argc).value;
            && s <= e <= |b| && ItemsOk(items) && Toks(b, s) == ItemsToks(items) + Toks(b, e) && argc + |Args(items)| < MAXARGS
            && Texts(b, spans) == Args(items) && FilesOf(b, rs) == Targets(items)
    decreases |b| - s
  {
    hide Toks, GetToken, Skip, ParseArgs, ParseRedirs, Peek, Texts, ItemsOk, OnlyTo, ItemsToks, Args, Targets, FilesOf;
    ArgsBody(b, s, argc);
    NoItems(b);
    NoneOk();
    if Peek(b, s, ENDS) {
      items := [];
      ToksSkip(b, s);
      SkipFits(b, s);
    } else if Toks(b, s) == [] {
      items := [];
      NoTok(b, s);
      ToksEnd(b);
    } else {
      NextTok(b, s);
      var t := GetToken(b, s);
      var tos := RedirsMade(b, t.next);
      var (rs, m) := ParseRedirs(b, t.next).value;
      var more := ArgsMade(b, m, argc + 1);
      var (spans, rs', e) := ParseArgs(b, m, argc + 1).value;
      items := [Arg(Text(b, t.span))] + (tos + more);
      ArgThen(Text(b, t.span), tos, more);
      TextsCons(b, t.span, spans);
      FilesAppend(b, rs, rs');
      assert [Name(Text(b, t.span))] + (ItemsToks(tos) + (ItemsToks(more) + Toks(b, e)))
          == [Name(Text(b, t.span))] + (ItemsToks(tos) + ItemsToks(more)) + Toks(b, e);
    }
  }

  lemma NoneOk()
    ensures ItemsOk([])
  {
  }

  lemma ArgThen(w: string, tos: seq<Item>, more: seq<Item>)
    requires Word(w) && ItemsOk(tos) && OnlyTo(tos) && ItemsOk(more)
    ensures var items := [Arg(w)] + (tos + more);
            && ItemsOk(items) && ItemsToks(items) == [Name(w)] + (ItemsToks(tos) + ItemsToks(more))
            && Args(items) == [w] + Args(more) && Targets(items) == Targets(tos) + Targets(more)
  {
    var items := [Arg(w)] + (tos + more);
    ItemsAppend(tos, more);
    OnlyToArgs(tos);
    assert items[1..] == tos + more;
    assert [] + Args(more) == Args(more);
  }

  lemma PlainMade(b: Line, s: nat) returns (items: seq<Item>)
    requires s <= |b| && !Peek(b, s, {'('}) && ParseExec(b, s).Some?
    ensures var (c, e) := ParseExec(b, s).value;
            s <= e <= |b| && CommandOk(Plain(items)) && Toks(b, s) == ItemsToks(items) + Toks(b, e) && Meaning(b, c) == CommandTree(Plain(items))
  {
    hide Toks, GetToken, Skip, ParseExec, ParseArgs, ParseRedirs, Peek, Texts, ItemsToks, Args, Targets, FilesOf, ItemsOk, OnlyTo;
    ExecBody(b, s);
    var tos := RedirsMade(b, s);
    var (rs, m) := ParseRedirs(b, s).value;
    var more := ArgsMade(b, m, 0);
    var (spans, rs', e) := ParseArgs(b, m, 0).value;
    items := tos + more;
    ToThen(tos, more);
    FilesAppend(b, rs, rs');
    WrapMeans(b, Exec(spans), rs + rs');
    assert ItemsToks(tos) + (ItemsToks(more) + Toks(b, e)) == ItemsToks(tos) + ItemsToks(more) + Toks(b, e);
  }

  lemma ToThen(tos: seq<Item>, more: seq<Item>)
    requires ItemsOk(tos) && OnlyTo(tos) && ItemsOk(more)
    ensures ItemsOk(tos + more) && ItemsToks(tos + more) == ItemsToks(tos) + ItemsToks(more)
    ensures Args(tos + more) == Args(more) && Targets(tos + more) == Targets(tos) + Targets(more)
  {
    ItemsAppend(tos, more);
    OnlyToArgs(tos);
    assert [] + Args(more) == Args(more);
  }

  lemma CommandMade(b: Line, s: nat) returns (x: Command)
    requires s <= |b| && ParseExec(b, s).Some?
    ensures var (c, e) := ParseExec(b, s).value;
            s <= e <= |b| && CommandOk(x) && Toks(b, s) == CommandToks(x) + Toks(b, e) && Meaning(b, c) == CommandTree(x)
    decreases |b| - s, 1
  {
    hide Toks, GetToken, Skip, ParseExec, ParseLine, ParseRedirs, Peek, SentenceToks, SentenceOk, ItemsOk, OnlyTo, ItemsToks, FilesOf, Targets, Within, SentenceTree;
    if !Peek(b, s, {'('}) {
      var items := PlainMade(b, s);
      x := Plain(items);
    } else {
      BlockBody(b, s);
      PeekIs(b, s, {'('});
      NextTok(b, s);
      var n := GetToken(b, s).next;
      var body := SentenceMade(b, n);
      var (c, m) := ParseLine(b, n).value;
      PeekIs(b, m, {')'});
      NextTok(b, m);
      var k := GetToken(b, m).next;
      var redirs := RedirsMade(b, k);
      var (rs, e) := ParseRedirs(b, k).value;
      x := Block(body, redirs);
      WrapMeans(b, c, rs);
      assert [Sym('(')] + (SentenceToks(body) + ([Sym(')')] + (ItemsToks(redirs) + Toks(b, e)))) == CommandToks(x) + Toks(b, e);
    }
  }

  lemma PipelineMade(b: Line, s: nat) returns (x: Pipeline)
    requires s <= |b| && ParsePipe(b, s).Some?
    ensures var (c, e) := ParsePipe(b, s).value;
            s <= e <= |b| && PipelineOk(x) && Toks(b, s) == PipelineToks(x) + Toks(b, e) && Meaning(b, c) == PipelineTree(x)
    decreases |b| - s, 2
  {
    hide Toks, GetToken, Skip, ParseExec, ParsePipe, Peek, CommandToks, CommandOk, CommandTree;
    PipeBody(b, s);
    var first := CommandMade(b, s);
    var (c, m) := ParseExec(b, s).value;
    PeekIs(b, m, {'|'});
    if Peek(b, m, {'|'}) {
      NextTok(b, m);
      var n := GetToken(b, m).next;
      var rest := PipelineMade(b, n);
      x := Pipeline(first, Some(rest));
      PipelineSplit(x, Toks(b, ParsePipe(b, n).value.1));
    } else {
      x := Pipeline(first, None);
      PipelineSplit(x, Toks(b, m));
    }
  }

  lemma {:induction false} AmpsMade(b: Line, c: Cmd, s: nat) returns (n: nat)
    requires s <= |b|
    ensures var (d, e) := ParseBacks(b, c, s); s <= e <= |b| && Toks(b, s) == Amps(n) + Toks(b, e) && Meaning(b, d) == Backs(Meaning(b, c), n)
    decreases |b| - s
  {
    hide Toks, GetToken, Skip, Peek;
    PeekIs(b, s, {'&'});
    if Peek(b, s, {'&'}) {
      NextTok(b, s);
      var m := AmpsMade(b, Back(c), GetToken(b, s).next);
      n := m + 1;
      var e := ParseBacks(b, c, s).1;
      assert Amps(n) + Toks(b, e) == [Sym('&')] + (Amps(m) + Toks(b, e));
    } else {
      n := 0;
      ToksSkip(b, s);
      SkipFits(b, s);
      assert Amps(0) + Toks(b, s) == Toks(b, s);
    }
  }

  lemma SentenceMade(b: Line, s: nat) returns (x: Sentence)
    requires s <= |b| && ParseLine(b, s).Some?
    ensures var (c, e) := ParseLine(b, s).value;
            s <= e <= |b| && SentenceOk(x) && Toks(b, s) == SentenceToks(x) + Toks(b, e) && Meaning(b, c) == SentenceTree(x)
    decreases |b| - s, 3
  {
    hide Toks, GetToken, Skip, ParsePipe, ParseLine, ParseBacks, Peek, PipelineToks, PipelineOk, PipelineTree, Amps, Backs;
    LineBody(b, s);
    var pipe := PipelineMade(b, s);
    var (c, m) := ParsePipe(b, s).value;
    var amps := AmpsMade(b, c, m);
    var (d, n) := ParseBacks(b, c, m);
    PeekIs(b, n, {';'});
    if Peek(b, n, {';'}) {
      NextTok(b, n);
      var k := GetToken(b, n).next;
      var rest := SentenceMade(b, k);
      x := Sentence(pipe, amps, Some(rest));
      SentenceSplit(x, Toks(b, ParseLine(b, k).value.1));
    } else {
      x := Sentence(pipe, amps, None);
      SentenceSplit(x, Toks(b, n));
    }
  }

  // ----- the language -----

  /** Any line that is a sentence is parsed, and to a tree with its meaning: however it
      is spaced, whatever is in parentheses, and wherever redirections stand. */
  lemma SentenceIsParsed(b: Line, x: Sentence)
    requires SentenceOk(x) && Toks(b, 0) == SentenceToks(x)
    ensures ParseCmd(b).Some? && Meaning(b, ParseCmd(b).value) == SentenceTree(x)
  {
    hide Toks, SentenceToks, SentenceTree, ParseLine;
    assert SentenceToks(x) + [] == SentenceToks(x);
    SentenceParsed(b, 0, x, []);
    AtEnd(b, ParseLine(b, 0).value.1);
  }

  /** Any line that is parsed is a sentence, and its tree has that meaning. */
  lemma ParsedIsSentence(b: Line) returns (x: Sentence)
    requires ParseCmd(b).Some?
    ensures SentenceOk(x) && Toks(b, 0) == SentenceToks(x) && Meaning(b, ParseCmd(b).value) == SentenceTree(x)
  {
    hide Toks, SentenceToks, SentenceTree, ParseLine;
    x := SentenceMade(b, 0);
    AtEnd(b, ParseLine(b, 0).value.1);
    assert SentenceToks(x) + [] == SentenceToks(x);
  }

  /** No line has two meanings. */
  lemma Unambiguous(b: Line, x: Sentence, y: Sentence)
    requires SentenceOk(x) && SentenceOk(y) && Toks(b, 0) == SentenceToks(x) == SentenceToks(y)
    ensures SentenceTree(x) == SentenceTree(y)
  {
    SentenceIsParsed(b, x);
    SentenceIsParsed(b, y);
  }
}
