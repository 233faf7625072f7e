/** The language of the shell's command lines, written down apart from the parser of
    bin/sh/sh.c: sentences, what tokens they are made of, and what they mean. */
module ShellSyntax {
  import opened Options
  import opened ShellGrammar
  import opened ShellRoundTrip

  /** A token: a word, or an operator, with '+' for >>. */
  datatype Tok = Name(text: string) | Sym(c: char)

  /** An argument, or a redirection and its file. */
  datatype Item = Arg(word: string) | To(op: char, file: string)

  /** Pipelines separated by semicolons, each with the ampersands after it. */
  datatype Sentence = Sentence(pipe: Pipeline, amps: nat, rest: Option<Sentence>)

  datatype Pipeline = Pipeline(first: Command, rest: Option<Pipeline>)

  /** Arguments and redirections in any order, or a sentence in parentheses with
      redirections after it. */
  datatype Command = Plain(items: seq<Item>) | Block(body: Sentence, redirs: seq<Item>)

  // ----- what is well formed -----

  predicate ItemOk(i: Item) {
    match i
    case Arg(w) => Word(w)
    case To(op, file) => op in {'<', '>', '+'} && Word(file)
  }

  predicate ItemsOk(items: seq<Item>) { forall k :: 0 <= k < |items| ==> ItemOk(items[k]) }

  predicate OnlyTo(items: seq<Item>) { forall k :: 0 <= k < |items| ==> items[k].To? }

  predicate CommandOk(c: Command) {
    match c
    case Plain(items) => ItemsOk(items) && |Args(items)| < MAXARGS
    case Block(body, redirs) => SentenceOk(body) && ItemsOk(redirs) && OnlyTo(redirs)
  }

  predicate PipelineOk(p: Pipeline) {
    CommandOk(p.first) && (p.rest.Some? ==> PipelineOk(p.rest.value))
  }

  predicate SentenceOk(x: Sentence) {
    PipelineOk(x.pipe) && (x.rest.Some? ==> SentenceOk(x.rest.value))
  }

  // ----- the tokens of a sentence -----

  function ItemToks(i: Item): seq<Tok> {
    match i
    case Arg(w) => [Name(w)]
    case To(op, file) => [Sym(op), Name(file)]
  }

  function ItemsToks(items: seq<Item>): seq<Tok> {
    if items == [] then [] else ItemToks(items[0]) + ItemsToks(items[1..])
  }

  function CommandToks(c: Command): seq<Tok> {
    match c
    case Plain(items) => ItemsToks(items)
    case Block(body, redirs) => [Sym('(')] + SentenceToks(body) + [Sym(')')] + ItemsToks(redirs)
  }

  function PipelineToks(p: Pipeline): seq<Tok> {
    CommandToks(p.first) + if p.rest.Some? then [Sym('|')] + PipelineToks(p.rest.value) else []
  }

  function Amps(n: nat): seq<Tok> { if n == 0 then [] else [Sym('&')] + Amps(n - 1) }

  function SentenceToks(x: Sentence): seq<Tok> {
    PipelineToks(x.pipe) + Amps(x.amps) + if x.rest.Some? then [Sym(';')] + SentenceToks(x.rest.value) else []
  }

  // ----- the meaning of a sentence -----

  function Args(items: seq<Item>): seq<string> {
    if items == [] then [] else (if items[0].Arg? then [items[0].word] else []) + Args(items[1..])
  }

  datatype Target = Target(file: string, output: bool)

  function Targets(items: seq<Item>): seq<Target> {
    if items == [] then [] else (if items[0].To? then [Target(items[0].file, items[0].op != '<')] else []) + Targets(items[1..])
  }

  /** The command inside its redirections, the first innermost. */
  function Within(t: Tree, files: seq<Target>): Tree
    decreases |files|
  {
    if files == [] then t else Within(File(t, files[0].file, files[0].output), files[1..])
  }

  function CommandTree(c: Command): Tree {
    match c
    case Plain(items) => Within(Simple(Args(items)), Targets(items))
    case Block(body, redirs) => Within(SentenceTree(body), Targets(redirs))
  }

  function PipelineTree(p: Pipeline): Tree {
    if p.rest.Some? then Piped(CommandTree(p.first), PipelineTree(p.rest.value)) else CommandTree(p.first)
  }

  function Backs(t: Tree, n: nat): Tree
    decreases n
  {
    if n == 0 then t else Backs(Background(t), n - 1)
  }

  function SentenceTree(x: Sentence): Tree {
    var first := Backs(PipelineTree(x.pipe), x.amps);
    if x.rest.Some? then Then(first, SentenceTree(x.rest.value)) else first
  }

  // ----- the tokens of a line -----

  function TokOf(b: Line, t: Token): Tok { if t.kind == 'a' then Name(Text(b, t.span)) else Sym(t.kind) }

  /** The tokens from position s on. */
  function Toks(b: Line, s: nat): seq<Tok>
    requires s <= |b|
    decreases |b| - s
  {
    var t := GetToken(b, s);
    if t.kind == '\0' then [] else [TokOf(b, t)] + Toks(b, t.next)
  }

  /** Blanks before a token, its characters, and blanks after it: an operator is its own
      character or two of >, and a word is as long as it can be. */
  lemma TokenLaw(b: Line, s: nat)
    requires s <= |b|
    ensures var t := GetToken(b, s);
            && s <= t.span.q <= t.span.eq <= t.next <= |b|
            && (forall i :: s <= i < t.span.q || t.span.eq <= i < t.next ==> White(b[i])) && !White(At(b, t.next))
            && (t.kind == '\0' <==> t.span.q == |b|)
            && (t.kind == 'a' ==> t.span.q < t.span.eq && !WordChar(At(b, t.span.eq)) && Word(b[t.span.q..t.span.eq]))
            && (t.kind == '+' ==> b[t.span.q..t.span.eq] == ">>")
            && (t.kind != '\0' && t.kind != 'a' && t.kind != '+' ==> Symbol(t.kind) && b[t.span.q..t.span.eq] == [t.kind])
            && (t.kind == '>' ==> At(b, t.span.eq) != '>')
  {
  }

  /** The operator's first character. */
  function Head(t: Tok): char { if t.Name? then 'a' else if t.c == '+' then '>' else t.c }

  /** peek looks at the next token. */
  lemma PeekIs(b: Line, s: nat, toks: set<char>)
    requires s <= |b| && forall c :: c in toks ==> Symbol(c)
    ensures Peek(b, s, toks) <==> Toks(b, s) != [] && Head(Toks(b, s)[0]) in toks
  {
    TokenLaw(b, s);
  }

  lemma ToksSkip(b: Line, s: nat)
    requires s <= |b|
    ensures Toks(b, Skip(b, s)) == Toks(b, s)
  {
    SkipTwice(b, s);
    assert GetToken(b, Skip(b, s)) == GetToken(b, s);
  }

  /** The next token, and the rest. */
  lemma NextTok(b: Line, s: nat)
    requires s <= |b| && Toks(b, s) != []
    ensures var t := GetToken(b, s);
            && s < t.next <= |b| && t.kind != '\0' && Toks(b, s) == [TokOf(b, t)] + Toks(b, t.next) && Toks(b, t.next) == Toks(b, s)[1..]
            && (t.kind == 'a' <==> Toks(b, s)[0].Name?) && (Toks(b, s)[0].Sym? ==> Toks(b, s)[0].c == t.kind)
            && (t.kind == 'a' ==> Toks(b, s)[0].text == Text(b, t.span) && Word(Text(b, t.span)))
            && (t.kind != 'a' ==> Symbol(t.kind) || t.kind == '+')
  {
    TokenLaw(b, s);
  }

  lemma NoTok(b: Line, s: nat)
    requires s <= |b| && Toks(b, s) == []
    ensures GetToken(b, s).kind == '\0' && Skip(b, s) == |b| && GetToken(b, s).next == |b|
  {
    TokenLaw(b, s);
  }

  lemma AtEnd(b: Line, s: nat)
    requires s <= |b|
    ensures Toks(b, s) == [] <==> Skip(b, s) == |b|
  {
    TokenLaw(b, s);
  }

  // ----- items -----

  lemma ItemsAppend(x: seq<Item>, y: seq<Item>)
    ensures ItemsToks(x + y) == ItemsToks(x) + ItemsToks(y) && Args(x + y) == Args(x) + Args(y) && Targets(x + y) == Targets(x) + Targets(y)
  {
    ToksAppend(x, y);
    ArgsAppend(x, y);
    TargetsAppend(x, y);
  }

  lemma {:induction false} ToksAppend(x: seq<Item>, y: seq<Item>)
    ensures ItemsToks(x + y) == ItemsToks(x) + ItemsToks(y)
  {
    if x == [] {
      assert x + y == y;
    } else {
      ToksAppend(x[1..], y);
      assert (x + y)[1..] == x[1..] + y && (x + y)[0] == x[0];
      assert ItemToks(x[0]) + (ItemsToks(x[1..]) + ItemsToks(y)) == ItemToks(x[0]) + ItemsToks(x[1..]) + ItemsToks(y) by {
        hide ItemsToks, ItemToks;
      }
    }
  }

  lemma {:induction false} ArgsAppend(x: seq<Item>, y: seq<Item>)
    ensures Args(x + y) == Args(x) + Args(y)
  {
    if x == [] {
      assert x + y == y;
    } else {
      ArgsAppend(x[1..], y);
      assert (x + y)[1..] == x[1..] + y;
    }
  }

  lemma {:induction false} TargetsAppend(x: seq<Item>, y: seq<Item>)
    ensures Targets(x + y) == Targets(x) + Targets(y)
  {
    if x == [] {
      assert x + y == y;
    } else {
      TargetsAppend(x[1..], y);
      assert (x + y)[1..] == x[1..] + y;
    }
  }

  lemma {:induction false} OnlyToArgs(items: seq<Item>)
    requires OnlyTo(items)
    ensures Args(items) == []
  {
    if items != [] {
      OnlyToArgs(items[1..]);
    }
  }

  /** The redirections at the front of a list of items. */
  function Leading(items: seq<Item>): (n: nat)
    ensures n <= |items| && OnlyTo(items[..n]) && (n < |items| ==> items[n].Arg?)
  {
    if items == [] || items[0].Arg? then 0
    else
      var n := 1 + Leading(items[1..]);
      assert items[..n] == [items[0]] + items[1..][..n - 1];
      n
  }

  // ----- redirections of the parser -----

  function FilesOf(b: Line, rs: seq<Redirection>): seq<Target> {
    if rs == [] then [] else [Target(Text(b, rs[0].file), rs[0].fd == 1)] + FilesOf(b, rs[1..])
  }

  lemma {:induction false} FilesAppend(b: Line, x: seq<Redirection>, y: seq<Redirection>)
    ensures FilesOf(b, x + y) == FilesOf(b, x) + FilesOf(b, y)
  {
    if x == [] {
      assert x + y == y;
    } else {
      FilesAppend(b, x[1..], y);
      assert (x + y)[1..] == x[1..] + y;
    }
  }

  lemma {:induction false} WithinPush(t: Tree, files: seq<Target>, f: Target)
    ensures Within(t, files + [f]) == File(Within(t, files), f.file, f.output)
    decreases |files|
  {
    if files == [] {
      assert files + [f] == [f] && [f][1..] == [];
    } else {
      WithinPush(File(t, files[0].file, files[0].output), files[1..], f);
      assert (files + [f])[1..] == files[1..] + [f];
    }
  }

  /** The parser's wrapping is the same nesting. */
  lemma {:induction false} WrapMeans(b: Line, c: Cmd, rs: seq<Redirection>)
    ensures Meaning(b, Wrap(c, rs)) == Within(Meaning(b, c), FilesOf(b, rs))
    decreases |rs|
  {
    if rs != [] {
      var m := |rs| - 1;
      WrapMeans(b, c, rs[..m]);
      assert rs == rs[..m] + [rs[m]];
      FilesAppend(b, rs[..m], [rs[m]]);
      assert FilesOf(b, [rs[m]]) == [Target(Text(b, rs[m].file), rs[m].fd == 1)] by {
        assert [rs[m]][1..] == [];
      }
      WithinPush(Meaning(b, c), FilesOf(b, rs[..m]), Target(Text(b, rs[m].file), rs[m].fd == 1));
    }
  }
}
