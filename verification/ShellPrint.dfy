/** Printing a command with parentheses only where the grammar of bin/sh/sh.c needs them,
    and parsing it back. */
module ShellPrint {
  import opened Options
  import opened ShellGrammar
  import opened ShellRoundTrip
  import opened ShellSyntax
  import opened ShellLanguage

  // ----- text for tokens -----

  predicate TokOk(t: Tok) { if t.Name? then Word(t.text) else t.c == '+' || Symbol(t.c) }

  predicate ToksOk(ts: seq<Tok>) { forall i :: 0 <= i < |ts| ==> TokOk(ts[i]) }

  function ShowTok(t: Tok): string { if t.Name? then t.text else if t.c == '+' then ">>" else [t.c] }

  /** The tokens with a blank after each. */
  function Show(ts: seq<Tok>): string {
    if ts == [] then "" else (ShowTok(ts[0]) + " ") + Show(ts[1..])
  }

  lemma ShowStart(t: Tok)
    requires TokOk(t)
    ensures |ShowTok(t)| > 0 && !White(ShowTok(t)[0])
  {
  }

  /** One token and the blank after it. */
  lemma TokRead(b: Line, s: nat, t: Tok)
    requires TokOk(t) && Holds(b, s, ShowTok(t) + " ") && !White(At(b, s + |ShowTok(t)| + 1))
    ensures var r := GetToken(b, s); r.kind != '\0' && TokOf(b, r) == t && r.next == s + |ShowTok(t)| + 1 <= |b|
  {
    if t.Name? {
      WordToken(b, s, t.text);
    } else {
      OperatorRead(b, s, t);
    }
  }

  lemma OperatorRead(b: Line, s: nat, t: Tok)
    requires t.Sym? && TokOk(t) && Holds(b, s, ShowTok(t) + " ") && !White(At(b, s + |ShowTok(t)| + 1))
    ensures var r := GetToken(b, s); r.kind == t.c && r.next == s + |ShowTok(t)| + 1 <= |b|
  {
    var x := ShowTok(t);
    Split(b, s, x, " ");
    CharAt(b, s + |x|, ' ');
    assert b[s] == b[s..s + |x|][0] == x[0];
    assert |x| == 2 ==> b[s + 1] == b[s..s + |x|][1] == x[1];
    Stays(b, s);
    BlankThen(b, s + |x|);
    hide Skip, WordEnd, Holds;
  }

  lemma BlankThen(b: Line, s: nat)
    requires s < |b| && b[s] == ' ' && !White(At(b, s + 1))
    ensures Skip(b, s) == s + 1
  {
  }

  lemma {:induction false} ReadBack(b: Line, s: nat, ts: seq<Tok>)
    requires ToksOk(ts) && s <= |b| && b[s..] == Show(ts)
    ensures Toks(b, s) == ts && !White(At(b, s))
    decreases |ts|
  {
    hide GetToken, Toks, TokOk, Show, ShowTok, Holds;
    if ts == [] {
      ShowNothing();
      ToksEnd(b);
    } else {
      var x := ShowTok(ts[0]) + " ";
      ShowSplit(b, s, ts);
      ReadBack(b, s + |x|, ts[1..]);
      TokRead(b, s, ts[0]);
      ToksStep(b, s);
    }
  }

  lemma ShowSplit(b: Line, s: nat, ts: seq<Tok>)
    requires ToksOk(ts) && ts != [] && s <= |b| && b[s..] == Show(ts)
    ensures var x := ShowTok(ts[0]) + " "; s + |x| <= |b| && Holds(b, s, x) && b[s + |x|..] == Show(ts[1..]) && !White(At(b, s))
  {
    var x, y := ShowTok(ts[0]) + " ", Show(ts[1..]);
    ShowStart(ts[0]);
    hide ShowTok;
    assert b[s..] == x + y;
    assert b[s] == b[s..][0] && b[s..][..|x|] == b[s..s + |x|] && b[s..][|x|..] == b[s + |x|..];
    assert (x + y)[..|x|] == x && (x + y)[|x|..] == y;
  }

  lemma ShowNothing()
    ensures Show([]) == ""
  {
  }

  lemma ToksStep(b: Line, s: nat)
    requires s <= |b| && GetToken(b, s).kind != '\0'
    ensures var t := GetToken(b, s); t.next <= |b| && Toks(b, s) == [TokOf(b, t)] + Toks(b, t.next)
  {
  }

  lemma {:induction false} ShowNoNul(ts: seq<Tok>)
    requires ToksOk(ts)
    ensures '\0' !in Show(ts)
  {
    if ts != [] {
      ShowNoNul(ts[1..]);
    }
  }

  // ----- the tokens of a sentence are tokens -----

  lemma {:induction false} ItemsTokens(items: seq<Item>)
    requires ItemsOk(items)
    ensures ToksOk(ItemsToks(items))
  {
    if items != [] {
      ItemsTokens(items[1..]);
      assert ItemOk(items[0]);
    }
  }

  lemma {:induction false} CommandTokens(c: Command)
    requires CommandOk(c)
    ensures ToksOk(CommandToks(c))
    decreases c, 0
  {
    match c
    case Plain(items) => ItemsTokens(items);
    case Block(body, redirs) =>
      SentenceTokens(body);
      ItemsTokens(redirs);
  }

  lemma {:induction false} PipelineTokens(p: Pipeline)
    requires PipelineOk(p)
    ensures ToksOk(PipelineToks(p))
    decreases p, 1
  {
    CommandTokens(p.first);
    if p.rest.Some? {
      PipelineTokens(p.rest.value);
    }
  }

  lemma {:induction false} AmpsTokens(n: nat)
    ensures ToksOk(Amps(n))
  {
    if n > 0 {
      AmpsTokens(n - 1);
    }
  }

  lemma {:induction false} SentenceTokens(x: Sentence)
    requires SentenceOk(x)
    ensures ToksOk(SentenceToks(x))
    decreases x, 2
  {
    PipelineTokens(x.pipe);
    AmpsTokens(x.amps);
    if x.rest.Some? {
      SentenceTokens(x.rest.value);
    }
  }

  // ----- a sentence for each tree -----

  /** What is inside the outermost redirections. */
  function Core(t: Tree): (r: Tree)
    ensures !r.File? && (t.File? ==> r < t) && (!t.File? ==> r == t)
  {
    if t.File? then Core(t.tree) else t
  }

  /** Those redirections, innermost first. */
  function Outer(t: Tree): (items: seq<Item>)
    ensures OnlyTo(items)
  {
    if t.File? then Outer(t.tree) + [To(if t.output then '>' else '<', t.name)] else []
  }

  function ArgItems(args: seq<string>): seq<Item> {
    if args == [] then [] else [Arg(args[0])] + ArgItems(args[1..])
  }

  function CommandOf(t: Tree): Command
    decreases t, 4
  {
    var core := Core(t);
    if core.Simple? then Plain(ArgItems(core.args) + Outer(t)) else Block(SentenceOf(core), Outer(t))
  }

  function PipelineOf(t: Tree): Pipeline
    decreases t, if t.Piped? then 1 else 5
  {
    if t.Piped? then Pipeline(CommandOf(t.left), Some(PipelineOf(t.right))) else Pipeline(CommandOf(t), None)
  }

  /** How many ampersands end the command. */
  function AmpsOf(t: Tree): nat { if t.Background? then 1 + AmpsOf(t.tree) else 0 }

  function Before(t: Tree): (r: Tree)
    ensures !r.Background? && (t.Background? ==> r < t) && (!t.Background? ==> r == t)
  {
    if t.Background? then Before(t.tree) else t
  }

  function SentenceOf(t: Tree): Sentence
    decreases t, if t.Simple? || t.File? then 6 else if t.Piped? then 2 else 3
  {
    if t.Then? then Sentence(PipelineOf(Before(t.left)), AmpsOf(t.left), Some(SentenceOf(t.right)))
    else Sentence(PipelineOf(Before(t)), AmpsOf(t), None)
  }

  // ----- the sentence means the tree -----

  lemma {:induction false} ArgItemsAre(args: seq<string>)
    ensures Args(ArgItems(args)) == args && Targets(ArgItems(args)) == []
    ensures (forall i :: 0 <= i < |args| ==> Word(args[i])) ==> ItemsOk(ArgItems(args))
  {
    if args != [] {
      ArgItemsAre(args[1..]);
      assert ArgItems(args)[1..] == ArgItems(args[1..]);
    }
  }

  /** The redirections put back around what they were taken from. */
  lemma {:induction false} OuterAround(t: Tree)
    ensures Within(Core(t), Targets(Outer(t))) == t && Args(Outer(t)) == []
    ensures WellFormed(t) ==> ItemsOk(Outer(t)) && WellFormed(Core(t))
  {
    OnlyToArgs(Outer(t));
    if t.File? {
      OuterAround(t.tree);
      var item := To(if t.output then '>' else '<', t.name);
      TargetsAppend(Outer(t.tree), [item]);
      assert Targets([item]) == [Target(t.name, t.output)] by {
        assert [item][1..] == [];
      }
      WithinPush(Core(t), Targets(Outer(t.tree)), Target(t.name, t.output));
    }
  }

  lemma {:induction false} BacksOnce(t: Tree, n: nat)
    ensures Backs(t, n + 1) == Background(Backs(t, n))
    decreases n
  {
    if n > 0 {
      BacksOnce(Background(t), n - 1);
    }
  }

  lemma {:induction false} AmpsPutBack(t: Tree)
    ensures Backs(Before(t), AmpsOf(t)) == t && (WellFormed(t) ==> WellFormed(Before(t)))
  {
    if t.Background? {
      AmpsPutBack(t.tree);
      BacksOnce(Before(t), AmpsOf(t.tree));
    }
  }

  lemma {:induction false} CommandOfMeans(t: Tree)
    requires WellFormed(t)
    ensures CommandOk(CommandOf(t)) && CommandTree(CommandOf(t)) == t
    decreases t, 4
  {
    var core := Core(t);
    OuterAround(t);
    if core.Simple? {
      ArgItemsAre(core.args);
      ItemsAppend(ArgItems(core.args), Outer(t));
      assert core.args + [] == core.args && [] + Targets(Outer(t)) == Targets(Outer(t));
    } else {
      SentenceOfMeans(core);
    }
  }

  lemma {:induction false} PipelineOfMeans(t: Tree)
    requires WellFormed(t)
    ensures PipelineOk(PipelineOf(t)) && PipelineTree(PipelineOf(t)) == t
    decreases t, if t.Piped? then 1 else 5
  {
    if t.Piped? {
      CommandOfMeans(t.left);
      PipelineOfMeans(t.right);
    } else {
      CommandOfMeans(t);
    }
  }

  lemma {:induction false} SentenceOfMeans(t: Tree)
    requires WellFormed(t)
    ensures SentenceOk(SentenceOf(t)) && SentenceTree(SentenceOf(t)) == t
    decreases t, if t.Simple? || t.File? then 6 else if t.Piped? then 2 else 3
  {
    if t.Then? {
      AmpsPutBack(t.left);
      PipelineOfMeans(Before(t.left));
      SentenceOfMeans(t.right);
    } else {
      AmpsPutBack(t);
      PipelineOfMeans(Before(t));
    }
  }

  /** The text of a command. */
  function TextOf(t: Tree): string { Show(SentenceToks(SentenceOf(t))) }

  /** Printing without needless parentheses and parsing give every command back. */
  lemma PrintedParses(t: Tree)
    requires WellFormed(t)
    ensures forall i :: 0 <= i < |TextOf(t)| ==> TextOf(t)[i] != '\0'
    ensures ParseCmd(TextOf(t)).Some? && Meaning(TextOf(t), ParseCmd(TextOf(t)).value) == t
  {
    var x := SentenceOf(t);
    var ts := SentenceToks(x);
    SentenceOfMeans(t);
    SentenceTokens(x);
    ShowNoNul(ts);
    var b: Line := Show(ts);
    assert b[0..] == b;
    ReadBack(b, 0, ts);
    SentenceIsParsed(b, x);
  }
}
