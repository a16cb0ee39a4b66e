/** The parse loop on the real objects: a stack of the configurations whose blocks are open,
    a stack of brackets, and the type of the last token. */
module ConfigParser {
  import opened Lexer
  import opened TokenStream
  import opened ConfigTree
  import opened Grammar
  import opened ConfigHeap

  /** The stacked configurations but the innermost, nearest first, each with the statement that
      waits for its block and with the list it holds. */
  datatype Lower = Nil | Cons(c: NginxConfig, o: NginxConfigStatement, level: seq<Stmt>, rest: Lower) {
    function Configs(): seq<NginxConfig> {
      if Nil? then [] else rest.Configs() + [c]
    }

    function Levels(): seq<seq<Stmt>> {
      if Nil? then [] else rest.Levels() + [level]
    }
  }

  /** The objects of a parse under way: the lower part of the stack and what it is made of, the
      innermost configuration, the statement whose words are being read, if any, the objects of
      all closed statements, and those the parse has made. */
  datatype Path = Path(lower: Lower, below: set<object>, top: NginxConfig, word: NginxConfigStatement?,
                       closed: set<object>, made: set<object>) {
    function Stack(): seq<NginxConfig> {
      lower.Configs() + [top]
    }

    /** Everything the tree under construction is made of. */
    ghost function Parts(): set<object> {
      closed + below + {top} + if word == null then {} else {word}
    }
  }

  /** `c` holds `level`: closed statements made of `closed`, and the open last one `o`, not in
      `closed`, whose block so far is `child`. */
  ghost predicate HoldsOpen(c: NginxConfig, o: NginxConfigStatement, level: seq<Stmt>, child: NginxConfig?,
                            closed: set<object>)
    reads c, o, closed
  {
    var n := |level| - 1;
    && HasOpen(level) && |c.statements| == |level| && c.statements[n] == o
    && StmtsAre(c.statements[..n], level[..n], closed)
    && o !in closed && o.tokens == level[n].tokens && o.child == child
  }

  ghost predicate Holds(c: NginxConfig, o: NginxConfigStatement?, level: seq<Stmt>, closed: set<object>)
    reads c, o, closed
  {
    if o == null then StmtsAre(c.statements, level, closed) else HoldsOpen(c, o, level, null, closed)
  }

  /** Each lower configuration holds its list and waits for the block above it, the nearest for
      `child`. No object of the path, all of them in `below`, occurs in it twice. */
  ghost predicate WaitsFor(l: Lower, child: NginxConfig, closed: set<object>, below: set<object>)
    reads below, closed
    decreases l
  {
    l.Cons? ==>
      && l.c in below && l.o in below
      && HoldsOpen(l.c, l.o, l.level, child, closed)
      && WaitsFor(l.rest, l.c, closed, below - {l.c, l.o})
  }

  /** The spine of a parse: the stacked configurations are the open path of the tree, each of
      them the block of the last statement of the one below, and hold what the machine's lists
      say. Only the outermost, and what it held before, is not of the parse's own making. */
  ghost predicate Spine(p: Path, m: Machine, config: NginxConfig, before: set<object>)
    reads p.below, p.top, p.word, p.closed
  {
    && m.Inv() && (m.last == Normal <==> p.word != null)
    && m.levels == p.lower.Levels() + [m.Top()]
    && WaitsFor(p.lower, p.top, p.closed, p.below)
    && Holds(p.top, p.word, m.Top(), p.closed)
    && p.below !! p.closed && p.top !in p.below + p.closed && p.word !in p.below + p.closed
    && Owned(p, config, before)
  }

  ghost predicate Owned(p: Path, config: NginxConfig, before: set<object>) {
    && Root(p.lower, p.top) == config
    && p.closed <= before + p.made && p.below <= {config} + p.made && p.top in {config} + p.made
    && (p.word != null ==> p.word in p.made)
  }

  lemma SpineStart(config: NginxConfig)
    requires config.Valid()
    ensures var before := config.Repr - {config};
            Spine(Path(Nil, {}, config, null, before, {}), Initially(config.Tree), config, before)
  {
  }

  lemma SpineShape(p: Path, m: Machine, config: NginxConfig, before: set<object>)
    requires Spine(p, m, config, before)
    ensures m.Inv() && |p.Stack()| == |m.levels| && Owned(p, config, before)
  {
    SameHeight(p.lower);
  }

  /** `c` has a last statement, and `block` is its block. */
  ghost predicate WaitsForBlock(c: NginxConfig, block: NginxConfig?)
    reads c, c.statements
  {
    c.statements != [] && c.statements[|c.statements| - 1].child == block
  }

  lemma {:induction false} LowerPath(l: Lower, top: NginxConfig, closed: set<object>, below: set<object>, i: nat)
    requires WaitsFor(l, top, closed, below) && i < |l.Configs()|
    ensures var stack := l.Configs() + [top]; WaitsForBlock(stack[i], stack[i + 1])
    decreases l
  {
    if i < |l.rest.Configs()| {
      LowerPath(l.rest, l.c, closed, below - {l.c, l.o}, i);
      assert forall j :: 0 <= j <= i + 1 ==> (l.Configs() + [top])[j] == (l.rest.Configs() + [l.c])[j];
    }
  }

  /** What the spine says of the stack alone: its bottom is the caller's configuration, each
      entry above is the block of the last statement of the one below, and after a word the
      top's last statement exists and has no block. */
  lemma SpineIsOpenPath(p: Path, m: Machine, config: NginxConfig, before: set<object>)
    requires Spine(p, m, config, before)
    ensures var stack := p.Stack();
            && |stack| == |m.levels| && stack[0] == config
            && (forall i :: 0 <= i < |stack| - 1 ==> WaitsForBlock(stack[i], stack[i + 1]))
            && (m.last == Normal ==> WaitsForBlock(stack[|stack| - 1], null))
  {
    SameHeight(p.lower);
    RootIsFirst(p.lower, p.top);
    forall i | 0 <= i < |p.lower.Configs()|
      ensures WaitsForBlock(p.Stack()[i], p.Stack()[i + 1])
    {
      LowerPath(p.lower, p.top, p.closed, p.below, i);
    }
  }

  lemma SameHeight(l: Lower)
    ensures |l.Configs()| == |l.Levels()|
  {
  }

  function Root(l: Lower, top: NginxConfig): NginxConfig {
    if l.Nil? then top else Root(l.rest, l.c)
  }

  lemma {:induction false} RootIsFirst(l: Lower, top: NginxConfig)
    ensures (l.Configs() + [top])[0] == Root(l, top)
  {
    if l.Cons? {
      RootIsFirst(l.rest, l.c);
    }
  }

  lemma {:induction false} RootBelow(l: Lower, top: NginxConfig, closed: set<object>, below: set<object>)
    requires WaitsFor(l, top, closed, below) && l.Cons?
    ensures Root(l, top) in below
    decreases l
  {
    if l.rest.Cons? {
      RootBelow(l.rest, l.c, closed, below - {l.c, l.o});
    }
  }

  ghost predicate NoneEmpty(levels: seq<seq<Stmt>>) {
    forall i :: 0 <= i < |levels| ==> levels[i] != []
  }

  /** Everything the spine is made of is the collapsed tree. */
  lemma {:induction false} SpineIsTree(l: Lower, top: NginxConfig, inner: seq<Stmt>, closed: set<object>,
                                       below: set<object>, repr: set<object>)
    requires WaitsFor(l, top, closed, below) && closed <= repr && below - {Root(l, top)} <= repr
    requires top in repr || l.Nil?
    requires StmtsAre(top.statements, inner, repr) && NoneEmpty(l.Levels())
    ensures StmtsAre(Root(l, top).statements, Collapse(l.Levels() + [inner]), repr)
    decreases l
  {
    if l.Cons? {
      var root: object := Root(l.rest, l.c);
      if l.rest.Cons? {
        RootBelow(l.rest, l.c, closed, below - {l.c, l.o});
      }
      assert root is NginxConfig && l.o in repr;
      assert NoneEmpty(l.rest.Levels()) by {
        assert forall i :: 0 <= i < |l.rest.Levels()| ==> l.rest.Levels()[i] == l.Levels()[i];
      }
      Plugged(l.c, l.o, l.level, top, inner, closed, repr);
      CollapseInner(l.rest.Levels(), l.level, inner);
      SpineIsTree(l.rest, l.c, Plug(l.level, inner), closed, below - {l.c, l.o}, repr);
    }
  }

  lemma {:induction false} CollapseInner(levels: seq<seq<Stmt>>, level: seq<Stmt>, inner: seq<Stmt>)
    requires level != [] && NoneEmpty(levels)
    ensures Collapse(levels + [level] + [inner]) == Collapse(levels + [Plug(level, inner)])
    decreases |levels|
  {
    if levels == [] {
      assert ([level] + [inner])[1..] == [inner];
      assert levels + [level] + [inner] == [level] + [inner];
    } else {
      CollapseInner(levels[1..], level, inner);
      assert (levels + [level] + [inner])[1..] == levels[1..] + [level] + [inner];
      assert (levels + [Plug(level, inner)])[1..] == levels[1..] + [Plug(level, inner)];
    }
  }

  /** A configuration whose open statement's block is done holds the plugged list. */
  lemma Plugged(c: NginxConfig, o: NginxConfigStatement, level: seq<Stmt>, block: NginxConfig, inner: seq<Stmt>,
                closed: set<object>, closed': set<object>)
    requires HoldsOpen(c, o, level, block, closed) && closed <= closed'
    requires o in closed' && block in closed' && StmtsAre(block.statements, inner, closed')
    ensures StmtsAre(c.statements, Plug(level, inner), closed')
  {
    var k := |level| - 1;
    Widen(c.statements[..k], level[..k], closed, closed');
    assert StmtIs(c.statements[k], Plug(level, inner)[k], closed');
  }

  lemma HoldsIsTree(c: NginxConfig, o: NginxConfigStatement?, level: seq<Stmt>, closed: set<object>, closed': set<object>)
    requires Holds(c, o, level, closed) && closed <= closed' && (o != null ==> o in closed')
    ensures StmtsAre(c.statements, level, closed')
  {
    if o == null {
      Widen(c.statements, level, closed, closed');
    } else {
      var k := |level| - 1;
      Widen(c.statements[..k], level[..k], closed, closed');
      assert StmtIs(c.statements[k], level[k], closed');
    }
  }

  /** A word: a new statement if none is open, then the word at its end. */
  method AddToken(configStack: seq<NginxConfig>, last: TokenType, token: string, ghost p: Path, ghost m: Machine,
                  ghost config: NginxConfig, ghost before: set<object>)
    returns (ghost p': Path)
    requires Spine(p, m, config, before) && p.Stack() == configStack && m.last == last
    modifies {config} + p.made
    ensures Step(m, Token(Normal, token)).Go? && Spine(p', Step(m, Token(Normal, token)).m, config, before)
    ensures p'.Stack() == configStack
    ensures p.made <= p'.made && fresh(p'.made - p.made)
  {
    hide StmtIs, StmtsAre, WaitsFor;
    ghost var m' := Step(m, Token(Normal, token)).m;
    var top := configStack[|configStack| - 1];
    p' := p;
    if last != Normal {
      SameLength(top.statements, m.Top(), p.closed);
      var statement := new NginxConfigStatement();
      top.statements := top.statements + [statement];
      p' := p.(word := statement, made := p.made + {statement});
    }
    var back := top.statements[|top.statements| - 1];
    back.tokens := back.tokens + [token];
    assert m'.Top()[..|m'.Top()| - 1] == if last == Normal then m.Top()[..|m.Top()| - 1] else m.Top();
    assert m'.levels == p.lower.Levels() + [m'.Top()];
  }

  lemma SameLength(ss: seq<NginxConfigStatement>, vs: seq<Stmt>, repr: set<object>)
    requires StmtsAre(ss, vs, repr)
    ensures |ss| == |vs|
  {
  }

  /** An opening brace: the open statement gets an empty block. */
  method OpenBlock(configStack: seq<NginxConfig>, ghost p: Path, ghost m: Machine, ghost config: NginxConfig,
                   ghost before: set<object>)
    returns (block: NginxConfig, ghost p': Path)
    requires Spine(p, m, config, before) && p.Stack() == configStack && m.last == Normal
    modifies {config} + p.made
    ensures Step(m, OPEN).Go? && Spine(p', Step(m, OPEN).m, config, before)
    ensures p'.Stack() == configStack + [block]
    ensures p.made <= p'.made && fresh(p'.made - p.made)
  {
    hide StmtIs, StmtsAre;
    var top := configStack[|configStack| - 1];
    block := new NginxConfig();
    var back := top.statements[|top.statements| - 1];
    back.child := block;
    p' := Path(Cons(top, back, m.Top(), p.lower), p.below + {top, back}, block, null, p.closed, p.made + {block});
    EmptyIs(p.closed);
    assert p'.below - {top, back} == p.below;
  }

  lemma EmptyIs(repr: set<object>)
    ensures StmtsAre([], [], repr)
  {
  }

  /** More closed objects, none of them on the path, change nothing. */
  lemma {:induction false} WidenWaits(l: Lower, child: NginxConfig, closed: set<object>, closed': set<object>,
                                      below: set<object>)
    requires WaitsFor(l, child, closed, below) && closed <= closed' && below !! closed'
    ensures WaitsFor(l, child, closed', below)
    decreases l
  {
    if l.Cons? {
      Widen(l.c.statements[..|l.level| - 1], l.level[..|l.level| - 1], closed, closed');
      WidenWaits(l.rest, l.c, closed, closed', below - {l.c, l.o});
    }
  }

  /** A semicolon: the open statement is done. */
  lemma CloseSimple(p: Path, m: Machine, config: NginxConfig, before: set<object>) returns (p': Path)
    requires Spine(p, m, config, before) && m.last == Normal
    ensures Step(m, SEMICOLON).Go? && Spine(p', Step(m, SEMICOLON).m, config, before)
    ensures p'.Stack() == p.Stack() && p'.made == p.made
  {
    p' := p.(word := null, closed := p.closed + {p.word});
    hide StmtIs, StmtsAre;
    HoldsIsTree(p.top, p.word, m.Top(), p.closed, p'.closed);
    WidenWaits(p.lower, p.top, p.closed, p'.closed, p.below);
  }

  /** A closing brace: the innermost configuration and the statement it belongs to are done. */
  lemma CloseBlock(p: Path, m: Machine, config: NginxConfig, before: set<object>) returns (p': Path)
    requires Spine(p, m, config, before) && p.lower.Cons?
    requires m.last in {StatementEnd, StartBlock, EndBlock}
    ensures Step(m, CLOSE).Go? && Spine(p', Step(m, CLOSE).m, config, before)
    ensures p'.Stack() == p.lower.Configs() && p'.made == p.made
  {
    hide StmtIs, StmtsAre;
    var l := p.lower;
    RootBelow(l, p.top, p.closed, p.below);
    assert (config as object) != l.o;
    p' := Path(l.rest, p.below - {l.c, l.o}, l.c, null, p.closed + {p.top, l.o}, p.made);
    HoldsIsTree(p.top, null, m.Top(), p.closed, p'.closed);
    Plugged(l.c, l.o, l.level, p.top, m.Top(), p.closed, p'.closed);
    WidenWaits(l.rest, l.c, p.closed, p'.closed, p'.below);
    assert Step(m, CLOSE).m.levels == l.rest.Levels() + [Plug(l.level, m.Top())];
  }

  /** The next token of the text is the machine's next step, and which steps go on. */
  lemma Advance(m: Machine, s: string, r: Lexeme)
    requires m.Inv() && r == NextToken(s)
    ensures r.kind !in {Eof, Error} ==> |r.rest| < |s|
    ensures r.kind == Comment ==> Tokens(s) == Tokens(r.rest)
    ensures r.kind != Comment ==>
              Run(m, Tokens(s)) == match Step(m, Token(r.kind, r.value))
                                   case Go(m') => Run(m', Tokens(r.rest))
                                   case Stop(ok) => Verdict(ok, Collapse(m.levels))
    ensures match r.kind
            case Normal => true
            case StatementEnd => Token(r.kind, r.value) == SEMICOLON
            case StartBlock => Token(r.kind, r.value) == OPEN
            case EndBlock => Token(r.kind, r.value) == CLOSE
            case _ => r.kind in {Comment, Eof, Error}
  {
  }

  lemma Steps(m: Machine, t: Token)
    requires m.Inv()
    ensures var r := Step(m, t);
            match t.kind
            case Normal => r.Go? && r.m.last == Normal
            case StatementEnd => if m.last == Normal then r.Go? && r.m.last == t.kind else r == Stop(false)
            case StartBlock => if m.last == Normal then r.Go? && r.m.last == t.kind else r == Stop(false)
            case EndBlock =>
              if m.last in {StatementEnd, StartBlock, EndBlock} && |m.levels| > 1 then r.Go? && r.m.last == t.kind
              else r == Stop(false)
            case Eof => r == Stop(m.last in {StatementEnd, EndBlock, Start} && |m.levels| == 1)
            case _ => r == Stop(false)
  {
  }

  /** The objects a parse leaves are the machine's tree. */
  lemma SpineIsMachineTree(p: Path, m: Machine, config: NginxConfig, before: set<object>)
    requires Spine(p, m, config, before)
    ensures StmtsAre(config.statements, Collapse(m.levels), p.Parts() - {config})
    ensures config in p.Parts() && p.Parts() <= {config} + before + p.made
  {
    var repr := p.Parts() - {config};
    if p.lower.Cons? {
      RootBelow(p.lower, p.top, p.closed, p.below);
    }
    assert p.word == null || (config as object) != p.word;
    HoldsIsTree(p.top, p.word, m.Top(), p.closed, repr);
    SameHeight(p.lower);
    assert forall i :: 0 <= i < |p.lower.Levels()| ==> p.lower.Levels()[i] == m.levels[i];
    SpineIsTree(p.lower, p.top, m.Top(), p.closed, p.below, repr);
  }

  /** Brings the ghost view of the configuration up to date when the parse is over. */
  ghost method Settle(p: Path, m: Machine, config: NginxConfig, before: set<object>)
    requires Spine(p, m, config, before)
    modifies config`Tree, config`Repr
    ensures config.Valid() && config.Tree == Collapse(m.levels) && config.Repr <= {config} + before + p.made
  {
    SpineIsMachineTree(p, m, config, before);
    hide StmtIs, StmtsAre, WaitsFor, HoldsOpen;
    config.Tree := Collapse(m.levels);
    config.Repr := p.Parts();
  }

  /** Reads tokens until the end of the text or the first that does not fit. Statements are
      added to `config` as they are met, and stay there when the answer is no. */
  method Parse(input: CharStream, config: NginxConfig) returns (ok: bool, ghost calls: nat)
    requires input.Valid() && config.Valid() && input !in config.Repr
    modifies input, config
    ensures input.Valid() && config.Valid() && fresh(config.Repr - old(config.Repr))
    ensures Verdict(ok, config.Tree) == ParseText(old(config.Tree), old(input.Rest()))
    ensures calls <= |old(input.Rest())| + 1
  {
    hide Scan, Tokens, Step, Run, Collapse, Spine, StmtIs, StmtsAre;
    var configStack := [config];
    var last := Start;
    var bracketStack: seq<TokenType> := [];
    ghost var s, before: set<object> := input.Rest(), config.Repr - {config};
    ghost var p, m := Path(Nil, {}, config, null, before, {}), Initially(config.Tree);
    ghost var rest, goal := s, Run(m, Tokens(s));
    SpineStart(config);
    ok, calls := false, 0;
    while true
      invariant input.Valid() && rest == input.Rest() && calls + |rest| <= |s|
      // The spine: see the predicate. It makes every use of a stack's top below safe.
      invariant |configStack| == |bracketStack| + 1
      invariant p.Stack() == configStack && m.last == last
      invariant Spine(p, m, config, before) && fresh(p.made)
      invariant !ok && m.Inv() && Run(m, Tokens(rest)) == goal
      decreases |rest|
    {
      SpineShape(p, m, config, before);
      var kind, token := ParseToken(input, "");
      calls := calls + 1;
      Advance(m, rest, Lexeme(kind, token, input.Rest()));
      Steps(m, Token(kind, token));
      rest := input.Rest();
      if kind == Error {
        break;
      }
      if kind == Comment {
        // Skip comments.
        continue;
      }
      if kind == Start {
        break;
      } else if kind == Normal {
        if last in {Start, StatementEnd, StartBlock, EndBlock, Normal} {
          p := AddToken(configStack, last, token, p, m, config, before);
        } else {
          break;
        }
      } else if kind == StatementEnd {
        if last != Normal {
          break;
        }
        p := CloseSimple(p, m, config, before);
      } else if kind == StartBlock {
        if last != Normal {
          break;
        }
        var block;
        block, p := OpenBlock(configStack, p, m, config, before);
        configStack := configStack + [block];
        bracketStack := bracketStack + [kind];
      } else if kind == EndBlock {
        if last != StatementEnd && last != StartBlock && last != EndBlock {
          break;
        }
        configStack := configStack[..|configStack| - 1];
        if bracketStack == [] {
          break;
        }
        bracketStack := bracketStack[..|bracketStack| - 1];
        p := CloseBlock(p, m, config, before);
      } else {
        ok := last in {StatementEnd, EndBlock, Start} && bracketStack == [];
        break;
      }
      m := Step(m, Token(kind, token)).m;
      last := kind;
    }
    SpineShape(p, m, config, before);
    Settle(p, m, config, before);
  }
}
