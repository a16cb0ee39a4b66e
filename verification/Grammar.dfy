/** The parse loop on values: a stack machine over the tokens, and the proof that it
    recognises exactly Config ::= Stmt*, Stmt ::= NORMAL+ (`;` | `{` Config `}`). */
module Grammar {
  import opened Lexer
  import opened Quoting
  import opened TokenStream
  import opened ConfigTree

  /** One list of statements for each open block, outermost first, and the last token's
      type. The last statement of a list that is not the innermost waits for its block. */
  datatype Machine = Machine(levels: seq<seq<Stmt>>, last: TokenType) {
    predicate Inv() {
      && levels != []
      && last in {Start, Normal, StartBlock, EndBlock, StatementEnd}
      && (forall i :: 0 <= i < |levels| - 1 ==> HasOpen(levels[i]))
      && (last == Normal ==> HasOpen(levels[|levels| - 1]))
    }

    function Top(): seq<Stmt>
      requires levels != []
    {
      levels[|levels| - 1]
    }

    function WithTop(top: seq<Stmt>, last': TokenType): Machine
      requires levels != []
    {
      Machine(levels[|levels| - 1 := top], last')
    }
  }

  /** The last statement can still take words or a block. */
  predicate HasOpen(level: seq<Stmt>) {
    level != [] && level[|level| - 1].Simple?
  }

  function AddWord(level: seq<Stmt>, w: string): (r: seq<Stmt>)
    requires HasOpen(level)
    ensures HasOpen(r)
  {
    var n := |level| - 1;
    level[n := Simple(level[n].tokens + [w])]
  }

  /** Gives the open statement of `outer` the block `inner`. */
  function Plug(outer: seq<Stmt>, inner: seq<Stmt>): seq<Stmt>
    requires outer != []
  {
    var n := |outer| - 1;
    outer[n := Block(outer[n].tokens, inner)]
  }

  /** The whole tree: every open block plugged into the statement that waits for it. */
  function Collapse(levels: seq<seq<Stmt>>): seq<Stmt>
    requires levels != [] && forall i :: 0 <= i < |levels| - 1 ==> levels[i] != []
  {
    if |levels| == 1 then levels[0] else Plug(levels[0], Collapse(levels[1..]))
  }

  datatype Next = Go(m: Machine) | Stop(ok: bool)

  function Step(m: Machine, t: Token): (r: Next)
    requires m.Inv()
    ensures r.Go? ==> r.m.Inv()
  {
    var n := |m.levels| - 1;
    match t.kind
    case Normal =>
      Go(m.WithTop(if m.last == Normal then AddWord(m.Top(), t.value) else m.Top() + [Simple([t.value])], Normal))
    case StatementEnd =>
      if m.last != Normal then Stop(false) else Go(Machine(m.levels, StatementEnd))
    case StartBlock =>
      if m.last != Normal then Stop(false) else Go(Machine(m.levels + [[]], StartBlock))
    case EndBlock =>
      if m.last !in {StatementEnd, StartBlock, EndBlock} || n == 0 then Stop(false)
      else Go(Machine(m.levels[..n - 1] + [Plug(m.levels[n - 1], m.Top())], EndBlock))
    case Eof =>
      Stop(m.last in {StatementEnd, EndBlock, Start} && n == 0)
    case _ =>
      Stop(false)
  }

  /** Whether the tokens were accepted, and the tree left behind either way. */
  datatype Verdict = Verdict(ok: bool, tree: seq<Stmt>)

  function Run(m: Machine, toks: seq<Token>): Verdict
    requires m.Inv()
    decreases |toks|
  {
    if toks == [] then Verdict(false, Collapse(m.levels))
    else
      match Step(m, toks[0])
      case Go(m') => Run(m', toks[1..])
      case Stop(ok) => Verdict(ok, Collapse(m.levels))
  }

  function Initially(before: seq<Stmt>): Machine {
    Machine([before], Start)
  }

  // ---------------------------------------------------------------- completeness

  lemma RunStep(m: Machine, t: Token, q: seq<Token>, m': Machine)
    requires m.Inv() && Step(m, t) == Go(m')
    ensures Run(m, [t] + q) == Run(m', q)
  {
    assert ([t] + q)[1..] == q;
  }

  lemma {:induction false} RunMoreWords(m: Machine, tokens: seq<string>, q: seq<Token>, top: seq<Stmt>, s: Stmt)
    requires m.Inv() && m.last == Normal && m.Top() == top + [s] && s.Simple?
    ensures var m' := m.WithTop(top + [Simple(s.tokens + tokens)], Normal);
            m'.Inv() && Run(m, Words(tokens) + q) == Run(m', q)
    decreases |tokens|
  {
    hide Run;
    if tokens == [] {
      assert s.tokens + tokens == s.tokens && Words(tokens) + q == q;
      assert m.WithTop(top + [s], Normal) == m;
    } else {
      var s' := Simple(s.tokens + [tokens[0]]);
      var m' := m.WithTop(top + [s'], Normal);
      assert AddWord(top + [s], tokens[0]) == top + [s'];
      RunStep(m, Token(Normal, tokens[0]), Words(tokens[1..]) + q, m');
      RunMoreWords(m', tokens[1..], q, top, s');
      assert Words(tokens) + q == [Token(Normal, tokens[0])] + (Words(tokens[1..]) + q);
      assert s'.tokens + tokens[1..] == s.tokens + tokens;
      assert m'.levels[|m.levels| - 1 := top + [Simple(s.tokens + tokens)]] == m.levels[|m.levels| - 1 := top + [Simple(s.tokens + tokens)]];
    }
  }

  lemma RunWords(m: Machine, tokens: seq<string>, q: seq<Token>)
    requires m.Inv() && m.last != Normal && tokens != []
    ensures var m' := m.WithTop(m.Top() + [Simple(tokens)], Normal);
            m'.Inv() && Run(m, Words(tokens) + q) == Run(m', q)
  {
    hide Run;
    var s := Simple([tokens[0]]);
    var m' := m.WithTop(m.Top() + [s], Normal);
    RunStep(m, Token(Normal, tokens[0]), Words(tokens[1..]) + q, m');
    RunMoreWords(m', tokens[1..], q, m.Top(), s);
    assert Words(tokens) + q == [Token(Normal, tokens[0])] + (Words(tokens[1..]) + q);
    assert [tokens[0]] + tokens[1..] == tokens;
    assert m'.levels[|m.levels| - 1 := m.Top() + [Simple(tokens)]] == m.levels[|m.levels| - 1 := m.Top() + [Simple(tokens)]];
  }

  /** The type of the last token of a statement. */
  function EndType(s: Stmt): TokenType {
    if s.Simple? then StatementEnd else EndBlock
  }

  lemma {:induction false} RunStmt(m: Machine, s: Stmt, q: seq<Token>)
    requires m.Inv() && m.last != Normal && WellFormedStmt(s)
    ensures Run(m, FlattenStmt(s) + q) == Run(m.WithTop(m.Top() + [s], EndType(s)), q)
    decreases s
  {
    hide Run, Flatten, WellFormed, Words;
    var m1 := m.WithTop(m.Top() + [Simple(s.tokens)], Normal);
    match s
    case Simple(_) =>
      assert FlattenStmt(s) + q == Words(s.tokens) + ([SEMICOLON] + q);
      RunWords(m, s.tokens, [SEMICOLON] + q);
      RunStep(m1, SEMICOLON, q, Machine(m1.levels, StatementEnd));
    case Block(_, body) =>
      var rest := [OPEN] + (Flatten(body) + ([CLOSE] + q));
      assert FlattenStmt(s) + q == Words(s.tokens) + rest;
      RunWords(m, s.tokens, rest);
      RunBlock(m, s, q);
  }

  lemma {:induction false} RunBlock(m: Machine, s: Stmt, q: seq<Token>)
    requires m.Inv() && s.Block? && WellFormedStmt(s)
    ensures var m1 := m.WithTop(m.Top() + [Simple(s.tokens)], Normal);
            m1.Inv() && Run(m1, [OPEN] + (Flatten(s.body) + ([CLOSE] + q))) == Run(m.WithTop(m.Top() + [s], EndBlock), q)
    decreases s, 0
  {
    hide Run, Flatten, WellFormed;
    var body, q1 := s.body, [CLOSE] + q;
    var m1 := m.WithTop(m.Top() + [Simple(s.tokens)], Normal);
    var m2 := Machine(m1.levels + [[]], StartBlock);
    RunStep(m1, OPEN, Flatten(body) + q1, m2);
    RunConfig(m2, body, q1);
    var m3 := m2.WithTop(body, AfterAll(body, StartBlock));
    assert m2.Top() + body == body;
    var m4 := m.WithTop(m.Top() + [s], EndBlock);
    assert m3.levels == m1.levels + [body];
    assert Plug(m1.Top(), body) == m.Top() + [s];
    assert m3.levels[..|m.levels| - 1] + [Plug(m1.Top(), body)] == m4.levels;
    RunStep(m3, CLOSE, q, m4);
  }

  function AfterAll(stmts: seq<Stmt>, last: TokenType): TokenType {
    if stmts == [] then last else EndType(stmts[|stmts| - 1])
  }

  lemma {:induction false} RunConfig(m: Machine, stmts: seq<Stmt>, q: seq<Token>)
    requires m.Inv() && m.last != Normal && WellFormed(stmts)
    ensures Run(m, Flatten(stmts) + q) == Run(m.WithTop(m.Top() + stmts, AfterAll(stmts, m.last)), q)
    decreases stmts
  {
    hide Run;
    if stmts == [] {
      assert m.Top() + stmts == m.Top() && Flatten(stmts) + q == q;
      assert m.WithTop(m.Top(), m.last) == m;
    } else {
      var rest := stmts[1..];
      var m1 := m.WithTop(m.Top() + [stmts[0]], EndType(stmts[0]));
      assert Flatten(stmts) + q == FlattenStmt(stmts[0]) + (Flatten(rest) + q);
      RunStmt(m, stmts[0], Flatten(rest) + q);
      RunConfig(m1, rest, q);
      assert m.Top() + [stmts[0]] + rest == m.Top() + stmts;
      assert m1.WithTop(m.Top() + stmts, m.last).levels == m.WithTop(m.Top() + stmts, m.last).levels;
    }
  }

  /** Every derivation is accepted, and the statements are appended to what was there. */
  lemma Complete(before: seq<Stmt>, stmts: seq<Stmt>)
    requires WellFormed(stmts)
    ensures Run(Initially(before), Flatten(stmts) + [END_OF_FILE]) == Verdict(true, before + stmts)
  {
    RunConfig(Initially(before), stmts, [END_OF_FILE]);
    var m := Initially(before).WithTop(before + stmts, AfterAll(stmts, Start));
    assert m.levels == [before + stmts];
    assert Step(m, END_OF_FILE) == Stop(true);
  }

  // ---------------------------------------------------------------- soundness

  /** The tokens that built a list whose last statement is still open. */
  function OpenTokens(level: seq<Stmt>): seq<Token>
    requires level != []
  {
    Flatten(level[..|level| - 1]) + Words(level[|level| - 1].tokens)
  }

  /** The tokens that brought the machine from an empty start to here. */
  function Consumed(levels: seq<seq<Stmt>>, last: TokenType): seq<Token>
    requires Machine(levels, last).Inv()
  {
    if |levels| > 1 then
      assert Machine(levels[1..], last).Inv();
      OpenTokens(levels[0]) + [OPEN] + Consumed(levels[1..], last)
    else if last == Normal then OpenTokens(levels[0])
    else Flatten(levels[0])
  }

  predicate AllWellFormed(levels: seq<seq<Stmt>>) {
    forall i :: 0 <= i < |levels| ==> WellFormed(levels[i])
  }

  lemma {:induction false} FlattenAppend(a: seq<Stmt>, b: seq<Stmt>)
    ensures Flatten(a + b) == Flatten(a) + Flatten(b)
    decreases |a|
  {
    if a == [] {
      assert a + b == b;
    } else {
      FlattenAppend(a[1..], b);
      assert (a + b)[1..] == a[1..] + b;
    }
  }

  lemma FlattenLast(level: seq<Stmt>)
    requires level != []
    ensures var n := |level| - 1; Flatten(level) == Flatten(level[..n]) + FlattenStmt(level[n])
  {
    hide FlattenStmt;
    var n := |level| - 1;
    assert level == level[..n] + [level[n]];
    FlattenAppend(level[..n], [level[n]]);
    assert Flatten([level[n]]) == FlattenStmt(level[n]) + Flatten([]);
  }

  lemma ConsumedMore(top: seq<Stmt>, w: string)
    requires HasOpen(top)
    ensures OpenTokens(AddWord(top, w)) == OpenTokens(top) + [Token(Normal, w)]
  {
    hide Flatten;
    var n := |top| - 1;
    var more := AddWord(top, w);
    assert more[..n] == top[..n] && more[n].tokens == top[n].tokens + [w];
    WordsLast(top[n].tokens, w);
  }

  lemma ConsumedFirst(top: seq<Stmt>, w: string)
    ensures OpenTokens(top + [Simple([w])]) == Flatten(top) + [Token(Normal, w)]
  {
    hide Flatten;
    assert (top + [Simple([w])])[..|top|] == top;
    WordsLast([], w);
    assert [] + [w] == [w];
  }

  lemma WordsLast(tokens: seq<string>, w: string)
    ensures Words(tokens + [w]) == Words(tokens) + [Token(Normal, w)]
  {
  }

  lemma ConsumedSemicolon(top: seq<Stmt>)
    requires HasOpen(top)
    ensures Flatten(top) == OpenTokens(top) + [SEMICOLON]
  {
    hide Flatten;
    FlattenLast(top);
  }

  lemma ConsumedOpen(m: Machine)
    requires m.Inv() && |m.levels| == 1 && m.last == Normal
    ensures Machine(m.levels + [[]], StartBlock).Inv()
    ensures Consumed(m.levels + [[]], StartBlock) == OpenTokens(m.Top()) + [OPEN]
  {
    hide OpenTokens;
    var levels' := m.levels + [[]];
    assert levels'[1..] == [[]] && levels'[0] == m.Top();
    assert Consumed([[]], StartBlock) == [];
  }

  /** One step on the innermost list, as it shows in the tokens. */
  lemma ConsumedTop(m: Machine, t: Token)
    requires m.Inv() && |m.levels| == 1 && t.kind !in {EndBlock, Eof}
    requires t == Token(t.kind, if t.kind == Normal then t.value else if t.kind == StartBlock then "{" else ";")
    ensures var r := Step(m, t);
            r.Go? ==> Consumed(r.m.levels, r.m.last) == Consumed(m.levels, m.last) + [t]
  {
    hide Flatten, OpenTokens, Words;
    match t.kind
    case Normal =>
      if m.last == Normal {
        ConsumedMore(m.Top(), t.value);
      } else {
        ConsumedFirst(m.Top(), t.value);
      }
    case StatementEnd =>
      if m.last == Normal {
        ConsumedSemicolon(m.Top());
      }
    case StartBlock =>
      if m.last == Normal {
        ConsumedOpen(m);
      }
    case _ =>
  }

  lemma ConsumedClose(outer: seq<Stmt>, inner: seq<Stmt>)
    requires HasOpen(outer)
    ensures Flatten(Plug(outer, inner)) == OpenTokens(outer) + [OPEN] + Flatten(inner) + [CLOSE]
  {
    var n := |outer| - 1;
    FlattenLast(Plug(outer, inner));
    assert Plug(outer, inner)[..n] == outer[..n];
  }

  /** Every step that goes on adds exactly its token to the consumed ones. */
  lemma {:induction false} ConsumedStep(m: Machine, t: Token)
    requires m.Inv()
    requires t.kind != Normal ==> t in {SEMICOLON, OPEN, CLOSE, END_OF_FILE, BAD_TOKEN}
    ensures var r := Step(m, t);
            r.Go? ==> Consumed(r.m.levels, r.m.last) == Consumed(m.levels, m.last) + [t]
    decreases |m.levels|
  {
    var r := Step(m, t);
    var n := |m.levels| - 1;
    if r.Go? {
      if n == 0 {
        ConsumedTop(m, t);
      } else if n == 1 && t == CLOSE {
        ConsumedClose(m.levels[0], m.levels[1]);
        assert m.levels[..0] + [Plug(m.levels[0], m.levels[1])] == [Plug(m.levels[0], m.levels[1])];
      } else {
        var inner := Machine(m.levels[1..], m.last);
        StepInside(m, t);
        ConsumedStep(inner, t);
        ConsumedInside(m, r.m, inner, Step(inner, t).m, t);
      }
    }
  }

  lemma ConsumedInside(m: Machine, m': Machine, inner: Machine, inner': Machine, t: Token)
    requires m.Inv() && m'.Inv() && inner.Inv() && inner'.Inv()
    requires |m.levels| > 1 && inner == Machine(m.levels[1..], m.last)
    requires m' == Machine([m.levels[0]] + inner'.levels, inner'.last)
    requires Consumed(inner'.levels, inner'.last) == Consumed(inner.levels, inner.last) + [t]
    ensures Consumed(m'.levels, m'.last) == Consumed(m.levels, m.last) + [t]
  {
    assert m'.levels[1..] == inner'.levels;
  }

  /** A step does not touch the outermost list unless it is alone or gets its block. */
  lemma StepInside(m: Machine, t: Token)
    requires m.Inv() && |m.levels| > 1 && !(|m.levels| == 2 && t == CLOSE)
    requires t.kind != Normal ==> t in {SEMICOLON, OPEN, CLOSE, END_OF_FILE, BAD_TOKEN}
    requires Step(m, t).Go?
    ensures Machine(m.levels[1..], m.last).Inv()
    ensures var r := Step(Machine(m.levels[1..], m.last), t);
            r.Go? && Step(m, t).m == Machine([m.levels[0]] + r.m.levels, r.m.last)
  {
    var inner := m.levels[1..];
    assert m.levels == [m.levels[0]] + inner;
    assert inner[|inner| - 1] == m.Top();
  }

  lemma WellFormedStep(m: Machine, t: Token)
    requires m.Inv() && AllWellFormed(m.levels)
    ensures var r := Step(m, t); r.Go? ==> AllWellFormed(r.m.levels)
  {
    var n := |m.levels| - 1;
    assert WellFormed(m.Top());
    if n > 0 {
      assert WellFormed(m.levels[n - 1]);
    }
  }

  /** What is accepted is a derivation of the tree that is left. */
  lemma {:induction false} Sound(m: Machine, toks: seq<Token>)
    requires m.Inv() && AllWellFormed(m.levels)
    requires forall t :: t in toks && t.kind != Normal ==> t in {SEMICOLON, OPEN, CLOSE, END_OF_FILE, BAD_TOKEN}
    ensures var v := Run(m, toks);
            v.ok ==> WellFormed(v.tree) && Flatten(v.tree) + [END_OF_FILE] <= Consumed(m.levels, m.last) + toks
    decreases |toks|
  {
    hide Step, Consumed, Collapse, Flatten;
    if toks != [] {
      var t := toks[0];
      WellFormedStep(m, t);
      ConsumedStep(m, t);
      SoundStop(m, t);
      if Step(m, t).Go? {
        Sound(Step(m, t).m, toks[1..]);
        assert Consumed(m.levels, m.last) + [t] + toks[1..] == Consumed(m.levels, m.last) + toks;
      }
    }
  }

  lemma SoundStop(m: Machine, t: Token)
    requires m.Inv()
    ensures Step(m, t) == Stop(true) ==>
              && t.kind == Eof && Collapse(m.levels) == m.levels[0]
              && Flatten(m.levels[0]) == Consumed(m.levels, m.last)
  {
  }

  // ---------------------------------------------------------------- earlier statements

  /** The same machine started on a configuration that already holds `before`. */
  function Based(m: Machine, before: seq<Stmt>): Machine
    requires m.levels != []
  {
    Machine(m.levels[0 := before + m.levels[0]], m.last)
  }

  lemma {:induction false} CollapseBased(levels: seq<seq<Stmt>>, before: seq<Stmt>)
    requires levels != [] && forall i :: 0 <= i < |levels| - 1 ==> levels[i] != []
    ensures Collapse(levels[0 := before + levels[0]]) == before + Collapse(levels)
  {
    var levels' := levels[0 := before + levels[0]];
    if |levels| > 1 {
      assert levels'[1..] == levels[1..];
    }
  }

  lemma AddBased(before: seq<Stmt>, top: seq<Stmt>, w: string, inner: seq<Stmt>)
    ensures before + (top + [Simple([w])]) == before + top + [Simple([w])]
    ensures HasOpen(top) ==>
              && HasOpen(before + top) && AddWord(before + top, w) == before + AddWord(top, w)
              && top != [] && Plug(before + top, inner) == before + Plug(top, inner)
  {
  }

  lemma BasedInv(m: Machine, before: seq<Stmt>)
    requires m.Inv()
    ensures var b := Based(m, before);
            && b.Inv() && |b.levels| == |m.levels| && b.levels[0] == before + m.levels[0]
            && forall i :: 0 < i < |m.levels| ==> b.levels[i] == m.levels[i]
  {
  }

  lemma StepBased(m: Machine, before: seq<Stmt>, t: Token)
    requires m.Inv()
    ensures Based(m, before).Inv()
    ensures Step(Based(m, before), t) == match Step(m, t) case Go(m') => Go(Based(m', before)) case stop => stop
  {
    hide AddWord, Plug, HasOpen;
    var n, b := |m.levels| - 1, Based(m, before);
    BasedInv(m, before);
    AddBased(before, m.levels[0], t.value, m.Top());
    assert n > 0 ==> b.Top() == m.Top();
    if Step(m, t).Go? {
      var m', b' := Step(m, t).m, Step(b, t).m;
      if t.kind == EndBlock {
        assert n > 1 ==> b.levels[n - 1] == m.levels[n - 1];
        assert n == 1 ==> HasOpen(m.levels[0]);
        assert b'.levels == Based(m', before).levels;
      } else {
        assert b'.levels == Based(m', before).levels;
      }
    }
  }

  lemma {:induction false} RunBased(m: Machine, before: seq<Stmt>, toks: seq<Token>)
    requires m.Inv()
    ensures Based(m, before).Inv()
    ensures var v := Run(m, toks); Run(Based(m, before), toks) == Verdict(v.ok, before + v.tree)
    decreases |toks|
  {
    hide Step, Collapse;
    CollapseBased(m.levels, before);
    StepBased(m, before, if toks == [] then END_OF_FILE else toks[0]);
    if toks != [] && Step(m, toks[0]).Go? {
      RunBased(Step(m, toks[0]).m, before, toks[1..]);
    }
  }

  // ---------------------------------------------------------------- the parser on texts

  /** What parsing `s` into a configuration that holds `before` answers and leaves. */
  function ParseText(before: seq<Stmt>, s: string): Verdict {
    Run(Initially(before), Tokens(s))
  }

  /** The stack machine accepts exactly the texts whose token stream the grammar derives, and
      the tree it leaves then is the one derived tree, appended to what was there. */
  lemma ParseIsGrammar(before: seq<Stmt>, s: string)
    ensures ParseText(before, s).ok
            <==> exists stmts :: WellFormed(stmts) && Tokens(s) == Flatten(stmts) + [END_OF_FILE]
    ensures forall stmts :: WellFormed(stmts) && Tokens(s) == Flatten(stmts) + [END_OF_FILE]
              ==> ParseText(before, s) == Verdict(true, before + stmts)
  {
    forall stmts | WellFormed(stmts) && Tokens(s) == Flatten(stmts) + [END_OF_FILE]
      ensures ParseText(before, s) == Verdict(true, before + stmts)
    {
      Complete(before, stmts);
    }
    if ParseText(before, s).ok {
      var stmts := Derivation(before, s);
    }
  }

  lemma Derivation(before: seq<Stmt>, s: string) returns (stmts: seq<Stmt>)
    requires ParseText(before, s).ok
    ensures WellFormed(stmts) && Tokens(s) == Flatten(stmts) + [END_OF_FILE]
    ensures ParseText(before, s).tree == before + stmts
  {
    hide Run, Tokens, Flatten;
    var toks := Tokens(s);
    RunBased(Initially([]), before, toks);
    assert Based(Initially([]), before) == Initially(before) by { assert before + [] == before; }
    stmts := Run(Initially([]), toks).tree;
    OneEnd(s);
    Sound(Initially([]), toks);
    assert Consumed([[]], Start) == [] by { EmptyFlatten(); }
    assert [] + toks == toks;
    assert toks[|Flatten(stmts)|] == END_OF_FILE;
  }

  lemma EmptyFlatten()
    ensures Flatten([]) == []
  {
  }

  /** No text derives from two trees. */
  lemma ParseIsUnambiguous(a: seq<Stmt>, b: seq<Stmt>)
    requires WellFormed(a) && WellFormed(b) && Flatten(a) == Flatten(b)
    ensures a == b
  {
    Complete([], a);
    Complete([], b);
    assert [] + a == a && [] + b == b;
  }

  // ---------------------------------------------------------------- round trip

  /** Parsing what the printer wrote, at any depth, rebuilds exactly the tree it wrote. */
  lemma PrintParseRoundTrip(before: seq<Stmt>, stmts: seq<Stmt>, depth: int)
    requires WellFormed(stmts) && AllTokens(stmts, PrintSafe)
    ensures ParseText(before, Print(stmts, depth)) == Verdict(true, before + stmts)
  {
    LexPrint(stmts, depth, "");
    assert Print(stmts, depth) + "" == Print(stmts, depth);
    assert Tokens("") == [END_OF_FILE];
    Complete(before, stmts);
  }

  /** A text after a printed configuration goes unnoticed exactly when it holds no token: layout, or
      an unfinished word. */
  lemma DanglingWordUnnoticed(before: seq<Stmt>, stmts: seq<Stmt>, depth: int, w: string)
    requires WellFormed(stmts) && AllTokens(stmts, PrintSafe)
    ensures ParseText(before, Print(stmts, depth) + w) == Verdict(true, before + stmts) <==> Tokenless(w)
  {
    hide Tokens, Run, Flatten, Print;
    var s := Print(stmts, depth) + w;
    LexPrint(stmts, depth, w);
    DanglingWordDropped(w);
    if Tokens(w) == [END_OF_FILE] {
      Complete(before, stmts);
    }
    if ParseText(before, s) == Verdict(true, before + stmts) {
      var derived := Derivation(before, s);
      assert derived == (before + derived)[|before|..] == (before + stmts)[|before|..] == stmts;
      assert Tokens(w) == Tokens(s)[|Flatten(stmts)|..] == [END_OF_FILE];
    }
  }

  /** Blanks and comments inserted at a boundary change neither the verdict nor the tree. */
  lemma LayoutDoesNotMatter(before: seq<Stmt>, a: string, w: string, b: string)
    requires Boundary(a, b) && Layout(w)
    ensures ParseText(before, a + (w + b)) == ParseText(before, a + b)
  {
    LayoutIndependent(a, w, b);
  }

  /** What is accepted adds well-formed statements only. */
  lemma AcceptedIsWellFormed(before: seq<Stmt>, s: string)
    requires WellFormed(before) && ParseText(before, s).ok
    ensures WellFormed(ParseText(before, s).tree)
  {
    var stmts := Derivation(before, s);
  }

  lemma {:induction false} SafeEnd(t: string)
    requires SafeWord(t) || SafeBare(t) || SafeQuoted(t)
    ensures !EndsInBackslash(t)
    decreases |t|
  {
    if |t| > 1 {
      assert t[1..][|t| - 2] == t[|t| - 1];
      SafeEnd(t[1..]);
    } else if t != "" {
      assert t[1..] == "";
    }
  }

  /** Printing forgets double quotes. For all print-safe `a` and `b`, the quoted token of both
      with a blank between them is parsed as one token, but the printed tree as two. */
  lemma QuotesAreForgotten(a: string, b: string)
    requires PrintSafe(a) && PrintSafe(b)
    ensures var v := a + " " + b;
            && ParseText([], ['\"'] + EscapeQuote(v, '\"') + ['\"', ';'] + "") == Verdict(true, [Simple([v])])
            && ParseText([], Print([Simple([v])], 0)) == Verdict(true, [Simple([a, b])])
  {
    hide Run, Tokens, Scan, Print, EscapeQuote;
    var v := a + " " + b;
    if SafeBare(b) {
      SafeEnd(b);
    } else {
      SafeEnd(b[1..]);
    }
    QuoteRoundTrip(v, '\"', ';', "");
    assert "" + v + "" == v;
    OneStatement(['\"'] + EscapeQuote(v, '\"') + ['\"', ';'] + "", v);
    PrintsAlike(a, b);
    var two := [Simple([a, b])];
    assert AllTokensStmt(two[0], PrintSafe);
    PrintParseRoundTrip([], two, 0);
    assert [] + two == two;
  }

  lemma PrintsAlike(a: string, b: string)
    ensures Print([Simple([a + " " + b])], 0) == Print([Simple([a, b])], 0)
  {
    assert [a, b][..1] == [a];
    assert Join([a, b]) == Join([a]) + " " + b == Join([a + " " + b]);
    assert PrintStmt(Simple([a, b]), 0) == PrintStmt(Simple([a + " " + b]), 0);
    assert [Simple([a, b])][1..] == [] && [Simple([a + " " + b])][1..] == [];
  }

  lemma OneStatement(s: string, v: string)
    requires NextToken(s) == Lexeme(Normal, v, [';'] + "")
    ensures ParseText([], s) == Verdict(true, [Simple([v])])
  {
    var stmts := [Simple([v])];
    TakePunctuation(';', "");
    assert Tokens("") == [END_OF_FILE];
    assert Tokens(s) == [Token(Normal, v), SEMICOLON, END_OF_FILE];
    assert Words([v]) == [Token(Normal, v)];
    assert FlattenStmt(stmts[0]) == [Token(Normal, v), SEMICOLON];
    assert Flatten(stmts) == FlattenStmt(stmts[0]) + Flatten([]);
    assert Tokens(s) == Flatten(stmts) + [END_OF_FILE];
    Complete([], stmts);
    assert [] + stmts == stmts;
  }
}
