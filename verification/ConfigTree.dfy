/** The value of a parsed configuration: statements with their tokens and blocks, the
    tokens they stand for, and the text the printer writes for them. */
module ConfigTree {
  import opened Lexer
  import opened Quoting
  import opened TokenStream

  datatype Stmt =
    | Simple(tokens: seq<string>)
    | Block(tokens: seq<string>, body: seq<Stmt>)

  /** Every statement has a token: the trees the grammar
      Config ::= Stmt*, Stmt ::= NORMAL+ (`;` | `{` Config `}`) can produce. */
  predicate WellFormed(stmts: seq<Stmt>) {
    forall i :: 0 <= i < |stmts| ==> WellFormedStmt(stmts[i])
  }

  predicate WellFormedStmt(s: Stmt) {
    s.tokens != [] && (s.Block? ==> WellFormed(s.body))
  }

  /** The statement is a keyword with one argument. */
  predicate Sets(s: Stmt, kw: string) {
    |s.tokens| == 2 && s.tokens[0] == kw
  }

  function Words(tokens: seq<string>): (r: seq<Token>)
    ensures |r| == |tokens|
  {
    seq(|tokens|, i requires 0 <= i < |tokens| => Token(Normal, tokens[i]))
  }

  /** The token stream a tree stands for. */
  function Flatten(stmts: seq<Stmt>): seq<Token> {
    if stmts == [] then [] else FlattenStmt(stmts[0]) + Flatten(stmts[1..])
  }

  function FlattenStmt(s: Stmt): seq<Token>
    decreases s, 1
  {
    Words(s.tokens) + EndTokens(s)
  }

  /** The tokens of a statement after its words. */
  function EndTokens(s: Stmt): seq<Token>
    decreases s, 0
  {
    match s
    case Simple(_) => [SEMICOLON]
    case Block(_, body) => [OPEN] + Flatten(body) + [CLOSE]
  }

  // ---------------------------------------------------------------- printing

  function Indent(depth: int): string
    decreases if depth <= 0 then 0 else depth
  {
    if depth <= 0 then "" else Indent(depth - 1) + "  "
  }

  function Join(tokens: seq<string>): string {
    if tokens == [] then ""
    else if |tokens| == 1 then tokens[0]
    else Join(tokens[..|tokens| - 1]) + " " + tokens[|tokens| - 1]
  }

  function Print(stmts: seq<Stmt>, depth: int): string
    decreases stmts
  {
    if stmts == [] then "" else PrintStmt(stmts[0], depth) + Print(stmts[1..], depth)
  }

  function PrintStmt(s: Stmt, depth: int): string
    decreases s
  {
    Indent(depth) + Join(s.tokens) + PrintEnd(s, depth)
  }

  function PrintEnd(s: Stmt, depth: int): string
    decreases s, 0
  {
    match s
    case Simple(_) => ";\n"
    case Block(_, body) => " {\n" + Print(body, depth + 1) + Indent(depth) + "}\n"
  }

  /** Every token in the tree has the property `p`. */
  ghost predicate AllTokens(stmts: seq<Stmt>, p: string -> bool) {
    forall i :: 0 <= i < |stmts| ==> AllTokensStmt(stmts[i], p)
  }

  ghost predicate AllTokensStmt(s: Stmt, p: string -> bool) {
    (forall t :: t in s.tokens ==> p(t)) && (s.Block? ==> AllTokens(s.body, p))
  }

  lemma {:induction false} JoinCons(tokens: seq<string>)
    requires |tokens| > 1
    ensures Join(tokens) == tokens[0] + " " + Join(tokens[1..])
    decreases |tokens|
  {
    var n := |tokens| - 1;
    if n > 1 {
      JoinCons(tokens[..n]);
      assert tokens[..n][1..] == tokens[1..][..n - 1];
    } else {
      assert tokens[..n] == [tokens[0]];
    }
  }

  lemma PrintedLine(a: string, b: string, depth: int)
    ensures Print([Simple([a, b])], depth) == Indent(depth) + a + " " + b + ";\n"
  {
    hide Indent;
    var s := Simple([a, b]);
    JoinCons([a, b]);
    assert [a, b][1..] == [b] && Join([b]) == b;
    assert [s][1..] == [] && Print([s], depth) == PrintStmt(s, depth) + "";
    assert PrintStmt(s, depth) == Indent(depth) + Join([a, b]) + ";\n";
  }

  /** How a block is laid out: a line for its tokens, the lines of its body one level deeper, and a
      line for its end. */
  lemma PrintedBlock(a: string, b: string, body: seq<Stmt>, depth: int)
    ensures Print([Block([a, b], body)], depth) ==
            Indent(depth) + a + " " + b + " {\n" + Print(body, depth + 1) + Indent(depth) + "}\n"
  {
    hide Indent;
    var s := Block([a, b], body);
    var end := " {\n" + Print(body, depth + 1) + Indent(depth) + "}\n";
    JoinCons([a, b]);
    assert [a, b][1..] == [b] && Join([b]) == b;
    assert [s][1..] == [] && Print([s], depth) == PrintStmt(s, depth) + "";
    assert PrintStmt(s, depth) == Indent(depth) + (a + " " + b) + end;
  }

  /** A location as it is written in a file. */
  lemma PrintedLocation()
    ensures Print([Block(["location", "/static/"], [Simple(["root", "/bar"])])], 0) ==
            "location /static/ {\n" + "  root /bar;\n" + "}\n"
  {
    hide Print;
    PrintedLine("root", "/bar", 1);
    PrintedBlock("location", "/static/", [Simple(["root", "/bar"])], 0);
    assert Indent(0) == "";
    assert Indent(1) == "  ";
  }

  // ---------------------------------------------------------------- print, then lex

  /** Two blanks for each level. */
  lemma IndentIsBlank(depth: int)
    ensures |Indent(depth)| == if depth <= 0 then 0 else 2 * depth
    ensures forall i :: 0 <= i < |Indent(depth)| ==> Indent(depth)[i] == ' '
    decreases if depth <= 0 then 0 else depth
  {
    if depth > 0 {
      IndentIsBlank(depth - 1);
    }
  }

  lemma BlockText(s: Stmt, depth: int, q: string)
    requires s.Block?
    ensures PrintEnd(s, depth) + q ==
            [' '] + (['{'] + (['\n'] + (Print(s.body, depth + 1) + (Indent(depth) + (['}'] + (['\n'] + q))))))
  {
  }

  lemma {:induction false} LexWords(tokens: seq<string>, q: string)
    requires tokens != [] && forall t :: t in tokens ==> PrintSafe(t)
    requires q != "" && Separator(q[0])
    ensures Tokens(Join(tokens) + q) == Words(tokens) + Tokens(q)
  {
    hide Tokens, Scan;
    var n := |tokens| - 1;
    var last := tokens[n];
    assert Tokens(last + q) == [Token(Normal, last)] + Tokens(q) by {
      TakeSafeToken(last, q[0], q[1..]);
      assert q == [q[0]] + q[1..] && last + [q[0]] + q[1..] == last + q;
    }
    if n > 0 {
      var q' := " " + (last + q);
      LexWords(tokens[..n], q');
      SkipSpace(' ', last + q);
      assert Join(tokens) + q == Join(tokens[..n]) + q';
      assert Words(tokens) == Words(tokens[..n]) + [Token(Normal, last)];
    } else {
      assert Words(tokens) == [Token(Normal, last)];
    }
  }

  lemma {:induction false} LexStmt(s: Stmt, depth: int, q: string)
    requires WellFormedStmt(s) && AllTokensStmt(s, PrintSafe)
    ensures Tokens(PrintStmt(s, depth) + q) == FlattenStmt(s) + Tokens(q)
    decreases s
  {
    hide Tokens, Scan;
    var end := PrintEnd(s, depth) + q;
    IndentIsBlank(depth);
    SkipSpaces(Indent(depth), Join(s.tokens) + end);
    assert PrintStmt(s, depth) + q == Indent(depth) + (Join(s.tokens) + end);
    assert end[0] == PrintEnd(s, depth)[0];
    LexWords(s.tokens, end);
    LexEnd(s, depth, q);
  }

  lemma {:induction false} LexEnd(s: Stmt, depth: int, q: string)
    requires WellFormedStmt(s) && AllTokensStmt(s, PrintSafe)
    ensures Tokens(PrintEnd(s, depth) + q) == EndTokens(s) + Tokens(q)
    decreases s, 0
  {
    hide Tokens, Scan;
    SkipSpace('\n', q);
    match s
    case Simple(_) =>
      assert PrintEnd(s, depth) + q == [';'] + (['\n'] + q);
      TakePunctuation(';', ['\n'] + q);
    case Block(_, body) =>
      var close := Indent(depth) + (['}'] + (['\n'] + q));
      var inner := Print(body, depth + 1) + close;
      BlockText(s, depth, q);
      SkipSpace(' ', ['{'] + (['\n'] + inner));
      TakePunctuation('{', ['\n'] + inner);
      SkipSpace('\n', inner);
      LexPrint(body, depth + 1, close);
      IndentIsBlank(depth);
      SkipSpaces(Indent(depth), ['}'] + (['\n'] + q));
      TakePunctuation('}', ['\n'] + q);
  }

  /** Lexing a printed tree gives back exactly the tokens the tree stands for. */
  lemma {:induction false} LexPrint(stmts: seq<Stmt>, depth: int, q: string)
    requires WellFormed(stmts) && AllTokens(stmts, PrintSafe)
    ensures Tokens(Print(stmts, depth) + q) == Flatten(stmts) + Tokens(q)
    decreases stmts
  {
    hide Tokens, Scan;
    if stmts == [] {
      assert Print(stmts, depth) + q == q;
    } else {
      var rest := Print(stmts[1..], depth) + q;
      assert Print(stmts, depth) + q == PrintStmt(stmts[0], depth) + rest;
      LexStmt(stmts[0], depth, rest);
      LexPrint(stmts[1..], depth, q);
    }
  }
}
