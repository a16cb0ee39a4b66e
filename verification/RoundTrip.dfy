/** When the print of a tree gives the tree back: exactly when all its tokens are print-safe. That
    they suffice is in `Grammar`; that they are needed follows from counting the characters that
    the lexer can lose and the printer never adds. */
module RoundTrip {
  import opened Lexer
  import opened Quoting
  import opened TokenStream
  import opened ConfigTree
  import opened Grammar

  /** The characters that mean something to the lexer and that the printer never adds. */
  predicate Mark(x: char) {
    x == '\\' || x == '\"' || x == '#'
  }

  /** How often `x` is in the values of the tokens. */
  function CountAll(toks: seq<Token>, x: char): nat {
    if toks == [] then 0 else Count(toks[0].value, x) + CountAll(toks[1..], x)
  }

  lemma {:induction false} CountAllBoth(a: seq<Token>, b: seq<Token>, x: char)
    ensures CountAll(a + b, x) == CountAll(a, x) + CountAll(b, x)
  {
    if a == [] {
      assert a + b == b;
    } else {
      CountAllBoth(a[1..], b, x);
      assert (a + b)[1..] == a[1..] + b;
    }
  }

  // ---------------------------------------------------------------- what the lexer loses

  /** What is left of the text is no more than there was; a comment takes its `#` with it. */
  lemma {:induction false} NothingLeftOver(s: string, st: LexState, v: string, x: char)
    ensures var r := Scan(s, st, v);
            Count(r.rest, x) + (if st == Initial && r.kind == Comment && x == '#' then 1 else 0) <= Count(s, x)
    decreases |s|
  {
    hide Count;
    if s != "" {
      var c, t := s[0], s[1..];
      CountFirst(s, x);
      if t != "" {
        CountFirst(t, x);
      }
      if c == '\\' && st != InComment {
        if t != "" {
          NothingLeftOver(t, st, v + [c], x);
          NothingLeftOver(t[1..], st, v + [t[0]], x);
        }
      } else if st == Initial {
        var (st', v') := FromInitial(c, v);
        NothingLeftOver(t, st', v', x);
        if st' !in {InComment, Initial} {
          CommentsStart(t, st', v');
        }
      } else {
        NothingLeftOver(t, st, v + [c], x);
      }
    }
  }

  lemma {:induction false} CommentsStart(s: string, st: LexState, v: string)
    requires st in {SingleQuote, DoubleQuote, InWord}
    ensures Scan(s, st, v).kind != Comment
    decreases |s|
  {
    if s != "" {
      CommentsStart(s[1..], st, v + [s[0]]);
      if s[1..] != "" {
        CommentsStart(s[1..][1..], st, v + [s[1]]);
      }
    }
  }

  /** The tokens of a text have no more marks than the text. */
  lemma {:induction false} TokensCount(s: string, x: char)
    requires Mark(x)
    ensures CountAll(Tokens(s), x) <= Count(s, x)
    decreases |s|
  {
    hide Scan, Count;
    var r := NextToken(s);
    CountEmpty(x);
    NothingLeftOver(s, Initial, "", x);
    NothingDoubled(s, Initial, "", x);
    if r.kind != Eof && r.kind != Error {
      TokensCount(r.rest, x);
      PunctuationCounts(s, x);
    }
  }

  lemma CountEmpty(x: char)
    ensures Count("", x) == 0
  {
  }

  lemma PunctuationCounts(s: string, x: char)
    requires Mark(x)
    ensures var r := NextToken(s); r.kind in {StartBlock, EndBlock, StatementEnd} ==> Count(r.value, x) == 0
  {
    CountOne('{', x);
    CountOne('}', x);
    CountOne(';', x);
  }

  // ---------------------------------------------------------------- a word read without loss

  /** The lexer, in state `st` with `acc` collected, returns a word and loses no mark. */
  ghost predicate Keeps(s: string, st: LexState, acc: string) {
    var r := Scan(s, st, acc);
    && r.kind == Normal
    && forall x :: Mark(x) ==> Count(acc, x) + Count(s, x) <= Count(r.value, x) + Count(r.rest, x)
  }

  /** A backslash that protects the next character is lost. */
  lemma LosesBackslash(s: string, st: LexState, acc: string)
    requires |s| > 1 && s[0] == '\\' && st in {Initial, InWord, SingleQuote} && Protects(st, s[1])
    ensures !Keeps(s, st, acc)
  {
    hide Count;
    assert Scan(s, st, acc) == Scan(s[1..][1..], st, acc + [s[1]]);
    NothingDoubled(s[1..][1..], st, acc + [s[1]], '\\');
    CountFirst(s, '\\');
    CountFirst(s[1..], '\\');
    CountLast(acc, s[1], '\\');
    assert Mark('\\');
  }

  /** A double quote between tokens is lost, and before a single one what was collected. */
  lemma LosesAtQuote(s: string, acc: string)
    requires s != "" && IsQuote(s[0]) && (s[0] == '\'' ==> acc != "" && acc[0] == '\\')
    ensures !Keeps(s, Initial, acc)
  {
    hide Count;
    var x := if s[0] == '\"' then '\"' else '\\';
    assert Mark(x);
    CountFirst(s, x);
    if s[0] == '\"' {
      NothingDoubled(s[1..], DoubleQuote, acc, x);
    } else {
      NothingDoubled(s[1..], SingleQuote, [s[0]], x);
      CountOne(s[0], x);
      CountFirst(acc, x);
    }
  }

  /** One character that is kept, with `st'` the state after it. */
  lemma KeepsOn(s: string, st: LexState, acc: string, st': LexState, acc': string)
    requires s != "" && Keeps(s, st, acc) && Scan(s, st, acc) == Scan(s[1..], st', acc')
    requires acc' == acc + [s[0]] || (acc' == acc && !Mark(s[0]))
    ensures Keeps(s[1..], st', acc')
  {
    hide Count, Scan;
    forall x | Mark(x)
      ensures Count(acc', x) + Count(s[1..], x) == Count(acc, x) + Count(s, x)
    {
      CountFirst(s, x);
      CountLast(acc, s[0], x);
    }
  }

  lemma {:induction false} KeptWord(u: string, acc: string, tail: string)
    requires tail != "" && Separator(tail[0])
    requires Keeps(u + tail, InWord, acc) && Scan(u + tail, InWord, acc).value == acc + u
    ensures SafeWord(u)
  {
    hide Count;
    if u != "" {
      var c, s := u[0], u + tail;
      assert s[1..] == u[1..] + tail && acc + u == acc + [c] + u[1..];
      assert !EndsBare(c) by { assert EndsBare(c) ==> Scan(s, InWord, acc).value == acc; }
      if c == '\\' && Escapable(s[1]) {
        LosesBackslash(s, InWord, acc);
      } else {
        KeepsOn(s, InWord, acc, InWord, acc + [c]);
        KeptWord(u[1..], acc + [c], tail);
      }
    }
  }

  lemma {:induction false} KeptQuoted(u: string, acc: string, tail: string)
    requires tail != "" && Separator(tail[0])
    requires Keeps(u + tail, SingleQuote, acc) && Scan(u + tail, SingleQuote, acc).value == acc + u
    ensures SafeQuoted(u)
  {
    hide Count;
    var s := u + tail;
    QuotedGrows(s, acc);
    var c := u[0];
    assert s[1..] == u[1..] + tail && acc + u == acc + [c] + u[1..];
    if c == '\\' && s[1] == '\'' {
      LosesBackslash(s, SingleQuote, acc);
    } else if c != '\'' {
      KeepsOn(s, SingleQuote, acc, SingleQuote, acc + [c]);
      KeptQuoted(u[1..], acc + [c], tail);
    } else {
      assert acc + [c] == acc + u;
    }
  }

  lemma {:induction false} QuotedGrows(s: string, acc: string)
    ensures var r := Scan(s, SingleQuote, acc); r.kind == Normal ==> |r.value| > |acc|
    decreases |s|
  {
    if s != "" {
      QuotedGrows(s[1..], acc + [s[0]]);
      if s[1..] != "" {
        QuotedGrows(s[1..][1..], acc + [s[1]]);
      }
    }
  }

  /** Between tokens a word that loses nothing goes on with a character that is no blank. */
  lemma {:induction false} KeptGrows(s: string, acc: string)
    requires Keeps(s, Initial, acc) && (acc != "" ==> acc[0] == '\\')
    ensures var v := Scan(s, Initial, acc).value; |v| > |acc| && v[..|acc|] == acc && !IsSpace(v[|acc|])
    decreases |s|
  {
    hide Count;
    var c, t := s[0], s[1..];
    if c == '\"' || (c == '\'' && acc != "") {
      LosesAtQuote(s, acc);
    } else if c == '\'' {
      KeepsPrefix(t, SingleQuote, [c]);
    } else if c == '#' {
      CommentIsNotNormal(t, [c]);
    } else if IsSpace(c) {
      KeepsOn(s, Initial, acc, Initial, acc);
      KeptGrows(t, acc);
    } else if c == '\\' {
      if t != "" && Escapable(t[0]) {
        LosesBackslash(s, Initial, acc);
      } else {
        KeepsOn(s, Initial, acc, Initial, acc + [c]);
        KeptGrows(t, acc + [c]);
        var v := Scan(s, Initial, acc).value;
        assert v[..|acc| + 1] == acc + [c] && v[..|acc|] == v[..|acc| + 1][..|acc|];
      }
    } else {
      KeepsPrefix(t, InWord, acc + [c]);
      var v := Scan(s, Initial, acc).value;
      assert v[..|acc|] == v[..|acc| + 1][..|acc|];
    }
  }

  lemma NoWord(s: string, acc: string)
    requires s != "" && s[0] in {'#', '{', '}', ';'}
    ensures !Keeps(s, Initial, acc)
  {
    if s[0] == '#' {
      CommentIsNotNormal(s[1..], "#");
    }
  }

  lemma FirstOf(u: string, acc: string, tail: string)
    requires u != ""
    ensures u + tail == [u[0]] + (u[1..] + tail) && (u + tail)[1..] == u[1..] + tail
    ensures acc + u == acc + [u[0]] + u[1..]
  {
  }

  /** A token that is read back, wherever the lexer stops after it, and without the loss of a mark,
      is print-safe. */
  lemma {:induction false} KeptToken(u: string, acc: string, tail: string)
    requires tail != "" && Separator(tail[0]) && (acc != "" ==> acc[0] == '\\')
    requires Keeps(u + tail, Initial, acc) && Scan(u + tail, Initial, acc).value == acc + u
    ensures SafeBare(u) || (acc == "" && PrintSafe(u))
  {
    hide Count, Scan, Keeps;
    var s := u + tail;
    KeptGrows(s, acc);
    var c, rest := u[0], u[1..] + tail;
    FirstOf(u, acc, tail);
    if c == '\"' || (c == '\'' && acc != "") {
      LosesAtQuote(s, acc);
    } else if c in {'#', '{', '}', ';'} {
      NoWord(s, acc);
    } else if c == '\'' {
      assert acc + [c] == [c];
      OpenStep(c, rest, acc);
      KeepsOn(s, Initial, acc, SingleQuote, [c]);
      KeptQuoted(u[1..], [c], tail);
    } else if c == '\\' {
      BackslashStep(rest, acc);
      if Escapable(s[1]) {
        LosesBackslash(s, Initial, acc);
      } else {
        KeepsOn(s, Initial, acc, Initial, acc + [c]);
        KeptToken(u[1..], acc + [c], tail);
      }
    } else {
      OrdinaryStep(c, rest, acc);
      KeepsOn(s, Initial, acc, InWord, acc + [c]);
      KeptWord(u[1..], acc + [c], tail);
    }
  }

  // ---------------------------------------------------------------- a tree read back

  /** The tokens have as many marks as the text. */
  ghost predicate Balances(toks: seq<Token>, q: string) {
    forall x :: Mark(x) ==> CountAll(toks, x) == Count(q, x)
  }

  /** The first token of a text, read back, is print-safe if the others have all the marks of what
      is after it. */
  lemma FirstSafe(t: string, q: string, toks: seq<Token>)
    requires q != "" && Separator(q[0]) && Balances(toks, q)
    requires Tokens(t + q) == [Token(Normal, t)] + toks
    ensures PrintSafe(t) && Tokens(q) == toks
  {
    hide Scan, Count, CountAll;
    var s := t + q;
    var r := NextToken(s);
    forall x | Mark(x)
      ensures Count(s, x) == CountAll(Tokens(s), x) == Count(t, x) + CountAll(toks, x)
      ensures CountAll(Tokens(r.rest), x) <= Count(r.rest, x)
    {
      CountBoth(t, q, x);
      CountAllBoth([Token(Normal, t)], toks, x);
      CountAllOne(Token(Normal, t), x);
      TokensCount(r.rest, x);
    }
    if r.kind == Comment {
      assert Mark('#');
      NothingLeftOver(s, Initial, "", '#');
      assert false;
    }
    assert r.kind == Normal && r.value == t && Tokens(r.rest) == toks by {
      assert Tokens(s)[0] == Token(Normal, t) && Tokens(s)[1..] == toks;
    }
    assert Keeps(s, Initial, "") by {
      forall x | Mark(x)
        ensures Count("", x) + Count(s, x) <= Count(r.value, x) + Count(r.rest, x)
      {
        CountEmpty(x);
      }
    }
    assert "" + t == t;
    KeptToken(t, "", q);
    PrintSafeExact(t, q[0], q[1..]);
    assert t + [q[0]] + q[1..] == s && [q[0]] + q[1..] == q;
  }

  lemma CountAllOne(t: Token, x: char)
    ensures CountAll([t], x) == Count(t.value, x)
  {
  }

  lemma {:induction false} WordsSafe(tokens: seq<string>, q: string, toks: seq<Token>)
    requires tokens != [] && q != "" && Separator(q[0]) && Balances(toks, q)
    requires Tokens(Join(tokens) + q) == Words(tokens) + toks
    ensures (forall t :: t in tokens ==> PrintSafe(t)) && Tokens(q) == toks
  {
    hide Tokens, Count, CountAll, PrintSafe, Words;
    var t := tokens[0];
    if |tokens| == 1 {
      assert Words(tokens) == [Token(Normal, t)] by { WordsCons(tokens); }
      FirstSafe(t, q, toks);
    } else {
      var x, toks' := Join(tokens[1..]) + q, Words(tokens[1..]) + toks;
      JoinCons(tokens);
      WordsCons(tokens);
      assert Join(tokens) + q == t + ([' '] + x);
      assert Words(tokens) + toks == [Token(Normal, t)] + toks';
      BalancesWords(tokens[1..], q, toks);
      BalancesBlank(toks', ' ', x);
      FirstSafe(t, [' '] + x, toks');
      SkipSpace(' ', x);
      WordsSafe(tokens[1..], q, toks);
    }
  }

  lemma WordsCons(tokens: seq<string>)
    requires tokens != []
    ensures Words(tokens) == [Token(Normal, tokens[0])] + Words(tokens[1..])
    ensures Words([]) == []
  {
  }

  lemma {:induction false} CountJoin(tokens: seq<string>, x: char)
    requires Mark(x)
    ensures Count(Join(tokens), x) == CountAll(Words(tokens), x)
  {
    hide Count, CountAll;
    if tokens == [] {
      CountEmpty(x);
      assert CountAll([], x) == 0 by { CountAllNone(x); }
    } else {
      var n := |tokens| - 1;
      var last := Token(Normal, tokens[n]);
      CountJoin(tokens[..n], x);
      assert Words(tokens) == Words(tokens[..n]) + [last];
      CountAllBoth(Words(tokens[..n]), [last], x);
      CountAllOne(last, x);
      if n > 0 {
        CountBoth(Join(tokens[..n]) + " ", tokens[n], x);
        CountLast(Join(tokens[..n]), ' ', x);
      } else {
        CountAllNone(x);
      }
    }
  }

  lemma CountAllNone(x: char)
    ensures CountAll([], x) == 0
  {
  }

  lemma BalancesWords(tokens: seq<string>, q: string, toks: seq<Token>)
    requires Balances(toks, q)
    ensures Balances(Words(tokens) + toks, Join(tokens) + q)
  {
    hide Count, CountAll, Words;
    forall x | Mark(x)
      ensures CountAll(Words(tokens) + toks, x) == Count(Join(tokens) + q, x)
    {
      CountJoin(tokens, x);
      CountBoth(Join(tokens), q, x);
      CountAllBoth(Words(tokens), toks, x);
    }
  }

  /** What the printer adds is blanks and punctuation. */
  lemma BalancesBlank(toks: seq<Token>, c: char, q: string)
    requires Balances(toks, q) && !Mark(c)
    ensures Balances(toks, [c] + q)
  {
    hide Count, CountAll;
    forall x | Mark(x)
      ensures CountAll(toks, x) == Count([c] + q, x)
    {
      CountBoth([c], q, x);
      CountOne(c, x);
    }
  }

  lemma BalancesPunctuation(toks: seq<Token>, c: char, q: string)
    requires Balances(toks, q) && Punctuation(c) != Error
    ensures Balances([Token(Punctuation(c), [c])] + toks, [c] + q)
  {
    hide Count, CountAll;
    var t := Token(Punctuation(c), [c]);
    BalancesBlank(toks, c, q);
    forall x | Mark(x)
      ensures CountAll([t] + toks, x) == Count([c] + q, x)
    {
      CountOne(c, x);
      CountAllBoth([t], toks, x);
      CountAllOne(t, x);
    }
  }

  lemma {:induction false} BalancesIndent(toks: seq<Token>, depth: int, q: string)
    requires Balances(toks, q)
    ensures Balances(toks, Indent(depth) + q)
    decreases if depth <= 0 then 0 else depth
  {
    hide Balances;
    if depth <= 0 {
      assert Indent(depth) + q == q;
    } else {
      BalancesBlank(toks, ' ', q);
      BalancesBlank(toks, ' ', [' '] + q);
      BalancesIndent(toks, depth - 1, [' '] + ([' '] + q));
      assert Indent(depth) + q == Indent(depth - 1) + ([' '] + ([' '] + q));
    }
  }

  lemma BlockTokens(s: Stmt, toks: seq<Token>)
    requires s.Block?
    ensures EndTokens(s) + toks == [OPEN] + (Flatten(s.body) + ([CLOSE] + toks))
  {
  }

  lemma {:induction false} BalancesEnd(s: Stmt, depth: int, q: string, toks: seq<Token>)
    requires Balances(toks, q)
    ensures Balances(EndTokens(s) + toks, PrintEnd(s, depth) + q)
    decreases s, 0
  {
    hide Balances;
    BalancesBlank(toks, '\n', q);
    match s
    case Simple(_) =>
      assert PrintEnd(s, depth) + q == [';'] + (['\n'] + q);
      BalancesPunctuation(toks, ';', ['\n'] + q);
    case Block(_, body) =>
      var close, toks' := Indent(depth) + (['}'] + (['\n'] + q)), [CLOSE] + toks;
      BalancesPunctuation(toks, '}', ['\n'] + q);
      BalancesIndent(toks', depth, ['}'] + (['\n'] + q));
      BalancesPrint(body, depth + 1, close, toks');
      var inner, toks'' := Print(body, depth + 1) + close, Flatten(body) + toks';
      BalancesBlank(toks'', '\n', inner);
      BalancesPunctuation(toks'', '{', ['\n'] + inner);
      BalancesBlank([OPEN] + toks'', ' ', ['{'] + (['\n'] + inner));
      BlockText(s, depth, q);
      BlockTokens(s, toks);
  }

  /** The print of a tree has the marks of its tokens. */
  lemma {:induction false} BalancesPrint(stmts: seq<Stmt>, depth: int, q: string, toks: seq<Token>)
    requires Balances(toks, q)
    ensures Balances(Flatten(stmts) + toks, Print(stmts, depth) + q)
    decreases stmts
  {
    hide Balances, FlattenStmt, PrintStmt;
    if stmts == [] {
      assert Flatten(stmts) + toks == toks && Print(stmts, depth) + q == q;
    } else {
      var rest, toks' := Print(stmts[1..], depth) + q, Flatten(stmts[1..]) + toks;
      BalancesPrint(stmts[1..], depth, q, toks);
      BalancesStmt(stmts[0], depth, rest, toks');
      assert Print(stmts, depth) + q == PrintStmt(stmts[0], depth) + rest;
      assert Flatten(stmts) + toks == FlattenStmt(stmts[0]) + toks';
    }
  }

  lemma {:induction false} BalancesStmt(s: Stmt, depth: int, q: string, toks: seq<Token>)
    requires Balances(toks, q)
    ensures Balances(FlattenStmt(s) + toks, PrintStmt(s, depth) + q)
    decreases s, 1
  {
    hide Balances, PrintEnd, PrintStmt, FlattenStmt, EndTokens;
    var end := PrintEnd(s, depth) + q;
    BalancesEnd(s, depth, q, toks);
    BalancesWords(s.tokens, end, EndTokens(s) + toks);
    BalancesIndent(Words(s.tokens) + (EndTokens(s) + toks), depth, Join(s.tokens) + end);
    StmtParts(s, depth, q, toks);
  }

  lemma StmtParts(s: Stmt, depth: int, q: string, toks: seq<Token>)
    ensures PrintStmt(s, depth) + q == Indent(depth) + (Join(s.tokens) + (PrintEnd(s, depth) + q))
    ensures FlattenStmt(s) + toks == Words(s.tokens) + (EndTokens(s) + toks)
  {
  }

  lemma {:induction false} StmtSafe(s: Stmt, depth: int, q: string, toks: seq<Token>)
    requires WellFormedStmt(s) && Balances(toks, q)
    requires Tokens(PrintStmt(s, depth) + q) == FlattenStmt(s) + toks
    ensures AllTokensStmt(s, PrintSafe) && Tokens(q) == toks
    decreases s
  {
    hide Tokens, Balances, PrintSafe;
    var end := PrintEnd(s, depth) + q;
    IndentIsBlank(depth);
    SkipSpaces(Indent(depth), Join(s.tokens) + end);
    StmtParts(s, depth, q, toks);
    assert end[0] == PrintEnd(s, depth)[0];
    BalancesEnd(s, depth, q, toks);
    WordsSafe(s.tokens, end, EndTokens(s) + toks);
    EndSafe(s, depth, q, toks);
  }

  lemma AfterPunctuation(c: char, q: string, toks: seq<Token>)
    requires Punctuation(c) != Error && Tokens([c] + q) == [Token(Punctuation(c), [c])] + toks
    ensures Tokens(q) == toks
  {
    hide Tokens;
    TakePunctuation(c, q);
    assert Tokens(q) == Tokens([c] + q)[1..] == toks;
  }

  lemma {:induction false} EndSafe(s: Stmt, depth: int, q: string, toks: seq<Token>)
    requires WellFormedStmt(s) && Balances(toks, q)
    requires Tokens(PrintEnd(s, depth) + q) == EndTokens(s) + toks
    ensures (s.Block? ==> AllTokens(s.body, PrintSafe)) && Tokens(q) == toks
    decreases s, 0
  {
    hide Tokens, Balances, PrintSafe;
    SkipSpace('\n', q);
    match s
    case Simple(_) =>
      assert PrintEnd(s, depth) + q == [';'] + (['\n'] + q);
      AfterPunctuation(';', ['\n'] + q, toks);
    case Block(_, body) =>
      var close, toks' := Indent(depth) + (['}'] + (['\n'] + q)), [CLOSE] + toks;
      BlockSafe(s, depth, q, toks);
      BalancesBlank(toks, '\n', q);
      BalancesPunctuation(toks, '}', ['\n'] + q);
      BalancesIndent(toks', depth, ['}'] + (['\n'] + q));
      TreeSafe(body, depth + 1, close, toks');
      IndentIsBlank(depth);
      SkipSpaces(Indent(depth), ['}'] + (['\n'] + q));
      AfterPunctuation('}', ['\n'] + q, toks);
  }

  lemma BlockSafe(s: Stmt, depth: int, q: string, toks: seq<Token>)
    requires s.Block? && Tokens(PrintEnd(s, depth) + q) == EndTokens(s) + toks
    ensures Tokens(Print(s.body, depth + 1) + (Indent(depth) + (['}'] + (['\n'] + q)))) ==
            Flatten(s.body) + ([CLOSE] + toks)
  {
    hide Tokens, Print, Flatten, PrintEnd, EndTokens;
    var inner := Print(s.body, depth + 1) + (Indent(depth) + (['}'] + (['\n'] + q)));
    BlockText(s, depth, q);
    BlockTokens(s, toks);
    SkipSpace(' ', ['{'] + (['\n'] + inner));
    SkipSpace('\n', inner);
    AfterPunctuation('{', ['\n'] + inner, Flatten(s.body) + ([CLOSE] + toks));
  }

  lemma {:induction false} TreeSafe(stmts: seq<Stmt>, depth: int, q: string, toks: seq<Token>)
    requires WellFormed(stmts) && Balances(toks, q)
    requires Tokens(Print(stmts, depth) + q) == Flatten(stmts) + toks
    ensures AllTokens(stmts, PrintSafe) && Tokens(q) == toks
    decreases stmts
  {
    hide Tokens, Balances, PrintSafe;
    if stmts == [] {
      assert Flatten(stmts) + toks == toks && Print(stmts, depth) + q == q;
    } else {
      var rest, toks' := Print(stmts[1..], depth) + q, Flatten(stmts[1..]) + toks;
      assert Print(stmts, depth) + q == PrintStmt(stmts[0], depth) + rest;
      assert Flatten(stmts) + toks == FlattenStmt(stmts[0]) + toks';
      BalancesPrint(stmts[1..], depth, q, toks);
      StmtSafe(stmts[0], depth, rest, toks');
      TreeSafe(stmts[1..], depth, q, toks);
    }
  }

  // ---------------------------------------------------------------- the round trip, exactly

  /** Parsing what the printer wrote, at any depth, rebuilds the tree if and only if every statement
      has a token and every token is print-safe. */
  lemma PrintParseExactly(before: seq<Stmt>, stmts: seq<Stmt>, depth: int)
    ensures ParseText(before, Print(stmts, depth)) == Verdict(true, before + stmts)
            <==> WellFormed(stmts) && AllTokens(stmts, PrintSafe)
  {
    hide Tokens, Run, PrintSafe, Flatten, Print;
    if WellFormed(stmts) && AllTokens(stmts, PrintSafe) {
      PrintParseRoundTrip(before, stmts, depth);
    }
    var s := Print(stmts, depth);
    if ParseText(before, s) == Verdict(true, before + stmts) {
      var derived := Derivation(before, s);
      assert derived == (before + derived)[|before|..] == (before + stmts)[|before|..] == stmts;
      EndBalances();
      assert s + "" == s;
      TreeSafe(stmts, depth, "", [END_OF_FILE]);
    }
  }

  lemma EndBalances()
    ensures Balances([END_OF_FILE], "")
  {
  }

  lemma {:induction false} FlattenHasAll(stmts: seq<Stmt>, p: string -> bool)
    ensures AllTokens(stmts, p) <==> forall t :: t in Flatten(stmts) && t.kind == Normal ==> p(t.value)
    decreases stmts
  {
    hide FlattenStmt, AllTokensStmt;
    if stmts != [] {
      assert Flatten(stmts) == FlattenStmt(stmts[0]) + Flatten(stmts[1..]);
      FlattenHasAllStmt(stmts[0], p);
      FlattenHasAll(stmts[1..], p);
      assert stmts == [stmts[0]] + stmts[1..];
    }
  }

  lemma {:induction false} FlattenHasAllStmt(s: Stmt, p: string -> bool)
    ensures AllTokensStmt(s, p) <==> forall t :: t in FlattenStmt(s) && t.kind == Normal ==> p(t.value)
    decreases s
  {
    hide Flatten, AllTokens;
    var words := Words(s.tokens);
    forall i | 0 <= i < |s.tokens|
      ensures FlattenStmt(s)[i] == words[i] == Token(Normal, s.tokens[i])
    {
    }
    if s.Block? {
      FlattenHasAll(s.body, p);
      assert forall t :: t in FlattenStmt(s) <==> t in words || t == OPEN || t in Flatten(s.body) || t == CLOSE;
    } else {
      assert forall t :: t in FlattenStmt(s) <==> t in words || t == SEMICOLON;
    }
  }

  /** Printing the tree of an accepted text and parsing it again gives the same tree if and only if
      the words of the text are print-safe. */
  lemma AcceptedReprints(before: seq<Stmt>, s: string, depth: int)
    requires ParseText([], s).ok
    ensures var tree := ParseText([], s).tree;
            ParseText(before, Print(tree, depth)) == Verdict(true, before + tree)
            <==> forall t :: t in Tokens(s) && t.kind == Normal ==> PrintSafe(t.value)
  {
    hide Tokens, Run, Flatten, Print, PrintSafe;
    var stmts := Derivation([], s);
    assert [] + stmts == stmts;
    FlattenHasAll(stmts, PrintSafe);
    PrintParseExactly(before, stmts, depth);
  }

  /** In particular for every accepted text without double quotes and backslashes. */
  lemma PlainTextReprints(before: seq<Stmt>, s: string, depth: int)
    requires ParseText([], s).ok && NoEscapes(s)
    ensures var tree := ParseText([], s).tree;
            ParseText(before, Print(tree, depth)) == Verdict(true, before + tree)
  {
    hide Tokens, Run, Print;
    PlainTokens(s);
    AcceptedReprints(before, s, depth);
  }
}
