/** The token stream of a text, comments left out, and how little of the text it depends on. */
module TokenStream {
  import opened Lexer
  import opened Quoting

  datatype Token = Token(kind: TokenType, value: string)

  const END_OF_FILE := Token(Eof, "")
  const BAD_TOKEN := Token(Error, "")
  const SEMICOLON := Token(StatementEnd, ";")
  const OPEN := Token(StartBlock, "{")
  const CLOSE := Token(EndBlock, "}")

  /** The tokens of `s` up to the first end of file or error. What the lexer had
      collected when it met either is dropped, as `Parse` drops it. */
  function Tokens(s: string): (toks: seq<Token>)
    ensures 1 <= |toks| <= |s| + 1
    decreases |s|
  {
    var r := NextToken(s);
    if r.kind == Eof then [END_OF_FILE]
    else if r.kind == Error then [BAD_TOKEN]
    else if r.kind == Comment then Tokens(r.rest)
    else [Token(r.kind, r.value)] + Tokens(r.rest)
  }

  /** The stream ends in its only end-of-file or error token; before it come words and the
      three punctuation tokens. */
  lemma {:induction false} OneEnd(s: string)
    ensures var toks := Tokens(s);
            && (toks[|toks| - 1] == END_OF_FILE || toks[|toks| - 1] == BAD_TOKEN)
            && forall i :: 0 <= i < |toks| - 1 ==> toks[i].kind == Normal || toks[i] in {SEMICOLON, OPEN, CLOSE}
    decreases |s|
  {
    var r := NextToken(s);
    if r.kind != Eof && r.kind != Error {
      OneEnd(r.rest);
    }
  }

  lemma SkipSpace(c: char, q: string)
    requires IsSpace(c)
    ensures Tokens([c] + q) == Tokens(q)
  {
    assert ([c] + q)[1..] == q;
    assert NextToken([c] + q) == NextToken(q);
  }

  lemma {:induction false} SkipSpaces(w: string, q: string)
    requires Blank(w)
    ensures Tokens(w + q) == Tokens(q)
  {
    if w == "" {
      assert w + q == q;
    } else {
      assert w + q == [w[0]] + (w[1..] + q);
      SkipSpace(w[0], w[1..] + q);
      SkipSpaces(w[1..], q);
    }
  }

  /** The type of the one-character token `c`, if it is one. */
  function Punctuation(c: char): TokenType {
    if c == '{' then StartBlock
    else if c == '}' then EndBlock
    else if c == ';' then StatementEnd
    else Error
  }

  lemma TakePunctuation(c: char, q: string)
    requires Punctuation(c) != Error
    ensures Tokens([c] + q) == [Token(Punctuation(c), [c])] + Tokens(q)
  {
    assert ([c] + q)[1..] == q;
  }

  lemma TakeSafeToken(tok: string, sep: char, q: string)
    requires PrintSafe(tok) && Separator(sep)
    ensures Tokens(tok + [sep] + q) == [Token(Normal, tok)] + Tokens([sep] + q)
  {
    PrintSafeExact(tok, sep, q);
  }

  /** The rest of a word that runs into the end of the text: a backslash stands before every
      character that could end it, and protects it. */
  predicate Unended(w: string)
    decreases |w|
  {
    w != "" ==>
      if w[0] == '\\' && |w| > 1 && Escapable(w[1]) then Unended(w[2..])
      else !EndsBare(w[0]) && Unended(w[1..])
  }

  lemma {:induction false} DanglingWord(w: string, v: string)
    ensures Scan(w, InWord, v).kind == if Unended(w) then Eof else Normal
    decreases |w|
  {
    if w != "" {
      DanglingWord(w[1..], v + [w[0]]);
      if |w| > 1 {
        assert w[1..][1..] == w[2..];
        DanglingWord(w[2..], v + [w[1]]);
      }
    }
  }

  /** Layout, comments that may be unfinished, leading escapes, and then at most one unended word:
      the texts that hold no token. */
  predicate Tokenless(s: string, inComment: bool := false)
    decreases |s|
  {
    s != "" ==>
      if inComment then Tokenless(s[1..], !IsNewline(s[0]))
      else if s[0] == '#' then Tokenless(s[1..], true)
      else if IsSpace(s[0]) then Tokenless(s[1..])
      else if s[0] == '\\' then
        if |s| > 1 && Escapable(s[1]) then Tokenless(s[2..]) else Tokenless(s[1..])
      else Ordinary(s[0]) && Unended(s[1..])
  }

  lemma {:induction false} ScanTokenless(s: string, inComment: bool, v: string)
    ensures var r := Scan(s, if inComment then InComment else Initial, v);
            if r.kind == Comment then Tokenless(s, inComment) == Tokenless(r.rest)
            else Tokenless(s, inComment) == (r.kind == Eof)
    decreases |s|
  {
    if s != "" {
      var c, t := s[0], s[1..];
      if inComment {
        if !IsNewline(c) {
          ScanTokenless(t, true, v + [c]);
        }
      } else if c == '#' {
        ScanTokenless(t, true, [c]);
      } else if IsSpace(c) {
        ScanTokenless(t, false, v);
      } else if c == '\\' {
        if t != "" {
          if Escapable(t[0]) {
            assert t[1..] == s[2..];
            ScanTokenless(t[1..], false, v + [t[0]]);
          } else {
            ScanTokenless(t, false, v + [c]);
          }
        }
      } else if IsQuote(c) {
        QuotedNeverEnds(t, QuoteState(c), if c == '\"' then v else [c]);
      } else if Ordinary(c) {
        DanglingWord(t, v + [c]);
      }
    }
  }

  /** A quote that is not closed is an error, not the end of the file. */
  lemma {:induction false} QuotedNeverEnds(s: string, st: LexState, v: string)
    requires st in {SingleQuote, DoubleQuote}
    ensures Scan(s, st, v).kind in {Normal, Error}
    decreases |s|
  {
    if s != "" {
      QuotedNeverEnds(s[1..], st, v + [s[0]]);
      if |s| > 1 {
        QuotedNeverEnds(s[1..][1..], st, v + [s[1]]);
      }
    }
  }

  /** Which texts count as empty: those with layout only, and those whose one word, leading escapes
      included, runs into the end of the text. Such a word is dropped. */
  lemma {:induction false} DanglingWordDropped(s: string)
    ensures Tokens(s) == [END_OF_FILE] <==> Tokenless(s)
    decreases |s|
  {
    var r := NextToken(s);
    ScanTokenless(s, false, "");
    if r.kind == Comment {
      DanglingWordDropped(r.rest);
    }
  }

  // ---------------------------------------------------------------- plain texts

  predicate NoEscapes(s: string) {
    forall i :: 0 <= i < |s| ==> s[i] != '\"' && s[i] != '\\'
  }

  lemma {:induction false} PlainWord(s: string, st: LexState, v: string)
    requires NoEscapes(s) && st in {SingleQuote, InWord}
    ensures var r := Scan(s, st, v);
            && NoEscapes(r.rest)
            && (r.kind == Normal ==>
                 && v <= r.value
                 && if st == InWord then SafeWord(r.value[|v|..]) else SafeQuoted(r.value[|v|..]))
    decreases |s|
  {
    if s != "" {
      var c, t := s[0], s[1..];
      PlainWord(t, st, v + [c]);
      OneEarlier(v, c, Scan(t, st, v + [c]).value);
      OneEarlier(v, c, v + [c]);
    }
  }

  lemma OneEarlier(v: string, c: char, u: string)
    ensures v + [c] <= u ==> v <= u && u[|v|..] == [c] + u[|v| + 1..] && u[|v|..][1..] == u[|v + [c]|..]
  {
  }

  lemma {:induction false} PlainScan(s: string, st: LexState, v: string)
    requires NoEscapes(s) && (st == Initial || st == InComment) && (st == Initial ==> v == "")
    ensures var r := Scan(s, st, v); NoEscapes(r.rest) && (r.kind == Normal ==> PrintSafe(r.value))
    decreases |s|
  {
    if s != "" {
      var c, t := s[0], s[1..];
      if st == InComment {
        PlainScan(t, st, v + [c]);
      } else if c == '#' {
        PlainScan(t, InComment, [c]);
      } else if IsSpace(c) {
        PlainScan(t, Initial, v);
      } else if Punctuation(c) == Error {
        assert v + [c] == [c];
        PlainWord(t, if c == '\'' then SingleQuote else InWord, [c]);
        OneEarlier("", c, Scan(t, if c == '\'' then SingleQuote else InWord, [c]).value);
      }
    }
  }

  /** The words of a text without double quotes and backslashes are print-safe. */
  lemma {:induction false} PlainTokens(s: string)
    requires NoEscapes(s)
    ensures forall t :: t in Tokens(s) && t.kind == Normal ==> PrintSafe(t.value)
    decreases |s|
  {
    var r := NextToken(s);
    PlainScan(s, Initial, "");
    if r.kind != Eof && r.kind != Error {
      PlainTokens(r.rest);
    }
  }

  // ---------------------------------------------------------------- layout

  /** Blanks and comments that a newline or carriage return ends. */
  predicate Layout(w: string, inComment: bool := false) {
    if w == "" then !inComment
    else if inComment then Layout(w[1..], !IsNewline(w[0]))
    else if w[0] == '#' then Layout(w[1..], true)
    else IsSpace(w[0]) && Layout(w[1..])
  }

  lemma {:induction false} SkipLayout(w: string, q: string)
    requires Layout(w)
    ensures Tokens(w + q) == Tokens(q)
    decreases |w|
  {
    if w == "" {
      assert w + q == q;
    } else {
      assert w + q == [w[0]] + (w[1..] + q);
      if w[0] == '#' {
        SkipComment(w[1..], q, "#");
        assert ([w[0]] + (w[1..] + q))[1..] == w[1..] + q;
      } else {
        SkipSpace(w[0], w[1..] + q);
        SkipLayout(w[1..], q);
      }
    }
  }

  lemma {:induction false} SkipComment(w: string, q: string, v: string)
    requires Layout(w, true)
    ensures var r := Scan(w + q, InComment, v); r.kind == Comment && Tokens(r.rest) == Tokens(q)
    decreases |w|
  {
    assert (w + q)[1..] == w[1..] + q;
    if IsNewline(w[0]) {
      SkipLayout(w[1..], q);
    } else {
      SkipComment(w[1..], q, v + [w[0]]);
    }
  }

  /** A word that ends, or a comment that ends, before the last |b| characters. */
  predicate EndsBefore(r: Lexeme, b: string) {
    (r.kind == Normal && |b| < |r.rest|) || (r.kind == Comment && |b| <= |r.rest|)
  }

  /** Whether the lexer, run on `a + b` from between tokens, is between tokens with nothing
      collected at the end of `a`, and will not look at `a` again. */
  predicate Boundary(a: string, b: string)
    decreases |a|
  {
    a == "" ||
    if IsSpace(a[0]) || Punctuation(a[0]) != Error then Boundary(a[1..], b)
    else
      var r := NextToken(a + b);
      EndsBefore(r, b) && Boundary(r.rest[..|r.rest| - |b|], b)
  }

  /** The same token, with `b'` in the place of `b` at the end of the unread text. */
  predicate SameBut(r: Lexeme, r': Lexeme, b: string, b': string) {
    && |b| <= |r.rest| && r.rest[|r.rest| - |b|..] == b
    && r' == Lexeme(r.kind, r.value, r.rest[..|r.rest| - |b|] + b')
  }

  /** A token is found by looking no further than its terminator. */
  lemma {:induction false} LooksNoFurther(a: string, b: string, b': string, st: LexState, v: string)
    requires EndsBefore(Scan(a + b, st, v), b)
    ensures SameBut(Scan(a + b, st, v), Scan(a + b', st, v), b, b')
    decreases |a|
  {
    if a == "" {
      NoRoom(a, b, st, v);
    } else {
      var c, a1 := a[0], a[1..];
      assert (a + b)[1..] == a1 + b && (a + b')[1..] == a1 + b';
      if c == '\\' && st != InComment {
        LooksPastBackslash(a, b, b', st, v);
      } else if st == Initial {
        var (st', v') := FromInitial(c, v);
        LooksNoFurther(a1, b, b', st', v');
      } else if (st == InWord && EndsBare(c)) || (st == InComment && IsNewline(c)) {
      } else if (st == SingleQuote && c == '\'') || (st == DoubleQuote && c == '\"') {
      } else {
        LooksNoFurther(a1, b, b', st, v + [c]);
      }
    }
  }

  /** Where the initial state goes on a character that neither ends a token nor escapes. */
  function FromInitial(c: char, v: string): (LexState, string) {
    if c == '\"' then (DoubleQuote, v)
    else if c == '\'' then (SingleQuote, [c])
    else if c == '#' then (InComment, [c])
    else if IsSpace(c) then (Initial, v)
    else (InWord, v + [c])
  }

  lemma NoRoom(a: string, b: string, st: LexState, v: string)
    requires a == "" || (a == "\\" && st != InComment)
    ensures !EndsBefore(Scan(a + b, st, v), b)
  {
    assert if a == "" then a + b == b else (a + b)[1..] == b;
  }

  lemma {:induction false} LooksPastBackslash(a: string, b: string, b': string, st: LexState, v: string)
    requires a != "" && a[0] == '\\' && st != InComment
    requires EndsBefore(Scan(a + b, st, v), b)
    ensures SameBut(Scan(a + b, st, v), Scan(a + b', st, v), b, b')
    decreases |a|, 0
  {
    if |a| > 1 {
      assert (a + b)[1..] == a[1..] + b && (a + b')[1..] == a[1..] + b';
      assert (a[1..] + b)[1..] == a[2..] + b && (a[1..] + b')[1..] == a[2..] + b';
      if Protects(st, a[1]) {
        LooksNoFurther(a[2..], b, b', st, v + [a[1]]);
      } else {
        LooksNoFurther(a[1..], b, b', st, v + [a[0]]);
      }
    } else {
      NoRoom(a, b, st, v);
    }
  }

  predicate Protects(st: LexState, c: char) {
    match st
    case SingleQuote => c == '\''
    case DoubleQuote => c == '\"'
    case _ => Escapable(c)
  }

  /** Layout independence: blanks and comments inserted at a boundary do not change the stream. */
  lemma {:induction false} LayoutIndependent(a: string, w: string, b: string)
    requires Boundary(a, b) && Layout(w)
    ensures Tokens(a + (w + b)) == Tokens(a + b)
    decreases |a|
  {
    if a == "" {
      assert a + (w + b) == w + b && a + b == b;
      SkipLayout(w, b);
    } else if IsSpace(a[0]) || Punctuation(a[0]) != Error {
      LayoutIndependent(a[1..], w, b);
      SkipOne(a, b);
      SkipOne(a, w + b);
    } else {
      var r := NextToken(a + b);
      var a' := r.rest[..|r.rest| - |b|];
      LayoutIndependent(a', w, b);
      LooksNoFurther(a, b, w + b, Initial, "");
      assert r.rest == a' + b;
      SameTokens(a + b, a + (w + b), r, a' + (w + b));
    }
  }

  lemma SkipOne(a: string, b: string)
    requires a != "" && (IsSpace(a[0]) || Punctuation(a[0]) != Error)
    ensures Tokens(a + b) == (if IsSpace(a[0]) then [] else [Token(Punctuation(a[0]), [a[0]])]) + Tokens(a[1..] + b)
  {
    assert a + b == [a[0]] + (a[1..] + b);
    if IsSpace(a[0]) {
      SkipSpace(a[0], a[1..] + b);
    } else {
      TakePunctuation(a[0], a[1..] + b);
    }
  }

  lemma SameTokens(s: string, s': string, r: Lexeme, rest': string)
    requires r == NextToken(s) && NextToken(s') == Lexeme(r.kind, r.value, rest')
    requires Tokens(r.rest) == Tokens(rest')
    ensures Tokens(s') == Tokens(s)
  {
  }

  /** Places that are no boundaries: after leading escapes. Blanks put there make no difference,
      but a comment takes the collected characters with it. */
  lemma LayoutAfterLead(lead: string, w: string, q: string)
    requires LeadingEscapes(lead) && Layout(w)
    ensures Tokens(EscapeBare(lead) + (w + q)) ==
            if Blank(w) then Tokens(EscapeBare(lead) + q) else Tokens(q)
  {
    hide Scan, Tokens;
    LeadingEscapeJoinsWords(lead, "", w + q);
    LeadingEscapeJoinsWords(lead, "", q);
    assert "" + (w + q) == w + q && "" + q == q;
    ScanLayout(w, q, lead);
    var s, s' := EscapeBare(lead) + (w + q), EscapeBare(lead) + q;
    if Blank(w) {
      SameToken(s, s');
    } else {
      TakeComment(s);
    }
  }

  lemma SameToken(s: string, s': string)
    requires NextToken(s) == NextToken(s')
    ensures Tokens(s) == Tokens(s')
  {
  }

  lemma TakeComment(s: string)
    requires NextToken(s).kind == Comment
    ensures Tokens(s) == Tokens(NextToken(s).rest)
  {
  }

  lemma {:induction false} ScanLayout(w: string, q: string, v: string)
    requires Layout(w)
    ensures if Blank(w) then Scan(w + q, Initial, v) == Scan(q, Initial, v)
            else var r := Scan(w + q, Initial, v); r.kind == Comment && Tokens(r.rest) == Tokens(q)
  {
    hide Tokens;
    if w == "" {
      assert w + q == q;
    } else {
      assert (w + q)[1..] == w[1..] + q;
      if w[0] == '#' {
        SkipComment(w[1..], q, "#");
      } else {
        ScanLayout(w[1..], q, v);
        assert w == [w[0]] + w[1..];
      }
    }
  }
}
