/** What the lexer can be made to return: round trips for the two ways of writing
    a value with escapes, and exactly which tokens survive being written as they are. */
module Quoting {
  import opened Lexer

  predicate EndsInBackslash(v: string) {
    v != "" && v[|v| - 1] == '\\'
  }

  /** An ordinary first character: it starts a bare word and stands for itself. */
  predicate Ordinary(c: char) {
    !EndsBare(c) && c != '#' && c != '\"' && c != '\'' && c != '\\'
  }

  /** No path through the lexer invents characters: what it collected and what it
      left are never longer than what it started with. */
  lemma {:induction false} NothingInvented(s: string, st: LexState, v: string)
    ensures var r := Scan(s, st, v);
            r.kind == Normal ==> |r.value| + |r.rest| <= |v| + |s|
    decreases |s|
  {
    if s != "" {
      var c, t := s[0], s[1..];
      if c == '\\' && st != InComment {
        if t != "" {
          NothingInvented(t, st, v + [c]);
          NothingInvented(t[1..], st, v + [t[0]]);
        }
      } else if st == Initial {
        if c == '\"' {
          NothingInvented(t, DoubleQuote, v);
        } else if c == '\'' {
          NothingInvented(t, SingleQuote, [c]);
        } else if c == '#' {
          NothingInvented(t, InComment, [c]);
        } else if IsSpace(c) {
          NothingInvented(t, Initial, v);
        } else {
          NothingInvented(t, InWord, v + [c]);
        }
      } else {
        NothingInvented(t, st, v + [c]);
      }
    }
  }

  /** How often `x` is in `s`. */
  function Count(s: string, x: char): nat {
    multiset(s)[x]
  }

  lemma CountFirst(s: string, x: char)
    requires s != ""
    ensures Count(s, x) == Count(s[1..], x) + if s[0] == x then 1 else 0
  {
    assert s == [s[0]] + s[1..];
  }

  lemma CountLast(v: string, c: char, x: char)
    ensures Count(v + [c], x) == Count(v, x) + if c == x then 1 else 0
  {
  }

  lemma CountOne(c: char, x: char)
    ensures Count([c], x) == if c == x then 1 else 0
  {
  }

  /** Each single character is in the word and the rest at most as often as in what was collected
      and unread. A double quote that was opened is used up. */
  lemma {:induction false} NothingDoubled(s: string, st: LexState, v: string, x: char)
    ensures var r := Scan(s, st, v);
            r.kind == Normal ==>
              Count(r.value, x) + Count(r.rest, x) + (if st == DoubleQuote && x == '\"' then 1 else 0)
              <= Count(v, x) + Count(s, x)
    decreases |s|
  {
    hide Count;
    if s != "" {
      var c, t := s[0], s[1..];
      CountFirst(s, x);
      CountLast(v, c, x);
      CountOne(c, x);
      if c == '\\' && st != InComment {
        if t != "" {
          CountFirst(t, x);
          CountLast(v, t[0], x);
          NothingDoubled(t, st, v + [c], x);
          NothingDoubled(t[1..], st, v + [t[0]], x);
        }
      } else if st == Initial {
        if c == '\"' {
          NothingDoubled(t, DoubleQuote, v, x);
        } else if c == '\'' {
          NothingDoubled(t, SingleQuote, [c], x);
        } else if c == '#' {
          NothingDoubled(t, InComment, [c], x);
        } else if IsSpace(c) {
          NothingDoubled(t, Initial, v, x);
        } else {
          NothingDoubled(t, InWord, v + [c], x);
        }
      } else {
        NothingDoubled(t, st, v + [c], x);
      }
    }
  }

  // ---------------------------------------------------------------- quotes

  predicate IsQuote(c: char) {
    c == '\"' || c == '\''
  }

  function QuoteState(quote: char): LexState {
    if quote == '\"' then DoubleQuote else SingleQuote
  }

  /** What the lexer keeps of a quote: nothing of a double one, all of a single one. */
  function Kept(quote: char): string {
    if quote == '\"' then "" else [quote]
  }

  /** Writes `v` for between quotes: each such quote in it gets a backslash. */
  function EscapeQuote(v: string, quote: char): string {
    if v == "" then ""
    else (if v[0] == quote then ['\\', quote] else [v[0]]) + EscapeQuote(v[1..], quote)
  }

  /** One character after an opening quote. */
  lemma QuotedStep(c: char, rest: string, quote: char, acc: string)
    requires IsQuote(quote) && (c == quote || rest != "")
    ensures Scan([c] + rest, QuoteState(quote), acc) ==
            if c == quote then Close(rest, acc + Kept(quote))
            else if c == '\\' && rest[0] == quote then Scan(rest[1..], QuoteState(quote), acc + [quote])
            else Scan(rest, QuoteState(quote), acc + [c])
  {
    assert ([c] + rest)[1..] == rest && acc + "" == acc;
  }

  lemma {:induction false} ScanQuoted(v: string, quote: char, acc: string, tail: string)
    requires IsQuote(quote) && !EndsInBackslash(v)
    requires tail != "" && tail[0] == quote
    ensures Scan(EscapeQuote(v, quote) + tail, QuoteState(quote), acc) == Close(tail[1..], acc + v + Kept(quote))
  {
    hide Scan, QuoteState, Kept;
    if v == "" {
      assert EscapeQuote(v, quote) + tail == [quote] + tail[1..] && acc + v == acc;
      QuotedStep(quote, tail[1..], quote, acc);
    } else {
      var c, rest := v[0], EscapeQuote(v[1..], quote) + tail;
      ScanQuoted(v[1..], quote, acc + [c], tail);
      assert acc + v == acc + [c] + v[1..];
      if c == quote {
        assert EscapeQuote(v, quote) + tail == ['\\'] + ([quote] + rest);
        assert ([quote] + rest)[1..] == rest;
        QuotedStep('\\', [quote] + rest, quote, acc);
      } else {
        assert EscapeQuote(v, quote) + tail == [c] + rest;
        assert c == '\\' ==> v[1..] != "" && rest[0] == EscapeQuote(v[1..], quote)[0] != quote;
        QuotedStep(c, rest, quote, acc);
      }
    }
  }

  /** The quote round trip: between double quotes the value comes back bare, between single
      ones with its quotes. */
  lemma QuoteRoundTrip(v: string, quote: char, term: char, q: string)
    requires IsQuote(quote) && !EndsInBackslash(v) && EndsQuoted(term)
    ensures NextToken([quote] + EscapeQuote(v, quote) + [quote, term] + q) ==
            Lexeme(Normal, Kept(quote) + v + Kept(quote), [term] + q)
  {
    hide Scan, NextToken;
    var tail := [quote, term] + q;
    ScanQuoted(v, quote, Kept(quote), tail);
    OpenQuote(quote, EscapeQuote(v, quote) + tail);
    assert [quote] + EscapeQuote(v, quote) + [quote, term] + q == [quote] + (EscapeQuote(v, quote) + tail);
    assert tail[1..] == [term] + q;
  }

  /** What may follow a closing quote: a blank, a semicolon or an opening brace. Anything else,
      and the end of the text, is an error. */
  lemma QuoteTerminators(v: string, quote: char, q: string)
    requires IsQuote(quote) && !EndsInBackslash(v)
    ensures NextToken([quote] + EscapeQuote(v, quote) + [quote] + q).kind ==
            if q != "" && q[0] in {' ', '\t', '\n', '\r', ';', '{'} then Normal else Error
  {
    hide Scan, NextToken;
    ScanQuoted(v, quote, Kept(quote), [quote] + q);
    OpenQuote(quote, EscapeQuote(v, quote) + ([quote] + q));
    assert [quote] + EscapeQuote(v, quote) + [quote] + q == [quote] + (EscapeQuote(v, quote) + ([quote] + q));
    assert ([quote] + q)[1..] == q;
  }

  lemma OpenQuote(quote: char, s: string)
    requires IsQuote(quote)
    ensures NextToken([quote] + s) == Scan(s, QuoteState(quote), Kept(quote))
  {
    assert ([quote] + s)[1..] == s;
  }

  /** `v` is what the lexer keeps of two quotes around a body that does not end in a backslash. */
  predicate IsQuoted(v: string, quote: char) {
    var k := |Kept(quote)|;
    2 * k <= |v| && v[..k] == v[|v| - k..] == Kept(quote) && !EndsInBackslash(v[k..|v| - k])
  }

  /** No quoted token's body ends in a backslash, whatever the text. */
  lemma {:induction false} QuotedNeverEndsInBackslash(s: string, quote: char, b: string)
    requires IsQuote(quote) && (EndsInBackslash(b) ==> s == "" || s[0] != quote)
    ensures var r := Scan(s, QuoteState(quote), Kept(quote) + b); r.kind == Normal ==> IsQuoted(r.value, quote)
    decreases |s|
  {
    if s != "" {
      var c, t, k := s[0], s[1..], Kept(quote);
      assert k + b + [c] == k + (b + [c]);
      if c == quote {
        var v := k + b + k;
        assert v[|k|..|v| - |k|] == b;
        assert quote == '\"' ==> v == k + b;
      } else if c != '\\' {
        QuotedNeverEndsInBackslash(t, quote, b + [c]);
      } else if t != "" {
        assert k + b + [t[0]] == k + (b + [t[0]]);
        if t[0] == quote {
          QuotedNeverEndsInBackslash(t[1..], quote, b + [t[0]]);
        } else {
          QuotedNeverEndsInBackslash(t, quote, b + [c]);
        }
      }
    }
  }

  /** A text of which such a value is the first token. */
  lemma QuotedText(v: string, quote: char) returns (s: string)
    requires IsQuote(quote) && IsQuoted(v, quote)
    ensures s != "" && s[0] == quote && NextToken(s).kind == Normal && NextToken(s).value == v
  {
    hide NextToken, EscapeQuote, IsQuoted, EndsQuoted;
    var b := Body(v, quote);
    QuoteRoundTrip(b, quote, ';', "");
    s := [quote] + EscapeQuote(b, quote) + [quote, ';'] + "";
  }

  lemma Body(v: string, quote: char) returns (b: string)
    requires IsQuoted(v, quote)
    ensures v == Kept(quote) + b + Kept(quote) && !EndsInBackslash(b)
    ensures EndsQuoted(';')
  {
    b := v[|Kept(quote)|..|v| - |Kept(quote)|];
  }

  /** The exact range of quoted tokens, for both quotes: every body but those that end in a
      backslash, as the lexer keeps it. */
  lemma QuoteRange(v: string, quote: char)
    requires IsQuote(quote)
    ensures (exists s: string :: s != "" && s[0] == quote && NextToken(s).kind == Normal && NextToken(s).value == v)
            <==> IsQuoted(v, quote)
  {
    hide NextToken, IsQuoted, Kept;
    if IsQuoted(v, quote) {
      var s := QuotedText(v, quote);
    }
    forall s: string | s != "" && s[0] == quote && NextToken(s).kind == Normal && NextToken(s).value == v
      ensures IsQuoted(v, quote)
    {
      OpenQuote(quote, s[1..]);
      assert s == [quote] + s[1..] && Kept(quote) + "" == Kept(quote);
      QuotedNeverEndsInBackslash(s[1..], quote, "");
    }
  }

  // ---------------------------------------------------------------- bare words

  /** Writes `v` as a bare word: a backslash before each character it protects. */
  function EscapeBare(v: string): string {
    if v == "" then ""
    else (if Escapable(v[0]) then ['\\', v[0]] else [v[0]]) + EscapeBare(v[1..])
  }

  predicate NoNewline(v: string) {
    forall i :: 0 <= i < |v| ==> !IsNewline(v[i])
  }

  /** Inside a word the escaped text is read back unless it has a newline, which no backslash
      protects, or ends in a backslash that protects its terminator. */
  lemma {:induction false} ScanBare(v: string, acc: string, tail: string)
    requires tail != "" && EndsBare(tail[0])
    ensures Scan(EscapeBare(v) + tail, InWord, acc) == Lexeme(Normal, acc + v, tail)
            <==> NoNewline(v) && (!EndsInBackslash(v) || IsNewline(tail[0]))
  {
    hide Scan;
    var s := EscapeBare(v) + tail;
    if v == "" {
      assert s == tail && acc + v == acc;
      WordEnds(tail, acc);
    } else {
      var c, rest := v[0], EscapeBare(v[1..]) + tail;
      ScanBare(v[1..], acc + [c], tail);
      assert acc + v == acc + [c] + v[1..];
      assert |v| > 1 ==> EndsInBackslash(v) == EndsInBackslash(v[1..]);
      NoNewlineHead(v);
      if Escapable(c) {
        assert s == ['\\', c] + rest;
        EscapedStep(c, rest, InWord, acc);
      } else {
        assert s == [c] + rest && rest != "";
        if IsNewline(c) {
          WordEnds(s, acc);
        } else {
          PlainStep(c, rest, acc);
          EscapedHead(v[1..], tail);
        }
      }
    }
  }

  lemma NoNewlineHead(v: string)
    requires v != ""
    ensures NoNewline(v) <==> !IsNewline(v[0]) && NoNewline(v[1..])
  {
    assert v == [v[0]] + v[1..];
  }

  lemma WordEnds(s: string, acc: string)
    requires s != "" && EndsBare(s[0])
    ensures Scan(s, InWord, acc) == Lexeme(Normal, acc, s)
  {
  }

  lemma EscapedStep(c: char, rest: string, st: LexState, acc: string)
    requires Escapable(c) && st in {Initial, InWord}
    ensures Scan(['\\', c] + rest, st, acc) == Scan(rest, st, acc + [c])
  {
    assert (['\\', c] + rest)[1..][1..] == rest;
  }

  lemma PlainStep(c: char, rest: string, acc: string)
    requires !EndsBare(c) && rest != ""
    ensures Scan([c] + rest, InWord, acc) ==
            if c == '\\' && Escapable(rest[0]) then Scan(rest[1..], InWord, acc + [rest[0]])
            else Scan(rest, InWord, acc + [c])
  {
    assert ([c] + rest)[1..] == rest;
  }

  /** A backslash before the escaped word protects nothing unless the word is empty. */
  lemma EscapedHead(v: string, tail: string)
    requires tail != ""
    ensures var s := EscapeBare(v) + tail;
            if v == "" then s == tail else !Escapable(s[0])
  {
  }

  /** A character the lexer may meet between tokens and still be between tokens. */
  predicate Leads(c: char) {
    Escapable(c) || c == '\\'
  }

  /** Escapable characters and backslashes, then an ordinary character, then anything without a
      newline; a final backslash only before a newline or a carriage return. */
  predicate BareWord(v: string, term: char) {
    v != "" &&
    if Leads(v[0]) then BareWord(v[1..], term)
    else Ordinary(v[0]) && NoNewline(v) && (!EndsInBackslash(v) || IsNewline(term))
  }

  /** A single-quoted token in which nothing gets a backslash. */
  predicate QuotedWord(v: string, term: char) {
    && v != "" && v[0] == '\'' && SafeQuoted(v[1..]) && EndsQuoted(term)
    && forall i :: 0 < i < |v| ==> !Escapable(v[i])
  }

  /** The bare-word round trip: exactly which values are read back from their escaped text, for
      every value, every terminator of a word and every text after it. */
  lemma BareRoundTrip(v: string, term: char, q: string)
    requires EndsBare(term)
    ensures NextToken(EscapeBare(v) + [term] + q) == Lexeme(Normal, v, [term] + q)
            <==> BareWord(v, term) || QuotedWord(v, term)
  {
    hide Scan;
    ScanEscaped(v, "", [term] + q);
    assert EscapeBare(v) + [term] + q == EscapeBare(v) + ([term] + q) && "" + v == v;
  }

  lemma {:induction false} ScanEscaped(v: string, acc: string, tail: string)
    requires tail != "" && EndsBare(tail[0]) && (acc != "" ==> acc[0] != '\'')
    ensures Scan(EscapeBare(v) + tail, Initial, acc) == Lexeme(Normal, acc + v, tail)
            <==> BareWord(v, tail[0]) || (acc == "" && QuotedWord(v, tail[0]))
  {
    hide Scan;
    var s := EscapeBare(v) + tail;
    if v == "" {
      assert s == tail;
    } else {
      var c, rest := v[0], EscapeBare(v[1..]) + tail;
      assert acc + v == acc + [c] + v[1..];
      if Escapable(c) {
        assert s == ['\\', c] + rest;
        EscapedStep(c, rest, Initial, acc);
        ScanEscaped(v[1..], acc + [c], tail);
      } else {
        assert s == [c] + rest && rest != "";
        EscapedHead(v[1..], tail);
        if c == '\\' {
          BackslashStep(rest, acc);
          ScanEscaped(v[1..], acc + [c], tail);
        } else if c == '\'' {
          OpenStep(c, rest, acc);
          ScanSingle(v[1..], [c], tail);
          KeepsPrefix(rest, SingleQuote, [c]);
          assert acc != "" ==> (acc + v)[0] != [c][0];
        } else if c == '\"' || IsNewline(c) {
          NeverReadBack(v, acc, tail);
        } else {
          OrdinaryStep(c, rest, acc);
          ScanBare(v[1..], acc + [c], tail);
          NoNewlineHead(v);
          assert |v| > 1 ==> EndsInBackslash(v) == EndsInBackslash(v[1..]);
        }
      }
    }
  }

  lemma BackslashStep(rest: string, acc: string)
    requires rest != ""
    ensures Scan(['\\'] + rest, Initial, acc) ==
            if Escapable(rest[0]) then Scan(rest[1..], Initial, acc + [rest[0]])
            else Scan(rest, Initial, acc + ['\\'])
  {
    assert (['\\'] + rest)[1..] == rest;
  }

  lemma OpenStep(quote: char, rest: string, acc: string)
    requires IsQuote(quote)
    ensures Scan([quote] + rest, Initial, acc) ==
            Scan(rest, QuoteState(quote), if quote == '\"' then acc else [quote])
  {
    assert ([quote] + rest)[1..] == rest;
  }

  lemma OrdinaryStep(c: char, rest: string, acc: string)
    requires Ordinary(c)
    ensures Scan([c] + rest, Initial, acc) == Scan(rest, InWord, acc + [c])
  {
    assert ([c] + rest)[1..] == rest;
  }

  /** A double quote or a newline where a word should begin is used up, and nothing makes up
      for it. */
  lemma NeverReadBack(v: string, acc: string, tail: string)
    requires v != "" && (v[0] == '\"' || IsNewline(v[0]))
    ensures Scan(EscapeBare(v) + tail, Initial, acc) != Lexeme(Normal, acc + v, tail)
  {
    hide Scan, Count;
    var c, rest := v[0], EscapeBare(v[1..]) + tail;
    assert EscapeBare(v) + tail == [c] + rest;
    if c == '\"' {
      OpenStep(c, rest, acc);
      NothingDoubled(rest, DoubleQuote, acc, c);
    } else {
      ScanBlanks([c], acc, rest);
      NothingDoubled(rest, Initial, acc, c);
    }
    CountEscaped(v[1..], c);
    CountBoth(EscapeBare(v[1..]), tail, c);
    CountBoth(acc, v, c);
    CountFirst(v, c);
  }

  lemma {:induction false} CountEscaped(v: string, x: char)
    requires x != '\\'
    ensures Count(EscapeBare(v), x) == Count(v, x)
  {
    hide Count;
    if v == "" {
      assert EscapeBare(v) == v;
    } else {
      CountEscaped(v[1..], x);
      CountFirst(v, x);
      CountFirst(EscapeBare(v), x);
      if Escapable(v[0]) {
        CountFirst(EscapeBare(v)[1..], x);
        assert EscapeBare(v)[1..][1..] == EscapeBare(v[1..]);
      }
    }
  }

  lemma CountBoth(a: string, b: string, x: char)
    ensures Count(a + b, x) == Count(a, x) + Count(b, x)
  {
  }

  /** Inside quotes and words what was collected stays; a quoted token uses up something. */
  lemma {:induction false} KeepsPrefix(s: string, st: LexState, v: string)
    requires st in {SingleQuote, DoubleQuote, InWord}
    ensures var r := Scan(s, st, v);
            r.kind == Normal ==> v <= r.value && (st != InWord ==> |r.rest| < |s|)
    decreases |s|
  {
    if s != "" {
      var c, t := s[0], s[1..];
      KeepsPrefix(t, st, v + [c]);
      if t != "" {
        KeepsPrefix(t[1..], st, v + [t[0]]);
      }
    }
  }

  /** After a single quote the escaped text is read back if nothing in it was escaped. */
  lemma {:induction false} ScanSingle(u: string, acc: string, tail: string)
    requires tail != "" && EndsBare(tail[0])
    ensures Scan(EscapeBare(u) + tail, SingleQuote, acc) == Lexeme(Normal, acc + u, tail)
            <==> SafeQuoted(u) && EndsQuoted(tail[0]) && forall i :: 0 <= i < |u| ==> !Escapable(u[i])
  {
    hide Scan;
    var s := EscapeBare(u) + tail;
    if u == "" {
      assert s == tail;
      KeepsPrefix(s, SingleQuote, acc);
    } else {
      var c, rest := u[0], EscapeBare(u[1..]) + tail;
      assert acc + u == acc + [c] + u[1..];
      ScanSingle(u[1..], acc + [c], tail);
      if Escapable(c) {
        assert s == ['\\'] + ([c] + rest);
        QuotedStep('\\', [c] + rest, '\'', acc);
        KeepsPrefix([c] + rest, SingleQuote, acc + ['\\']);
        assert (acc + u)[|acc|] == c != '\\' == (acc + ['\\'])[|acc|];
      } else {
        assert s == [c] + rest && rest != "";
        EscapedHead(u[1..], tail);
        QuotedStep(c, rest, '\'', acc);
        KeepsPrefix(rest[1..], SingleQuote, acc + [rest[0]]);
        assert (acc + u)[|acc|] == c;
        assert (acc + [rest[0]])[|acc|] == rest[0];
      }
    }
  }

  lemma {:induction false} ScanPlain(u: string, acc: string, tail: string)
    requires forall i :: 0 <= i < |u| ==> !EndsBare(u[i]) && u[i] != '\\'
    ensures Scan(u + tail, InWord, acc) == Scan(tail, InWord, acc + u)
    decreases |u|
  {
    if u == "" {
      assert u + tail == tail && acc + u == acc;
    } else {
      ScanPlain(u[1..], acc + [u[0]], tail);
      assert (u + tail)[1..] == u[1..] + tail && acc + [u[0]] + u[1..] == acc + u;
    }
  }

  /** What ends a plain word, and nothing else does: a blank, a semicolon or a brace. */
  lemma BareTerminators(w: string, c: char, q: string)
    requires w != "" && Ordinary(w[0])
    requires forall i :: 0 <= i < |w| ==> !EndsBare(w[i]) && w[i] != '\\'
    ensures NextToken(w + [c] + q) == Lexeme(Normal, w, [c] + q)
            <==> c in {' ', '\t', '\n', '\r', ';', '{', '}'}
  {
    var tail := [c] + q;
    OrdinaryStep(w[0], w[1..] + tail, "");
    assert "" + [w[0]] == [w[0]];
    ScanPlain(w[1..], [w[0]], tail);
    assert w + [c] + q == [w[0]] + (w[1..] + tail) && [w[0]] + w[1..] == w;
    WordGoesOn(tail, w);
  }

  lemma WordGoesOn(s: string, acc: string)
    requires s != ""
    ensures Scan(s, InWord, acc) == Lexeme(Normal, acc, s) <==> EndsBare(s[0])
  {
  }

  /** Escapable characters and backslashes, none of which protects what follows. */
  predicate LeadingEscapes(lead: string) {
    (forall i :: 0 <= i < |lead| ==> Leads(lead[i])) && !EndsInBackslash(lead)
  }

  predicate Blank(w: string) {
    forall i :: 0 <= i < |w| ==> IsSpace(w[i])
  }

  /** Leading escapes leave the lexer between tokens: blanks after them do not end the word but
      are lost, and what comes next is read as if it were one word with them. */
  lemma LeadingEscapeJoinsWords(lead: string, w: string, s: string)
    requires LeadingEscapes(lead) && Blank(w)
    ensures NextToken(EscapeBare(lead) + (w + s)) == Scan(s, Initial, lead)
  {
    hide Scan;
    ScanLead(lead, "", w + s);
    ScanBlanks(w, lead, s);
    assert "" + lead == lead;
  }

  /** So the two words become one exactly when the second alone is read back as a bare word. */
  lemma JoinedWords(lead: string, w: string, v: string, term: char, q: string)
    requires lead != "" && LeadingEscapes(lead) && Blank(w) && EndsBare(term)
    ensures NextToken(EscapeBare(lead) + (w + (EscapeBare(v) + ([term] + q)))) == Lexeme(Normal, lead + v, [term] + q)
            <==> BareWord(v, term)
  {
    hide Scan, NextToken;
    LeadingEscapeJoinsWords(lead, w, EscapeBare(v) + ([term] + q));
    assert Leads(lead[0]);
    ScanEscaped(v, lead, [term] + q);
  }

  lemma {:induction false} ScanLead(lead: string, acc: string, s: string)
    requires LeadingEscapes(lead)
    ensures Scan(EscapeBare(lead) + s, Initial, acc) == Scan(s, Initial, acc + lead)
  {
    hide Scan;
    if lead == "" {
      assert EscapeBare(lead) + s == s && acc + lead == acc;
    } else {
      var c, rest := lead[0], EscapeBare(lead[1..]) + s;
      assert Leads(c);
      ScanLead(lead[1..], acc + [c], s);
      assert acc + lead == acc + [c] + lead[1..];
      if Escapable(c) {
        assert EscapeBare(lead) + s == ['\\', c] + rest;
        EscapedStep(c, rest, Initial, acc);
      } else {
        assert EscapeBare(lead) + s == [c] + rest;
        assert lead[1..] != "" && rest != "";
        BackslashStep(rest, acc);
      }
    }
  }

  lemma {:induction false} ScanBlanks(w: string, acc: string, s: string)
    requires Blank(w)
    ensures Scan(w + s, Initial, acc) == Scan(s, Initial, acc)
  {
    if w == "" {
      assert w + s == s;
    } else {
      ScanBlanks(w[1..], acc, s);
      assert (w + s)[1..] == w[1..] + s;
    }
  }

  // ---------------------------------------------------------------- print-safe tokens

  /** The characters of a bare word after the first that are read back as themselves. */
  predicate SafeWord(u: string) {
    u != "" ==>
      !EndsBare(u[0]) && (u[0] == '\\' ==> |u| > 1 && u[1] != '#') && SafeWord(u[1..])
  }

  /** A bare token read back as itself: leading backslashes, an ordinary character, a safe rest. */
  predicate SafeBare(tok: string) {
    tok != "" &&
    if tok[0] == '\\' then SafeBare(tok[1..]) else Ordinary(tok[0]) && SafeWord(tok[1..])
  }

  /** What follows an opening single quote: no quote but the closing one, which is not escaped. */
  predicate SafeQuoted(u: string) {
    u != "" &&
    if u[0] == '\'' then |u| == 1
    else (u[0] == '\\' ==> |u| > 1 && u[1] != '\'') && SafeQuoted(u[1..])
  }

  predicate PrintSafe(tok: string) {
    SafeBare(tok) || (tok != "" && tok[0] == '\'' && SafeQuoted(tok[1..]))
  }

  /** The characters the printer puts after a token. */
  predicate Separator(c: char) {
    c == ' ' || c == ';'
  }

  lemma {:induction false} SafeWordExact(u: string, v: string, tail: string)
    requires tail != "" && Separator(tail[0])
    ensures Scan(u + tail, InWord, v) == Lexeme(Normal, v + u, tail) <==> SafeWord(u)
  {
    var s := u + tail;
    if u == "" {
      assert s == tail && v + u == v;
    } else {
      var c := u[0];
      SafeWordExact(u[1..], v + [c], tail);
      assert s[1..] == u[1..] + tail && v + u == v + [c] + u[1..];
      if c == '\\' && Escapable(s[1]) {
        NothingInvented(s[1..][1..], InWord, v + [s[1]]);
      }
    }
  }

  lemma {:induction false} SafeQuotedExact(u: string, v: string, tail: string)
    requires tail != "" && Separator(tail[0])
    ensures Scan(u + tail, SingleQuote, v) == Lexeme(Normal, v + u, tail) <==> SafeQuoted(u)
  {
    var s := u + tail;
    if u == "" {
      assert s == tail;
    } else {
      var c := u[0];
      assert s[1..] == u[1..] + tail && v + u == v + [c] + u[1..];
      if c != '\'' {
        SafeQuotedExact(u[1..], v + [c], tail);
        if c == '\\' && s[1] == '\'' {
          NothingInvented(s[1..][1..], SingleQuote, v + [s[1]]);
        }
      }
    }
  }

  lemma {:induction false} SafeBareExact(tok: string, v: string, tail: string)
    requires tail != "" && Separator(tail[0])
    ensures Scan(tok + tail, Initial, v) == Lexeme(Normal, v + tok, tail)
            <==> SafeBare(tok) || (v == "" && PrintSafe(tok))
  {
    var s := tok + tail;
    if tok == "" {
      assert s == tail;
    } else {
      var c, t := tok[0], s[1..];
      assert t == tok[1..] + tail && v + tok == v + [c] + tok[1..];
      if c == '\\' {
        if Escapable(t[0]) {
          NothingInvented(t[1..], Initial, v + [t[0]]);
          assert |tok| > 1 ==> tok[1] == t[0];
          assert !SafeBare(tok[1..]);
        } else {
          SafeBareExact(tok[1..], v + [c], tail);
        }
      } else if c == '\'' {
        SafeQuotedExact(tok[1..], [c], tail);
        NothingInvented(t, SingleQuote, [c]);
      } else if c == '\"' {
        NothingInvented(t, DoubleQuote, v);
      } else if c == '#' {
        CommentIsNotNormal(t, [c]);
      } else if IsSpace(c) {
        NothingInvented(t, Initial, v);
      } else {
        SafeWordExact(tok[1..], v + [c], tail);
      }
    }
  }

  lemma {:induction false} CommentIsNotNormal(s: string, v: string)
    ensures Scan(s, InComment, v).kind == Comment || Scan(s, InComment, v).kind == Eof
    decreases |s|
  {
    if s != "" {
      CommentIsNotNormal(s[1..], v + [s[0]]);
    }
  }

  /** Print-safe is not a convenient restriction: it is exactly what the lexer reads back. */
  lemma PrintSafeExact(tok: string, sep: char, q: string)
    requires Separator(sep)
    ensures NextToken(tok + [sep] + q) == Lexeme(Normal, tok, [sep] + q) <==> PrintSafe(tok)
  {
    SafeBareExact(tok, "", [sep] + q);
    assert tok + ([sep] + q) == tok + [sep] + q;
    assert "" + tok == tok;
  }
}
