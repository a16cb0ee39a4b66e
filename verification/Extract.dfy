/** The two extractors that search the printed text of each top-level statement, and the
    searches of the tree they stand for. */
module Extract {
  import opened Strings
  import opened Lexer
  import opened Quoting
  import opened TokenStream
  import opened ConfigTree
  import opened Grammar
  import opened ConfigHeap

  // ---------------------------------------------------------------- the text search

  /** The text after the first occurrence of `kw`. */
  function After(s: string, kw: string): Option<string> {
    if kw <= s then Some(s[|kw|..])
    else if s == "" then None
    else After(s[1..], kw)
  }

  const BLANKS := {' ', '\t', '\n', '\r'}
  const STOPS := {' ', '\t', ';'}

  function SkipBlanks(s: string): string {
    if s != "" && s[0] in BLANKS then SkipBlanks(s[1..]) else s
  }

  function UntilStop(s: string): string {
    if s == "" || s[0] in STOPS then "" else [s[0]] + UntilStop(s[1..])
  }

  /** The text between the blanks that start `s` and the first blank, tab or semicolon after. */
  function Field(s: string): string {
    UntilStop(SkipBlanks(s))
  }

  lemma {:induction false} AfterIsFind(s: string, kw: string, from: nat)
    requires from <= |s|
    requires kw != ""
    ensures match Find(s, kw, from)
            case None => After(s[from..], kw) == None
            case Some(p) => After(s[from..], kw) == Some(s[p + |kw|..])
    decreases |s| - from
  {
    if from + |kw| > |s| {
      AfterTooShort(s[from..], kw);
    } else if s[from..from + |kw|] == kw {
      assert kw <= s[from..];
      assert s[from..][|kw|..] == s[from + |kw|..];
    } else {
      assert s[from..][..|kw|] == s[from..from + |kw|];
      assert s[from..][1..] == s[from + 1..];
      AfterIsFind(s, kw, from + 1);
    }
  }

  lemma {:induction false} AfterTooShort(s: string, kw: string)
    requires |s| < |kw|
    ensures After(s, kw) == None
    decreases |s|
  {
    if s != "" {
      AfterTooShort(s[1..], kw);
    }
  }

  lemma {:induction false} SkipBlanksIsFind(s: string, from: nat)
    requires from <= |s|
    ensures match FindFirstNotOf(s, BLANKS, from)
            case None => SkipBlanks(s[from..]) == ""
            case Some(p) => SkipBlanks(s[from..]) == s[p..]
    decreases |s| - from
  {
    if from < |s| {
      assert s[from..][1..] == s[from + 1..];
      if s[from] in BLANKS {
        SkipBlanksIsFind(s, from + 1);
      }
    }
  }

  lemma {:induction false} UntilStopIsFind(s: string, from: nat)
    requires from <= |s|
    ensures match FindFirstOf(s, STOPS, from)
            case None => UntilStop(s[from..]) == s[from..]
            case Some(p) => UntilStop(s[from..]) == s[from..p]
    decreases |s| - from
  {
    if from < |s| {
      assert s[from..][1..] == s[from + 1..];
      assert s[from..] == [s[from]] + s[from + 1..];
      if s[from] !in STOPS {
        UntilStopIsFind(s, from + 1);
      }
    }
  }

  // ---------------------------------------------------------------- the tree search

  /** What follows a keyword in its own statement. */
  datatype Follow = Next(token: string) | Ends | Opens

  function InTokens(tokens: seq<string>, kw: string): Option<Option<string>> {
    if tokens == [] then None
    else if tokens[0] == kw then Some(if |tokens| > 1 then Some(tokens[1]) else None)
    else InTokens(tokens[1..], kw)
  }

  /** What follows the first `kw`, in the order in which the statements are written. */
  function FollowIn(s: Stmt, kw: string): Option<Follow>
    decreases s
  {
    match InTokens(s.tokens, kw)
    case Some(Some(t)) => Some(Next(t))
    case Some(None) => Some(if s.Simple? then Ends else Opens)
    case None => if s.Simple? then None else FollowInAll(s.body, kw)
  }

  function FollowInAll(stmts: seq<Stmt>, kw: string): Option<Follow>
    decreases stmts
  {
    if stmts == [] then None
    else if FollowIn(stmts[0], kw).Some? then FollowIn(stmts[0], kw)
    else FollowInAll(stmts[1..], kw)
  }

  /** A keyword of the configuration contains none of the characters the printer adds. */
  predicate Keyword(kw: string) {
    kw != "" && forall i :: 0 <= i < |kw| ==> kw[i] !in {' ', '\n', ';', '{', '}'}
  }

  lemma AfterSeparator(c: char, q: string, kw: string)
    requires Keyword(kw) && c in {' ', '\n', ';', '{', '}'}
    ensures After([c] + q, kw) == After(q, kw)
  {
    assert ([c] + q)[1..] == q;
    assert kw[0] != c;
  }

  lemma {:induction false} AfterWord(t: string, q: string, kw: string)
    requires Keyword(kw) && q != "" && Separator(q[0])
    ensures After(t + q, kw) == match After(t, kw) case Some(r) => Some(r + q) case None => After(q, kw)
    decreases |t|
  {
    if kw <= t {
      assert (t + q)[|kw|..] == t[|kw|..] + q && kw <= t + q;
    } else if t == "" {
      assert t + q == q;
    } else {
      assert (t + q)[1..] == t[1..] + q;
      assert |kw| <= |t| ==> (t + q)[..|kw|] == t[..|kw|];
      assert |kw| > |t| ==> (t + q)[|t|] == q[0] != kw[|t|];
      AfterWord(t[1..], q, kw);
    }
  }

  // ---------------------------------------------------------------- where the text search lands

  /** The token in which a text search first meets the keyword, the part of it after the keyword,
      the tokens after it in its statement, and what is read where the statement ends. */
  datatype Hit = Hit(token: string, rest: string, later: seq<string>, end: string) {
    /** The field after the keyword. */
    function Read(): string {
      FieldOf(rest, later, end)
    }
  }

  /** The field that starts in `r`: up to its first stop if it has more than blanks, and else the
      field of the next token, or of the end of the statement. */
  function FieldOf(r: string, later: seq<string>, end: string): string
    decreases |later|
  {
    if SkipBlanks(r) != "" then UntilStop(SkipBlanks(r))
    else if later == [] then end
    else FieldOf(later[0], later[1..], end)
  }

  /** What is read at the end of a statement: nothing before a semicolon, a brace before a block. */
  function EndField(s: Stmt, depth: int): string {
    if s.Simple? then "" else if s.body == [] && depth <= 0 then "{\n}\n" else "{\n"
  }

  function LandIn(tokens: seq<string>, kw: string, end: string): Option<Hit> {
    if tokens == [] then None
    else match After(tokens[0], kw)
         case Some(rest) => Some(Hit(tokens[0], rest, tokens[1..], end))
         case None => LandIn(tokens[1..], kw, end)
  }

  /** The first token with the keyword in it, in the order in which the statements are written. */
  function Land(s: Stmt, depth: int, kw: string): Option<Hit>
    decreases s
  {
    match LandIn(s.tokens, kw, EndField(s, depth))
    case Some(h) => Some(h)
    case None => if s.Simple? then None else LandAll(s.body, depth + 1, kw)
  }

  function LandAll(stmts: seq<Stmt>, depth: int, kw: string): Option<Hit>
    decreases stmts
  {
    if stmts == [] then None
    else if Land(stmts[0], depth, kw).Some? then Land(stmts[0], depth, kw)
    else LandAll(stmts[1..], depth, kw)
  }

  lemma {:induction false} SkipBlanksOf(r: string, q: string)
    ensures SkipBlanks(r + q) == if SkipBlanks(r) != "" then SkipBlanks(r) + q else SkipBlanks(q)
    decreases |r|
  {
    if r == "" {
      assert r + q == q;
    } else {
      assert (r + q)[1..] == r[1..] + q;
      SkipBlanksOf(r[1..], q);
    }
  }

  predicate NoStops(t: string) {
    forall i :: 0 <= i < |t| ==> t[i] !in STOPS
  }

  lemma {:induction false} UntilStopOf(t: string, q: string)
    requires q != "" && q[0] in STOPS
    ensures UntilStop(t + q) == UntilStop(t)
    ensures UntilStop(t) == t <==> NoStops(t)
    decreases |t|
  {
    if t == "" {
      assert t + q == q;
    } else {
      assert (t + q)[1..] == t[1..] + q && t == [t[0]] + t[1..];
      UntilStopOf(t[1..], q);
    }
  }

  lemma FieldWord(r: string, q: string)
    requires q != "" && Separator(q[0])
    ensures Field(r + q) == if SkipBlanks(r) != "" then UntilStop(SkipBlanks(r)) else Field(q)
  {
    SkipBlanksOf(r, q);
    UntilStopOf(SkipBlanks(r), q);
  }

  lemma {:induction false} FieldWords(r: string, tokens: seq<string>, q: string)
    requires q != "" && Separator(q[0])
    ensures Field(r + (if tokens == [] then q else [' '] + (Join(tokens) + q))) == FieldOf(r, tokens, Field(q))
    decreases |tokens|
  {
    hide SkipBlanks, UntilStop, Field, Join;
    if tokens == [] {
      FieldWord(r, q);
    } else {
      var x := Join(tokens) + q;
      FieldWord(r, [' '] + x);
      SkipOneBlank(x);
      FieldWords(tokens[0], tokens[1..], q);
      JoinFirst(tokens, q);
    }
  }

  lemma JoinFirst(tokens: seq<string>, q: string)
    requires tokens != []
    ensures Join(tokens) + q == tokens[0] + if |tokens| == 1 then q else [' '] + (Join(tokens[1..]) + q)
  {
    if |tokens| > 1 {
      JoinCons(tokens);
      BlankBetween(tokens[0], Join(tokens[1..]), q);
    }
  }

  lemma BlankBetween(t: string, u: string, q: string)
    ensures t + " " + u + q == t + ([' '] + (u + q))
  {
  }

  lemma SkipOneBlank(x: string)
    ensures Field([' '] + x) == Field(x)
  {
    assert ([' '] + x)[1..] == x;
  }

  /** `x`, the text after the first keyword of a printed piece, starts with the field of the
      landing; without a keyword in the piece the search goes on in `q`. */
  predicate Agree(x: Option<string>, h: Option<Hit>, q: string, kw: string) {
    match h
    case None => x == After(q, kw)
    case Some(g) => x.Some? && Field(x.value) == g.Read()
  }

  lemma {:induction false} AfterWords(tokens: seq<string>, q: string, kw: string)
    requires Keyword(kw) && tokens != [] && q != "" && Separator(q[0])
    ensures Agree(After(Join(tokens) + q, kw), LandIn(tokens, kw, Field(q)), q, kw)
    decreases |tokens|
  {
    hide After, Field;
    var t := tokens[0];
    var rest := if |tokens| == 1 then q else [' '] + (Join(tokens[1..]) + q);
    JoinFirst(tokens, q);
    AfterWord(t, rest, kw);
    if After(t, kw).Some? {
      FieldWords(After(t, kw).value, tokens[1..], q);
    } else if |tokens| > 1 {
      AfterSeparator(' ', Join(tokens[1..]) + q, kw);
      AfterWords(tokens[1..], q, kw);
    } else {
      assert LandIn(tokens[1..], kw, Field(q)) == None;
    }
  }

  lemma {:induction false} AfterBlanks(w: string, q: string, kw: string)
    requires Keyword(kw) && forall i :: 0 <= i < |w| ==> w[i] == ' '
    ensures After(w + q, kw) == After(q, kw)
    decreases |w|
  {
    if w == "" {
      assert w + q == q;
    } else {
      assert w + q == [w[0]] + (w[1..] + q);
      AfterSeparator(' ', w[1..] + q, kw);
      AfterBlanks(w[1..], q, kw);
    }
  }

  /** At the end of a statement the text shows what `EndField` says, also if other text follows,
      unless the statement is not indented. */
  lemma FieldOfEnd(s: Stmt, depth: int, q: string)
    requires depth >= 0 && (depth == 0 ==> q == "")
    ensures Field(PrintEnd(s, depth) + q) == EndField(s, depth)
  {
    hide Field, UntilStop, Print, Indent;
    match s
    case Simple(_) =>
      StopsAtOnce(';', ['\n'] + q);
      assert PrintEnd(s, depth) + q == [';'] + (['\n'] + q);
    case Block(_, body) =>
      var inner := Print(body, depth + 1) + (Indent(depth) + (['}'] + (['\n'] + q)));
      BlockText(s, depth, q);
      ShowsBrace(inner);
      if body != [] {
        PrintStartsBlank(body, depth + 1);
        StopsAtOnce(' ', inner[1..]);
        assert inner == [' '] + inner[1..];
      } else {
        assert Print(body, depth + 1) == "" by { PrintNothing(depth + 1); }
        assert inner == Indent(depth) + ("}\n" + q);
        if depth > 0 {
          IndentStartsBlank(depth);
          StopsAtOnce(' ', inner[1..]);
          assert inner == [' '] + inner[1..];
        } else {
          PrintNothing(depth);
          assert inner == "}\n";
        }
      }
  }

  lemma PrintNothing(depth: int)
    ensures Print([], depth) == ""
    ensures depth <= 0 ==> Indent(depth) == ""
    ensures UntilStop("}\n") == "}\n"
  {
    assert "}\n"[1..] == "\n" && "\n"[1..] == "";
  }

  lemma StopsAtOnce(c: char, x: string)
    requires c in STOPS
    ensures UntilStop([c] + x) == ""
    ensures c == ';' ==> Field([c] + x) == ""
  {
  }

  lemma ShowsBrace(x: string)
    ensures Field([' '] + (['{'] + (['\n'] + x))) == "{\n" + UntilStop(x)
  {
    hide UntilStop, Field;
    SkipOneBlank(['{'] + (['\n'] + x));
    NoStopFirst('\n', x);
    NoStopFirst('{', ['\n'] + x);
    assert ['{'] + (['\n'] + UntilStop(x)) == "{\n" + UntilStop(x);
  }

  lemma NoStopFirst(c: char, x: string)
    requires c !in STOPS
    ensures UntilStop([c] + x) == [c] + UntilStop(x)
    ensures c !in BLANKS ==> Field([c] + x) == [c] + UntilStop(x)
  {
    assert ([c] + x)[1..] == x;
  }

  lemma {:induction false} IndentStartsBlank(depth: int)
    requires depth > 0
    ensures Indent(depth) != "" && Indent(depth)[0] == ' '
    decreases depth
  {
    if depth > 1 {
      IndentStartsBlank(depth - 1);
    }
  }

  lemma PrintStartsBlank(stmts: seq<Stmt>, depth: int)
    requires stmts != [] && depth > 0
    ensures Print(stmts, depth) != "" && Print(stmts, depth)[0] == ' '
  {
    IndentStartsBlank(depth);
  }

  lemma {:induction false} AfterStmt(s: Stmt, depth: int, q: string, kw: string)
    requires Keyword(kw) && depth >= 0 && (depth == 0 ==> q == "")
    ensures Agree(After(PrintStmt(s, depth) + q, kw), Land(s, depth, kw), q, kw)
    decreases s
  {
    hide After, Field;
    var end := PrintEnd(s, depth) + q;
    assert PrintStmt(s, depth) + q == Indent(depth) + (Join(s.tokens) + end);
    IndentIsBlank(depth);
    AfterBlanks(Indent(depth), Join(s.tokens) + end, kw);
    assert end[0] == PrintEnd(s, depth)[0];
    FieldOfEnd(s, depth, q);
    if s.tokens == [] {
      assert Join(s.tokens) + end == end;
    } else {
      AfterWords(s.tokens, end, kw);
    }
    if LandIn(s.tokens, kw, EndField(s, depth)) == None {
      AfterEnd(s, depth, q, kw);
    }
  }

  lemma {:induction false} AfterEnd(s: Stmt, depth: int, q: string, kw: string)
    requires Keyword(kw) && depth >= 0
    requires LandIn(s.tokens, kw, EndField(s, depth)) == None
    ensures Agree(After(PrintEnd(s, depth) + q, kw), Land(s, depth, kw), q, kw)
    decreases s, 0
  {
    hide After, Field;
    AfterSeparator('\n', q, kw);
    match s
    case Simple(_) =>
      assert PrintEnd(s, depth) + q == [';'] + (['\n'] + q);
      AfterSeparator(';', ['\n'] + q, kw);
    case Block(_, body) =>
      var close := Indent(depth) + (['}'] + (['\n'] + q));
      var inner := Print(body, depth + 1) + close;
      BlockText(s, depth, q);
      AfterSeparator(' ', ['{'] + (['\n'] + inner), kw);
      AfterSeparator('{', ['\n'] + inner, kw);
      AfterSeparator('\n', inner, kw);
      AfterPrint(body, depth + 1, close, kw);
      IndentIsBlank(depth);
      AfterBlanks(Indent(depth), ['}'] + (['\n'] + q), kw);
      AfterSeparator('}', ['\n'] + q, kw);
  }

  lemma {:induction false} AfterPrint(stmts: seq<Stmt>, depth: int, q: string, kw: string)
    requires Keyword(kw) && depth > 0
    ensures Agree(After(Print(stmts, depth) + q, kw), LandAll(stmts, depth, kw), q, kw)
    decreases stmts
  {
    hide After, Field;
    if stmts == [] {
      assert Print(stmts, depth) + q == q;
    } else {
      var rest := Print(stmts[1..], depth) + q;
      assert Print(stmts, depth) + q == PrintStmt(stmts[0], depth) + rest;
      AfterStmt(stmts[0], depth, rest, kw);
      AfterPrint(stmts[1..], depth, q, kw);
    }
  }

  /** The search of one statement's text: it finds the keyword if and only if the statement has a
      landing, and the field it reads then is that of the landing. */
  lemma TextLands(s: Stmt, kw: string)
    requires Keyword(kw)
    ensures match Land(s, 0, kw)
            case None => After(PrintStmt(s, 0), kw) == None
            case Some(h) => After(PrintStmt(s, 0), kw).Some? && Field(After(PrintStmt(s, 0), kw).value) == h.Read()
  {
    hide PrintStmt;
    AfterStmt(s, 0, "", kw);
    assert PrintStmt(s, 0) + "" == PrintStmt(s, 0);
    AfterTooShort("", kw);
  }

  // ---------------------------------------------------------------- landing on the keyword itself

  /** What the tree search finds where a landing is the keyword itself. */
  function FollowOf(h: Hit): Follow {
    if h.later != [] then Next(h.later[0]) else if h.end == "" then Ends else Opens
  }

  lemma {:induction false} LandInWhole(tokens: seq<string>, kw: string, end: string)
    ensures match LandIn(tokens, kw, end)
            case None => InTokens(tokens, kw) == None
            case Some(h) =>
              && (h.token == kw ==> h.rest == "")
              && (h.token == kw ==> InTokens(tokens, kw) == Some(if h.later != [] then Some(h.later[0]) else None))
              && h.end == end
  {
    if tokens != [] {
      assert tokens[0] == kw ==> kw <= tokens[0] && kw[|kw|..] == "";
      if After(tokens[0], kw) == None {
        LandInWhole(tokens[1..], kw, end);
      }
    }
  }

  /** No landing, no keyword; and a landing that is the keyword is what the tree search finds. */
  lemma {:induction false} LandWhole(s: Stmt, depth: int, kw: string)
    ensures match Land(s, depth, kw)
            case None => FollowIn(s, kw) == None
            case Some(h) => h.token == kw ==> h.rest == "" && FollowIn(s, kw) == Some(FollowOf(h))
    decreases s
  {
    LandInWhole(s.tokens, kw, EndField(s, depth));
    if LandIn(s.tokens, kw, EndField(s, depth)) == None && s.Block? {
      LandAllWhole(s.body, depth + 1, kw);
    }
  }

  lemma {:induction false} LandAllWhole(stmts: seq<Stmt>, depth: int, kw: string)
    ensures match LandAll(stmts, depth, kw)
            case None => FollowInAll(stmts, kw) == None
            case Some(h) => h.token == kw ==> h.rest == "" && FollowInAll(stmts, kw) == Some(FollowOf(h))
    decreases stmts
  {
    if stmts != [] {
      LandWhole(stmts[0], depth, kw);
      LandAllWhole(stmts[1..], depth, kw);
    }
  }

  /** A token that is read as it is. */
  predicate Clean(t: string) {
    && t != "" && t[0] !in {' ', '\t', '\n', '\r'}
    && forall i :: 0 <= i < |t| ==> t[i] !in {' ', '\t', ';'}
  }

  /** Bare tokens are clean. */
  lemma {:induction false} BareIsClean(t: string)
    requires SafeBare(t)
    ensures Clean(t) && !EndsBare(t[0])
  {
    if t[0] == '\\' {
      BareIsClean(t[1..]);
    } else {
      WordHasNoStops(t[1..]);
    }
  }

  lemma {:induction false} WordHasNoStops(t: string)
    requires SafeWord(t)
    ensures NoStops(t)
  {
    if t != "" {
      WordHasNoStops(t[1..]);
    }
  }

  /** What is read of the next token is that token exactly if it is clean. Only an empty one may
      also be read as empty, where there is nothing after it. */
  lemma ReadNext(h: Hit)
    requires h.rest == "" && h.later != [] && h.end in {"", "{\n", "{\n}\n"}
    ensures h.Read() == h.later[0] <==> Clean(h.later[0]) || (h.later[0] == "" == h.Read())
  {
    var t := h.later[0];
    assert h.Read() == FieldOf(t, h.later[1..], h.end);
    if t != "" {
      UntilStopOf(SkipBlanks(t), ";");
      SkipBlanksHead(t);
      ReadHead(t, h.later[1..], h.end);
    }
  }

  lemma {:induction false} SkipBlanksHead(s: string)
    ensures SkipBlanks(s) == "" || SkipBlanks(s)[0] !in BLANKS
    ensures s != "" && s[0] !in BLANKS ==> SkipBlanks(s) == s
  {
    if s != "" && s[0] in BLANKS {
      SkipBlanksHead(s[1..]);
    }
  }

  lemma {:induction false} ReadHead(r: string, later: seq<string>, end: string)
    requires end in {"", "{\n", "{\n}\n"}
    ensures var f := FieldOf(r, later, end); f == "" || f[0] !in BLANKS
    decreases |later|
  {
    SkipBlanksHead(r);
    if SkipBlanks(r) == "" && later != [] {
      ReadHead(later[0], later[1..], end);
    }
  }

  // ---------------------------------------------------------------- the scan of a field

  /** `s.substr(start, end - start)`, where no `end` means the end of the text. */
  function Substr(s: string, start: nat, end: Option<nat>): string
    requires start <= |s| && (end.Some? ==> start <= end.value <= |s|)
  {
    if end.Some? then s[start..end.value] else s[start..]
  }

  /** The two searches and the substring of both extractors compute the field. */
  lemma FieldIsSubstr(s: string, pos: nat)
    requires pos <= |s|
    ensures var start := FindFirstNotOf(s, BLANKS, pos);
            var end := if start.None? then None else FindFirstOf(s, STOPS, start.value);
            && (end == start <==> Field(s[pos..]) == "")
            && (start.Some? ==> Substr(s, start.value, end) == Field(s[pos..]))
  {
    SkipBlanksIsFind(s, pos);
    var start := FindFirstNotOf(s, BLANKS, pos);
    if start.Some? {
      UntilStopIsFind(s, start.value);
    }
  }

  const DIGITS := {'0', '1', '2', '3', '4', '5', '6', '7', '8', '9'}

  lemma DigitsAreDigits(s: string)
    ensures AllDigits(s) <==> FindFirstNotOf(s, DIGITS, 0).None?
  {
  }

  // ---------------------------------------------------------------- the port number

  /** The answer of `GetPortNumber`: false, true with a port, or the out-of-range exception
      that `stoi` throws for digits beyond an int. */
  datatype PortResult = Rejected | Found(port: nat) | Throws

  const INT_MAX := 0x7FFF_FFFF

  /** What becomes of the text found where the port should be. */
  function ReadPort(field: string): (r: PortResult)
    ensures r.Found? ==> r.port <= 65535
  {
    if field == "" || !AllDigits(field) then Rejected
    else if Value(field) > INT_MAX then Throws
    else if Value(field) > 65535 then Rejected
    else Found(Value(field))
  }

  /** What the statements' printed texts, searched in order, say of the port. */
  function PortOfText(stmts: seq<Stmt>, kw: string): (r: PortResult)
    ensures r.Found? ==> r.port <= 65535
  {
    if stmts == [] then Rejected
    else match After(PrintStmt(stmts[0], 0), kw)
         case Some(x) => ReadPort(Field(x))
         case None => PortOfText(stmts[1..], kw)
  }

  /** What the tree says: the token after the first keyword in the file, in its own statement. */
  function PortOfTree(stmts: seq<Stmt>, kw: string): PortResult {
    match FollowInAll(stmts, kw)
    case Some(Next(t)) => ReadPort(t)
    case _ => Rejected
  }

  /** `port_number = int_port` into a 16-bit `short`, and back out as an unsigned one. */
  function AsShort(n: nat): int
    requires n <= 65535
  {
    if n < 0x8000 then n else n - 0x1_0000
  }

  lemma ShortReadsBack(n: nat)
    requires n <= 65535
    ensures -0x8000 <= AsShort(n) < 0x8000 && AsShort(n) % 0x1_0000 == n
  {
  }

  method GetPortNumber(config: NginxConfig, portType: string, portNumber: int)
    returns (result: PortResult, portNumber': int)
    requires config.Valid() && portType in {"HTTP", "HTTPS"}
    ensures portType == "HTTP" ==> result == PortOfText(config.Tree, "listen")
    ensures portType == "HTTPS" ==> result == PortOfText(config.Tree, "ssl-port")
    ensures portNumber' == if result.Found? then AsShort(result.port) else portNumber
  {
    hide PrintStmt, StmtIs, After, PortOfText, Field, FindFirstOf, FindFirstNotOf, AllDigits;
    var statements := config.statements;
    ghost var kw := if portType == "HTTP" then "listen" else "ssl-port";
    PortNext(config.Tree, 0, kw);
    for i := 0 to |statements|
      invariant PortOfText(config.Tree, kw) == PortOfText(config.Tree[i..], kw)
    {
      var portStatement := statements[i].ToString(0, config.Tree[i], config.Repr - {config});
      PortNext(config.Tree, i, kw);
      var portPos: Option<nat> := None;
      if portType == "HTTP" {
        portPos := Find(portStatement, "listen", 0);
      }
      if portType == "HTTPS" {
        portPos := Find(portStatement, "ssl-port", 0);
      }
      AfterIsFind(portStatement, kw, 0);
      assert portStatement[0..] == portStatement;
      if portPos.Some? {
        var pos := portPos.value + if portType == "HTTP" then 6 else 8;
        var start := FindFirstNotOf(portStatement, BLANKS, pos);
        var end := if start.None? then None else FindFirstOf(portStatement, STOPS, start.value);
        FieldIsSubstr(portStatement, pos);
        if end == start {
          return Rejected, portNumber;
        }
        var port := Substr(portStatement, start.value, end);
        DigitsAreDigits(port);
        if FindFirstNotOf(port, DIGITS, 0).Some? {
          return Rejected, portNumber;
        }
        var intPort := Value(port);
        if intPort > INT_MAX {
          return Throws, portNumber;
        }
        if intPort > 65535 {
          return Rejected, portNumber;
        }
        return Found(intPort), AsShort(intPort);
      }
    }
    PortNext(config.Tree, |statements|, kw);
    return Rejected, portNumber;
  }

  lemma PortNext(stmts: seq<Stmt>, i: nat, kw: string)
    requires i <= |stmts|
    ensures stmts[0..] == stmts
    ensures PortOfText(stmts[i..], kw) ==
            if i == |stmts| then Rejected
            else match After(PrintStmt(stmts[i], 0), kw)
                 case Some(x) => ReadPort(Field(x))
                 case None => PortOfText(stmts[i + 1..], kw)
  {
    if i < |stmts| {
      assert stmts[i..][1..] == stmts[i + 1..];
    }
  }

  // ---------------------------------------------------------------- text and tree

  /** Whatever the tree, the port is what is read where the first token with the keyword in it
      lands the search. */
  lemma {:induction false} PortScanReads(stmts: seq<Stmt>, kw: string)
    requires Keyword(kw)
    ensures PortOfText(stmts, kw) == match LandAll(stmts, 0, kw) case Some(h) => ReadPort(h.Read()) case None => Rejected
    decreases |stmts|
  {
    hide After, PrintStmt, Land;
    if stmts != [] {
      TextLands(stmts[0], kw);
      PortScanReads(stmts[1..], kw);
    }
  }

  /** The text scan finds the port the tree search finds if and only if: there is nothing to find;
      or the first token with the keyword in it is the keyword, and ends its statement, or is
      followed by a clean token, or what is read is no port; or it is a longer word, and the port
      read after it is the one that follows the keyword elsewhere, or neither is a port. */
  lemma PortScanIsTreeSearch(stmts: seq<Stmt>, kw: string)
    requires Keyword(kw)
    ensures PortOfText(stmts, kw) == PortOfTree(stmts, kw)
            <==> match LandAll(stmts, 0, kw)
                 case None => true
                 case Some(h) =>
                   if h.token == kw then h.later == [] || Clean(h.later[0]) || ReadPort(h.Read()) == Rejected
                   else
                     match FollowInAll(stmts, kw)
                     case Some(Next(t)) => ReadPort(h.Read()) == ReadPort(t)
                     case _ => ReadPort(h.Read()) == Rejected
  {
    hide Land, LandAll, FollowIn, FollowInAll;
    PortScanReads(stmts, kw);
    LandAllWhole(stmts, 0, kw);
    LandEnd(stmts, 0, kw);
    if LandAll(stmts, 0, kw).Some? {
      var h := LandAll(stmts, 0, kw).value;
      if h.token == kw && h.later != [] {
        ReadNext(h);
        NumberIsClean(h.later[0]);
      }
    }
  }

  /** What can be read off the file: every token with the keyword in it is the keyword, and has a
      clean token after it or ends a statement without a block. */
  predicate Tidy(stmts: seq<Stmt>, kw: string) {
    forall i :: 0 <= i < |stmts| ==> TidyStmt(stmts[i], kw)
  }

  predicate TidyStmt(s: Stmt, kw: string) {
    TidyTokens(s.tokens, kw, s.Simple?) && (s.Block? ==> Tidy(s.body, kw))
  }

  predicate TidyTokens(tokens: seq<string>, kw: string, mayEnd: bool) {
    tokens != [] ==>
      && (After(tokens[0], kw).Some? ==>
           tokens[0] == kw && if |tokens| > 1 then Clean(tokens[1]) else mayEnd)
      && TidyTokens(tokens[1..], kw, mayEnd)
  }

  /** The landing is the keyword, with a clean token or a semicolon after it. */
  predicate TidyHit(h: Option<Hit>, kw: string) {
    h.Some? ==> h.value.token == kw && if h.value.later == [] then h.value.end == "" else Clean(h.value.later[0])
  }

  lemma {:induction false} TidyLandIn(tokens: seq<string>, kw: string, end: string, mayEnd: bool)
    requires TidyTokens(tokens, kw, mayEnd) && (mayEnd ==> end == "")
    ensures TidyHit(LandIn(tokens, kw, end), kw)
  {
    hide After, Clean;
    if tokens != [] && After(tokens[0], kw) == None {
      TidyLandIn(tokens[1..], kw, end, mayEnd);
    }
  }

  lemma {:induction false} TidyLand(s: Stmt, depth: int, kw: string)
    requires TidyStmt(s, kw)
    ensures TidyHit(Land(s, depth, kw), kw)
    decreases s
  {
    hide After, Clean;
    TidyLandIn(s.tokens, kw, EndField(s, depth), s.Simple?);
    if s.Block? {
      TidyLandAll(s.body, depth + 1, kw);
    }
  }

  lemma {:induction false} TidyLandAll(stmts: seq<Stmt>, depth: int, kw: string)
    requires Tidy(stmts, kw)
    ensures TidyHit(LandAll(stmts, depth, kw), kw)
    decreases stmts
  {
    hide After, Clean, TidyStmt;
    if stmts != [] {
      TidyLand(stmts[0], depth, kw);
      TidyLandAll(stmts[1..], depth, kw);
    }
  }

  /** Such files hold no surprises for either extractor. */
  lemma TidyFilesAgree(stmts: seq<Stmt>, kw: string, path: string)
    requires Keyword(kw) && Tidy(stmts, kw)
    ensures PortOfText(stmts, kw) == PortOfTree(stmts, kw)
    ensures PathOfText(stmts, kw, path) == PathOfTree(stmts, kw, path)
  {
    hide Tidy, Clean, LandAll, LastLand;
    TidyLandAll(stmts, 0, kw);
    PortScanIsTreeSearch(stmts, kw);
    TidyLastLand(stmts, kw);
    PathScanIsTreeSearch(stmts, kw, path);
  }

  lemma {:induction false} TidyLastLand(stmts: seq<Stmt>, kw: string)
    requires Tidy(stmts, kw)
    ensures TidyHit(LastLand(stmts, kw), kw)
    decreases |stmts|
  {
    hide Clean, TidyStmt;
    if stmts != [] {
      TidyLand(stmts[|stmts| - 1], 0, kw);
      TidyLastLand(stmts[..|stmts| - 1], kw);
    }
  }

  /** Which numerals are ports, and what becomes of the others. */
  lemma NumeralAsPort(n: nat)
    ensures ReadPort(DecOf(n)) ==
            if n <= 65535 then Found(n) else if n <= 2147483647 then Rejected else Throws
  {
  }

  lemma NumberIsClean(t: string)
    ensures ReadPort(t) != Rejected ==> Clean(t)
  {
  }

  lemma {:induction false} LandEnd(stmts: seq<Stmt>, depth: int, kw: string)
    ensures var h := LandAll(stmts, depth, kw); h.Some? ==> h.value.end in {"", "{\n", "{\n}\n"}
    decreases stmts
  {
    if stmts != [] {
      var s := stmts[0];
      LandInWhole(s.tokens, kw, EndField(s, depth));
      if s.Block? {
        LandEnd(s.body, depth + 1, kw);
      }
      LandEnd(stmts[1..], depth, kw);
    }
  }

  // ---------------------------------------------------------------- what a file configures

  /** No token of the tree has the keyword in it, at any position. */
  predicate Silent(stmts: seq<Stmt>, kw: string) {
    forall i :: 0 <= i < |stmts| ==> SilentStmt(stmts[i], kw)
  }

  predicate SilentStmt(s: Stmt, kw: string) {
    && (forall t, i :: t in s.tokens && 0 <= i <= |t| ==> !OccursAt(t, kw, i))
    && (s.Block? ==> Silent(s.body, kw))
  }

  lemma {:induction false} SilentLandIn(tokens: seq<string>, kw: string, end: string)
    requires kw != "" && forall t, i :: t in tokens && 0 <= i <= |t| ==> !OccursAt(t, kw, i)
    ensures LandIn(tokens, kw, end) == None
  {
    if tokens != [] {
      var t := tokens[0];
      AfterIsFind(t, kw, 0);
      assert t[0..] == t;
      SilentLandIn(tokens[1..], kw, end);
    }
  }

  lemma {:induction false} SilentLand(s: Stmt, depth: int, kw: string)
    requires kw != "" && SilentStmt(s, kw)
    ensures Land(s, depth, kw) == None
    decreases s
  {
    SilentLandIn(s.tokens, kw, EndField(s, depth));
    if s.Block? {
      SilentLandAll(s.body, [], depth + 1, kw);
      assert s.body + [] == s.body;
    }
  }

  lemma {:induction false} SilentLandAll(stmts: seq<Stmt>, more: seq<Stmt>, depth: int, kw: string)
    requires kw != "" && Silent(stmts, kw)
    ensures LandAll(stmts + more, depth, kw) == LandAll(more, depth, kw)
    decreases stmts
  {
    hide Land, SilentStmt;
    if stmts == [] {
      assert stmts + more == more;
    } else {
      SilentLand(stmts[0], depth, kw);
      SilentLandAll(stmts[1..], more, depth, kw);
      assert (stmts + more)[1..] == stmts[1..] + more;
    }
  }

  lemma {:induction false} SilentLastLand(stmts: seq<Stmt>, more: seq<Stmt>, kw: string)
    requires kw != "" && Silent(more, kw)
    ensures LastLand(stmts + more, kw) == LastLand(stmts, kw)
    decreases |more|
  {
    hide Land, SilentStmt;
    if more == [] {
      assert stmts + more == stmts;
    } else {
      var n := |more| - 1;
      SilentLand(more[n], 0, kw);
      SilentLastLand(stmts, more[..n], kw);
      assert (stmts + more)[..|stmts| + n] == stmts + more[..n];
    }
  }

  lemma LandsOn(kw: string, t: string)
    requires kw != "" && Clean(t)
    ensures var h := Land(Simple([kw, t]), 0, kw); h.Some? && h.value.Read() == t
  {
    var h := Hit(kw, "", [t], "");
    assert kw[|kw|..] == "" && [kw, t][1..] == [t];
    assert Land(Simple([kw, t]), 0, kw) == Some(h);
    ReadNext(h);
  }

  /** A port statement configures its number, whatever follows, if no token before has the keyword
      in it: up to 65535 it is the port, up to the largest int it is refused, and above that the
      program does not survive it. */
  lemma ConfiguredPort(before: seq<Stmt>, n: nat, after: seq<Stmt>, kw: string)
    requires Keyword(kw) && Silent(before, kw)
    ensures PortOfText(before + ([Simple([kw, DecOf(n)])] + after), kw) ==
            if n <= 65535 then Found(n) else if n <= 2147483647 then Rejected else Throws
  {
    hide Land, DecOf, ReadPort;
    var rest := [Simple([kw, DecOf(n)])] + after;
    PortScanReads(before + rest, kw);
    SilentLandAll(before, rest, 0, kw);
    DigitsAreClean(n);
    LandsOn(kw, DecOf(n));
    NumeralAsPort(n);
  }

  lemma DigitsAreClean(n: nat)
    ensures Clean(DecOf(n))
  {
  }

  /** And so does the first port statement of a tidy file, at any depth. */
  lemma TidyPort(stmts: seq<Stmt>, n: nat, kw: string)
    requires Keyword(kw) && Tidy(stmts, kw) && FollowInAll(stmts, kw) == Some(Next(DecOf(n)))
    ensures PortOfText(stmts, kw) ==
            if n <= 65535 then Found(n) else if n <= 2147483647 then Rejected else Throws
  {
    hide Tidy, FollowInAll, ReadPort, DecOf;
    TidyFilesAgree(stmts, kw, "");
    NumeralAsPort(n);
  }

  /** A key statement configures its path, whatever comes before, if no token after it has the
      keyword in it. */
  lemma ConfiguredPath(before: seq<Stmt>, t: string, after: seq<Stmt>, kw: string, path: string)
    requires Keyword(kw) && Clean(t) && Silent(after, kw)
    ensures PathOfText(before + [Simple([kw, t])] + after, kw, path) == t
  {
    hide Land, Clean, Silent;
    var stmts := before + [Simple([kw, t])];
    PathScanReads(stmts + after, kw, path);
    SilentLastLand(stmts, after, kw);
    LandsOn(kw, t);
    assert LastLand(stmts, kw) == Land(Simple([kw, t]), 0, kw);
  }

  /** Both keys at the end of a file, whatever comes before: each path is that of its own key. */
  lemma ConfiguredKeys(before: seq<Stmt>, a: string, b: string, path: string)
    requires Clean(a) && Clean(b) && Find(b, "private_key_root", 0) == None
    ensures var tree := before + [Simple(["private_key_root", a])] + [Simple(["public_key_root", b])];
            && PathOfText(tree, "private_key_root", path) == a
            && PathOfText(tree, "public_key_root", path) == b
  {
    hide Clean;
    var public := Simple(["public_key_root", b]);
    var stmts := before + [Simple(["private_key_root", a])];
    assert |"public_key_root"| < |"private_key_root"|;
    assert SilentStmt(public, "private_key_root");
    ConfiguredPath(before, a, [public], "private_key_root", path);
    ConfiguredPath(stmts, b, [], "public_key_root", path);
    assert stmts + [public] + [] == stmts + [public];
  }

  /** A longer word with the keyword in it decides for the text, whatever comes after it, and means
      nothing to the tree: digits after the keyword are a port that the tree does not have, and
      anything else hides a port that the tree may have. */
  lemma LongerWordDecides(w: string, more: seq<Stmt>, kw: string)
    requires Keyword(kw) && w != kw && After(w, kw).Some?
    ensures var rest, stmts := After(w, kw).value, [Simple([w])] + more;
            && PortOfText(stmts, kw) == ReadPort(Field(rest))
            && PortOfTree(stmts, kw) == PortOfTree(more, kw)
  {
    var s := Simple([w]);
    var stmts := [s] + more;
    assert stmts[1..] == more && s.tokens == [w] && s.tokens[1..] == [];
    assert InTokens(s.tokens[1..], kw) == None;
    assert InTokens(s.tokens, kw) == None;
    assert FollowIn(s, kw) == None;
    assert FollowInAll(stmts, kw) == FollowInAll(more, kw);
    PortScanReads(stmts, kw);
    assert LandIn(s.tokens, kw, "") == Some(Hit(w, After(w, kw).value, [], ""));
  }

  /** Both happen: `listen80` is read as the port 80, and `listener` hides the one after it. */
  lemma TextAndTreeDiffer()
    ensures PortOfText([Simple(["listen80"])] + [], "listen") == Found(80)
    ensures PortOfTree([Simple(["listen80"])] + [], "listen") == Rejected
    ensures PortOfText([Simple(["listener"])] + [Simple(["listen", "80"])], "listen") == Rejected
    ensures PortOfTree([Simple(["listener"])] + [Simple(["listen", "80"])], "listen") == Found(80)
  {
    hide Field, ReadPort, PortOfText, PortOfTree, After;
    LongerWords();
    LongerWordDecides("listen80", [], "listen");
    LongerWordDecides("listener", [Simple(["listen", "80"])], "listen");
    ListenAlone();
  }

  lemma LongerWords()
    ensures "listen80" != "listen" && After("listen80", "listen") == Some("80") && ReadPort(Field("80")) == Found(80)
    ensures "listener" != "listen" && After("listener", "listen") == Some("er") && ReadPort(Field("er")) == Rejected
  {
    assert "listen" <= "listen80" && "listen80"[6..] == "80";
    assert "listen" <= "listener" && "listener"[6..] == "er";
    assert Field("80") == "80" by {
      assert "80"[1..] == "0" && "0"[1..] == "";
    }
    assert Field("er")[0] == 'e';
    ReadEighty();
  }

  lemma ReadEighty()
    ensures ReadPort("80") == Found(80)
  {
    assert "80"[..1] == "8" && "8"[..0] == "";
  }

  lemma ListenAlone()
    ensures PortOfTree([], "listen") == Rejected
    ensures PortOfTree([Simple(["listen", "80"])], "listen") == Found(80)
  {
    hide ReadPort;
    ReadEighty();
    assert InTokens(["listen", "80"], "listen") == Some(Some("80"));
    assert FollowIn(Simple(["listen", "80"]), "listen") == Some(Next("80"));
  }

  // ---------------------------------------------------------------- the key paths

  /** The path the last statement with the keyword leaves; `path` if there is none. */
  function PathOfText(stmts: seq<Stmt>, kw: string, path: string): string {
    if stmts == [] then path
    else match After(PrintStmt(stmts[|stmts| - 1], 0), kw)
         case Some(x) => Field(x)
         case None => PathOfText(stmts[..|stmts| - 1], kw, path)
  }

  /** What follows the keyword in the last top-level statement that contains it. */
  function LastFollow(stmts: seq<Stmt>, kw: string): Option<Follow> {
    if stmts == [] then None
    else if FollowIn(stmts[|stmts| - 1], kw).Some? then FollowIn(stmts[|stmts| - 1], kw)
    else LastFollow(stmts[..|stmts| - 1], kw)
  }

  /** What the tree says: that, or nothing if the statement ends there. */
  function PathOfTree(stmts: seq<Stmt>, kw: string, path: string): string {
    match LastFollow(stmts, kw)
    case None => path
    case Some(Next(t)) => t
    case Some(_) => ""
  }

  /** What is after the keyword is the end of the text, with the keyword in front of it. */
  lemma {:induction false} AfterIsSuffix(s: string, kw: string) returns (before: string)
    requires After(s, kw).Some?
    ensures s == before + (kw + After(s, kw).value)
    decreases |s|
  {
    if kw <= s {
      before := "";
    } else {
      var inner := AfterIsSuffix(s[1..], kw);
      before := [s[0]] + inner;
    }
  }

  /** There is always something to find after a keyword: at least the end of the statement. So
      no substring starts at `npos`, whatever the tokens are. */
  lemma NeverPastTheEnd(s: Stmt, kw: string)
    requires Keyword(kw) && After(PrintStmt(s, 0), kw).Some?
    ensures SkipBlanks(After(PrintStmt(s, 0), kw).value) != ""
  {
    hide After, SkipBlanks, PrintStmt;
    var text, x := PrintStmt(s, 0), After(PrintStmt(s, 0), kw).value;
    var before := AfterIsSuffix(text, kw);
    PrintEndsInNewline(s);
    assert text == before + kw + x;
    assert text[|before + kw| - 1] == kw[|kw| - 1];
    assert text[|text| - 2] == x[|x| - 2];
    HasNonBlank(x, |x| - 2);
  }

  lemma PrintEndsInNewline(s: Stmt)
    ensures var text := PrintStmt(s, 0);
            |text| > 1 && text[|text| - 1] == '\n' && text[|text| - 2] in {';', '}'}
  {
    hide Join, Indent;
    var end := PrintEnd(s, 0);
    assert |end| > 1 && end[|end| - 1] == '\n' && end[|end| - 2] in {';', '}'};
  }

  lemma {:induction false} HasNonBlank(s: string, k: nat)
    requires k < |s| && s[k] !in BLANKS
    ensures SkipBlanks(s) != ""
    decreases |s|
  {
    if s[0] in BLANKS {
      HasNonBlank(s[1..], k - 1);
    }
  }

  class NginxConfigParser {
    var sslPrivatePath: string
    var sslPublicPath: string

    constructor ()
      ensures sslPrivatePath == "" && sslPublicPath == ""
    {
      sslPrivatePath, sslPublicPath := "", "";
    }

    method GetKeyPath(config: NginxConfig) returns (ok: bool)
      requires config.Valid() && this !in config.Repr
      modifies this
      ensures sslPrivatePath == PathOfText(config.Tree, "private_key_root", old(sslPrivatePath))
      ensures sslPublicPath == PathOfText(config.Tree, "public_key_root", old(sslPublicPath))
      ensures ok <==> sslPrivatePath != "" && sslPublicPath != ""
    {
      hide PrintStmt, StmtIs, After, Field;
      var statements := config.statements;
      ghost var tree := config.Tree;
      for i := 0 to |statements|
        invariant sslPrivatePath == PathOfText(tree[..i], "private_key_root", old(sslPrivatePath))
        invariant sslPublicPath == PathOfText(tree[..i], "public_key_root", old(sslPublicPath))
      {
        var keyStatement := statements[i].ToString(0, tree[i], config.Repr - {config});
        var privateKey := ScanKey(keyStatement, "private_key_root", tree[i]);
        var publicKey := ScanKey(keyStatement, "public_key_root", tree[i]);
        if privateKey.Some? {
          sslPrivatePath := privateKey.value;
        }
        if publicKey.Some? {
          sslPublicPath := publicKey.value;
        }
        assert tree[..i + 1][..i] == tree[..i];
      }
      assert tree[..|statements|] == tree;
      ok := !(sslPublicPath == "" || sslPrivatePath == "");
    }
  }

  /** The lines that look for one key in one printed statement. */
  method ScanKey(keyStatement: string, kw: string, ghost s: Stmt) returns (path: Option<string>)
    requires Keyword(kw) && keyStatement == PrintStmt(s, 0)
    ensures match After(keyStatement, kw)
            case Some(x) => path == Some(Field(x))
            case None => path == None
  {
    hide PrintStmt;
    var keyPos := Find(keyStatement, kw, 0);
    AfterIsFind(keyStatement, kw, 0);
    assert keyStatement[0..] == keyStatement;
    if keyPos.None? {
      return None;
    }
    var pos := keyPos.value + |kw|;
    FieldIsSubstr(keyStatement, pos);
    NeverPastTheEnd(s, kw);
    SkipBlanksIsFind(keyStatement, pos);
    var start := FindFirstNotOf(keyStatement, BLANKS, pos);
    var end := FindFirstOf(keyStatement, STOPS, start.value);
    return Some(Substr(keyStatement, start.value, end));
  }

  /** The landing in the last top-level statement that has one. */
  function LastLand(stmts: seq<Stmt>, kw: string): Option<Hit> {
    if stmts == [] then None
    else if Land(stmts[|stmts| - 1], 0, kw).Some? then Land(stmts[|stmts| - 1], 0, kw)
    else LastLand(stmts[..|stmts| - 1], kw)
  }

  /** Whatever the tree, the path is what is read at the last landing. */
  lemma {:induction false} PathScanReads(stmts: seq<Stmt>, kw: string, path: string)
    requires Keyword(kw)
    ensures PathOfText(stmts, kw, path) == match LastLand(stmts, kw) case Some(h) => h.Read() case None => path
    decreases |stmts|
  {
    hide After, PrintStmt, Land;
    if stmts != [] {
      TextLands(stmts[|stmts| - 1], kw);
      PathScanReads(stmts[..|stmts| - 1], kw, path);
    }
  }

  /** The text scan gives the path the tree search gives if and only if: there is nothing to find;
      or the last landing is the keyword, and a semicolon or a clean token follows, or an empty one
      with nothing to read after it; or it is a longer word, and what is read after it is what the
      last keyword elsewhere is followed by, or the old path if there is none. */
  lemma PathScanIsTreeSearch(stmts: seq<Stmt>, kw: string, path: string)
    requires Keyword(kw)
    ensures PathOfText(stmts, kw, path) == PathOfTree(stmts, kw, path)
            <==> match LastLand(stmts, kw)
                 case None => true
                 case Some(h) =>
                   if h.token == kw then
                     if h.later == [] then h.end == "" else Clean(h.later[0]) || (h.later[0] == "" == h.Read())
                   else
                     match LastFollow(stmts, kw)
                     case None => h.Read() == path
                     case Some(Next(t)) => h.Read() == t
                     case Some(_) => h.Read() == ""
  {
    hide Land, FollowIn, LastLand, LastFollow;
    PathScanReads(stmts, kw, path);
    LastLandWhole(stmts, kw);
    if LastLand(stmts, kw).Some? {
      var h := LastLand(stmts, kw).value;
      if h.token == kw && h.later != [] {
        ReadNext(h);
      }
    }
  }

  lemma {:induction false} LastLandWhole(stmts: seq<Stmt>, kw: string)
    ensures match LastLand(stmts, kw)
            case None => LastFollow(stmts, kw) == None
            case Some(h) =>
              && h.end in {"", "{\n", "{\n}\n"}
              && (h.token == kw ==> h.rest == "" && LastFollow(stmts, kw) == Some(FollowOf(h)))
    decreases |stmts|
  {
    if stmts != [] {
      var s := stmts[|stmts| - 1];
      LandWhole(s, 0, kw);
      LandEnd([s], 0, kw);
      LastLandWhole(stmts[..|stmts| - 1], kw);
    }
  }

  // ---------------------------------------------------------------- from characters to the port

  /** The text of a port statement, parsed into an empty configuration, configures its number. */
  lemma PortFromText(n: nat)
    ensures var v := ParseText([], "listen " + DecOf(n) + ";\n");
            && v == Verdict(true, [Simple(["listen", DecOf(n)])])
            && PortOfText(v.tree, "listen") ==
               if n <= 65535 then Found(n) else if n <= 2147483647 then Rejected else Throws
  {
    hide Tokens, Run, DecOf, ReadPort, PrintSafe;
    var s := Simple(["listen", DecOf(n)]);
    PrintedLine("listen", DecOf(n), 0);
    assert Indent(0) + "listen" + " " + DecOf(n) + ";\n" == "listen " + DecOf(n) + ";\n";
    ListenIsSafe(n);
    assert AllTokensStmt(s, PrintSafe);
    PrintParseRoundTrip([], [s], 0);
    assert [] + [s] == [s] && [] + ([Simple(["listen", DecOf(n)])] + []) == [s];
    ConfiguredPort([], n, [], "listen");
  }

  lemma ListenIsSafe(n: nat)
    ensures PrintSafe("listen") && PrintSafe(DecOf(n))
  {
    OrdinaryIsSafe("listen");
    OrdinaryIsSafe(DecOf(n));
  }

  lemma {:induction false} OrdinaryIsSafe(t: string)
    requires t != "" && forall i :: 0 <= i < |t| ==> Ordinary(t[i])
    ensures PrintSafe(t) && SafeWord(t)
  {
    if |t| > 1 {
      OrdinaryIsSafe(t[1..]);
    } else {
      assert t[1..] == "";
    }
  }
}
