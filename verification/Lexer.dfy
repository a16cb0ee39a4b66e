/** The character-level lexer of the config front end: the stream it reads, the
    five-state loop `ParseToken`, and the function on the unread text that the
    loop computes. */
module Lexer {

  datatype TokenType = Start | Normal | StartBlock | EndBlock | Comment | StatementEnd | Eof | Error

  datatype LexState = Initial | SingleQuote | DoubleQuote | InComment | InWord

  predicate IsNewline(c: char) {
    c == '\n' || c == '\r'
  }

  predicate IsSpace(c: char) {
    c == ' ' || c == '\t' || IsNewline(c)
  }

  /** The characters a backslash protects outside quotes. */
  predicate Escapable(c: char) {
    c == ' ' || c == '\t' || c == ';' || c == '{' || c == '}' || c == '#'
  }

  /** The characters that may follow a closing quote. */
  predicate EndsQuoted(c: char) {
    IsSpace(c) || c == ';' || c == '{'
  }

  /** The characters that end a bare word. */
  predicate EndsBare(c: char) {
    IsSpace(c) || c == ';' || c == '{' || c == '}'
  }

  /** One token: its type, the text collected for it, and the text left unread. */
  datatype Lexeme = Lexeme(kind: TokenType, value: string, rest: string)

  /** What the lexer returns when it is in state `st` with `v` collected and `s` unread. */
  function Scan(s: string, st: LexState, v: string): (r: Lexeme)
    ensures |r.rest| <= |s|
    ensures r.kind == Comment ==> |r.rest| < |s|
    ensures match r.kind
            case Start => false
            case StartBlock => r.value == "{"
            case EndBlock => r.value == "}"
            case StatementEnd => r.value == ";"
            case _ => true
    ensures st == Initial && r.kind != Eof && r.kind != Error ==> |r.rest| < |s|
    decreases |s|
  {
    if s == "" then
      Lexeme(if st == SingleQuote || st == DoubleQuote then Error else Eof, v, "")
    else
      var c, t := s[0], s[1..];
      match st
      case Initial =>
        if c == '{' then Lexeme(StartBlock, [c], t)
        else if c == '}' then Lexeme(EndBlock, [c], t)
        else if c == ';' then Lexeme(StatementEnd, [c], t)
        else if c == '#' then Scan(t, InComment, [c])
        else if c == '\"' then Scan(t, DoubleQuote, v)
        else if c == '\'' then Scan(t, SingleQuote, [c])
        else if IsSpace(c) then Scan(t, Initial, v)
        else if c != '\\' then Scan(t, InWord, v + [c])
        else if t == "" then Lexeme(Eof, v, "")
        else if Escapable(t[0]) then Scan(t[1..], Initial, v + [t[0]])
        else Scan(t, Initial, v + [c])
      case SingleQuote =>
        if c == '\\' then
          if t == "" then Lexeme(Error, v, "")
          else if t[0] == '\'' then Scan(t[1..], SingleQuote, v + [t[0]])
          else Scan(t, SingleQuote, v + [c])
        else if c == '\'' then Close(t, v + [c])
        else Scan(t, SingleQuote, v + [c])
      case DoubleQuote =>
        if c == '\\' then
          if t == "" then Lexeme(Error, v, "")
          else if t[0] == '\"' then Scan(t[1..], DoubleQuote, v + [t[0]])
          else Scan(t, DoubleQuote, v + [c])
        else if c == '\"' then Close(t, v)
        else Scan(t, DoubleQuote, v + [c])
      case InComment =>
        if IsNewline(c) then Lexeme(Comment, v, t) else Scan(t, InComment, v + [c])
      case InWord =>
        if EndsBare(c) then Lexeme(Normal, v, s)
        else if c != '\\' then Scan(t, InWord, v + [c])
        else if t == "" then Lexeme(Eof, v, "")
        else if Escapable(t[0]) then Scan(t[1..], InWord, v + [t[0]])
        else Scan(t, InWord, v + [c])
  }

  /** A closing quote has just been read: the next character decides. */
  function Close(t: string, v: string): (r: Lexeme)
    ensures |r.rest| <= |t|
    ensures r.kind == Error || (r.kind == Normal && r.rest == t)
  {
    if t == "" then Lexeme(Error, v, "")
    else if EndsQuoted(t[0]) then Lexeme(Normal, v, t)
    else Lexeme(Error, v, t[1..])
  }

  /** The next token of `s`, read from between tokens. */
  function NextToken(s: string): Lexeme {
    Scan(s, Initial, "")
  }

  /** An input stream: its characters, the read position, and whether it is still good. */
  class CharStream {
    const text: string
    var pos: nat
    var good: bool

    constructor (text: string)
      ensures this.text == text && good && Valid() && Rest() == text
    {
      this.text := text;
      pos := 0;
      good := true;
    }

    ghost predicate Valid()
      reads this
    {
      pos <= |text|
    }

    /** The characters a reader can still get. */
    ghost function Rest(): string
      requires Valid()
      reads this
    {
      if good then text[pos..] else ""
    }

    method Get() returns (c: char)
      requires Valid()
      modifies this
      ensures Valid()
      ensures old(Rest()) == "" ==> !good && Rest() == "" && pos == old(pos)
      ensures old(Rest()) != "" ==>
                good && pos == old(pos) + 1 && c == old(Rest())[0] && Rest() == old(Rest())[1..]
    {
      if good && pos < |text| {
        c := text[pos];
        pos := pos + 1;
      } else {
        c := 255 as char;
        good := false;
      }
    }

    method Unget()
      requires Valid() && good && 0 < pos
      modifies this
      ensures Valid() && good && pos == old(pos) - 1
      ensures Rest() == [text[pos]] + old(Rest()) && Rest()[1..] == old(Rest())
    {
      pos := pos - 1;
    }
  }

  /** The lexer loop. `value` starts as `prefix`; `Parse` always passes an empty one. */
  method ParseToken(input: CharStream, prefix: string) returns (kind: TokenType, value: string)
    requires input.Valid()
    modifies input
    ensures input.Valid()
    ensures Lexeme(kind, value, input.Rest()) == Scan(old(input.Rest()), Initial, prefix)
  {
    var state := Initial;
    value := prefix;
    while input.good
      invariant input.Valid()
      invariant Scan(input.Rest(), state, value) == Scan(old(input.Rest()), Initial, prefix)
      decreases |input.text| - input.pos, input.good
    {
      ghost var s := input.Rest();
      var c := input.Get();
      if !input.good {
        break;
      }
      match state
      case Initial =>
        if c == '{' {
          value := [c];
          return StartBlock, value;
        } else if c == '}' {
          value := [c];
          return EndBlock, value;
        } else if c == '#' {
          value := [c];
          state := InComment;
        } else if c == '\"' {
          state := DoubleQuote;
        } else if c == '\'' {
          value := [c];
          state := SingleQuote;
        } else if c == ';' {
          value := [c];
          return StatementEnd, value;
        } else if IsSpace(c) {
        } else if c == '\\' {
          var ch := input.Get();
          if !input.good {
            // Control falls into the single-quote case, whose read fails as well.
            ch := input.Get();
            break;
          }
          if Escapable(ch) {
            value := value + [ch];
          } else {
            value := value + [c];
            input.Unget();
          }
        } else {
          value := value + [c];
          state := InWord;
        }
      case SingleQuote =>
        if c == '\\' {
          var ch := input.Get();
          if !input.good {
            break;
          }
          if ch == '\'' {
            value := value + [ch];
          } else {
            value := value + [c];
            input.Unget();
          }
        } else {
          value := value + [c];
          if c == '\'' {
            var ch := input.Get();
            if !input.good {
              break;
            }
            if !EndsQuoted(ch) {
              return Error, value;
            }
            input.Unget();
            return Normal, value;
          }
        }
      case DoubleQuote =>
        if c == '\\' {
          var ch := input.Get();
          if !input.good {
            break;
          }
          if ch == '\"' {
            value := value + [ch];
          } else {
            value := value + [c];
            input.Unget();
          }
        } else if c == '\"' {
          var ch := input.Get();
          if !input.good {
            break;
          }
          if !EndsQuoted(ch) {
            return Error, value;
          }
          input.Unget();
          return Normal, value;
        } else {
          value := value + [c];
        }
      case InComment =>
        if IsNewline(c) {
          return Comment, value;
        }
        value := value + [c];
      case InWord =>
        if EndsBare(c) {
          input.Unget();
          return Normal, value;
        }
        if c == '\\' {
          var ch := input.Get();
          if !input.good {
            break;
          }
          if Escapable(ch) {
            value := value + [ch];
          } else {
            value := value + [c];
            input.Unget();
          }
        } else {
          value := value + [c];
        }
    }
    kind := if state == SingleQuote || state == DoubleQuote then Error else Eof;
  }
}
