/** A session's receive buffer and what it does with each read, and the counters that all
    sessions share. */
module Session {
  import opened Strings
  import opened Routing

  /** The size of the buffer. Like the source, the session relies on requests being shorter. */
  const MAX_LENGTH := 1024000

  const NUL := '\0'

  /** The C string at the start of a buffer. */
  function CString(s: string): (r: string)
    ensures r <= s && NoNul(r) && (r == s <==> NoNul(s))
    ensures r != s ==> s[|r|] == NUL
  {
    if s == "" || s[0] == NUL then "" else [s[0]] + CString(s[1..])
  }

  predicate NoNul(s: string) {
    forall i :: 0 <= i < |s| ==> s[i] != NUL
  }

  /** The text has the blank line that ends a request's headers. */
  predicate HasBlankLine(s: string) {
    Find(s, "\r\n\r\n", 0).Some? || Find(s, "\n\n", 0).Some?
  }

  /** Only what is before a NUL makes a difference. */
  lemma {:induction false} CStringOf(s: string, n: nat)
    requires n <= |s| && (n < |s| ==> s[n] == NUL)
    ensures CString(s) == CString(s[..n])
    decreases n
  {
    if n > 0 {
      var t := s[1..][..n - 1];
      assert s[..n] == [s[0]] + t && s[..n][1..] == t;
      CStringOf(s[1..], n - 1);
    }
  }

  lemma {:induction false} CStringAfter(s: string, t: string)
    requires NoNul(s)
    ensures CString(s + t) == s + CString(t)
  {
    if s == "" {
      assert s + t == t;
    } else {
      assert (s + t)[1..] == s[1..] + t;
      CStringAfter(s[1..], t);
    }
  }

  /** What is in the buffer, NULs after it left out, once a chunk has been read in behind the C
      string. What an earlier read left behind a NUL stays where the chunk does not reach. */
  function Placed(held: string, chunk: string): (r: string)
    ensures |r| <= |held| + |chunk|
  {
    var end := |CString(held)| + |chunk|;
    held[..|CString(held)|] + chunk + if end < |held| then held[end..] else ""
  }

  /** What is in the buffer after a number of reads. */
  function Held(chunks: seq<string>): string {
    if chunks == [] then "" else Placed(Held(chunks[..|chunks| - 1]), chunks[|chunks| - 1])
  }

  /** The text of the request as the session sees it then. */
  function Text(chunks: seq<string>): string {
    CString(Held(chunks))
  }

  // ---------------------------------------------------------------- the shared counters

  /** What the HTTP library and the handler make of a request: a malformed one, or a target with
      the status code of its answer. */
  datatype Request = Malformed | Answered(uri: string, code: int)

  /** The number of answers, and the codes answered for each uri. */
  datatype Counters = Counters(count: nat, handled: map<string, seq<int>>)

  /** `handled_requests[uri].push_back(code)`. */
  function AddCode(handled: map<string, seq<int>>, uri: string, code: int): map<string, seq<int>> {
    handled[uri := CodesOf(handled, uri) + [code]]
  }

  /** What one request does to the counters. */
  function Count(c: Counters, r: Request): Counters {
    match r
    case Malformed => c
    case Answered(uri, code) => Counters(c.count + 1, AddCode(c.handled, uri, code))
  }

  /** Every counted request has its code in the list of its uri, and nothing else is there. */
  ghost predicate Balanced(c: Counters) {
    c.count == SumOf(Lengths(c.handled))
  }

  /** The static members `request_count` and `handled_requests`. */
  class Accounts {
    var requestCount: nat
    var handled: map<string, seq<int>>

    constructor ()
      ensures Now() == Counters(0, map[]) && Balanced(Now())
    {
      requestCount := 0;
      handled := map[];
      new;
      NothingHandled();
    }

    function Now(): Counters
      reads this
    {
      Counters(requestCount, handled)
    }

    /** The accounting of one answered request. */
    method Record(uri: string, code: int)
      modifies this
      ensures Now() == Count(old(Now()), Answered(uri, code))
      ensures old(Balanced(Now())) ==> Balanced(Now())
    {
      Recorded(handled, uri, code);
      requestCount := requestCount + 1;
      handled := AddCode(handled, uri, code);
    }
  }

  function CodesOf(handled: map<string, seq<int>>, uri: string): seq<int> {
    if uri in handled then handled[uri] else []
  }

  /** How often `code` was answered for `uri`. */
  function Times(handled: map<string, seq<int>>, uri: string, code: int): nat {
    multiset(CodesOf(handled, uri))[code]
  }

  lemma TimesOne(handled: map<string, seq<int>>, uri: string, code: int, u: string, c: int)
    ensures Times(AddCode(handled, uri, code), u, c) == Times(handled, u, c) + if u == uri && c == code then 1 else 0
  {
  }

  function Lengths(handled: map<string, seq<int>>): map<string, nat> {
    map k | k in handled :: |handled[k]|
  }

  /** The sum of the values of a map. */
  ghost function SumOf<K>(m: map<K, nat>): nat
    decreases |m|
  {
    if m == map[] then 0
    else
      var k :| k in m;
      RemoveShrinks(m, k);
      m[k] + SumOf(m - {k})
  }

  lemma RemoveShrinks<K>(m: map<K, nat>, k: K)
    requires k in m
    ensures |m - {k}| == |m| - 1
  {
    assert (m - {k}).Keys == m.Keys - {k};
    assert |m.Keys - {k}| == |m.Keys| - 1;
  }

  /** Any key may be taken first. */
  lemma {:induction false} SumWithout<K>(m: map<K, nat>, k: K)
    requires k in m
    ensures SumOf(m) == m[k] + SumOf(m - {k})
    decreases |m|
  {
    var l :| l in m && SumOf(m) == m[l] + SumOf(m - {l});
    if l != k {
      RemoveShrinks(m, k);
      RemoveShrinks(m, l);
      SumWithout(m - {l}, k);
      SumWithout(m - {k}, l);
      assert m - {l} - {k} == m - {k} - {l};
    }
  }

  lemma SumWith<K>(m: map<K, nat>, k: K, v: nat)
    ensures SumOf(m[k := v]) + (if k in m then m[k] else 0) == SumOf(m) + v
  {
    SumWithout(m[k := v], k);
    assert m[k := v] - {k} == m - {k};
    if k in m {
      SumWithout(m, k);
    } else {
      assert m - {k} == m;
    }
  }

  lemma Recorded(handled: map<string, seq<int>>, uri: string, code: int)
    ensures SumOf(Lengths(AddCode(handled, uri, code))) == SumOf(Lengths(handled)) + 1
  {
    var n := |CodesOf(handled, uri)|;
    SumWith(Lengths(handled), uri, n + 1);
    assert Lengths(AddCode(handled, uri, code)) == Lengths(handled)[uri := n + 1];
  }

  // ---------------------------------------------------------------- the buffer

  /** The counters after a run of requests, whichever sessions answered them. */
  function Ledger(run: seq<Request>): Counters {
    if run == [] then Counters(0, map[]) else Count(Ledger(run[..|run| - 1]), run[|run| - 1])
  }

  /** What one request does to the counters is one more request in the run. */
  lemma LedgerGrows(run: seq<Request>, r: Request)
    ensures Ledger(run + [r]) == Count(Ledger(run), r)
  {
    assert (run + [r])[..|run|] == run;
  }

  /** Conservation over every run: the count is the sum of the lengths of all lists. */
  lemma {:induction false} LedgerBalances(run: seq<Request>)
    ensures Balanced(Ledger(run))
    decreases |run|
  {
    hide SumOf, Lengths, AddCode;
    if run == [] {
      NothingHandled();
    } else {
      var most, last := run[..|run| - 1], run[|run| - 1];
      LedgerBalances(most);
      if last.Answered? {
        Recorded(Ledger(most).handled, last.uri, last.code);
      }
    }
  }

  lemma NothingHandled()
    ensures SumOf(Lengths(map[])) == 0
  {
    assert Lengths(map[]) == map[];
  }

  /** And a code is in its uri's list exactly as often as it was answered for it. */
  lemma {:induction false} LedgerCounts(run: seq<Request>, uri: string, code: int)
    ensures Times(Ledger(run).handled, uri, code) == multiset(run)[Answered(uri, code)]
    decreases |run|
  {
    hide Times, AddCode;
    if run == [] {
      NeverAnswered(uri, code);
    } else {
      var most, last := run[..|run| - 1], run[|run| - 1];
      LedgerCounts(most, uri, code);
      OneMore(most, last, Answered(uri, code));
      assert run == most + [last];
      if last.Answered? {
        TimesOne(Ledger(most).handled, last.uri, last.code, uri, code);
      }
    }
  }

  lemma NeverAnswered(uri: string, code: int)
    ensures Times(map[], uri, code) == 0
  {
  }

  lemma OneMore(run: seq<Request>, r: Request, s: Request)
    ensures multiset(run + [r])[s] == multiset(run)[s] + if s == r then 1 else 0
  {
  }

  /** What was answered for a uri, in order. */
  function CodesFor(run: seq<Request>, uri: string): seq<int> {
    if run == [] then []
    else (if run[0].Answered? && run[0].uri == uri then [run[0].code] else []) + CodesFor(run[1..], uri)
  }

  lemma {:induction false} CodesForLast(run: seq<Request>, r: Request, uri: string)
    ensures CodesFor(run + [r], uri) ==
            CodesFor(run, uri) + if r.Answered? && r.uri == uri then [r.code] else []
  {
    if run == [] {
      assert (run + [r])[1..] == [];
    } else {
      assert (run + [r])[1..] == run[1..] + [r];
      CodesForLast(run[1..], r, uri);
    }
  }

  /** Over every run each uri's list is what was answered for it, in the order of the answers, and a
      uri that was never answered has none. */
  lemma {:induction false} LedgerLists(run: seq<Request>, uri: string)
    ensures var handled := Ledger(run).handled;
            if CodesFor(run, uri) == [] then uri !in handled
            else uri in handled && handled[uri] == CodesFor(run, uri)
    decreases |run|
  {
    if run != [] {
      var most, last := run[..|run| - 1], run[|run| - 1];
      LedgerLists(most, uri);
      CodesForLast(most, last, uri);
      assert run == most + [last];
    }
  }

  class Session {
    const data: array<char>
    const accounts: Accounts
    /** Where the outstanding read will put its bytes. */
    var readAt: Option<nat>
    /** The texts handed to `send_response`. */
    var sent: seq<string>
    /** What is in the buffer, up to where nothing was ever read. */
    ghost var held: string

    constructor (accounts: Accounts)
      ensures this.accounts == accounts && fresh(data) && data.Length == MAX_LENGTH == 1024000
      ensures readAt == None && sent == [] && held == ""
    {
      data := new char[MAX_LENGTH];
      this.accounts := accounts;
      readAt := None;
      sent := [];
      held := "";
    }

    ghost predicate Valid()
      reads this, data
    {
      && data.Length == MAX_LENGTH && |held| < MAX_LENGTH
      && data[..|held|] == held
      && (forall i :: |held| <= i < data.Length ==> data[i] == NUL)
      && (readAt.Some? ==> readAt == Some(|CString(held)|) && sent == [])
    }

    /** The state after these chunks have arrived: it has answered the text of the first of them
        that together have a blank line, or it waits for more. */
    ghost predicate After(chunks: seq<string>)
      reads this, data
    {
      && Valid()
      && match AnswersAfter(chunks)
         case Some(n) => readAt == None && sent == [Text(chunks[..n])]
         case None => readAt.Some? && sent == [] && held == Held(chunks)
    }

    /** Clears the buffer and starts the first read. */
    method Start()
      requires data.Length == MAX_LENGTH && sent == []
      modifies this, data
      ensures After([]) && readAt == Some(0) && held == "" && sent == []
    {
      for i := 0 to data.Length
        invariant sent == [] && forall j :: 0 <= j < i ==> data[j] == NUL
      {
        data[i] := NUL;
      }
      readAt := Some(0);
      held := "";
    }

    lemma BufferText()
      requires Valid()
      ensures CString(data[..]) == CString(held)
    {
      CStringOf(data[..], |held|);
      assert data[..][..|held|] == held;
    }

    method EndOfRequest() returns (ended: bool)
      requires Valid()
      ensures ended <==> exists i :: OccursAt(CString(held), "\r\n\r\n", i) || OccursAt(CString(held), "\n\n", i)
      ensures ended <==> HasBlankLine(CString(held))
    {
      BufferText();
      var request := CString(data[..]);
      ended := Find(request, "\r\n\r\n", 0).Some? || Find(request, "\n\n", 0).Some?;
    }

    /** Starts a read of more data, to be put after the text that is there. */
    method AppendData()
      requires Valid() && sent == []
      modifies this`readAt
      ensures Valid() && readAt == Some(|CString(held)|)
    {
      BufferText();
      readAt := Some(|CString(data[..])|);
    }

    /** Answers the request in the buffer; a well-formed one is counted. */
    method SendResponse(reply: string -> Request)
      requires Valid() && readAt == None
      modifies this`sent, accounts
      ensures Valid() && sent == old(sent) + [CString(held)]
      ensures accounts.Now() == Count(old(accounts.Now()), reply(CString(held)))
      ensures old(Balanced(accounts.Now())) ==> Balanced(accounts.Now())
    {
      BufferText();
      var text := CString(data[..]);
      sent := sent + [text];
      match reply(text)
      case Malformed =>
      case Answered(uri, code) => accounts.Record(uri, code);
    }

    method HandleRead(error: bool, reply: string -> Request)
      requires Valid() && readAt == None && sent == []
      modifies this`readAt, this`sent, accounts
      ensures Valid()
      ensures error ==> readAt == None && sent == []
      ensures !error && !HasBlankLine(CString(held)) ==> readAt == Some(|CString(held)|) && sent == []
      ensures !error && HasBlankLine(CString(held)) ==> readAt == None && sent == [CString(held)]
      ensures if sent == [] then unchanged(accounts)
              else accounts.Now() == Count(old(accounts.Now()), reply(CString(held)))
      ensures old(Balanced(accounts.Now())) ==> Balanced(accounts.Now())
    {
      if !error {
        var ended := EndOfRequest();
        if !ended {
          AppendData();
        } else {
          SendResponse(reply);
        }
      }
    }

    /** The outstanding read completes with a chunk of bytes, whatever they are, and its handler
        runs. */
    method Deliver(chunk: string, reply: string -> Request)
      requires Valid() && readAt.Some?
      requires |CString(held)| + |chunk| < MAX_LENGTH
      modifies this, data, accounts
      ensures Valid() && held == Placed(old(held), chunk) && CString(data[..]) == CString(held)
      ensures !HasBlankLine(CString(held)) ==> readAt.Some? && sent == []
      ensures HasBlankLine(CString(held)) ==> readAt == None && sent == [CString(held)]
      ensures if sent == [] then unchanged(accounts)
              else accounts.Now() == Count(old(accounts.Now()), reply(CString(held)))
      ensures old(Balanced(accounts.Now())) ==> Balanced(accounts.Now())
    {
      hide CString;
      var at := readAt.value;
      ghost var before := held;
      forall i | 0 <= i < |chunk| {
        data[at + i] := chunk[i];
      }
      held := Placed(held, chunk);
      readAt := None;
      assert data[..|held|] == held by {
        assert data[..at] == before[..at] && data[at..at + |chunk|] == chunk;
        assert at + |chunk| < |before| ==> data[at + |chunk|..|before|] == before[at + |chunk|..];
      }
      HandleRead(false, reply);
      BufferText();
    }

    /** One more chunk for a session that has seen `chunks`. Nothing reads it once the session has
        answered. */
    method Receive(chunk: string, reply: string -> Request, ghost chunks: seq<string>)
      requires After(chunks) && |Flat(chunks)| + |chunk| < MAX_LENGTH
      modifies this, data, accounts
      ensures After(chunks + [chunk])
      ensures if AnswersAfter(chunks + [chunk]) == Some(|chunks| + 1)
              then accounts.Now() == Count(old(accounts.Now()), reply(Text(chunks + [chunk])))
              else unchanged(accounts)
      ensures old(Balanced(accounts.Now())) ==> Balanced(accounts.Now())
    {
      hide HasBlankLine, AnswersAfter, Placed, CString;
      HeldFits(chunks);
      NextAnswer(chunks, chunk);
      assert (chunks + [chunk])[..|chunks|] == chunks;
      if readAt.Some? {
        Deliver(chunk, reply);
        assert (chunks + [chunk])[..|chunks| + 1] == chunks + [chunk];
      } else {
        var n := AnswersAfter(chunks).value;
        assert (chunks + [chunk])[..n] == chunks[..n];
      }
    }

    /** The session's lookup of the name of the handler, over the shared names. */
    method GetHandlerName(info: HandlerInfo, uri: string) returns (handlerName: string)
      ensures handlerName == match Route(info.info, uri) case Some(name) => name case None => ""
    {
      var path := PopSlashes(uri);
      handlerName := "";
      var prefix := "";
      var left := info.info.Keys;
      while left != {}
        invariant BestSoFar(info.info, left, path, prefix, if prefix == "" then None else Some(handlerName))
        invariant prefix == "" ==> handlerName == ""
        decreases |left|
      {
        var k :| k in left;
        OneMoreKey(info.info, left, path, prefix, if prefix == "" then None else Some(handlerName), k);
        if StartsWith(path, k) {
          if |k| > |prefix| {
            prefix := k;
            handlerName := info.info[k];
          }
        }
        left := left - {k};
      }
      BestIsRoute(info.info, uri, prefix, if prefix == "" then None else Some(handlerName));
    }
  }

  // ---------------------------------------------------------------- runs

  /** After how many chunks the session answers, if it does. */
  function AnswersAfter(chunks: seq<string>): (r: Option<nat>)
    ensures r.Some? ==> r.value <= |chunks|
  {
    if chunks == [] then None
    else if AnswersAfter(chunks[..|chunks| - 1]).Some? then AnswersAfter(chunks[..|chunks| - 1])
    else if HasBlankLine(Text(chunks)) then Some(|chunks|)
    else None
  }

  lemma NextAnswer(chunks: seq<string>, chunk: string)
    ensures AnswersAfter(chunks + [chunk]) ==
            if AnswersAfter(chunks).Some? then AnswersAfter(chunks)
            else if HasBlankLine(Text(chunks + [chunk])) then Some(|chunks| + 1)
            else None
  {
    assert (chunks + [chunk])[..|chunks|] == chunks;
  }

  lemma {:induction false} HeldFits(chunks: seq<string>)
    ensures |Text(chunks)| <= |Held(chunks)| <= |Flat(chunks)|
  {
    if chunks != [] {
      HeldFits(chunks[..|chunks| - 1]);
    }
  }

  /** A session's run: reads complete with one chunk after the other while one is outstanding. */
  method Serve(s: Session, chunks: seq<string>, reply: string -> Request)
    requires s.data.Length == MAX_LENGTH && s.sent == []
    requires |Flat(chunks)| < MAX_LENGTH
    modifies s, s.data, s.accounts
    ensures s.Valid()
    ensures s.sent == match AnswersAfter(chunks) case Some(n) => [Text(chunks[..n])] case None => []
    ensures if s.sent == [] then unchanged(s.accounts)
            else s.accounts.Now() == Count(old(s.accounts.Now()), reply(s.sent[0]))
    ensures AnswersAfter(chunks) == None ==> CString(s.data[..]) == CString(Held(chunks))
    ensures old(Balanced(s.accounts.Now())) ==> Balanced(s.accounts.Now())
  {
    hide HasBlankLine, AnswersAfter, Text, CString, Flat, Count;
    s.Start();
    for i := 0 to |chunks|
      invariant old(Balanced(s.accounts.Now())) ==> Balanced(s.accounts.Now())
      invariant s.After(chunks[..i])
      invariant match AnswersAfter(chunks[..i])
                case Some(n) => s.accounts.Now() == Count(old(s.accounts.Now()), reply(Text(chunks[..n])))
                case None => unchanged(s.accounts)
    {
      ghost var seen := chunks[..i];
      assert chunks[..i + 1] == seen + [chunks[i]];
      FlatIsPrefix(chunks, i + 1);
      FlatLast(seen, chunks[i]);
      NextAnswer(seen, chunks[i]);
      s.Receive(chunks[i], reply, seen);
    }
    assert chunks[..|chunks|] == chunks;
    s.BufferText();
  }

  lemma {:induction false} FlatIsPrefix(chunks: seq<string>, n: nat)
    requires n <= |chunks|
    ensures Flat(chunks[..n]) <= Flat(chunks)
    decreases |chunks|
  {
    if n == |chunks| {
      assert chunks[..n] == chunks;
    } else {
      var most := chunks[..|chunks| - 1];
      FlatIsPrefix(most, n);
      assert most[..n] == chunks[..n];
    }
  }

  /** The answer comes with the first chunk that completes a blank line, not earlier. */
  lemma {:induction false} AnswersAtFirst(chunks: seq<string>, k: nat)
    requires k <= |chunks|
    ensures match AnswersAfter(chunks)
            case Some(n) => HasBlankLine(Text(chunks[..n])) && (k < n ==> !HasBlankLine(Text(chunks[..k])))
            case None => !HasBlankLine(Text(chunks[..k]))
    decreases |chunks|
  {
    if chunks != [] {
      var most := chunks[..|chunks| - 1];
      assert k < |chunks| ==> most[..k] == chunks[..k];
      assert k == |chunks| ==> chunks[..k] == chunks;
      AnswersAtFirst(most, if k < |chunks| then k else 0);
      if AnswersAfter(most).Some? {
        assert most[..AnswersAfter(most).value] == chunks[..AnswersAfter(most).value];
      } else {
        assert chunks[..|chunks|] == chunks;
      }
    } else {
      assert chunks[..0] == [];
    }
  }

  // ---------------------------------------------------------------- the text and the bytes

  predicate NoNuls(chunks: seq<string>) {
    forall i :: 0 <= i < |chunks| ==> NoNul(chunks[i])
  }

  lemma {:induction false} FlatNoNul(chunks: seq<string>)
    ensures NoNul(Flat(chunks)) <==> NoNuls(chunks)
  {
    if chunks != [] {
      var n := |chunks| - 1;
      FlatNoNul(chunks[..n]);
      assert forall i :: 0 <= i < |Flat(chunks[..n])| ==> Flat(chunks)[i] == Flat(chunks[..n])[i];
      assert forall i :: 0 <= i < |chunks[n]| ==> chunks[n][i] == Flat(chunks)[|Flat(chunks[..n])| + i];
      assert chunks == chunks[..n] + [chunks[n]];
    }
  }

  /** Before a NUL arrives the buffer is all that was received. */
  lemma HeldNext(chunks: seq<string>, chunk: string)
    requires Held(chunks) == Flat(chunks) && NoNul(Flat(chunks))
    ensures Held(chunks + [chunk]) == Flat(chunks + [chunk])
  {
    assert (chunks + [chunk])[..|chunks|] == chunks;
  }

  lemma {:induction false} HeldIsAll(chunks: seq<string>)
    requires NoNuls(chunks)
    ensures Held(chunks) == Flat(chunks) && NoNul(Flat(chunks))
  {
    FlatNoNul(chunks);
    if chunks != [] {
      var n := |chunks| - 1;
      HeldIsAll(chunks[..n]);
      HeldNext(chunks[..n], chunks[n]);
      assert chunks == chunks[..n] + [chunks[n]];
    }
  }

  /** The session sees exactly what was received if and only if no NUL was. */
  lemma TextIsAll(chunks: seq<string>)
    ensures Text(chunks) == Flat(chunks)
            <==> forall i, j :: 0 <= i < |chunks| && 0 <= j < |chunks[i]| ==> chunks[i][j] != '\0'
  {
    assert NoNuls(chunks) <==> forall i, j :: 0 <= i < |chunks| && 0 <= j < |chunks[i]| ==> chunks[i][j] != '\0';
    FlatNoNul(chunks);
    if NoNuls(chunks) {
      HeldIsAll(chunks);
    }
  }

  /** At some time the session sees all that comes before the first NUL, and no more. */
  lemma {:induction false} SeesTheStart(chunks: seq<string>) returns (n: nat)
    ensures n <= |chunks| && Text(chunks[..n]) == CString(Flat(chunks))
  {
    n := |chunks|;
    assert chunks[..n] == chunks;
    if NoNuls(chunks) {
      HeldIsAll(chunks);
    } else {
      var most, last := chunks[..n - 1], chunks[n - 1];
      assert chunks == most + [last];
      FlatNoNul(most);
      if NoNuls(most) {
        HeldIsAll(most);
        HeldNext(most, last);
      } else {
        n := SeesTheStart(most);
        assert most[..n] == chunks[..n];
        var k := |CString(Flat(most))|;
        CStringOf(Flat(chunks), k);
        assert Flat(chunks)[..k] == CString(Flat(most));
      }
    }
  }

  lemma StaysFound(s: string, t: string, pat: string)
    requires Find(s, pat, 0).Some? && s <= t
    ensures Find(t, pat, 0).Some?
  {
    var i := Find(s, pat, 0).value;
    assert t[i..i + |pat|] == s[i..i + |pat|];
    assert OccursAt(t, pat, i);
  }

  lemma StaysBlank(s: string, t: string)
    requires HasBlankLine(s) && s <= t
    ensures HasBlankLine(t)
  {
    if Find(s, "\r\n\r\n", 0).Some? {
      StaysFound(s, t, "\r\n\r\n");
    } else {
      StaysFound(s, t, "\n\n");
    }
  }

  /** Without a NUL the session answers exactly when all the bytes together have a blank line. With
      one it answers at least when there is a blank line before it. */
  lemma AnswersIffBlank(chunks: seq<string>)
    ensures HasBlankLine(CString(Flat(chunks))) ==> AnswersAfter(chunks).Some?
    ensures NoNuls(chunks) && AnswersAfter(chunks).Some? ==> HasBlankLine(Flat(chunks))
  {
    hide HasBlankLine;
    var k := SeesTheStart(chunks);
    AnswersAtFirst(chunks, k);
    if NoNuls(chunks) && AnswersAfter(chunks).Some? {
      var n := AnswersAfter(chunks).value;
      HeldIsAll(chunks[..n]);
      FlatIsPrefix(chunks, n);
      StaysBlank(Flat(chunks[..n]), Flat(chunks));
    }
  }

  /** Whether it answers does not depend on how the bytes were cut into reads, if there is no NUL
      in them or a blank line before the first. */
  lemma ChunkingDoesNotMatter(a: seq<string>, b: seq<string>)
    requires Flat(a) == Flat(b) && (NoNul(Flat(a)) || HasBlankLine(CString(Flat(a))))
    ensures AnswersAfter(a).Some? <==> AnswersAfter(b).Some?
  {
    hide HasBlankLine;
    FlatNoNul(a);
    FlatNoNul(b);
    AnswersIffBlank(a);
    AnswersIffBlank(b);
  }

  /** A text has a blank line exactly when it is something, the two line ends, and something. */
  lemma BlankLineIs(s: string)
    ensures HasBlankLine(s) <==> exists a, b :: s == a + "\r\n\r\n" + b || s == a + "\n\n" + b
  {
    FindIs(s, "\r\n\r\n");
    FindIs(s, "\n\n");
  }

  lemma FindIs(s: string, pat: string)
    ensures Find(s, pat, 0).Some? <==> exists a, b :: s == a + pat + b
  {
    if Find(s, pat, 0).Some? {
      var i := Find(s, pat, 0).value;
      assert s == s[..i] + pat + s[i + |pat|..];
    }
    if a, b :| s == a + pat + b {
      assert s[|a|..|a| + |pat|] == pat && OccursAt(s, pat, |a|);
    }
  }

  /** A session is answered if and only if the bytes of its reads, when none is NUL, have a line end
      of either kind twice in a row. */
  lemma AnswersLineEnds(chunks: seq<string>)
    requires forall i, j :: 0 <= i < |chunks| && 0 <= j < |chunks[i]| ==> chunks[i][j] != '\0'
    ensures AnswersAfter(chunks).Some?
            <==> exists a, b :: Flat(chunks) == a + "\r\n\r\n" + b || Flat(chunks) == a + "\n\n" + b
  {
    hide HasBlankLine;
    BlankLineIs(Flat(chunks));
    assert NoNuls(chunks);
    FlatNoNul(chunks);
    AnswersIffBlank(chunks);
  }

  /** The bytes one at a time. */
  function Bytes(s: string): (chunks: seq<string>)
    ensures |chunks| == |s|
  {
    seq(|s|, i requires 0 <= i < |s| => [s[i]])
  }

  lemma {:induction false} WithoutLast(s: string, c: char, x: char)
    ensures Without(s + [x], c) == Without(s, c) + if x != c then [x] else ""
  {
    if s == "" {
      assert s + [x] == [x] && Without([x][1..], c) == "";
    } else {
      WithoutLast(s[1..], c, x);
      assert (s + [x])[1..] == s[1..] + [x];
    }
  }

  /** Read byte by byte, every NUL is overwritten by what comes next. */
  lemma {:induction false} TextOfBytes(s: string)
    ensures Flat(Bytes(s)) == s && Text(Bytes(s)) == Without(s, NUL)
    ensures |Held(Bytes(s))| <= |Text(Bytes(s))| + 1
  {
    hide CString, Placed, Flat, Without;
    if s == "" {
      NothingLeft();
    } else {
      var n := |s| - 1;
      TextOfBytes(s[..n]);
      assert s == s[..n] + [s[n]];
      assert Bytes(s) == Bytes(s[..n]) + [[s[n]]];
      FlatLast(Bytes(s[..n]), [s[n]]);
      WithoutLast(s[..n], NUL, s[n]);
      PlaceByte(Held(Bytes(s[..n])), s[n]);
      assert Bytes(s)[..n] == Bytes(s[..n]);
    }
  }

  lemma NothingLeft()
    ensures Flat([]) == CString("") == Without("", NUL) == ""
  {
  }

  lemma PlaceByte(held: string, x: char)
    requires |held| <= |CString(held)| + 1
    ensures Placed(held, [x]) == CString(held) + [x]
    ensures CString(Placed(held, [x])) == CString(held) + if x != NUL then [x] else ""
  {
    hide CString;
    assert held[..|CString(held)|] == CString(held);
    CStringAfter(CString(held), [x]);
    OneByte(x);
  }

  lemma OneByte(x: char)
    ensures CString([x]) == if x != NUL then [x] else ""
  {
  }

  /** Otherwise it does depend on it: when the first blank line is there only without the NULs, the
      session does not answer if all bytes come at once, but does if they come one by one. */
  lemma NulsMatter(s: string)
    requires !HasBlankLine(CString(s)) && HasBlankLine(Without(s, NUL))
    ensures Flat([s]) == Flat(Bytes(s)) == s
    ensures AnswersAfter([s]) == None && AnswersAfter(Bytes(s)).Some?
  {
    hide HasBlankLine, CString, Bytes, Without, Flat, AnswersAfter;
    TextOfBytes(s);
    AnswersAtFirst(Bytes(s), |s|);
    assert Bytes(s)[..|s|] == Bytes(s);
    AtOnce(s);
  }

  lemma AtOnce(s: string)
    ensures Flat([s]) == s
    ensures AnswersAfter([s]) == if HasBlankLine(CString(s)) then Some(1) else None
  {
    hide HasBlankLine;
    assert [s][..0] == [] && Held([s]) == s;
  }

  // ---------------------------------------------------------------- many sessions

  /** A chunk that arrives for one of the sessions. */
  datatype Event = Event(who: nat, chunk: string)

  /** What arrives for session `k`. */
  function ChunksOf(events: seq<Event>, k: nat): seq<string> {
    if events == [] then []
    else
      var last := events[|events| - 1];
      ChunksOf(events[..|events| - 1], k) + if last.who == k then [last.chunk] else []
  }

  /** The requests that are answered, in the order of the answers. */
  function Answers(events: seq<Event>, reply: string -> Request): seq<Request> {
    if events == [] then []
    else
      var chunks := ChunksOf(events, events[|events| - 1].who);
      Answers(events[..|events| - 1], reply) +
      if AnswersAfter(chunks) == Some(|chunks|) then [reply(Text(chunks))] else []
  }

  lemma Next(events: seq<Event>, i: nat, k: nat, reply: string -> Request)
    requires i < |events|
    ensures var chunks, e := ChunksOf(events[..i], k), events[i];
            && ChunksOf(events[..i + 1], k) == (if e.who == k then chunks + [e.chunk] else chunks)
            && (e.who == k ==>
                 var more := chunks + [e.chunk];
                 Answers(events[..i + 1], reply) ==
                 Answers(events[..i], reply) + if AnswersAfter(more) == Some(|more|) then [reply(Text(more))] else [])
  {
    hide AnswersAfter, Text;
    assert events[..i + 1][..i] == events[..i];
    assert ChunksOf(events[..i], k) + [] == ChunksOf(events[..i], k);
  }

  lemma {:induction false} ChunksFit(events: seq<Event>, n: nat, k: nat)
    requires n <= |events|
    ensures |Flat(ChunksOf(events[..n], k))| <= |Flat(ChunksOf(events, k))|
    decreases |events| - n
  {
    hide Flat;
    if n == |events| {
      assert events[..n] == events;
    } else {
      ChunksFit(events, n + 1, k);
      Next(events, n, k, (s: string) => Malformed);
      FlatLast(ChunksOf(events[..n], k), events[n].chunk);
    }
  }

  lemma NoEvents(reply: string -> Request)
    ensures Answers([], reply) == [] && Ledger([]) == Counters(0, map[]) && Balanced(Counters(0, map[]))
    ensures forall k :: ChunksOf([], k) == []
  {
    NothingHandled();
  }

  /** The sessions are different objects with buffers of their own. */
  ghost predicate Apart(sessions: seq<Session>) {
    forall j, k :: 0 <= j < k < |sessions| ==> sessions[j] != sessions[k] && sessions[j].data != sessions[k].data
  }

  /** Sessions that share the counters, their reads completing in any order: each answers as if it
      were alone, and the counters are those of the run of all answered requests. */
  method ServeAll(n: nat, events: seq<Event>, reply: string -> Request)
    returns (accounts: Accounts, sessions: seq<Session>)
    requires forall i :: 0 <= i < |events| ==> events[i].who < n
    requires forall k: nat :: |Flat(ChunksOf(events, k))| < MAX_LENGTH
    ensures accounts.Now() == Ledger(Answers(events, reply)) && Balanced(accounts.Now())
    ensures |sessions| == n && forall k :: 0 <= k < n ==> sessions[k].After(ChunksOf(events, k))
  {
    hide AnswersAfter, Text, Count, Flat, ChunksOf, Answers, Ledger, Balanced;
    accounts := new Accounts();
    sessions := [];
    for k := 0 to n
      invariant |sessions| == k && Apart(sessions) && accounts.Now() == Counters(0, map[])
      invariant fresh(accounts) && forall j :: 0 <= j < k ==> fresh(sessions[j]) && fresh(sessions[j].data)
      invariant forall j :: 0 <= j < k ==> sessions[j].accounts == accounts && sessions[j].After([])
    {
      var s := new Session(accounts);
      s.Start();
      sessions := sessions + [s];
    }
    NoEvents(reply);
    assert events[..0] == [];
    for i := 0 to |events|
      invariant accounts.Now() == Ledger(Answers(events[..i], reply)) && Balanced(accounts.Now())
      invariant fresh(accounts) && forall j :: 0 <= j < n ==> fresh(sessions[j]) && fresh(sessions[j].data)
      invariant forall j :: 0 <= j < n ==> sessions[j].After(ChunksOf(events[..i], j))
    {
      var Event(who, chunk) := events[i];
      ghost var chunks := ChunksOf(events[..i], who);
      forall j: nat {
        Next(events, i, j, reply);
      }
      ChunksFit(events, i + 1, who);
      FlatLast(chunks, chunk);
      sessions[who].Receive(chunk, reply, chunks);
      LedgerGrows(Answers(events[..i], reply), reply(Text(chunks + [chunk])));
      assert Answers(events[..i], reply) + [] == Answers(events[..i], reply);
    }
    assert events[..|events|] == events;
    LedgerBalances(Answers(events, reply));
  }
}
