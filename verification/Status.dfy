/** The status page: the counters condensed to one row for each uri and code, and the rows split
    into columns again. */
module Status {
  import opened Strings
  import opened Session

  // ---------------------------------------------------------------- numbers as text

  /** `std::to_string`: a minus sign before a negative number, and then its numeral. */
  function TextOf(n: int): (r: string)
    ensures r != "" && NoDelim(r, ' ')
    ensures n < 0 ==> r[0] == '-' && Numeral(r[1..]) && Value(r[1..]) == -n
    ensures n >= 0 ==> Numeral(r) && Value(r) == n
  {
    if n < 0 then
      assert ("-" + DecOf(-n))[1..] == DecOf(-n);
      "-" + DecOf(-n)
    else DecOf(n)
  }

  lemma TextIsInjective(m: int, n: int)
    requires TextOf(m) == TextOf(n)
    ensures m == n
  {
    assert m < 0 ==> TextOf(m)[0] == '-' && TextOf(m)[1..] == DecOf(-m);
    assert n < 0 ==> TextOf(n)[0] == '-' && TextOf(n)[1..] == DecOf(-n);
    assert !IsDigit('-');
  }

  // ---------------------------------------------------------------- splitting

  predicate NoDelim(s: string, c: char) {
    forall i :: 0 <= i < |s| ==> s[i] != c
  }

  /** The parts of `s` when `buff` has been collected before it. */
  function SplitFrom(s: string, c: char, buff: string): seq<string> {
    if s == "" then Flush(buff)
    else if s[0] != c then SplitFrom(s[1..], c, buff + [s[0]])
    else Flush(buff) + SplitFrom(s[1..], c, "")
  }

  function Flush(buff: string): seq<string> {
    if buff != "" then [buff] else []
  }

  method Split(s: string, c: char) returns (v: seq<string>)
    ensures v == SplitFrom(s, c, "")
  {
    var buff := "";
    v := [];
    for i := 0 to |s|
      invariant v + SplitFrom(s[i..], c, buff) == SplitFrom(s, c, "")
    {
      var n := s[i];
      assert s[i..][1..] == s[i + 1..];
      if n != c {
        buff := buff + [n];
      } else if n == c && buff != "" {
        assert v + [buff] + SplitFrom(s[i + 1..], c, "") == v + ([buff] + SplitFrom(s[i + 1..], c, ""));
        v := v + [buff];
        buff := "";
      }
    }
    if buff != "" {
      v := v + [buff];
    }
  }

  predicate AreParts(v: seq<string>, c: char) {
    forall i :: 0 <= i < |v| ==> v[i] != "" && NoDelim(v[i], c)
  }

  /** The parts are not empty, hold no delimiter, and put together are the text without its
      delimiters. */
  lemma {:induction false} SplitKeepsText(s: string, c: char, buff: string)
    requires NoDelim(buff, c)
    ensures AreParts(SplitFrom(s, c, buff), c)
    ensures Flat(SplitFrom(s, c, buff)) == buff + Without(s, c)
    decreases |s|
  {
    if s != "" {
      if s[0] != c {
        SplitKeepsText(s[1..], c, buff + [s[0]]);
        assert buff + [s[0]] + Without(s[1..], c) == buff + ([s[0]] + Without(s[1..], c));
      } else {
        SplitKeepsText(s[1..], c, "");
        var rest := SplitFrom(s[1..], c, "");
        FlatCons(buff, rest);
        assert [] + rest == rest;
      }
    }
  }

  function JoinBy(v: seq<string>, c: char): string {
    if v == [] then "" else if |v| == 1 then v[0] else v[0] + [c] + JoinBy(v[1..], c)
  }

  lemma {:induction false} SplitPart(p: string, rest: string, c: char, buff: string)
    requires NoDelim(p, c)
    ensures SplitFrom(p + rest, c, buff) == SplitFrom(rest, c, buff + p)
    decreases |p|
  {
    if p == "" {
      assert p + rest == rest && buff + p == buff;
    } else {
      assert (p + rest)[1..] == p[1..] + rest;
      assert buff + [p[0]] + p[1..] == buff + p;
      SplitPart(p[1..], rest, c, buff + [p[0]]);
    }
  }

  /** Splitting undoes joining. */
  lemma {:induction false} SplitOfJoin(v: seq<string>, c: char)
    requires AreParts(v, c)
    ensures SplitFrom(JoinBy(v, c), c, "") == v
    decreases |v|
  {
    if |v| == 1 {
      SplitPart(v[0], "", c, "");
      assert v[0] + "" == v[0] && "" + v[0] == v[0];
    } else if v != [] {
      var rest := [c] + JoinBy(v[1..], c);
      assert JoinBy(v, c) == v[0] + rest;
      SplitPart(v[0], rest, c, "");
      assert "" + v[0] == v[0] && rest[1..] == JoinBy(v[1..], c);
      SplitOfJoin(v[1..], c);
    }
  }

  // ---------------------------------------------------------------- rows

  /** The key under which a uri and a code are counted. */
  function RowKey(uri: string, code: int): string {
    uri + " " + TextOf(code)
  }

  lemma KeyIsInjective(u: string, c: int, v: string, d: int)
    requires RowKey(u, c) == RowKey(v, d)
    ensures u == v && c == d
  {
    var key := RowKey(u, c);
    NoBlankAfter(u, TextOf(c));
    NoBlankAfter(v, TextOf(d));
    assert key[..|u|] == u && key[..|v|] == v;
    assert key[|u| + 1..] == TextOf(c) && key[|v| + 1..] == TextOf(d);
    TextIsInjective(c, d);
  }

  /** After the blank before the code there is no other. */
  lemma NoBlankAfter(a: string, b: string)
    requires NoDelim(b, ' ')
    ensures var s := a + " " + b; s[|a|] == ' ' && forall k :: |a| < k < |s| ==> s[k] != ' '
  {
    var s := a + " " + b;
    assert forall k :: |a| < k < |s| ==> s[k] == b[k - |a| - 1];
  }

  /** A row decodes to what was counted exactly when the uri is neither empty nor has a blank. */
  lemma RowDecodes(uri: string, code: int, count: nat)
    ensures SplitFrom(RowKey(uri, code) + " " + TextOf(count), ' ', "") == [uri, TextOf(code), TextOf(count)]
            <==> uri != "" && NoDelim(uri, ' ')
  {
    var row := RowKey(uri, code) + " " + TextOf(count);
    var v := [uri, TextOf(code), TextOf(count)];
    assert v[1..][1..] == [TextOf(count)];
    assert JoinBy(v[1..], ' ') == TextOf(code) + " " + TextOf(count);
    assert row == JoinBy(v, ' ');
    if uri != "" && NoDelim(uri, ' ') {
      SplitOfJoin(v, ' ');
    } else {
      SplitKeepsText(row, ' ', "");
      assert v[0] == uri;
    }
  }

  // ---------------------------------------------------------------- condensing

  function CountAt(codes: map<string, nat>, key: string): nat {
    if key in codes then codes[key] else 0
  }

  ghost predicate IsKey(key: string) {
    exists uri, code :: key == RowKey(uri, code)
  }

  /** Each pair of a uri and a code is counted under its own key. */
  ghost predicate CountsAll(codes: map<string, nat>, handled: map<string, seq<int>>) {
    forall uri, code :: CountAt(codes, RowKey(uri, code)) == Times(handled, uri, code)
  }

  /** Nothing else is counted. */
  ghost predicate CountsOnly(codes: map<string, nat>) {
    forall key :: key in codes ==> codes[key] > 0 && IsKey(key)
  }

  /** `codes` condenses `handled`. */
  ghost predicate Tallies(codes: map<string, nat>, handled: map<string, seq<int>>) {
    CountsAll(codes, handled) && CountsOnly(codes) && SumOf(codes) == SumOf(Lengths(handled))
  }

  function Bump(codes: map<string, nat>, key: string): map<string, nat> {
    codes[key := CountAt(codes, key) + 1]
  }

  lemma CountsAllOne(codes: map<string, nat>, seen: map<string, seq<int>>, uri: string, code: int)
    requires CountsAll(codes, seen)
    ensures CountsAll(Bump(codes, RowKey(uri, code)), AddCode(seen, uri, code))
  {
    hide RowKey, Times, AddCode;
    var key, seen' := RowKey(uri, code), AddCode(seen, uri, code);
    forall u, c
      ensures CountAt(Bump(codes, key), RowKey(u, c)) == Times(seen', u, c)
    {
      if RowKey(u, c) == key {
        KeyIsInjective(u, c, uri, code);
      }
      TimesOne(seen, uri, code, u, c);
      assert CountAt(codes, RowKey(u, c)) == Times(seen, u, c);
    }
  }

  lemma TallyOne(codes: map<string, nat>, seen: map<string, seq<int>>, uri: string, code: int)
    requires Tallies(codes, seen)
    ensures Tallies(Bump(codes, RowKey(uri, code)), AddCode(seen, uri, code))
  {
    hide RowKey, CountsAll, SumOf, Lengths, AddCode;
    var key := RowKey(uri, code);
    CountsAllOne(codes, seen, uri, code);
    assert IsKey(key);
    SumWith(codes, key, CountAt(codes, key) + 1);
    Recorded(seen, uri, code);
  }

  lemma TallyNone(codes: map<string, nat>, seen: map<string, seq<int>>, uri: string)
    requires Tallies(codes, seen) && uri !in seen
    ensures Tallies(codes, seen[uri := []])
  {
    hide RowKey, CountsOnly, SumOf;
    forall u, c
      ensures CountAt(codes, RowKey(u, c)) == Times(seen[uri := []], u, c)
    {
      assert CountAt(codes, RowKey(u, c)) == Times(seen, u, c);
    }
    SumWith(Lengths(seen), uri, 0);
    assert Lengths(seen[uri := []]) == Lengths(seen)[uri := 0];
  }

  lemma OneMoreCode(seen: map<string, seq<int>>, uri: string, list: seq<int>, i: nat)
    requires i < |list|
    ensures AddCode(seen[uri := list[..i]], uri, list[i]) == seen[uri := list[..i + 1]]
  {
    assert list[..i + 1] == list[..i] + [list[i]];
  }

  /** The inner loop: all the codes of one uri. */
  method CondenseUri(codes: map<string, nat>, uri: string, list: seq<int>, ghost seen: map<string, seq<int>>)
    returns (codes': map<string, nat>)
    requires Tallies(codes, seen) && uri !in seen
    ensures Tallies(codes', seen[uri := list])
  {
    hide Tallies, TextOf;
    codes' := codes;
    TallyNone(codes, seen, uri);
    for i := 0 to |list|
      invariant Tallies(codes', seen[uri := list[..i]])
    {
      var response := uri + " " + TextOf(list[i]);
      TallyOne(codes', seen[uri := list[..i]], uri, list[i]);
      OneMoreCode(seen, uri, list, i);
      if response in codes' {
        codes' := codes'[response := codes'[response] + 1];
      } else {
        codes' := codes'[response := 1];
      }
    }
    assert list[..|list|] == list;
  }

  method Condense(handled: map<string, seq<int>>) returns (codes: map<string, nat>)
    ensures Tallies(codes, handled)
  {
    hide Tallies;
    codes := map[];
    ghost var seen: map<string, seq<int>> := map[];
    var left := handled.Keys;
    NothingTallied();
    while left != {}
      invariant left <= handled.Keys && seen == map k | k in handled.Keys - left :: handled[k]
      invariant Tallies(codes, seen)
      decreases |left|
    {
      var uri :| uri in left;
      codes := CondenseUri(codes, uri, handled[uri], seen);
      seen := seen[uri := handled[uri]];
      assert handled.Keys - (left - {uri}) == (handled.Keys - left) + {uri};
      left := left - {uri};
    }
    assert seen == handled;
  }

  lemma NothingTallied()
    ensures Tallies(map[], map[])
  {
    assert Lengths(map[]) == map[];
  }

  /** No two counters count the same requests differently. */
  lemma TallyIsUnique(a: map<string, nat>, b: map<string, nat>, handled: map<string, seq<int>>)
    requires Tallies(a, handled) && Tallies(b, handled)
    ensures a == b
  {
    hide RowKey, SumOf;
    forall key | key in a || key in b
      ensures key in a && key in b && a[key] == b[key]
    {
      assert IsKey(key);
      var uri, code :| key == RowKey(uri, code);
      assert CountAt(a, RowKey(uri, code)) == CountAt(b, RowKey(uri, code));
    }
  }

  // ---------------------------------------------------------------- the page

  /** Targets of requests, as the HTTP library hands them on: not empty, without blanks. */
  predicate Targets(handled: map<string, seq<int>>) {
    forall uri :: uri in handled ==> uri != "" && NoDelim(uri, ' ')
  }

  /** The three columns of a row of the page. */
  datatype Columns = Columns(uri: string, code: string, count: string)

  /** A row shows a uri, a code, and how often it was answered. */
  predicate IsRow(row: Columns, uri: string, code: int, handled: map<string, seq<int>>) {
    Times(handled, uri, code) > 0 && row == Columns(uri, TextOf(code), TextOf(Times(handled, uri, code)))
  }

  ghost predicate IsRowOf(row: Columns, handled: map<string, seq<int>>) {
    AllDigits(row.count) && exists uri, code :: IsRow(row, uri, code, handled)
  }

  /** The sum of the last column. */
  function Shown(rows: seq<Columns>): nat {
    if rows == [] then 0
    else Shown(rows[..|rows| - 1]) +
         var count := rows[|rows| - 1].count; if AllDigits(count) then Value(count) else 0
  }

  /** Every pair whose key is in `keys` has a row. */
  ghost predicate RowsFor(rows: seq<Columns>, handled: map<string, seq<int>>, keys: set<string>) {
    forall uri, code :: RowKey(uri, code) in keys ==> exists i :: 0 <= i < |rows| && IsRow(rows[i], uri, code, handled)
  }

  ghost predicate RowsOnly(rows: seq<Columns>, handled: map<string, seq<int>>) {
    forall i :: 0 <= i < |rows| ==> IsRowOf(rows[i], handled)
  }

  /** The page so far: a row for each key that is done, and nothing else. */
  ghost predicate PageSoFar(rows: seq<Columns>, handled: map<string, seq<int>>, done: map<string, nat>) {
    RowsOnly(rows, handled) && RowsFor(rows, handled, done.Keys) && Shown(rows) == SumOf(done)
  }

  /** The loop of the page: each key with its count is written as one text and split again. */
  method BuildRows(codes: map<string, nat>, ghost handled: map<string, seq<int>>) returns (rows: seq<Columns>)
    requires Tallies(codes, handled) && Targets(handled)
    ensures PageSoFar(rows, handled, codes)
  {
    hide RowKey, TextOf, AllDigits, Value, SplitFrom, IsRow, IsRowOf, PageSoFar, Tallies, Targets, Times;
    rows := [];
    var left := codes.Keys;
    ghost var done: map<string, nat> := map[];
    NothingShown(handled);
    while left != {}
      invariant done.Keys == codes.Keys - left && left <= codes.Keys
      invariant forall k :: k in done ==> done[k] == codes[k]
      invariant PageSoFar(rows, handled, done)
      decreases |left|
    {
      var key :| key in left;
      var row := key + " " + TextOf(codes[key]);
      var tokens := Split(row, ' ');
      ghost var uri, code := RowIsRight(codes, handled, key);
      var columns := Columns(tokens[0], tokens[1], tokens[2]);
      NextPage(rows, columns, handled, done, key, uri, code);
      rows := rows + [columns];
      done := done[key := codes[key]];
      left := left - {key};
    }
    assert done == codes;
  }

  /** The rows of the page, and the total above them: each row is a uri, a code that was answered for
      it, and how often; each such pair has a row; and the counts add up to the total. */
  method StatusPage(accounts: Accounts) returns (total: nat, rows: seq<Columns>)
    requires Balanced(accounts.Now()) && Targets(accounts.handled)
    ensures total == accounts.requestCount
    ensures forall row :: row in rows ==>
              exists uri, code ::
                && Times(accounts.handled, uri, code) > 0
                && row.uri == uri && row.code == TextOf(code) && row.count == TextOf(Times(accounts.handled, uri, code))
    ensures forall uri, code :: Times(accounts.handled, uri, code) > 0 ==>
              Columns(uri, TextOf(code), TextOf(Times(accounts.handled, uri, code))) in rows
    ensures Shown(rows) == total
  {
    hide RowKey, IsRow, IsRowOf, Shown, SumOf, Times, Targets, TextOf;
    var codes := Condense(accounts.handled);
    rows := BuildRows(codes, accounts.handled);
    AllShown(rows, accounts.handled, codes);
    total := accounts.requestCount;
    forall row | row in rows
      ensures exists uri, code ::
                && Times(accounts.handled, uri, code) > 0
                && row.uri == uri && row.code == TextOf(code) && row.count == TextOf(Times(accounts.handled, uri, code))
    {
      RowMeans(row, accounts.handled);
    }
    forall uri, code | Times(accounts.handled, uri, code) > 0
      ensures Columns(uri, TextOf(code), TextOf(Times(accounts.handled, uri, code))) in rows
    {
      var i :| 0 <= i < |rows| && IsRow(rows[i], uri, code, accounts.handled);
      RowIs(rows[i], uri, code, accounts.handled);
    }
  }

  lemma RowIs(row: Columns, uri: string, code: int, handled: map<string, seq<int>>)
    requires IsRow(row, uri, code, handled)
    ensures Times(handled, uri, code) > 0
    ensures row == Columns(uri, TextOf(code), TextOf(Times(handled, uri, code)))
  {
  }

  lemma RowMeans(row: Columns, handled: map<string, seq<int>>)
    requires IsRowOf(row, handled)
    ensures exists uri, code ::
              && Times(handled, uri, code) > 0
              && row.uri == uri && row.code == TextOf(code) && row.count == TextOf(Times(handled, uri, code))
  {
    hide IsRow, Times, TextOf;
    var uri, code :| IsRow(row, uri, code, handled);
    RowIs(row, uri, code, handled);
  }

  lemma NothingShown(handled: map<string, seq<int>>)
    ensures PageSoFar([], handled, map[])
  {
  }

  lemma NextPage(rows: seq<Columns>, row: Columns, handled: map<string, seq<int>>, done: map<string, nat>,
                 key: string, uri: string, code: int)
    requires PageSoFar(rows, handled, done) && key !in done
    requires key == RowKey(uri, code) && IsRow(row, uri, code, handled) && IsRowOf(row, handled) && AllDigits(row.count)
    ensures PageSoFar(rows + [row], handled, done[key := Value(row.count)])
  {
    hide RowKey, IsRow, IsRowOf, AllDigits, Value, SumOf, RowsFor;
    NextRow(rows, row, handled, done.Keys, key, uri, code);
    assert done[key := Value(row.count)].Keys == done.Keys + {key};
    assert (rows + [row])[..|rows|] == rows;
    SumWith(done, key, Value(row.count));
  }

  lemma NextRow(rows: seq<Columns>, row: Columns, handled: map<string, seq<int>>, keys: set<string>,
                key: string, uri: string, code: int)
    requires RowsFor(rows, handled, keys) && key == RowKey(uri, code) && IsRow(row, uri, code, handled)
    ensures RowsFor(rows + [row], handled, keys + {key})
  {
    hide RowKey, TextOf, IsRow, Times;
    forall u, c | RowKey(u, c) in keys + {key}
      ensures exists i :: 0 <= i < |rows + [row]| && IsRow((rows + [row])[i], u, c, handled)
    {
      if RowKey(u, c) == key {
        KeyIsInjective(u, c, uri, code);
        assert IsRow((rows + [row])[|rows|], u, c, handled);
      } else {
        var i :| 0 <= i < |rows| && IsRow(rows[i], u, c, handled);
        assert IsRow((rows + [row])[i], u, c, handled);
      }
    }
  }

  lemma AllShown(rows: seq<Columns>, handled: map<string, seq<int>>, codes: map<string, nat>)
    requires RowsFor(rows, handled, codes.Keys) && CountsAll(codes, handled)
    ensures forall uri, code :: Times(handled, uri, code) > 0 ==>
              exists i :: 0 <= i < |rows| && IsRow(rows[i], uri, code, handled)
  {
    hide RowKey, IsRow, Times;
    forall uri, code | Times(handled, uri, code) > 0
      ensures exists i :: 0 <= i < |rows| && IsRow(rows[i], uri, code, handled)
    {
      assert CountAt(codes, RowKey(uri, code)) == Times(handled, uri, code);
    }
  }

  lemma RowIsRight(codes: map<string, nat>, handled: map<string, seq<int>>, key: string) returns (uri: string, code: int)
    requires Tallies(codes, handled) && key in codes && Targets(handled)
    ensures key == RowKey(uri, code) && Times(handled, uri, code) == codes[key] > 0
    ensures var v := SplitFrom(key + " " + TextOf(codes[key]), ' ', "");
            && |v| == 3 && IsRow(Columns(v[0], v[1], v[2]), uri, code, handled)
            && IsRowOf(Columns(v[0], v[1], v[2]), handled)
            && AllDigits(v[2]) && Value(v[2]) == codes[key]
  {
    hide RowKey, SumOf;
    assert IsKey(key);
    uri, code :| key == RowKey(uri, code);
    assert CountAt(codes, RowKey(uri, code)) == Times(handled, uri, code);
    RowDecodes(uri, code, codes[key]);
  }
}
