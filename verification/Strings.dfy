/** The searches of the C++ string library that the program uses, on positions. A search that
    finds nothing, which C++ answers with `npos`, is `None`. */
module Strings {

  datatype Option<+T> = None | Some(value: T)

  predicate OccursAt(s: string, pat: string, i: int) {
    0 <= i <= i + |pat| <= |s| && s[i..i + |pat|] == pat
  }

  /** `s.find(pat, from)`: the first occurrence at or after `from`. */
  function Find(s: string, pat: string, from: nat): (r: Option<nat>)
    ensures r.Some? ==> from <= r.value && OccursAt(s, pat, r.value)
    ensures forall i :: from <= i < (if r.Some? then r.value else |s| + 1) ==> !OccursAt(s, pat, i)
    decreases |s| - from
  {
    if from + |pat| > |s| then None
    else if s[from..from + |pat|] == pat then Some(from)
    else Find(s, pat, from + 1)
  }

  /** `s.find_first_of(chars, from)`. */
  function FindFirstOf(s: string, chars: set<char>, from: nat): (r: Option<nat>)
    ensures r.Some? ==> from <= r.value < |s| && s[r.value] in chars
    ensures forall i :: from <= i < (if r.Some? then r.value else |s|) ==> s[i] !in chars
    decreases |s| - from
  {
    if from >= |s| then None
    else if s[from] in chars then Some(from)
    else FindFirstOf(s, chars, from + 1)
  }

  /** `s.find_first_not_of(chars, from)`. */
  function FindFirstNotOf(s: string, chars: set<char>, from: nat): (r: Option<nat>)
    ensures r.Some? ==> from <= r.value < |s| && s[r.value] !in chars
    ensures forall i :: from <= i < (if r.Some? then r.value else |s|) ==> s[i] in chars
    decreases |s| - from
  {
    if from >= |s| then None
    else if s[from] !in chars then Some(from)
    else FindFirstNotOf(s, chars, from + 1)
  }

  /** The parts put together. */
  function Flat(parts: seq<string>): string {
    if parts == [] then "" else Flat(parts[..|parts| - 1]) + parts[|parts| - 1]
  }

  lemma FlatLast(parts: seq<string>, part: string)
    ensures Flat(parts + [part]) == Flat(parts) + part
  {
    assert (parts + [part])[..|parts|] == parts;
  }

  lemma {:induction false} FlatCons(part: string, parts: seq<string>)
    ensures Flat([part] + parts) == part + Flat(parts)
  {
    if parts == [] {
      assert [part] + parts == [part] && Flat([]) == "";
    } else {
      var n := |parts| - 1;
      FlatCons(part, parts[..n]);
      assert ([part] + parts)[..n + 1] == [part] + parts[..n];
    }
  }

  /** The text without the characters `c`. */
  function Without(s: string, c: char): string {
    if s == "" then "" else (if s[0] != c then [s[0]] else "") + Without(s[1..], c)
  }

  predicate IsDigit(c: char) {
    '0' <= c <= '9'
  }

  predicate AllDigits(s: string) {
    forall i :: 0 <= i < |s| ==> IsDigit(s[i])
  }

  /** The number a string of digits denotes. */
  function Value(s: string): nat
    requires AllDigits(s)
  {
    if s == "" then 0 else 10 * Value(s[..|s| - 1]) + (s[|s| - 1] as nat - '0' as nat)
  }

  /** Digits without a leading zero, unless the zero is all there is. */
  predicate Numeral(s: string) {
    s != "" && AllDigits(s) && (|s| > 1 ==> s[0] != '0')
  }

  function Digit(d: nat): (c: char)
    requires d < 10
    ensures IsDigit(c) && (c == '0' <==> d == 0)
  {
    d as char + '0'
  }

  /** The numeral of a number. */
  function DecOf(n: nat): (r: string)
    ensures Numeral(r) && Value(r) == n
    ensures r[0] == '0' ==> n == 0
  {
    if n < 10 then
      var r := [Digit(n)];
      assert r[..0] == "";
      r
    else
      var r := DecOf(n / 10) + [Digit(n % 10)];
      assert r[..|r| - 1] == DecOf(n / 10);
      r
  }

  /** Every numeral is that of its value, so a number has one only. */
  lemma {:induction false} DecOfValue(s: string)
    requires Numeral(s)
    ensures DecOf(Value(s)) == s
  {
    var n := |s| - 1;
    assert s == s[..n] + [s[n]];
    if n == 0 {
      assert s[..n] == "";
    } else {
      DecOfValue(s[..n]);
      PositiveNumeral(s[..n]);
    }
  }

  lemma {:induction false} PositiveNumeral(s: string)
    requires Numeral(s) && s[0] != '0'
    ensures Value(s) > 0
  {
    if |s| > 1 {
      PositiveNumeral(s[..|s| - 1]);
    } else {
      assert s[..0] == "";
    }
  }
}
