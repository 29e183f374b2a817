/** The string operations of the Go standard library that the controllers rely on: decimal
    printing and parsing, joining and splitting. */
module GoStrings {

  datatype Option<+T> = None | Some(value: T)

  const MAX_INT64 := 0x7FFF_FFFF_FFFF_FFFF

  predicate IsDigit(c: char) {
    '0' <= c <= '9'
  }

  predicate AllDigits(s: string) {
    forall c :: c in s ==> IsDigit(c)
  }

  /** The number that a string of digits denotes, leading zeros included. */
  function DigitsValue(s: string): (n: nat)
    requires AllDigits(s)
  {
    if s == "" then 0
    else
      assert s[|s| - 1] in s;
      DigitsValue(s[..|s| - 1]) * 10 + (s[|s| - 1] as int - '0' as int)
  }

  /** strconv.Itoa on the non-negative numbers printed here. */
  function Itoa(n: nat): (s: string)
    ensures s != "" && AllDigits(s)
    ensures DigitsValue(s) == n
  {
    if n < 10 then
      var s := [('0' as int + n) as char];
      assert s[..0] == "";
      s
    else
      var s := Itoa(n / 10) + [('0' as int + n % 10) as char];
      assert s[..|s| - 1] == Itoa(n / 10);
      s
  }

  /** strconv.Atoi: an optional sign, at least one digit, and a result that fits 64 bits. */
  function Atoi(s: string): (r: Option<int>)
  {
    var signed := s != "" && (s[0] == '+' || s[0] == '-');
    var digits := if signed then s[1..] else s;
    if digits == "" || !AllDigits(digits) then None
    else
      var n: int := DigitsValue(digits);
      var v := if signed && s[0] == '-' then -n else n;
      if -MAX_INT64 - 1 <= v <= MAX_INT64 then Some(v) else None
  }

  lemma AtoiItoa(n: nat)
    requires n <= MAX_INT64
    ensures Atoi(Itoa(n)) == Some(n)
  {
    assert Itoa(n)[0] in Itoa(n);
  }

  lemma ItoaInjective(m: nat, n: nat)
    requires Itoa(m) == Itoa(n)
    ensures m == n
  {
    assert DigitsValue(Itoa(m)) == m;
  }

  /** strings.Join with a one-character separator. */
  function Join(parts: seq<string>, sep: char): (s: string)
  {
    if parts == [] then ""
    else if |parts| == 1 then parts[0]
    else parts[0] + [sep] + Join(parts[1..], sep)
  }

  /** strings.Split with a one-character separator. */
  function Split(s: string, sep: char): (parts: seq<string>)
    ensures parts != []
  {
    if s == "" then [""]
    else
      var rest := Split(s[1..], sep);
      if s[0] == sep then [""] + rest else [[s[0]] + rest[0]] + rest[1..]
  }

  lemma {:induction false} SplitHead(p: string, t: string, sep: char)
    requires sep !in p
    ensures Split(p + [sep] + t, sep) == [p] + Split(t, sep)
  {
    var s := p + [sep] + t;
    if p == "" {
      assert s[1..] == t;
    } else {
      SplitHead(p[1..], t, sep);
      assert s[1..] == p[1..] + [sep] + t;
      assert p == [p[0]] + p[1..];
    }
  }

  lemma {:induction false} SplitWhole(p: string, sep: char)
    requires sep !in p
    ensures Split(p, sep) == [p]
  {
    if p != "" {
      SplitWhole(p[1..], sep);
      assert p == [p[0]] + p[1..];
    }
  }

  lemma {:induction false} SplitJoin(parts: seq<string>, sep: char)
    requires parts != []
    requires forall p :: p in parts ==> sep !in p
    ensures Split(Join(parts, sep), sep) == parts
  {
    assert parts[0] in parts;
    if |parts| == 1 {
      SplitWhole(parts[0], sep);
    } else {
      SplitJoin(parts[1..], sep);
      SplitHead(parts[0], Join(parts[1..], sep), sep);
      assert parts == [parts[0]] + parts[1..];
    }
  }

  /** A prefix that ends at the first separator of a string determines what precedes it. */
  lemma PrefixUpToSeparator(p: string, q: string, rest: string, sep: char)
    requires sep !in p && sep !in q
    requires p + [sep] <= q + [sep] + rest
    ensures p == q
  {
    var s := q + [sep] + rest;
    assert s[|p|] == (p + [sep])[|p|] == sep && s[|q|] == sep;
    assert forall i :: 0 <= i < |p| ==> p[i] == (p + [sep])[i] == s[i] && p[i] in p;
    assert forall i :: 0 <= i < |q| ==> q[i] == s[i] && q[i] in q;
    assert |p| == |q|;
  }

  /** The separator before a separator-free suffix is the last one. */
  lemma LastSeparator(p: string, d: string, s: string, sep: char)
    requires s == p + [sep] + d && sep !in d
    ensures |p| < |s| && s[|p|] == sep && s[..|p|] == p && s[|p| + 1..] == d
    ensures forall j :: |p| < j < |s| ==> s[j] != sep
  {
    assert forall j :: |p| < j < |s| ==> s[j] == d[j - |p| - 1] && d[j - |p| - 1] in d;
  }

  /** A suffix without the separator determines what precedes the last separator. */
  lemma SuffixAfterSeparator(p: string, d: string, q: string, e: string, sep: char)
    requires sep !in d && sep !in e && p + [sep] + d == q + [sep] + e
    ensures p == q && d == e
  {
    var s := p + [sep] + d;
    LastSeparator(p, d, s, sep);
    LastSeparator(q, e, s, sep);
  }
}
