/** Strings as the agent uses them: decimal rendering, searching, base names
    and file extensions. */
module Text {

  datatype Option<+T> = None | Some(value: T)

  predicate OccursAt(s: string, sub: string, i: int) {
    0 <= i <= |s| - |sub| && s[i..i + |sub|] == sub
  }

  /** strings.Contains */
  predicate Contains(s: string, sub: string) {
    exists i | 0 <= i <= |s| :: OccursAt(s, sub, i)
  }

  /** strings.HasSuffix */
  predicate HasSuffix(s: string, suffix: string) {
    |suffix| <= |s| && s[|s| - |suffix|..] == suffix
  }

  /** The part of `s` in front of the first `c`, or all of `s`. */
  function Before(s: string, c: char): (r: string)
    ensures r <= s && c !in r
    ensures |r| < |s| ==> s[|r|] == c
  {
    if s == "" || s[0] == c then ""
    else
      var rest := Before(s[1..], c);
      assert s == [s[0]] + s[1..];
      [s[0]] + rest
  }

  lemma {:induction false} BeforeIsPrefix(a: string, c: char, b: string)
    requires c !in a
    ensures Before(a + [c] + b, c) == a
    ensures Before(a, c) == a
  {
    if a != "" {
      var s := a + [c] + b;
      assert s[1..] == a[1..] + [c] + b;
      BeforeIsPrefix(a[1..], c, b);
    }
  }

  /** The part of `s` behind the last slash. */
  function AfterLastSlash(s: string): (r: string)
    ensures '/' !in r
    ensures HasSuffix(s, r)
    ensures '/' !in s ==> r == s
    decreases |s|
  {
    if s == "" then ""
    else if s[|s| - 1] == '/' then ""
    else
      var head := s[..|s| - 1];
      var r := AfterLastSlash(head);
      assert s == head + [s[|s| - 1]];
      r + [s[|s| - 1]]
  }

  function TrimSlashes(s: string): (r: string)
    ensures r <= s
    ensures r != "" ==> r[|r| - 1] != '/'
    ensures forall k :: |r| <= k < |s| ==> s[k] == '/'
    decreases |s|
  {
    if s != "" && s[|s| - 1] == '/' then TrimSlashes(s[..|s| - 1]) else s
  }

  /** filepath.Base */
  function Base(path: string): (r: string)
    ensures r != ""
    ensures '/' in r <==> path != "" && forall k :: 0 <= k < |path| ==> path[k] == '/'
    ensures '/' in r ==> r == "/"
  {
    if path == "" then "."
    else
      var t := TrimSlashes(path);
      if t == "" then "/"
      else
        assert path[|t| - 1] != '/';
        AfterLastSlash(t)
  }

  lemma BaseOfName(name: string)
    requires name != "" && '/' !in name
    ensures Base(name) == name
  {
    assert TrimSlashes(name) == name;
  }

  function Digit(d: nat): (c: char)
    requires d < 10
    ensures '0' <= c <= '9'
  {
    '0' + d as char
  }

  /** strconv.FormatInt(n, 10) for n >= 0. */
  function Decimal(n: nat): (s: string)
    ensures s != ""
    ensures forall k :: 0 <= k < |s| ==> '0' <= s[k] <= '9'
  {
    if n < 10 then [Digit(n)] else Decimal(n / 10) + [Digit(n % 10)]
  }

  predicate IsDigits(s: string) {
    forall k :: 0 <= k < |s| ==> '0' <= s[k] <= '9'
  }

  function DigitsValue(s: string): nat
    requires IsDigits(s)
    decreases |s|
  {
    if s == "" then 0
    else 10 * DigitsValue(s[..|s| - 1]) + (s[|s| - 1] - '0') as nat
  }

  lemma {:induction false} DecimalValue(n: nat)
    ensures DigitsValue(Decimal(n)) == n
  {
    var s := Decimal(n);
    if n >= 10 {
      assert s[..|s| - 1] == Decimal(n / 10);
      DecimalValue(n / 10);
    }
  }

  lemma DecimalInjective(a: nat, b: nat)
    requires Decimal(a) == Decimal(b)
    ensures a == b
  {
    DecimalValue(a);
    DecimalValue(b);
  }

  type Int64 = n: int | -0x8000_0000_0000_0000 <= n < 0x8000_0000_0000_0000

  /** strconv.FormatInt(n, 10) */
  function FormatInt(n: int): string {
    if n < 0 then "-" + Decimal(-n) else Decimal(n)
  }

  function ParseDigits(s: string): Option<nat> {
    if s == "" || !IsDigits(s) then None else Some(DigitsValue(s))
  }

  function ToInt64(negative: bool, size: int): Option<Int64> {
    var n := if negative then -size else size;
    if -0x8000_0000_0000_0000 <= n < 0x8000_0000_0000_0000 then Some(n) else None
  }

  /** strconv.ParseInt(s, 10, 64) */
  function ParseInt(s: string): Option<Int64> {
    var signed := s != "" && (s[0] == '-' || s[0] == '+');
    match ParseDigits(if signed then s[1..] else s)
    case None => None
    case Some(size) => ToInt64(signed && s[0] == '-', size)
  }

  lemma ParseDecimal(n: nat)
    ensures ParseDigits(Decimal(n)) == Some(n)
  {
    DecimalValue(n);
  }

  lemma ParseSigned(s: string, size: nat)
    requires ParseDigits(s) == Some(size)
    ensures ParseInt("-" + s) == ToInt64(true, size)
  {
    assert ("-" + s)[1..] == s;
  }

  lemma ParseUnsigned(s: string, size: nat)
    requires ParseDigits(s) == Some(size)
    ensures ParseInt(s) == ToInt64(false, size)
  {
    assert '0' <= s[0] <= '9';
  }

  lemma ParseFormatted(n: Int64)
    ensures ParseInt(FormatInt(n)) == Some(n)
  {
    var k: int := n;
    if k < 0 {
      ParseDecimal(-k);
      ParseSigned(Decimal(-k), -k);
    } else {
      ParseDecimal(k);
      ParseUnsigned(Decimal(k), k);
    }
  }

  /** Two texts "a, separator, b" whose first parts hold no separator agree part by part. */
  lemma JoinInjective(a: string, b: string, a': string, b': string, c: char)
    requires c !in a && c !in a'
    requires a + [c] + b == a' + [c] + b'
    ensures a == a' && b == b'
  {
    BeforeIsPrefix(a, c, b);
    BeforeIsPrefix(a', c, b');
    assert (a + [c] + b)[|a| + 1..] == b;
    assert (a' + [c] + b')[|a'| + 1..] == b';
  }

  lemma PrefixIff(s: string, prefix: string)
    ensures prefix <= s <==> exists tail :: s == prefix + tail
  {
    if prefix <= s { assert s == prefix + s[|prefix|..]; }
  }

  lemma SuffixIff(s: string, suffix: string)
    ensures HasSuffix(s, suffix) <==> exists front :: s == front + suffix
  {
    if HasSuffix(s, suffix) { assert s == s[..|s| - |suffix|] + suffix; }
  }

  lemma ContainsIff(s: string, sub: string)
    ensures Contains(s, sub) <==> exists front, tail :: s == front + sub + tail
  {
    if i :| 0 <= i <= |s| && OccursAt(s, sub, i) {
      assert s == s[..i] + sub + s[i + |sub|..];
    }
    if front, tail :| s == front + sub + tail {
      assert OccursAt(s, sub, |front|);
    }
  }
}
