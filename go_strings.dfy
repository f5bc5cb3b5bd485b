/** The parts of Go's `strings` and `strconv` packages that the metadata
    config-line parser relies on, on strings of Unicode code points. */
module GoStrings {

  /** `unicode.IsSpace`: the Latin-1 spaces plus the other White_Space code points. */
  predicate IsSpace(c: char) {
    c == '\t' || c == '\n' || c == '\U{B}' || c == '\U{C}' || c == '\r' || c == ' '
    || c == '\U{85}' || c == '\U{A0}' || c == '\U{1680}'
    || ('\U{2000}' <= c <= '\U{200A}')
    || c == '\U{2028}' || c == '\U{2029}' || c == '\U{202F}' || c == '\U{205F}' || c == '\U{3000}'
  }

  predicate NoSpace(s: string) {
    forall k :: 0 <= k < |s| ==> !IsSpace(s[k])
  }

  predicate Excludes(s: string, c: char) {
    forall k :: 0 <= k < |s| ==> s[k] != c
  }

  // ---------------------------------------------------------------------------
  // strings.Split and strings.Join with a one-character separator

  /** `strings.Split(s, string(sep))`: the pieces between separators; always at
      least one piece, so the empty string gives `[""]`. */
  function Split(s: string, sep: char): (r: seq<string>)
    ensures |r| >= 1
    ensures forall i :: 0 <= i < |r| ==> Excludes(r[i], sep)
    decreases |s|
  {
    if |s| == 0 then [""]
    else
      var rest := Split(s[1..], sep);
      if s[0] == sep then [""] + rest
      else [[s[0]] + rest[0]] + rest[1..]
  }

  /** `strings.Join(parts, string(sep))`. */
  function Join(parts: seq<string>, sep: char): string
    decreases |parts|
  {
    if |parts| == 0 then ""
    else if |parts| == 1 then parts[0]
    else parts[0] + [sep] + Join(parts[1..], sep)
  }

  /** Joining the pieces of a split gives back the string. */
  lemma {:induction false} JoinSplit(s: string, sep: char)
    ensures Join(Split(s, sep), sep) == s
    decreases |s|
  {
    if |s| > 0 {
      JoinSplit(s[1..], sep);
      var rest := Split(s[1..], sep);
      if s[0] == sep {
        assert Split(s, sep) == [""] + rest;
        assert s == [sep] + s[1..];
      } else {
        var r := Split(s, sep);
        assert r == [[s[0]] + rest[0]] + rest[1..];
        if |rest| == 1 {
          assert Join(rest, sep) == rest[0];
          assert s == [s[0]] + s[1..];
        } else {
          assert Join(rest, sep) == rest[0] + [sep] + Join(rest[1..], sep);
          assert r[1..] == rest[1..];
          assert s == [s[0]] + s[1..];
        }
      }
    }
  }

  /** A piece free of the separator splits to itself. */
  lemma {:induction false} SplitNoSep(s: string, sep: char)
    requires Excludes(s, sep)
    ensures Split(s, sep) == [s]
    decreases |s|
  {
    if |s| > 0 {
      SplitNoSep(s[1..], sep);
      assert [s[0]] + s[1..] == s;
    }
  }

  /** Splitting at a leading piece free of the separator. */
  lemma {:induction false} SplitCons(a: string, sep: char, rest: string)
    requires Excludes(a, sep)
    ensures Split(a + [sep] + rest, sep) == [a] + Split(rest, sep)
    decreases |a|
  {
    var s := a + [sep] + rest;
    if |a| == 0 {
      assert s == [sep] + rest;
      assert s[1..] == rest;
    } else {
      assert s[1..] == a[1..] + [sep] + rest;
      SplitCons(a[1..], sep, rest);
      assert [a[0]] + a[1..] == a;
    }
  }

  /** Splitting a join of separator-free pieces gives back the pieces. */
  lemma {:induction false} SplitJoin(parts: seq<string>, sep: char)
    requires |parts| >= 1
    requires forall i :: 0 <= i < |parts| ==> Excludes(parts[i], sep)
    ensures Split(Join(parts, sep), sep) == parts
    decreases |parts|
  {
    if |parts| == 1 {
      SplitNoSep(parts[0], sep);
    } else {
      SplitJoin(parts[1..], sep);
      SplitCons(parts[0], sep, Join(parts[1..], sep));
      assert [parts[0]] + parts[1..] == parts;
    }
  }

  // ---------------------------------------------------------------------------
  // strings.TrimSpace

  /** The index of the first non-space of `s` at or after `lo`, or `|s|`. */
  function SpanStart(s: string, lo: nat): (i: nat)
    requires lo <= |s|
    ensures lo <= i <= |s| && (i == |s| || !IsSpace(s[i]))
    ensures forall k :: lo <= k < i ==> IsSpace(s[k])
    decreases |s| - lo
  {
    if lo < |s| && IsSpace(s[lo]) then SpanStart(s, lo + 1) else lo
  }

  /** The index just past the last non-space of `s` before `hi`, not below `lo`. */
  function SpanEnd(s: string, lo: nat, hi: nat): (j: nat)
    requires lo <= hi <= |s|
    ensures lo <= j <= hi && (j == lo || !IsSpace(s[j - 1]))
    ensures forall k :: j <= k < hi ==> IsSpace(s[k])
    decreases hi
  {
    if lo < hi && IsSpace(s[hi - 1]) then SpanEnd(s, lo, hi - 1) else hi
  }

  /** `strings.TrimSpace`: `s` with its leading and trailing spaces removed. */
  function TrimSpace(s: string): (r: string)
    ensures var i := SpanStart(s, 0);
      i + |r| <= |s| && r == s[i..i + |r|]
      && (forall k :: 0 <= k < i ==> IsSpace(s[k]))
      && (forall k :: i + |r| <= k < |s| ==> IsSpace(s[k]))
    ensures r == [] || (!IsSpace(r[0]) && !IsSpace(r[|r| - 1]))
  {
    var i := SpanStart(s, 0);
    var j := SpanEnd(s, i, |s|);
    assert j > i ==> s[i..j][0] == s[i] && s[i..j][j - i - 1] == s[j - 1];
    s[i..j]
  }

  /** A string with no space at either end is left as it is. */
  lemma TrimSpaceNoEdges(s: string)
    requires s == [] || (!IsSpace(s[0]) && !IsSpace(s[|s| - 1]))
    ensures TrimSpace(s) == s
  {
  }

  /** Trimming twice is trimming once. */
  lemma TrimSpaceIdempotent(s: string)
    ensures TrimSpace(TrimSpace(s)) == TrimSpace(s)
  {
    TrimSpaceNoEdges(TrimSpace(s));
  }

  // ---------------------------------------------------------------------------
  // strconv.Atoi on a 64-bit platform

  const MAX_INT64: int := 0x7fff_ffff_ffff_ffff
  const MIN_INT64: int := -0x8000_0000_0000_0000
  const MAX_UINT64: int := 0xffff_ffff_ffff_ffff

  predicate IsDigit(c: char) { '0' <= c <= '9' }

  predicate AllDigits(s: string) {
    forall k :: 0 <= k < |s| ==> IsDigit(s[k])
  }

  /** The decimal value of a string of digits. */
  function DigitsValue(s: string): nat
    requires AllDigits(s)
    decreases |s|
  {
    if |s| == 0 then 0
    else DigitsValue(s[..|s| - 1]) * 10 + (s[|s| - 1] as int - '0' as int)
  }

  /** Length of the longest prefix of `s` made of digits. */
  function DigitPrefix(s: string): (n: nat)
    ensures n <= |s| && AllDigits(s[..n])
    ensures n < |s| ==> !IsDigit(s[n])
    decreases |s|
  {
    if |s| > 0 && IsDigit(s[0]) then
      var m := DigitPrefix(s[1..]);
      assert s[..1 + m] == [s[0]] + s[1..][..m];
      1 + m
    else 0
  }

  /** `s` without its sign character, if it has one. */
  function Magnitude(s: string): (m: string)
    ensures |m| <= |s| && m == s[|s| - |m|..]
  {
    if |s| > 0 && (s[0] == '-' || s[0] == '+') then s[1..] else s
  }

  /** An optional sign followed by at least one decimal digit. */
  predicate IsDecimal(s: string) {
    |Magnitude(s)| >= 1 && AllDigits(Magnitude(s))
  }

  /** The integer a decimal string denotes. */
  function DecimalValue(s: string): int
    requires IsDecimal(s)
  {
    var v: int := DigitsValue(Magnitude(s));
    if s[0] == '-' then -v else v
  }

  /** `strconv.Atoi(s)` on a 64-bit platform: the value and whether there was no
      error. A decimal string in the 64-bit range gives its value; one outside it
      gives the nearest bound and an error. Any other string is a syntax error
      and gives 0, unless its leading digit run already overflows an unsigned
      64-bit number, which the scan reports first, as a range error. */
  function Atoi(s: string): (r: (int, bool))
    ensures MIN_INT64 <= r.0 <= MAX_INT64
    ensures r.1 <==> IsDecimal(s) && MIN_INT64 <= DecimalValue(s) <= MAX_INT64
    ensures IsDecimal(s) && MIN_INT64 <= DecimalValue(s) <= MAX_INT64 ==> r.0 == DecimalValue(s)
    ensures IsDecimal(s) && DecimalValue(s) > MAX_INT64 ==> r == (MAX_INT64, false)
    ensures IsDecimal(s) && DecimalValue(s) < MIN_INT64 ==> r == (MIN_INT64, false)
    ensures !IsDecimal(s) && DigitsValue(Magnitude(s)[..DigitPrefix(Magnitude(s))]) <= MAX_UINT64 ==>
      r == (0, false)
    ensures !IsDecimal(s) && DigitsValue(Magnitude(s)[..DigitPrefix(Magnitude(s))]) > MAX_UINT64 ==>
      r == (if s[0] == '-' then MIN_INT64 else MAX_INT64, false)
  {
    if |s| == 0 then (0, false)
    else
      var neg := s[0] == '-';
      var body := Magnitude(s);
      var p := DigitPrefix(body);
      if DigitsValue(body[..p]) > MAX_UINT64 then
        assert IsDecimal(s) ==> body[..p] == body;
        (if neg then MIN_INT64 else MAX_INT64, false)
      else if p == 0 || p < |body| then (0, false)
      else
        assert body[..p] == body;
        var v: int := DigitsValue(body);
        if !neg && v > MAX_INT64 then (MAX_INT64, false)
        else if neg && v > MAX_INT64 + 1 then (MIN_INT64, false)
        else (if neg then -v else v, true)
  }

  /** `strconv.Itoa` for non-negative numbers: the shortest decimal string. */
  function NatToDecimal(n: nat): (s: string)
    ensures |s| >= 1 && AllDigits(s)
    ensures s[0] != '0' || n == 0
    decreases n
  {
    var d := ['0' + (n % 10) as char];
    if n < 10 then d else NatToDecimal(n / 10) + d
  }

  /** `strconv.Itoa(n)`. */
  function Itoa(n: int): string {
    if n < 0 then "-" + NatToDecimal(-n) else NatToDecimal(n)
  }

  lemma {:induction false} DigitsValueOfDecimal(n: nat)
    ensures DigitsValue(NatToDecimal(n)) == n
    decreases n
  {
    var s := NatToDecimal(n);
    if n >= 10 {
      DigitsValueOfDecimal(n / 10);
      assert s[..|s| - 1] == NatToDecimal(n / 10);
    }
  }

  /** Every small decimal number fits below 2^64, so its digit run never overflows. */
  lemma DigitsOfInt64(n: nat)
    requires n <= MAX_INT64 + 1
    ensures DigitsValue(NatToDecimal(n)) <= MAX_UINT64
  {
    DigitsValueOfDecimal(n);
  }

  /** `Atoi` reads back what `Itoa` writes, for every 64-bit integer. */
  lemma AtoiItoa(n: int)
    requires MIN_INT64 <= n <= MAX_INT64
    ensures Atoi(Itoa(n)) == (n, true)
  {
    var s := Itoa(n);
    var m: nat := if n < 0 then -n else n;
    var body := NatToDecimal(m);
    DigitsValueOfDecimal(m);
    DigitsOfInt64(m);
    if n < 0 {
      assert s == "-" + body && s[1..] == body;
    } else {
      assert s == body && IsDigit(body[0]);
    }
    assert Magnitude(s) == body;
    assert IsDecimal(s) && DecimalValue(s) == n;
  }
}
