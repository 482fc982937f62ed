/** The string operations of the standard library that the service relies on:
    decimal printing and parsing, leftmost search, `splitn`, `split`,
    `replace` and `trim`. */
module Text {
  import opened Wrappers

  // ---------------------------------------------------------------- decimals

  predicate IsDigit(c: char) {
    '0' <= c <= '9'
  }

  ghost predicate AllDigits(s: string) {
    forall i | 0 <= i < |s| :: IsDigit(s[i])
  }

  function DecimalNat(n: nat): string {
    (if n < 10 then "" else DecimalNat(n / 10)) + [('0' as int + n % 10) as char]
  }

  /** How Rust and PostgreSQL both write an integer. */
  function Decimal(i: int): string {
    if i < 0 then "-" + DecimalNat(-i) else DecimalNat(i)
  }

  function ParseDigits(s: string): Option<int> {
    if s == "" then None
    else if !IsDigit(s[|s| - 1]) then None
    else
      var d := s[|s| - 1] as int - '0' as int;
      if |s| == 1 then Some(d)
      else match ParseDigits(s[..|s| - 1])
        case None => None
        case Some(v) => Some(10 * v + d)
  }

  /** An optional sign and at least one digit. */
  function ParseInt(s: string): Option<int> {
    if s != "" && s[0] == '-' then
      match ParseDigits(s[1..])
      case None => None
      case Some(v) => Some(-v)
    else if s != "" && s[0] == '+' then ParseDigits(s[1..])
    else ParseDigits(s)
  }

  lemma {:induction false} DecimalNatRoundTrip(n: nat)
    ensures ParseDigits(DecimalNat(n)) == Some(n)
    ensures DecimalNat(n) != "" && AllDigits(DecimalNat(n))
  {
    var s := DecimalNat(n);
    if n < 10 {
      assert s == [('0' as int + n) as char];
    } else {
      DecimalNatRoundTrip(n / 10);
      assert s[..|s| - 1] == DecimalNat(n / 10);
    }
  }

  lemma DecimalRoundTrip(i: int)
    ensures ParseInt(Decimal(i)) == Some(i)
  {
    if i < 0 {
      DecimalNatRoundTrip(-i);
      assert Decimal(i)[1..] == DecimalNat(-i);
    } else {
      DecimalNatRoundTrip(i);
      assert IsDigit(DecimalNat(i)[0]);
    }
  }

  lemma DecimalInjective(i: int, j: int)
    requires Decimal(i) == Decimal(j)
    ensures i == j
  {
    DecimalRoundTrip(i);
    DecimalRoundTrip(j);
  }

  // ---------------------------------------------------------- leftmost search

  predicate OccursAt(s: string, p: string, i: nat) {
    i + |p| <= |s| && s[i..i + |p|] == p
  }

  ghost predicate Contains(s: string, p: string) {
    exists i: nat :: OccursAt(s, p, i)
  }

  /** The leftmost occurrence of `p` at or after `from`. */
  function FindFrom(s: string, p: string, from: nat): (r: Option<nat>)
    ensures r.Some? ==> r.value >= from && OccursAt(s, p, r.value)
    ensures r.Some? ==> forall i: nat | from <= i < r.value :: !OccursAt(s, p, i)
    ensures r.None? ==> forall i: nat | from <= i :: !OccursAt(s, p, i)
    decreases |s| - from
  {
    if from + |p| > |s| then None
    else if OccursAt(s, p, from) then Some(from)
    else if from == |s| then None
    else FindFrom(s, p, from + 1)
  }

  function Find(s: string, p: string): Option<nat> {
    FindFrom(s, p, 0)
  }

  /** `FindFrom` is pinned down by its contract. */
  lemma FindUnique(s: string, p: string, i: nat)
    requires OccursAt(s, p, i)
    requires forall j: nat | j < i :: !OccursAt(s, p, j)
    ensures Find(s, p) == Some(i)
  {
    assert Find(s, p).Some?;
  }

  // ------------------------------------------------------------------ replace

  /** `str::replace`: leftmost, non-overlapping occurrences. */
  function ReplaceAll(s: string, pat: string, rep: string): string
    requires pat != ""
    decreases |s|
  {
    match Find(s, pat)
    case None => s
    case Some(i) => s[..i] + rep + ReplaceAll(s[i + |pat|..], pat, rep)
  }

  // -------------------------------------------------------------------- split

  /** `str::split` on one character: always at least one part. */
  function Split(s: string, c: char): (r: seq<string>)
    ensures |r| >= 1
  {
    if s == "" then [""]
    else
      var rest := Split(s[1..], c);
      if s[0] == c then [""] + rest else [[s[0]] + rest[0]] + rest[1..]
  }

  lemma {:induction false} SplitNoSeparator(s: string, c: char)
    requires c !in s
    ensures Split(s, c) == [s]
  {
    if s != "" {
      SplitNoSeparator(s[1..], c);
      assert [s[0]] + s[1..] == s;
    }
  }

  lemma {:induction false} SplitJoin(a: string, c: char, b: string)
    requires c !in a
    ensures Split(a + [c] + b, c) == [a] + Split(b, c)
  {
    var s := a + [c] + b;
    if a == "" {
      assert s[1..] == b;
    } else {
      SplitJoin(a[1..], c, b);
      assert s[1..] == a[1..] + [c] + b;
      assert [a[0]] + a[1..] == a;
    }
  }

  // --------------------------------------------------------------------- trim

  /** Unicode White_Space, the property `str::trim` strips. */
  predicate IsWhite(c: char) {
    var u := c as int;
    || 0x09 <= u <= 0x0D || u == 0x20 || u == 0x85 || u == 0xA0 || u == 0x1680
    || 0x2000 <= u <= 0x200A || u == 0x2028 || u == 0x2029 || u == 0x202F
    || u == 0x205F || u == 0x3000
  }

  function TrimStart(s: string): (r: string)
    ensures r == "" || !IsWhite(r[0])
    ensures s == "" || !IsWhite(s[0]) ==> r == s
    ensures |r| > 0 && |s| > 0 ==> r[|r| - 1] == s[|s| - 1]
    ensures |r| <= |s|
  {
    if s != "" && IsWhite(s[0]) then TrimStart(s[1..]) else s
  }

  function TrimEnd(s: string): (r: string)
    ensures r == "" || !IsWhite(r[|r| - 1])
    ensures s == "" || !IsWhite(s[|s| - 1]) ==> r == s
    ensures |r| > 0 && |s| > 0 ==> r[0] == s[0]
    ensures |r| <= |s|
  {
    if s != "" && IsWhite(s[|s| - 1]) then TrimEnd(s[..|s| - 1]) else s
  }

  function Trim(s: string): string {
    TrimEnd(TrimStart(s))
  }

  lemma TrimIdempotent(s: string)
    ensures Trim(Trim(s)) == Trim(s)
  {
    var t := Trim(s);
    if t != "" {
      assert !IsWhite(t[0]);
    }
  }
}
