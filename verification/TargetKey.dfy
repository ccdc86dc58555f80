/**
 The string form of a target, `"%d:%d"`, and its way back: splitting on ":" and parsing both
 parts as decimal integers.
 */
module TargetKey {
  import opened Wrappers

  const INT64_MIN := -0x8000_0000_0000_0000
  const INT64_MAX := 0x7fff_ffff_ffff_ffff

  predicate Int64(n: int) { INT64_MIN <= n <= INT64_MAX }
  predicate Int32(n: int) { -0x8000_0000 <= n <= 0x7fff_ffff }

  // ---------------------------------------------------------------- printing

  const DIGITS := "0123456789"

  function FormatNat(n: nat): (s: string)
    ensures s != [] && forall c :: c in s ==> '0' <= c <= '9'
  {
    if n < 10 then [DIGITS[n]] else FormatNat(n / 10) + [DIGITS[n % 10]]
  }

  function FormatInt(n: int): (s: string)
    ensures s != [] && ':' !in s
  {
    if n < 0 then "-" + FormatNat(-n) else FormatNat(n)
  }

  function Key(kind: int, id: int): string {
    FormatInt(kind) + ":" + FormatInt(id)
  }

  // ---------------------------------------------------------------- parsing

  predicate IsDigit(c: char) { '0' <= c <= '9' }

  /** The value of a non-empty string of digits. */
  function ParseDigits(s: string): Option<nat> {
    if s == [] || !IsDigit(s[|s| - 1]) then None
    else
      var last := (s[|s| - 1] - '0') as nat;
      if |s| == 1 then Some(last)
      else match ParseDigits(s[..|s| - 1])
           case None => None
           case Some(rest) => Some(10 * rest + last)
  }

  /** An optional sign and digits, within 64 bits: what both parses of the program accept. */
  function ParseInt(s: string): (r: Option<int>)
    ensures r.Some? ==> Int64(r.value)
  {
    if s == [] then None else
    var body := if s[0] == '-' || s[0] == '+' then s[1..] else s;
    match ParseDigits(body)
    case None => None
    case Some(n) =>
      var value: int := if s[0] == '-' then -(n as int) else n;
      if Int64(value) then Some(value) else None
  }

  /** Splits at every separator; always at least one part. */
  function Split(s: string, sep: char): (parts: seq<string>)
    ensures parts != []
  {
    if s == [] then [[]]
    else if s[0] == sep then [[]] + Split(s[1..], sep)
    else
      var rest := Split(s[1..], sep);
      [[s[0]] + rest[0]] + rest[1..]
  }

  /** The conversion of a parsed kind to 32 bits. */
  function ToInt32(n: int): (r: int)
    ensures Int32(r) && (n - r) % 0x1_0000_0000 == 0
  {
    (n + 0x8000_0000) % 0x1_0000_0000 - 0x8000_0000
  }

  /** The target a key names, or None where the program logs the key as invalid. */
  function ParseKey(key: string): Option<(int, int)> {
    var parts := Split(key, ':');
    if |parts| != 2 then None
    else
      match (ParseInt(parts[0]), ParseInt(parts[1]))
      case (Some(kind), Some(id)) => Some((ToInt32(kind), id))
      case (_, _) => None
  }

  // ---------------------------------------------------------------- the round trip

  lemma {:induction false} DigitsRoundTrip(n: nat)
    ensures ParseDigits(FormatNat(n)) == Some(n)
    decreases n
  {
    var s := FormatNat(n);
    if n >= 10 {
      DigitsRoundTrip(n / 10);
      assert s[..|s| - 1] == FormatNat(n / 10);
    }
    assert (DIGITS[n % 10] - '0') as int == n % 10;
  }

  lemma ParseSigned(digits: string, n: int)
    requires n >= 0 && ParseDigits(digits) == Some(n) && digits != [] && IsDigit(digits[0])
    ensures Int64(n) ==> ParseInt(digits) == Some(n)
    ensures Int64(-n) ==> ParseInt("-" + digits) == Some(-n)
  {
    assert ("-" + digits)[1..] == digits;
  }

  lemma IntRoundTrip(n: int)
    requires Int64(n)
    ensures ParseInt(FormatInt(n)) == Some(n)
  {
    var digits := FormatNat(if n < 0 then -n else n);
    DigitsRoundTrip(if n < 0 then -n else n);
    assert digits[0] in digits;
    ParseSigned(digits, if n < 0 then -n else n);
  }

  lemma {:induction false} SplitWithout(s: string, sep: char)
    requires sep !in s
    ensures Split(s, sep) == [s]
    decreases |s|
  {
    if s != [] {
      assert forall c :: c in s[1..] ==> c in s;
      SplitWithout(s[1..], sep);
      assert [s[0]] + s[1..] == s;
    }
  }

  lemma {:induction false} SplitOnce(a: string, b: string, sep: char)
    requires sep !in a && sep !in b
    ensures Split(a + [sep] + b, sep) == [a, b]
    decreases |a|
  {
    var s := a + [sep] + b;
    if a == [] {
      assert s[1..] == b;
      SplitWithout(b, sep);
    } else {
      assert forall c :: c in a[1..] ==> c in a;
      SplitOnce(a[1..], b, sep);
      assert s[1..] == a[1..] + [sep] + b;
      assert [a[0]] + a[1..] == a;
    }
  }

  /** Every 32-bit kind and 64-bit id, negative ones included, survives being printed, split and parsed. */
  lemma KeyRoundTrip(kind: int, id: int)
    requires Int32(kind) && Int64(id)
    ensures ParseKey(Key(kind, id)) == Some((kind, id))
  {
    SplitOnce(FormatInt(kind), FormatInt(id), ':');
    IntRoundTrip(kind);
    IntRoundTrip(id);
  }

  /** So two messages share a key exactly when they share kind and id. */
  lemma KeyInjective(kind: int, id: int, kind': int, id': int)
    requires Int32(kind) && Int64(id) && Int32(kind') && Int64(id')
    ensures Key(kind, id) == Key(kind', id') <==> kind == kind' && id == id'
  {
    KeyRoundTrip(kind, id);
    KeyRoundTrip(kind', id');
  }
}
