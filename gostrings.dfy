/**
 * Go strings and the standard-library helpers the core relies on.
 *
 * A Go string is a sequence of bytes. The model's strings are Dafny strings whose
 * characters each stand for one byte; `IsByteString` says that a string has this form,
 * and `ToBytes`/`FromBytes` are the conversions `[]byte(s)` and `string(b)`.
 * Also here: `fmt`'s `%d` (Itoa), `strconv.Atoi`, `strings.Split` and `strings.Join`
 * for a one-character separator.
 */
module GoStrings {
  import opened Wrappers

  /** A Go byte. */
  type byte = x: int | 0 <= x < 256

  const MinInt64: int := -0x8000_0000_0000_0000
  const MaxInt64: int := 0x7FFF_FFFF_FFFF_FFFF

  /** Every character is a single byte (code point below 256). */
  predicate IsByteString(s: string) {
    forall i :: 0 <= i < |s| ==> s[i] as int < 256
  }

  /** `[]byte(s)`: one byte per character. */
  function ToBytes(s: string): (b: seq<byte>)
    ensures |b| == |s|
    ensures forall i :: 0 <= i < |s| ==> b[i] == s[i] as int % 256
  {
    seq(|s|, i requires 0 <= i < |s| => s[i] as int % 256)
  }

  /** `string(b)`: one character per byte. */
  function FromBytes(b: seq<byte>): (s: string)
    ensures |s| == |b| && IsByteString(s)
    ensures forall i :: 0 <= i < |b| ==> s[i] as int == b[i]
  {
    seq(|b|, i requires 0 <= i < |b| => b[i] as char)
  }

  lemma ToBytesOfFromBytes(b: seq<byte>)
    ensures ToBytes(FromBytes(b)) == b
  {
    assert forall i :: 0 <= i < |b| ==> ToBytes(FromBytes(b))[i] == b[i];
  }

  lemma FromBytesOfToBytes(s: string)
    requires IsByteString(s)
    ensures FromBytes(ToBytes(s)) == s
  {
    assert forall i :: 0 <= i < |s| ==> FromBytes(ToBytes(s))[i] == s[i];
  }

  lemma ToBytesAppend(a: string, b: string)
    ensures ToBytes(a + b) == ToBytes(a) + ToBytes(b)
  {
    assert forall i :: 0 <= i < |a + b| ==> ToBytes(a + b)[i] == (ToBytes(a) + ToBytes(b))[i];
  }

  // ---------------------------------------------------------------------------
  // Decimal text: fmt's %d and strconv.Atoi

  predicate IsDigit(c: char) {
    '0' <= c <= '9'
  }

  predicate AllDigits(s: string) {
    forall i :: 0 <= i < |s| ==> IsDigit(s[i])
  }

  function DigitChar(d: nat): (c: char)
    requires d < 10
    ensures IsDigit(c) && c as int - '0' as int == d
  {
    ('0' as int + d) as char
  }

  /** The decimal digits of n, most significant first, without leading zeros. */
  function NatToDecimal(n: nat): (s: string)
    ensures |s| >= 1 && AllDigits(s)
    decreases n
  {
    if n < 10 then [DigitChar(n)] else NatToDecimal(n / 10) + [DigitChar(n % 10)]
  }

  /** `fmt.Sprintf("%d", n)`. */
  function Itoa(n: int): (s: string)
    ensures |s| >= 1
    ensures forall i :: 0 <= i < |s| ==> IsDigit(s[i]) || s[i] == '-'
  {
    if n < 0 then "-" + NatToDecimal(-n) else NatToDecimal(n)
  }

  /** The number a string of decimal digits denotes. */
  function DecimalValue(s: string): nat
    requires AllDigits(s)
    decreases |s|
  {
    if s == [] then 0
    else
      assert IsDigit(s[|s| - 1]);
      var d := s[|s| - 1] as int - '0' as int;
      assert 0 <= d;
      DecimalValue(s[..|s| - 1]) * 10 + d
  }

  lemma {:induction false} DecimalValueOfNat(n: nat)
    ensures DecimalValue(NatToDecimal(n)) == n
    decreases n
  {
    if n >= 10 {
      var s := NatToDecimal(n);
      DecimalValueOfNat(n / 10);
      assert s[..|s| - 1] == NatToDecimal(n / 10);
    }
  }

  /**
   * `strconv.Atoi`: an optional sign followed by at least one decimal digit, whose value
   * fits in a 64-bit int; anything else is an error (None).
   */
  function Atoi(s: string): (r: Option<int>)
    ensures r.Some? ==> MinInt64 <= r.value <= MaxInt64
  {
    if s == [] then None
    else
      var digits := if s[0] == '-' || s[0] == '+' then s[1..] else s;
      if digits == [] || !AllDigits(digits) then None
      else
        var v: int := if s[0] == '-' then -(DecimalValue(digits) as int) else DecimalValue(digits);
        if MinInt64 <= v <= MaxInt64 then Some(v) else None
  }

  /** Reading back what `%d` printed gives the number again. */
  lemma AtoiItoa(n: int)
    requires MinInt64 <= n <= MaxInt64
    ensures Atoi(Itoa(n)) == Some(n)
  {
    if n < 0 {
      DecimalValueOfNat(-n);
      assert Itoa(n)[1..] == NatToDecimal(-n);
    } else {
      DecimalValueOfNat(n);
    }
  }

  // ---------------------------------------------------------------------------
  // strings.Split / strings.Join with a one-character separator

  /** Position of the first occurrence of c in s. */
  function IndexOf(s: string, c: char): (k: nat)
    requires c in s
    ensures k < |s| && s[k] == c && c !in s[..k]
  {
    if s[0] == c then 0
    else
      assert c in s[1..] by { var j :| 0 <= j < |s| && s[j] == c; assert s[1..][j - 1] == c; }
      var k := 1 + IndexOf(s[1..], c);
      assert s[..k] == [s[0]] + s[1..][..k - 1];
      k
  }

  /** `strings.Split(s, sep)`: never empty; "" splits to [""]. */
  function Split(s: string, sep: char): (parts: seq<string>)
    ensures |parts| >= 1
    ensures forall i :: 0 <= i < |parts| ==> sep !in parts[i]
    decreases |s|
  {
    if sep !in s then [s]
    else
      var k := IndexOf(s, sep);
      [s[..k]] + Split(s[k + 1..], sep)
  }

  /** `strings.Join(parts, sep)`. */
  function Join(parts: seq<string>, sep: char): string
    decreases |parts|
  {
    if parts == [] then ""
    else if |parts| == 1 then parts[0]
    else parts[0] + [sep] + Join(parts[1..], sep)
  }

  /** Joining the pieces of a split restores the text. */
  lemma {:induction false} JoinSplit(s: string, sep: char)
    ensures Join(Split(s, sep), sep) == s
    decreases |s|
  {
    if sep in s {
      var k := IndexOf(s, sep);
      JoinSplit(s[k + 1..], sep);
      assert s == s[..k] + [sep] + s[k + 1..];
    }
  }

  /**
   * Splitting a join restores a non-empty list of pieces that do not contain the
   * separator. (Join of [] is "", which splits to [""], so the list must be non-empty.)
   */
  lemma {:induction false} SplitJoin(parts: seq<string>, sep: char)
    requires |parts| >= 1
    requires forall i :: 0 <= i < |parts| ==> sep !in parts[i]
    ensures Split(Join(parts, sep), sep) == parts
    decreases |parts|
  {
    if |parts| > 1 {
      var s := Join(parts, sep);
      assert s == parts[0] + [sep] + Join(parts[1..], sep);
      assert sep in s by { assert s[|parts[0]|] == sep; }
      assert s[..|parts[0]|] == parts[0];
      assert s[|parts[0]|] == sep;
      var k := IndexOf(s, sep);
      assert k == |parts[0]|;
      assert s[..k] == parts[0];
      assert s[k + 1..] == Join(parts[1..], sep);
      SplitJoin(parts[1..], sep);
    }
  }

  /** Join of a singleton is the element itself, and Split undoes it when the element has no separator. */
  lemma SplitJoinEmpty(sep: char)
    ensures Split(Join([], sep), sep) == [""]
  {
  }

  // ---------------------------------------------------------------------------
  // Last occurrence of a character, used to read back formatted identifiers

  /** Position of the last occurrence of c in s. */
  function LastIndexOf(s: string, c: char): (k: nat)
    requires c in s
    ensures k < |s| && s[k] == c && c !in s[k + 1..]
    decreases |s|
  {
    if s[|s| - 1] == c then |s| - 1
    else
      assert c in s[..|s| - 1] by { var j :| 0 <= j < |s| && s[j] == c; assert s[..|s| - 1][j] == c; }
      var k := LastIndexOf(s[..|s| - 1], c);
      assert s[k + 1..] == s[..|s| - 1][k + 1..] + [s[|s| - 1]];
      k
  }

  /** If the tail after a separator has no separator, that separator is the last one. */
  lemma LastIndexOfSuffix(prefix: string, c: char, tail: string)
    requires c !in tail
    ensures c in prefix + [c] + tail
    ensures LastIndexOf(prefix + [c] + tail, c) == |prefix|
  {
    var s := prefix + [c] + tail;
    assert s[|prefix|] == c;
    assert s[|prefix| + 1..] == tail;
    var k := LastIndexOf(s, c);
    assert k == |prefix|;
  }
}
