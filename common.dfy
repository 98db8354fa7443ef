/** Shared vocabulary: optional results, the C character classes the scanners
    use, decimal printing as the C formatting functions do it, and the C
    integer conversions that matter to the model. */
module Common {

  datatype Option<T> = None | Some(value: T)

  /** C's `isspace` in the "C" locale. */
  predicate IsSpace(c: char)
  {
    c == ' ' || c == '\t' || c == '\n' || c == '\U{B}' || c == '\U{C}' || c == '\r'
  }

  predicate IsDigit(c: char) { '0' <= c <= '9' }

  predicate IsAlpha(c: char) { ('a' <= c <= 'z') || ('A' <= c <= 'Z') }

  predicate IsAlnum(c: char) { IsAlpha(c) || IsDigit(c) }

  /** C's `tolower` on ASCII letters; every other character is unchanged. */
  function ToLower(c: char): (r: char)
    ensures IsAlpha(c) ==> 'a' <= r <= 'z'
    ensures !('A' <= c <= 'Z') ==> r == c
  {
    if 'A' <= c <= 'Z' then (c as int - 'A' as int + 'a' as int) as char else c
  }

  /** A C string: no embedded NUL, the terminator is the end of the sequence. */
  predicate NoNul(s: string) { forall i :: 0 <= i < |s| ==> s[i] != '\0' }

  function Pow2(n: nat): (r: nat)
    ensures r >= 1
  {
    if n == 0 then 1 else 2 * Pow2(n - 1)
  }

  lemma {:induction false} Pow2Add(a: nat, b: nat)
    ensures Pow2(a + b) == Pow2(a) * Pow2(b)
  {
    if a > 0 {
      Pow2Add(a - 1, b);
    }
  }

  const TWO32: nat := 0x1_0000_0000
  const TWO64: nat := 0x1_0000_0000_0000_0000

  /** Two's complement reinterpretation of the low 32 bits (a cast to `int`). */
  function Wrap32(v: int): (r: int)
    ensures -0x8000_0000 <= r < 0x8000_0000
    ensures (r - v) % TWO32 == 0
  {
    var m := v % TWO32;
    if m < 0x8000_0000 then m else m - TWO32
  }

  /** `strtol` saturates at LONG_MIN / LONG_MAX (64-bit `long`). */
  function ClampLong(v: int): (r: int)
    ensures -0x8000_0000_0000_0000 <= r < 0x8000_0000_0000_0000
    ensures -0x8000_0000_0000_0000 <= v < 0x8000_0000_0000_0000 ==> r == v
  {
    if v < -0x8000_0000_0000_0000 then -0x8000_0000_0000_0000
    else if v >= 0x8000_0000_0000_0000 then 0x7FFF_FFFF_FFFF_FFFF
    else v
  }

  /** The `int` that glibc's `atoi` and `sscanf("%d")` store for a decimal
      value: `strtol` saturation to 64 bits, then the low 32 bits. */
  function CInt(v: int): (r: int)
    ensures -0x8000_0000 <= r < 0x8000_0000
    ensures -0x8000_0000 <= v < 0x8000_0000 ==> r == v
  {
    Wrap32(ClampLong(v))
  }

  function DigitValue(c: char): (d: nat)
    requires IsDigit(c)
    ensures d < 10
  {
    c as int - '0' as int
  }

  /** Value of a run of decimal digits. */
  function DecValue(s: string): (r: nat)
    requires forall i :: 0 <= i < |s| ==> IsDigit(s[i])
    decreases |s|
  {
    if s == [] then 0 else 10 * DecValue(s[..|s| - 1]) + DigitValue(s[|s| - 1])
  }

  function DigitChar(d: nat): (c: char)
    requires d < 10
    ensures IsDigit(c) && DigitValue(c) == d
  {
    ('0' as int + d) as char
  }

  /** `%zu` / `%lu`: shortest decimal form of a natural number. */
  function NatToDec(n: nat): (s: string)
    ensures |s| >= 1
    ensures forall i :: 0 <= i < |s| ==> IsDigit(s[i])
    ensures DecValue(s) == n
    decreases n
  {
    if n < 10 then [DigitChar(n)] else NatToDec(n / 10) + [DigitChar(n % 10)]
  }

  /** `%d`: a minus sign then the magnitude for negative values. */
  function IntToDec(v: int): (s: string)
    ensures |s| >= 1
  {
    if v < 0 then "-" + NatToDec(-v) else NatToDec(v)
  }

  /** The decimal form has no leading zero unless it is "0". */
  lemma {:induction false} NatToDecNoLeadingZero(n: nat)
    ensures NatToDec(n)[0] == '0' <==> n == 0
  {
    if n >= 10 {
      NatToDecNoLeadingZero(n / 10);
    }
  }

  /** Printing in decimal is injective: different counters give different text. */
  lemma {:induction false} NatToDecInjective(a: nat, b: nat)
    requires NatToDec(a) == NatToDec(b)
    ensures a == b
  {
    // DecValue inverts NatToDec, so equal strings have equal values.
    assert DecValue(NatToDec(a)) == a;
    assert DecValue(NatToDec(b)) == b;
  }

  /** The string of the first row whose key is `key`, or None: the index
      loop over a static table that the name lookups share. */
  function FirstMatch<K(==)>(table: seq<(string, K)>, key: K): Option<string>
  {
    if table == [] then None
    else if table[0].1 == key then Some(table[0].0)
    else FirstMatch(table[1..], key)
  }

  /** FirstMatch finds the first row with the key, and None means no row has it. */
  lemma {:induction false} FirstMatchSpec<K>(table: seq<(string, K)>, key: K)
    ensures FirstMatch(table, key).None? <==> forall i :: 0 <= i < |table| ==> table[i].1 != key
    ensures FirstMatch(table, key).Some? ==>
              exists i :: 0 <= i < |table| && table[i] == (FirstMatch(table, key).value, key)
                          && forall j :: 0 <= j < i ==> table[j].1 != key
  {
    if table != [] && table[0].1 != key {
      FirstMatchSpec(table[1..], key);
      assert forall j :: 1 <= j < |table| ==> table[j] == table[1..][j - 1];
      if FirstMatch(table, key).Some? {
        var i :| 0 <= i < |table[1..]| && table[1..][i] == (FirstMatch(table, key).value, key)
                 && forall j :: 0 <= j < i ==> table[1..][j].1 != key;
        assert table[i + 1] == (FirstMatch(table, key).value, key);
      }
    }
  }

  /** The row that FirstMatch picks: the first one with the key. */
  lemma {:induction false} FirstMatchAt<K>(table: seq<(string, K)>, key: K, i: nat)
    requires i < |table| && table[i].1 == key
    requires forall j :: 0 <= j < i ==> table[j].1 != key
    ensures FirstMatch(table, key) == Some(table[i].0)
  {
    if i > 0 {
      assert table[0].1 != key;
      FirstMatchAt(table[1..], key, i - 1);
    }
  }

  lemma Pow2Wide()
    ensures Pow2(32) == TWO32 && Pow2(64) == TWO64
  {
    Pow2Double(1, 2);
    Pow2Double(2, 4);
    Pow2Double(4, 16);
    Pow2Double(8, 256);
    Pow2Double(16, 0x1_0000);
    Pow2Double(32, TWO32);
  }

  lemma Pow2Double(n: nat, v: nat)
    requires Pow2(n) == v
    ensures Pow2(2 * n) == v * v
  {
    Pow2Add(n, n);
  }

  /** One FNV-1a round on a 64-bit accumulator: XOR in the byte, then
      multiply by `prime` modulo 2^64. */
  function Fnv1aStep(hash: bv64, b: bv8, prime: bv64): bv64
  {
    (hash ^ (b as bv64)) * prime
  }

  /** FNV-1a over `bytes`, first to last, from accumulator `seed`. */
  function Fnv1a(bytes: seq<bv8>, seed: bv64, prime: bv64): bv64
  {
    if bytes == [] then seed
    else Fnv1aStep(Fnv1a(bytes[..|bytes| - 1], seed, prime), bytes[|bytes| - 1], prime)
  }

  /** Hashing a concatenation is hashing the second part from the hash of
      the first: the bytes are consumed in order. */
  lemma {:induction false} Fnv1aAppend(a: seq<bv8>, b: seq<bv8>, seed: bv64, prime: bv64)
    ensures Fnv1a(a + b, seed, prime) == Fnv1a(b, Fnv1a(a, seed, prime), prime)
  {
    if b != [] {
      assert (a + b)[..|a + b| - 1] == a + b[..|b| - 1];
      assert (a + b)[|a + b| - 1] == b[|b| - 1];
      Fnv1aAppend(a, b[..|b| - 1], seed, prime);
    } else {
      assert a + b == a;
    }
  }

  // ---------------------------------------------------------------------
  // C string keys

  /** A name a C string can hold: every character is one non-zero byte. */
  predicate CName(name: string)
  {
    forall i :: 0 <= i < |name| ==> 0 < name[i] as int < 256
  }

  /** The `symbol_name, strlen(symbol_name) + 1` key: the name's bytes and
      the NUL terminator. */
  function Key(name: string): (k: seq<bv8>)
    requires CName(name)
    ensures |k| == |name| + 1 && k[|name|] == 0
    ensures forall i :: 0 <= i < |name| ==> k[i] != 0 && k[i] as int == name[i] as int
  {
    seq(|name|, i requires 0 <= i < |name| => Byte(name[i] as int)) + [0]
  }

  /** The byte whose unsigned value is `x`, counted up from zero so that
      the solver never has to reason about a wide integer conversion. */
  function Byte(x: nat): (b: bv8)
    requires x < 256
    ensures b as int == x
  {
    if x == 0 then 0 else Byte(x - 1) + 1
  }

  lemma KeyInjective(a: string, b: string)
    requires CName(a) && CName(b) && Key(a) == Key(b)
    ensures a == b
  {
    assert |a| == |b|;
    forall i | 0 <= i < |a|
      ensures a[i] == b[i]
    {
      assert Key(a)[i] == Key(b)[i];
      assert a[i] as int == b[i] as int;
    }
  }

  /** A key that ends with its only NUL byte. */
  predicate Terminated(k: seq<bv8>)
  {
    |k| > 0 && k[|k| - 1] == 0 && forall i :: 0 <= i < |k| - 1 ==> k[i] != 0
  }
}
