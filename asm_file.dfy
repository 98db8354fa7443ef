/** The file `AssemblerWriteFile` of src/back_end/asm/asm.c writes: the
    `size_t` `start_ip`, the `size_t` element count of the bytecode stack,
    then that many `int`s, each stored least significant byte first as on
    the x86-64 targets the project builds for. */
module AsmFile {
  import opened Common
  import Asm

  /** One byte of the file. */
  type Octet = x: nat | x < 256

  /** 256 to the power `n`: the values that fit in `n` bytes. */
  function Pow256(n: nat): (p: nat)
    ensures p >= 1
  {
    if n == 0 then 1 else 256 * Pow256(n - 1)
  }

  /** The `n` bytes of `x` modulo 256^n, least significant first. */
  function LittleEndian(x: nat, n: nat): (r: seq<Octet>)
    ensures |r| == n
  {
    if n == 0 then [] else [x % 256] + LittleEndian(x / 256, n - 1)
  }

  /** The unsigned value of bytes stored least significant first. */
  function FromLittleEndian(r: seq<Octet>): (x: nat)
    ensures x < Pow256(|r|)
  {
    if r == [] then 0 else r[0] + 256 * FromLittleEndian(r[1..])
  }

  /** Bytes read back give the value written, when it fits. */
  lemma {:induction false} LittleEndianRoundTrip(x: nat, n: nat)
    requires x < Pow256(n)
    ensures FromLittleEndian(LittleEndian(x, n)) == x
  {
    if n > 0 {
      LittleEndianRoundTrip(x / 256, n - 1);
      assert LittleEndian(x, n)[1..] == LittleEndian(x / 256, n - 1);
    }
  }

  const SIZE_T_BYTES: nat := 8
  const INT_BYTES: nat := 4

  /** The `int` whose two's-complement pattern is `u`. */
  function Signed32(u: nat): (v: int)
    requires u < TWO32
    ensures -0x8000_0000 <= v < 0x8000_0000 && v % TWO32 == u
  {
    if u < 0x8000_0000 then u else u - TWO32
  }

  /** The `int`s of the stack, four bytes each, in stack order. */
  function Payload(code: seq<int>): (r: seq<Octet>)
    ensures |r| == INT_BYTES * |code|
  {
    if code == [] then [] else LittleEndian(code[0] % TWO32, INT_BYTES) + Payload(code[1..])
  }

  /** The three `fwrite`s: `start_ip`, the element count, the elements. */
  function FileImage(img: Asm.Image): (r: seq<Octet>)
    ensures |r| == 2 * SIZE_T_BYTES + INT_BYTES * |img.code|
  {
    LittleEndian(img.start_ip, SIZE_T_BYTES) + LittleEndian(|img.code|, SIZE_T_BYTES) + Payload(img.code)
  }

  /** The `int`s of a payload, or None when its length is not a multiple
      of four. */
  function ReadInts(r: seq<Octet>): (code: Option<seq<int>>)
    ensures code.Some? ==> INT_BYTES * |code.value| == |r|
    decreases |r|
  {
    if r == [] then Some([])
    else if |r| < INT_BYTES then None
    else
      match ReadInts(r[INT_BYTES..])
      case None => None
      case Some(rest) => Some([Signed32(FromLittleEndian(r[..INT_BYTES]))] + rest)
  }

  /** What a reader of the file gets back: `start_ip` and the bytecode,
      or None when the file is shorter than its header or its length
      disagrees with the count in the header. */
  function ReadImage(r: seq<Octet>): (img: Option<Asm.Image>)
    ensures img.Some? ==> |r| == 2 * SIZE_T_BYTES + INT_BYTES * |img.value.code|
  {
    if |r| < 2 * SIZE_T_BYTES then None
    else
      var size := FromLittleEndian(r[SIZE_T_BYTES..2 * SIZE_T_BYTES]);
      match ReadInts(r[2 * SIZE_T_BYTES..])
      case None => None
      case Some(code) =>
        if |code| != size then None
        else Some(Asm.Image(code, FromLittleEndian(r[..SIZE_T_BYTES])))
  }

  /** The elements of the bytecode fit in an `int`. */
  predicate Ints32(code: seq<int>)
  {
    forall k :: 0 <= k < |code| ==> -0x8000_0000 <= code[k] < 0x8000_0000
  }

  lemma {:induction false} PayloadRoundTrip(code: seq<int>)
    requires Ints32(code)
    ensures ReadInts(Payload(code)) == Some(code)
  {
    if code != [] {
      var head := LittleEndian(code[0] % TWO32, INT_BYTES);
      PayloadRoundTrip(code[1..]);
      assert (head + Payload(code[1..]))[INT_BYTES..] == Payload(code[1..]);
      assert (head + Payload(code[1..]))[..INT_BYTES] == head;
      Pow2Wide();
      assert Pow256(INT_BYTES) == TWO32;
      LittleEndianRoundTrip(code[0] % TWO32, INT_BYTES);
      assert Signed32(code[0] % TWO32) == code[0];
      assert [code[0]] + code[1..] == code;
    }
  }

  /** Reading the file back gives the image written, when `start_ip` and
      the element count fit in a `size_t` and every element in an `int`. */
  lemma FileImageRoundTrip(img: Asm.Image)
    requires img.start_ip < TWO64 && |img.code| < TWO64 && Ints32(img.code)
    ensures ReadImage(FileImage(img)) == Some(img)
  {
    var a := LittleEndian(img.start_ip, SIZE_T_BYTES);
    var b := LittleEndian(|img.code|, SIZE_T_BYTES);
    var r := FileImage(img);
    assert r[..SIZE_T_BYTES] == a;
    assert r[SIZE_T_BYTES..2 * SIZE_T_BYTES] == b;
    assert r[2 * SIZE_T_BYTES..] == Payload(img.code);
    assert Pow256(SIZE_T_BYTES) == TWO64 by {
      Pow2Wide();
    }
    LittleEndianRoundTrip(img.start_ip, SIZE_T_BYTES);
    LittleEndianRoundTrip(|img.code|, SIZE_T_BYTES);
    PayloadRoundTrip(img.code);
  }
}
