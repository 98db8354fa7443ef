/** The debug-build checks of clibs/Stack: the integrity check, the data
    hash it compares against and the error-name table. */
module StackDump {
  import opened Common
  import opened Stack

  const CANARY_VALUE: nat := 0xDEAD_BEEF
  const MAGIC_VALUE: nat := 0xD0D0_CACA
  const HASH_SEED: bv64 := 0x811C_9DC5
  const FNV_PRIME_32: bv64 := 0x0100_0193

  /** The fields of a debug-build stack that the check reads.  `block` is
      the data block as bytes (`capacity * element_size` of them unless
      `data_null`). */
  datatype DebugStack = DebugStack(
    left_border: nat, right_border: nat, magic_number: nat,
    size: nat, capacity: nat, element_size: nat,
    data_hash: bv64, data_null: bool, block: seq<bv8>)

  predicate WellFormed(s: DebugStack)
  {
    !s.data_null ==> |s.block| == s.capacity * s.element_size
  }

  /** The accumulator loop of `fnv1aHash`. */
  method Fnv1aHash(bytes: seq<bv8>, seed: bv64) returns (hash: bv64)
    ensures hash == Fnv1a(bytes, seed, FNV_PRIME_32)
  {
    hash := seed;
    var i := 0;
    while i < |bytes|
      invariant i <= |bytes|
      invariant hash == Fnv1a(bytes[..i], seed, FNV_PRIME_32)
    {
      assert bytes[..i + 1][..i] == bytes[..i];
      hash := Fnv1aStep(hash, bytes[i], FNV_PRIME_32);
      i := i + 1;
    }
    assert bytes[..i] == bytes;
  }

  /** `calculateDataHash`: 0 without data or elements, otherwise the hash of
      the `size * element_size` bytes in use. */
  function DataHash(s: DebugStack): (h: bv64)
    requires WellFormed(s) && s.size <= s.capacity
    ensures s.data_null || s.size == 0 ==> h == 0
  {
    if s.data_null || s.size == 0 then 0
    else
      MulMonotone(s.size, s.capacity, s.element_size);
      Fnv1a(s.block[..s.size * s.element_size], HASH_SEED, FNV_PRIME_32)
  }

  lemma MulMonotone(a: nat, b: nat, c: nat)
    requires a <= b
    ensures a * c <= b * c
  {
  }

  /** The checks of `StackVerify`, in the order it makes them, each paired
      with the code it reports; the NULL-pointer check comes first and is
      made by the caller's `Option`. */
  function Failures(s: DebugStack): (r: seq<StackErr>)
    requires WellFormed(s)
  {
    (if s.magic_number != MAGIC_VALUE then [StackUseAfterFree] else [])
    + (if s.left_border != CANARY_VALUE || s.right_border != CANARY_VALUE then [StackCanaryCorrupted] else [])
    + (if s.size > s.capacity then [StackOverflow] else [])
    + (if s.element_size == 0 then [StackInvalidSize] else [])
    + (if s.size <= s.capacity && s.data_hash != DataHash(s) then [StackDataCorrupted] else [])
    + (if s.data_null && s.capacity > 0 then [StackMemoryError] else [])
  }

  /** `StackVerify`: the first failing check, or STACK_OK. */
  function StackVerify(p: Option<DebugStack>): (e: StackErr)
    requires p.Some? ==> WellFormed(p.value)
    ensures p.None? ==> e == StackNullPtr
    ensures p.Some? ==> e == if Failures(p.value) == [] then StackOk else Failures(p.value)[0]
  {
    if p.None? then StackNullPtr
    else
      var s := p.value;
      if s.magic_number != MAGIC_VALUE then StackUseAfterFree
      else if s.left_border != CANARY_VALUE || s.right_border != CANARY_VALUE then StackCanaryCorrupted
      else if s.size > s.capacity then StackOverflow
      else if s.element_size == 0 then StackInvalidSize
      else if s.data_hash != DataHash(s) then StackDataCorrupted
      else if s.data_null && s.capacity > 0 then StackMemoryError
      else StackOk
  }

  /** A stack passes exactly when every field is as the stack code keeps it. */
  lemma StackVerifyOk(s: DebugStack)
    requires WellFormed(s)
    ensures StackVerify(Some(s)) == StackOk <==>
              s.magic_number == MAGIC_VALUE && s.left_border == CANARY_VALUE && s.right_border == CANARY_VALUE
              && s.size <= s.capacity && s.element_size != 0 && s.data_hash == DataHash(s)
              && !(s.data_null && s.capacity > 0)
  {
  }

  /** `error_table`, in source order, with the name first and the
      enumerator's value second. */
  const ErrorNames: seq<(string, int)> := [
    ("STACK_OK", 0), ("STACK_UNDERFLOW", 1), ("STACK_OVERFLOW", 2),
    ("STACK_CANARY_CORRUPTED", 3), ("STACK_DATA_CORRUPTED", 4),
    ("STACK_NULL_PTR", 5), ("STACK_INVALID_SIZE", 6),
    ("STACK_INVALID_CAPACITY", 7), ("STACK_MEMORY_ERROR", 8),
    ("STACK_USE_AFTER_FREE", 9), ("STACK_DEST_CALLOC_FAILED", 10)
  ]

  /** Row `code` of the table is the one for `code`, and no row is for a
      value outside 0..10. */
  lemma ErrorNamesLookup(code: int)
    ensures 0 <= code <= 10 ==> FirstMatch(ErrorNames, code) == Some(ErrorNames[code].0)
    ensures !(0 <= code <= 10) ==> FirstMatch(ErrorNames, code).None?
  {
    FirstMatchSpec(ErrorNames, code);
    if 0 <= code <= 10 {
      FirstMatchAt(ErrorNames, code, code);
    }
  }

  /** `StackErrorMessage`: the table name of a known code, "NAN" for any
      other value the enumeration type can hold. */
  function StackErrorMessage(code: int): (r: string)
    ensures 0 <= code <= 10 ==> r == ErrorNames[code].0
    ensures r == "NAN" <==> !(0 <= code <= 10)
  {
    ErrorNamesLookup(code);
    match FirstMatch(ErrorNames, code)
    case None => "NAN"
    case Some(name) => name
  }

  /** Every error the stack reports has a name other than "NAN". */
  lemma StackErrorMessageNamed(e: StackErr)
    ensures StackErrorMessage(e.Code()) == ErrorNames[e.Code()].0 != "NAN"
  {
  }
}
