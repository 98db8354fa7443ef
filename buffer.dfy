/** The growable character buffer of clibs/Buffer: a heap block of
    `capacity` slots of which the first `size` hold data.  Both callers in
    the compiler create it with `sizeof(char)` elements, so a slot is a
    `char` and byte counts are element counts. */
module Buffer {

  datatype BufferErr = BufferOk | BufferOverflow | BufferFreadFailed

  /** What `realloc` followed by zeroing the last slot leaves in a block of
      `capacity` slots: the old prefix that fits, then zero-filled slots
      (the model's stand-in for the bytes `realloc` leaves unspecified),
      with the last slot forced to NUL. */
  function Resized(old_data: seq<char>, capacity: nat): (r: seq<char>)
    requires capacity > 0
    ensures |r| == capacity
    ensures r[capacity - 1] == '\0'
    ensures forall i :: 0 <= i < capacity - 1 && i < |old_data| ==> r[i] == old_data[i]
  {
    var kept := if |old_data| < capacity then old_data else old_data[..capacity];
    (kept + seq(capacity - |kept|, _ => '\0'))[capacity - 1 := '\0']
  }

  /** The capacity `BufferRealloc` asks for: 0 means "double". */
  function NewCapacity(capacity: nat, requested: nat): (c: nat)
    ensures requested != 0 ==> c == requested
    ensures requested == 0 ==> c == 2 * capacity
  {
    if requested == 0 then 2 * capacity else requested
  }

  class Buffer {
    var data: array<char>
    var size: nat
    var capacity: nat

    /** The block always has `capacity` slots (NULL when that is 0). */
    ghost predicate Valid()
      reads this
    {
      data.Length == capacity
    }

    /** The slots in use. */
    ghost function Contents(): seq<char>
      reads this, data
      requires Valid() && size <= capacity
    {
      data[..size]
    }

    /** `BufferInit`: an empty buffer with `capacity` zeroed slots (`calloc`);
        capacity 0 is valid and gives no block. */
    constructor Init(capacity: nat)
      ensures Valid() && fresh(data)
      ensures size == 0 && this.capacity == capacity
      ensures forall i :: 0 <= i < capacity ==> data[i] == '\0'
    {
      data := new char[capacity](_ => '\0');
      size := 0;
      this.capacity := capacity;
    }

    /** `BufferRealloc`: resizes the block to `new_capacity` slots (twice the
        old capacity when 0 is asked for), keeps the prefix that fits,
        zeroes the last slot and leaves `size` alone.  Doubling a zero
        capacity would zero the slot before the block, so the source needs
        a non-zero result. */
    method Realloc(new_capacity: nat) returns (err: BufferErr)
      requires Valid()
      requires NewCapacity(capacity, new_capacity) > 0
      modifies this
      ensures Valid() && fresh(data) && err == BufferOk
      ensures capacity == NewCapacity(old(capacity), new_capacity)
      ensures size == old(size)
      ensures data[..] == Resized(old(data[..]), capacity)
    {
      var cap := NewCapacity(capacity, new_capacity);
      var fresh_data := new char[cap](_ => '\0');
      var i := 0;
      while i < cap && i < data.Length
        invariant i <= cap && i <= data.Length
        invariant data == old(data) && size == old(size)
        invariant forall k :: 0 <= k < i ==> fresh_data[k] == data[k]
        invariant forall k :: i <= k < cap ==> fresh_data[k] == '\0'
      {
        fresh_data[i] := data[i];
        i := i + 1;
      }
      fresh_data[cap - 1] := '\0';
      assert fresh_data[..] == Resized(data[..], cap);
      data := fresh_data;
      capacity := cap;
      err := BufferOk;
    }

    /** `BufferRelease`: shrinks the block to `size + 1` slots, so the
        contents are followed by exactly one NUL. */
    method Release() returns (err: BufferErr)
      requires Valid()
      modifies this
      ensures Valid() && fresh(data) && err == BufferOk
      ensures capacity == size + 1 && size == old(size)
      ensures data[size] == '\0'
      ensures old(size) <= old(capacity) ==> data[..size] == old(data[..size])
    {
      err := Realloc(size + 1);
    }

    /** `BufferRead`: sizes the block to `count + 1` slots and reads `count`
        characters from the stream, whose remaining characters are `input`.
        A short read fails with the characters that did arrive stored and
        `size` unchanged; a full one NUL-terminates and sets `size` to
        `count + 1`. */
    method Read(count: nat, input: seq<char>) returns (err: BufferErr)
      requires Valid()
      modifies this
      ensures Valid() && fresh(data) && capacity == count + 1
      ensures err == BufferOk || err == BufferFreadFailed
      ensures err == BufferOk <==> |input| >= count
      ensures err == BufferOk ==> size == count + 1 && data[..count] == input[..count] && data[count] == '\0'
      ensures err == BufferFreadFailed ==> size == old(size) && data[..|input|] == input
    {
      err := Realloc(count + 1);
      var n := if |input| < count then |input| else count;
      var i := 0;
      while i < n
        invariant i <= n && fresh(data) && data.Length == count + 1 && capacity == count + 1
        invariant size == old(size)
        invariant forall k :: 0 <= k < i ==> data[k] == input[k]
      {
        data[i] := input[i];
        i := i + 1;
      }
      if n != count {
        err := BufferFreadFailed;
        return;
      }
      data[count] := '\0';
      size := count + 1;
    }

    /** The `memcpy` of `source` into the slots from `size` on. */
    method CopyAt(source: seq<char>)
      requires Valid() && size + |source| + 1 < capacity
      modifies data
      ensures data[..size] == old(data[..size])
      ensures data[size..size + |source|] == source
    {
      var i := 0;
      while i < |source|
        invariant i <= |source|
        invariant data[..size] == old(data[..size])
        invariant data[size..size + i] == source[..i]
      {
        data[size + i] := source[i];
        assert data[size..size + i + 1] == data[size..size + i] + [source[i]];
        i := i + 1;
      }
    }

    /** `BufferPush`: appends `source`, first growing the block to
        `capacity + 2 * |source| + 2` slots when fewer than
        `|source| + 1` free slots remain. */
    method Push(source: seq<char>) returns (err: BufferErr)
      requires Valid() && size <= capacity
      modifies this, data
      ensures Valid() && err == BufferOk
      ensures size == old(size) + |source|
      ensures size + 1 < capacity && (data == old(data) || fresh(data))
      ensures Contents() == old(Contents()) + source
      ensures old(size + |source| + 1 < capacity) ==> capacity == old(capacity) && data == old(data)
      ensures old(size + |source| + 1 >= capacity) ==> capacity == old(capacity) + 2 * |source| + 2
    {
      if size + |source| + 1 >= capacity {
        var _ := Realloc(capacity + 2 * |source| + 2);
      }
      ghost var before := data[..size];
      CopyAt(source);
      size := size + |source|;
      assert data[..size] == data[..old(size)] + data[old(size)..size];
      assert data[..size] == before + source;
      err := BufferOk;
    }
  }
}
