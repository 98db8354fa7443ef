/** The array stack of clibs/Stack in its release build, where the
    verification macros expand to nothing.  Elements are copied in and out
    by value, so a slot holds a `T`; `element_size` is kept only for the
    checks `StackInit` makes. */
module Stack {
  import opened Common

  datatype StackErr =
    | StackOk | StackUnderflow | StackOverflow | StackCanaryCorrupted
    | StackDataCorrupted | StackNullPtr | StackInvalidSize | StackInvalidCapacity
    | StackMemoryError | StackUseAfterFree | StackDestCallocFailed
  {
    /** The value of the C enumerator. */
    function Code(): (c: nat)
      ensures c <= 10
      ensures this == StackOk <==> c == 0
    {
      match this
      case StackOk => 0
      case StackUnderflow => 1
      case StackOverflow => 2
      case StackCanaryCorrupted => 3
      case StackDataCorrupted => 4
      case StackNullPtr => 5
      case StackInvalidSize => 6
      case StackInvalidCapacity => 7
      case StackMemoryError => 8
      case StackUseAfterFree => 9
      case StackDestCallocFailed => 10
    }
  }

  const CAPACITY_UPPER_LIMIT: nat := 1000

  /** The arguments `StackInit` accepts. */
  predicate InitAccepts(capacity: nat, element_size: nat)
  {
    capacity <= CAPACITY_UPPER_LIMIT && element_size != 0
  }

  class Stack<T(0)> {
    var data: array<T>
    var size: nat
    var capacity: nat
    var element_size: nat

    ghost predicate Valid()
      reads this
    {
      data.Length == capacity && size <= capacity
    }

    /** The elements from bottom to top. */
    ghost function Elements(): seq<T>
      reads this, data
      requires Valid()
    {
      data[..size]
    }

    constructor Make(capacity: nat, element_size: nat)
      ensures Valid() && fresh(data)
      ensures size == 0 && this.capacity == capacity && this.element_size == element_size
    {
      data := new T[capacity];
      size := 0;
      this.capacity := capacity;
      this.element_size := element_size;
    }

    /** `StackRealloc`: doubles the capacity and keeps the elements.  Asking
        `realloc` for zero bytes is taken to fail, as it does in glibc, so a
        zero capacity cannot grow. */
    method Realloc() returns (err: StackErr)
      requires Valid()
      modifies this
      ensures Valid() && element_size == old(element_size)
      ensures err == StackOk || err == StackOverflow
      ensures err == StackOverflow <==> old(capacity) == 0
      ensures err == StackOk ==> capacity == 2 * old(capacity) && fresh(data)
      ensures err == StackOverflow ==> capacity == old(capacity) && data == old(data)
      ensures size == old(size) && Elements() == old(Elements())
    {
      if capacity == 0 {
        return StackOverflow;
      }
      var new_capacity := 2 * capacity;
      var new_data := new T[new_capacity];
      var i := 0;
      while i < size
        invariant i <= size
        invariant data == old(data) && size == old(size) && capacity == old(capacity)
        invariant element_size == old(element_size)
        invariant forall k :: 0 <= k < i ==> new_data[k] == data[k]
      {
        new_data[i] := data[i];
        i := i + 1;
      }
      data := new_data;
      capacity := new_capacity;
      err := StackOk;
    }

    /** `StackPush`: writes `x` at index `size` after doubling the capacity
        when `size + 1 >= capacity`. */
    method Push(x: T) returns (err: StackErr)
      requires Valid()
      modifies this, data
      ensures Valid() && element_size == old(element_size)
      ensures err == StackOk || err == StackOverflow
      ensures err == StackOverflow <==> old(capacity) == 0
      ensures err == StackOk ==> Elements() == old(Elements()) + [x] && size == old(size) + 1
      ensures err == StackOverflow ==> Elements() == old(Elements()) && size == old(size)
      ensures err == StackOk && old(size < capacity) ==> size < capacity
      ensures capacity == if old(size) + 1 >= old(capacity) then 2 * old(capacity) else old(capacity)
    {
      if size + 1 >= capacity {
        err := Realloc();
        if err == StackOverflow {
          return;
        }
      }
      assert size < capacity;
      ghost var before := Elements();
      data[size] := x;
      size := size + 1;
      assert Elements() == before + [x];
      err := StackOk;
    }

    /** `StackPop`: NULL (None) on an empty stack, otherwise a copy of the
        top element, which is removed. */
    method Pop() returns (r: Option<T>)
      requires Valid()
      modifies this
      ensures Valid() && data == old(data) && capacity == old(capacity)
      ensures old(size) == 0 ==> r.None? && size == 0
      ensures old(size) > 0 ==> r == Some(old(Elements())[old(size) - 1])
                                && Elements() == old(Elements())[..old(size) - 1]
    {
      if size == 0 {
        return None;
      }
      r := Some(data[size - 1]);
      size := size - 1;
    }

    /** `StackTop`: a copy of the top element, or NULL (None) when empty. */
    method Top() returns (r: Option<T>)
      requires Valid()
      ensures r.None? <==> size == 0
      ensures r.Some? ==> r.value == Elements()[size - 1]
    {
      if size == 0 {
        return None;
      }
      r := Some(data[size - 1]);
    }

    method Size() returns (n: nat)
      requires Valid()
      ensures n == |Elements()|
    {
      n := size;
    }

    method Empty() returns (b: bool)
      requires Valid()
      ensures b <==> Elements() == []
    {
      b := size == 0;
    }
  }

  /** `StackInit`: NULL (None) for a capacity above the limit or a zero
      element size, otherwise an empty stack. */
  method Init<T(0)>(capacity: nat, element_size: nat) returns (s: Option<Stack<T>>)
    ensures s.None? <==> !InitAccepts(capacity, element_size)
    ensures s.Some? ==> fresh(s.value) && fresh(s.value.data) && s.value.Valid() && s.value.Elements() == []
                        && s.value.capacity == capacity
  {
    if !InitAccepts(capacity, element_size) {
      return None;
    }
    var stack := new Stack<T>.Make(capacity, element_size);
    return Some(stack);
  }

  /** Pushing then popping gives back the pushed element and the stack it
      was pushed on. */
  method PushPop<T(0)>(s: Stack<T>, x: T) returns (r: Option<T>)
    requires s.Valid() && s.capacity > 0
    modifies s, s.data
    ensures s.Valid() && r == Some(x) && s.Elements() == old(s.Elements())
  {
    var err := s.Push(x);
    r := s.Pop();
  }
}
