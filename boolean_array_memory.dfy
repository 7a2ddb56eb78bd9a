/** The interpreter's memory region backed by a Java `boolean[]`: 8-bit loads,
    stores and compare-and-exchange on its elements, rejection of every wider
    or typed access, and copies. Access modes only choose how an index is
    converted; their memory-ordering effects are not modelled. */
module BooleanMemory {
  import opened Wrappers
  import opened JavaInt

  /** Read access modes; `ReadPlain` stands for every mode that `GlobalPlain` includes. */
  datatype ReadMode = ReadPlain | ReadOpaque | ReadAcquire | ReadVolatile

  /** Write access modes; `WritePlain` stands for every mode that `GlobalPlain` includes. */
  datatype WriteMode = WritePlain | WriteOpaque | WriteRelease | WriteVolatile

  /** What an access throws: `InvalidIndex` is the ArithmeticException of
      `Math.toIntExact`, `IndexOutOfBounds` the ArrayIndexOutOfBoundsException
      of the array access. */
  datatype MemoryError =
    | InvalidIndex
    | IndexOutOfBounds
    | InvalidMemoryAccess
    | UnsupportedOperation
    | NegativeArraySize

  /** The accesses this memory rejects: 16-, 32- and 64-bit, reference, type
      and pointer loads, stores and compare-and-exchanges. */
  datatype RejectedAccess =
    | Load16 | Load32 | Load64 | LoadRef | LoadType | LoadPointer
    | Store16 | Store32 | Store64 | StoreRef | StoreType | StorePointer
    | CompareAndExchange16 | CompareAndExchange32 | CompareAndExchange64
    | CompareAndExchangeRef | CompareAndExchangeType | CompareAndExchangePointer

  /** The boolean an int stores: its lowest bit, `(value & 1) != 0`. */
  function LowBit(value: int32): (b: bool)
    ensures b <==> value as int % 2 != 0
  {
    value as int % 2 == 1
  }

  /** `b ? 1 : 0`. */
  function AsInt(b: bool): (r: int32)
    ensures r == 0 || r == 1
    ensures LowBit(r) == b
  {
    if b then 1 else 0
  }

  /** The array index of a long index under `Math.toIntExact`. */
  function ExactIndex(index: int64): (r: Option<int>)
    ensures r.Some? <==> -TWO_31 <= index as int < TWO_31
    ensures r.Some? ==> r.value == index as int
  {
    var i := ToIntExact(index);
    if i.Some? then Some(i.value as int) else None
  }

  /** The array index that `store8` uses: in plain mode the narrowing cast
      `(int) index`, which never fails; in every other mode `Math.toIntExact`. */
  function StoreIndex(index: int64, mode: WriteMode): (r: Option<int>)
    ensures mode != WritePlain ==> r == ExactIndex(index)
    ensures mode == WritePlain ==> r.Some? && (r.value - index as int) % TWO_32 == 0
    ensures -TWO_31 <= index as int < TWO_31 ==> r == Some(index as int)
  {
    if mode == WritePlain then Some(IntCast(index) as int) else ExactIndex(index)
  }

  /** As written, a plain store at index 2^32 writes element 0, whereas a
      load, and a store in any other mode, refuses that index. */
  lemma PlainStoreIndexWraps()
    ensures StoreIndex(0x1_0000_0000, WritePlain) == Some(0)
    ensures ExactIndex(0x1_0000_0000) == None
    ensures StoreIndex(0x1_0000_0000, WriteOpaque) == None
  {
  }

  /** The evidently intended store index: `Math.toIntExact` in every mode,
      the conversion `load8` and the other store modes use. */
  function StoreIndexIntended(index: int64, mode: WriteMode): (r: Option<int>)
    ensures r == ExactIndex(index)
  {
    match mode
    case WritePlain => ExactIndex(index)
    case _ => StoreIndex(index, mode)
  }

  /** The intended conversion differs from the one written exactly for a
      plain store outside the int range, where it refuses the index instead
      of wrapping it; index 2^32 is refused in every mode. */
  lemma ExactIndexNeverWraps(index: int64, mode: WriteMode)
    ensures StoreIndexIntended(index, mode) != StoreIndex(index, mode) <==>
              mode == WritePlain && !(-TWO_31 <= index as int < TWO_31)
    ensures StoreIndexIntended(0x1_0000_0000, mode) == None
  {
  }

  class BooleanArrayMemory {
    const cells: array<bool>

    /** Java arrays hold fewer than 2^31 elements. */
    predicate Valid() {
      cells.Length < TWO_31
    }

    constructor (a: array<bool>)
      requires a.Length < TWO_31
      ensures cells == a && Valid()
    {
      cells := a;
    }

    /** `getArray()`: the backing array itself, not a copy. */
    method GetArray() returns (a: array<bool>)
      ensures a == cells
    {
      a := cells;
    }

    /** `getSize()`: the number of elements. */
    method GetSize() returns (n: int64)
      requires Valid()
      ensures n as int == cells.Length
    {
      n := cells.Length as int64;
    }

    /** `load8`: 1 for a true element and 0 for a false one, under every read mode. */
    method Load8(index: int64, mode: ReadMode) returns (r: Result<int32, MemoryError>)
      ensures r.Failure? <==> ExactIndex(index).None? || !(0 <= index as int < cells.Length)
      ensures ExactIndex(index).None? ==> r == Failure(InvalidIndex)
      ensures r.Success? ==> r.value == AsInt(cells[index as int])
    {
      var i := ExactIndex(index);
      if i.None? {
        return Failure(InvalidIndex);
      }
      if i.value < 0 || i.value >= cells.Length {
        return Failure(IndexOutOfBounds);
      }
      r := Success(if cells[i.value] then 1 else 0);
    }

    /** `store8`: the element at the converted index becomes the lowest bit
      of `value`; nothing else changes, and a failed access changes nothing. */
    method Store8(index: int64, value: int32, mode: WriteMode) returns (r: Result<(), MemoryError>)
      modifies cells
      ensures var i := StoreIndex(index, mode);
              r.Success? <==> i.Some? && 0 <= i.value < cells.Length
      ensures r.Success? ==> cells[..] == old(cells[..])[StoreIndex(index, mode).value := LowBit(value)]
      ensures r.Failure? ==> cells[..] == old(cells[..])
    {
      var i := StoreIndex(index, mode);
      if i.None? {
        return Failure(InvalidIndex);
      }
      if i.value < 0 || i.value >= cells.Length {
        return Failure(IndexOutOfBounds);
      }
      cells[i.value] := (value as int % 2 == 1);
      r := Success(());
    }

    /** `store8` with the intended index conversion: the same store, at the
      index `StoreIndexIntended` gives. */
    method Store8Intended(index: int64, value: int32, mode: WriteMode) returns (r: Result<(), MemoryError>)
      modifies cells
      ensures r.Success? <==> ExactIndex(index).Some? && 0 <= index as int < cells.Length
      ensures r.Success? ==> cells[..] == old(cells[..])[index as int := LowBit(value)]
      ensures r.Failure? ==> cells[..] == old(cells[..])
    {
      var i := StoreIndexIntended(index, mode);
      if i.None? {
        return Failure(InvalidIndex);
      }
      if i.value < 0 || i.value >= cells.Length {
        return Failure(IndexOutOfBounds);
      }
      cells[i.value] := LowBit(value);
      r := Success(());
    }

    /** `compareAndExchange8`: returns the prior element as 0/1 and stores the
      lowest bit of `update` exactly when the prior element equals the lowest
      bit of `expected`; otherwise, and on a failed access, nothing changes. */
    method CompareAndExchange8(index: int64, expected: int32, update: int32, readMode: ReadMode, writeMode: WriteMode)
      returns (r: Result<int32, MemoryError>)
      modifies cells
      ensures r.Failure? <==> ExactIndex(index).None? || !(0 <= index as int < cells.Length)
      ensures r.Failure? ==> cells[..] == old(cells[..])
      ensures r.Success? ==> r.value == AsInt(old(cells[index as int]))
      ensures r.Success? && old(cells[index as int]) == LowBit(expected) ==>
                cells[..] == old(cells[..])[index as int := LowBit(update)]
      ensures r.Success? && old(cells[index as int]) != LowBit(expected) ==> cells[..] == old(cells[..])
    {
      if readMode == ReadPlain && writeMode == WritePlain {
        var v := Load8(index, readMode);
        if v.Failure? {
          return v;
        }
        var val := LowBit(v.value);
        if val == LowBit(expected) {
          var s := Store8(index, update, writeMode);
          assert s.Success?;
        }
        r := Success(if val then 1 else 0);
      } else {
        var i := ExactIndex(index);
        if i.None? {
          return Failure(InvalidIndex);
        }
        if i.value < 0 || i.value >= cells.Length {
          return Failure(IndexOutOfBounds);
        }
        var val := cells[i.value];
        if val == LowBit(expected) {
          cells[i.value] := LowBit(update);
        }
        r := Success(if val then 1 else 0);
      }
    }

    /** Every rejected access throws InvalidMemoryAccessException and leaves
      the array alone. */
    method Reject(access: RejectedAccess, index: int64) returns (r: Result<(), MemoryError>)
      ensures r == Failure(InvalidMemoryAccess)
    {
      r := Failure(InvalidMemoryAccess);
    }

    /** Both `storeMemory` overloads throw UnsupportedOperationException. */
    method StoreMemory(destIndex: int64, srcIndex: int64, size: int64) returns (r: Result<(), MemoryError>)
      ensures r == Failure(UnsupportedOperation)
    {
      r := Failure(UnsupportedOperation);
    }

    /** `copy(newSize)`: a new memory of `newSize` elements that keeps the
      common prefix and pads with false; a size outside the int range or a
      negative size fails. */
    method Copy(newSize: int64) returns (r: Result<BooleanArrayMemory, MemoryError>)
      ensures ExactIndex(newSize).None? ==> r == Failure(InvalidIndex)
      ensures ExactIndex(newSize).Some? && newSize < 0 ==> r == Failure(NegativeArraySize)
      ensures r.Success? <==> 0 <= newSize as int < TWO_31
      ensures r.Success? ==> fresh(r.value) && fresh(r.value.cells) && r.value.Valid()
      ensures r.Success? ==> r.value.cells.Length == newSize as int
      ensures r.Success? ==> forall i :: 0 <= i < newSize as int ==>
                r.value.cells[i] == (i < cells.Length && cells[i])
    {
      var n := ExactIndex(newSize);
      if n.None? {
        return Failure(InvalidIndex);
      }
      if n.value < 0 {
        return Failure(NegativeArraySize);
      }
      var a := new bool[n.value];
      var i := 0;
      while i < n.value
        invariant 0 <= i <= n.value
        invariant forall k :: 0 <= k < i ==> a[k] == (k < cells.Length && cells[k])
      {
        a[i] := i < cells.Length && cells[i];
        i := i + 1;
      }
      var m := new BooleanArrayMemory(a);
      r := Success(m);
    }

    /** `clone()`: a new memory with identical contents. */
    method Clone() returns (m: BooleanArrayMemory)
      requires Valid()
      ensures fresh(m) && fresh(m.cells) && m.Valid()
      ensures m.cells[..] == cells[..]
    {
      var a := new bool[cells.Length];
      var i := 0;
      while i < cells.Length
        invariant 0 <= i <= cells.Length
        invariant a[..i] == cells[..i]
      {
        a[i] := cells[i];
        i := i + 1;
      }
      m := new BooleanArrayMemory(a);
    }

    /** `cloneZeroed()`: a new memory of the same length, all false. */
    method CloneZeroed() returns (m: BooleanArrayMemory)
      requires Valid()
      ensures fresh(m) && fresh(m.cells) && m.Valid()
      ensures m.cells.Length == cells.Length
      ensures forall i :: 0 <= i < m.cells.Length ==> !m.cells[i]
    {
      var a := new bool[cells.Length](_ => false);
      m := new BooleanArrayMemory(a);
    }
  }

  /** With the intended conversion a store and a load at the same index
      succeed and fail together, in every mode, and the load reads back the
      stored bit. */
  method IntendedStoreReadsBack(m: BooleanArrayMemory, index: int64, value: int32, writeMode: WriteMode, readMode: ReadMode)
    returns (stored: Result<(), MemoryError>, loaded: Result<int32, MemoryError>)
    modifies m.cells
    ensures stored.Success? <==> loaded.Success?
    ensures loaded.Success? ==> loaded.value == AsInt(LowBit(value))
  {
    stored := m.Store8Intended(index, value, writeMode);
    loaded := m.Load8(index, readMode);
  }
}
