/** Build-time pointer values of the compiler's VM: the pointer types they carry,
    resolution of a byte offset into a correctly typed sub-pointer
    (`Pointer.offsetInBytes`), equality and hashing over the root pointer and
    the root byte offset, exact pointers to instance methods, and pointer
    literals of the program graph. */
module Pointers {
  import opened Wrappers
  import opened JavaInt

  /** The value types a pointer may point to. `ObjectT` is a physical object
      type whose fields are those of its loaded definition, in index order;
      every other type (integers, floats, function types, ...) is `OtherT`,
      given by an identifying tag and its size. */
  datatype ValueType =
    | ArrayT(elementType: ValueType, elementCount: nat)
    | CompoundT(members: seq<CompoundMember>, compoundSize: nat)
    | ObjectT(fields: seq<FieldElement>, objectSize: nat)
    | OtherT(tag: nat, otherSize: nat)

  /** A member of a compound (structure) type and its byte offset. */
  datatype CompoundMember = CompoundMember(name: string, offset: int, memberType: ValueType)

  /** A field of a type definition. */
  datatype FieldElement = FieldElement(isStatic: bool, offset: int, fieldType: ValueType)

  /** `getSize()`: an array is its element size times its element count. */
  function Size(t: ValueType): nat {
    match t
    case ArrayT(e, n) => Size(e) * n
    case CompoundT(_, s) => s
    case ObjectT(_, s) => s
    case OtherT(_, s) => s
  }

  /** A method element. Java identity of elements is value equality here;
      `identityHash` is its `hashCode()`. */
  datatype MethodElement = MethodElement(id: nat, isStatic: bool, methodType: ValueType, identityHash: int32)

  /** Root pointers: exact pointers to instance methods, and all other roots
      (global symbols, memory, static fields, ...), which this model leaves
      abstract apart from the type they point to. */
  datatype RootPointer =
    | InstanceMethodPtr(instanceMethod: MethodElement)
    | OtherRoot(id: nat, rootPointee: ValueType)

  type InstanceMethodPointer = r: RootPointer | r.InstanceMethodPtr?
    witness InstanceMethodPtr(MethodElement(0, false, OtherT(0, 0), 0))

  /** A pointer is a root pointer or is derived from a base pointer. */
  datatype Pointer =
    | Root(root: RootPointer)
    | ElementPtr(base: Pointer, elementType: ValueType, index: int)
    | MemberPtr(base: Pointer, member: CompoundMember)
    | InstanceFieldPtr(base: Pointer, field: FieldElement)
    | OffsetPtr(base: Pointer, count: int)

  /** `getPointeeType()`. A sub-pointer points to the element, member or field
      it was made for; an offset pointer to the same type as its base. */
  function PointeeType(p: Pointer): ValueType {
    match p
    case Root(InstanceMethodPtr(m)) => m.methodType
    case Root(OtherRoot(_, t)) => t
    case ElementPtr(_, e, _) => e
    case MemberPtr(_, m) => m.memberType
    case InstanceFieldPtr(_, f) => f.fieldType
    case OffsetPtr(b, _) => PointeeType(b)
  }

  /** q is p or is reached from p through a chain of base pointers. */
  predicate DerivedFrom(q: Pointer, p: Pointer) {
    q == p || (!q.Root? && DerivedFrom(q.base, p))
  }

  lemma {:induction false} DerivedFromTransitive(r: Pointer, q: Pointer, p: Pointer)
    requires DerivedFrom(r, q) && DerivedFrom(q, p)
    ensures DerivedFrom(r, p)
  {
    if r != q {
      DerivedFromTransitive(r.base, q, p);
    }
  }

  /** `offsetByElements(count)`: the pointer itself for a zero count. */
  function OffsetByElements(p: Pointer, count: int): (r: Pointer)
    ensures PointeeType(r) == PointeeType(p)
    ensures count == 0 <==> r == p
    ensures DerivedFrom(r, p)
  {
    if count == 0 then p else assert p < OffsetPtr(p, count); OffsetPtr(p, count)
  }

  /** Why an offset could not be resolved. All are IllegalArgumentException,
      except a zero element or pointee size, where Java's long division
      throws ArithmeticException. */
  datatype PointerError =
    | OutOfBounds
    | NoStructureMember
    | NoField
    | UndeterminedType
    | DivisionByZero

  /** How a structure member and an instance field are picked: `AsWritten`
      follows the source; `Intended` is the rule its comments describe (the
      last member starting at or before the offset; the field whose byte range
      holds the offset, entered at the offset relative to the field). */
  datatype SelectionRule = AsWritten | Intended

  /** The first member whose offset is at or before `off`. */
  function FirstMemberAtOrBefore(ms: seq<CompoundMember>, off: int, i: nat): (r: Option<nat>)
    requires i <= |ms|
    decreases |ms| - i
    ensures r.Some? ==> i <= r.value < |ms| && ms[r.value].offset <= off
    ensures r.Some? ==> forall j :: i <= j < r.value ==> ms[j].offset > off
    ensures r.None? ==> forall j :: i <= j < |ms| ==> ms[j].offset > off
  {
    if i == |ms| then None
    else if ms[i].offset <= off then Some(i)
    else FirstMemberAtOrBefore(ms, off, i + 1)
  }

  /** The last member whose offset is at or before `off`, among the first n. */
  function LastMemberAtOrBefore(ms: seq<CompoundMember>, off: int, n: nat): (r: Option<nat>)
    requires n <= |ms|
    ensures r.Some? ==> r.value < n && ms[r.value].offset <= off
    ensures r.Some? ==> forall j :: r.value < j < n ==> ms[j].offset > off
    ensures r.None? ==> forall j :: 0 <= j < n ==> ms[j].offset > off
  {
    if n == 0 then None
    else if ms[n - 1].offset <= off then Some(n - 1)
    else LastMemberAtOrBefore(ms, off, n - 1)
  }

  /** The source's test for field i: not before the field's offset and below
      the field's SIZE (not below its end). */
  predicate FieldWindowAsWritten(f: FieldElement, off: int) {
    !f.isStatic && off >= f.offset && off < Size(f.fieldType)
  }

  /** The field's byte range [offset, offset + size) holds `off`. */
  predicate FieldWindowIntended(f: FieldElement, off: int) {
    !f.isStatic && f.offset <= off < f.offset + Size(f.fieldType)
  }

  predicate FieldWindow(rule: SelectionRule, f: FieldElement, off: int) {
    if rule == AsWritten then FieldWindowAsWritten(f, off) else FieldWindowIntended(f, off)
  }

  /** The first field, from index i on, that the rule selects for `off`. */
  function FirstField(rule: SelectionRule, fs: seq<FieldElement>, off: int, i: nat): (r: Option<nat>)
    requires i <= |fs|
    decreases |fs| - i
    ensures r.Some? ==> i <= r.value < |fs| && FieldWindow(rule, fs[r.value], off)
    ensures r.Some? ==> forall j :: i <= j < r.value ==> !FieldWindow(rule, fs[j], off)
    ensures r.None? ==> forall j :: i <= j < |fs| ==> !FieldWindow(rule, fs[j], off)
  {
    if i == |fs| then None
    else if FieldWindow(rule, fs[i], off) then Some(i)
    else FirstField(rule, fs, off, i + 1)
  }

  /** `offsetInBytes(offset, asArray)` under a member/field selection rule.
      Offsets are unbounded integers (Java's long), and every success is a
      pointer derived from p. */
  function Resolve(rule: SelectionRule, p: Pointer, off: int, asArray: bool): (r: Result<Pointer, PointerError>)
    decreases PointeeType(p), (if asArray then 1 else 0)
    ensures r.Success? ==> DerivedFrom(r.value, p)
  {
    if off == 0 then Success(p)
    else
      var pt := PointeeType(p);
      if pt.ArrayT? then
        var es := Size(pt.elementType);
        if es == 0 then Failure(DivisionByZero)
        else
          var q := ElementPtr(p, pt.elementType, TruncDiv(off, es));
          var r := Resolve(rule, q, TruncRem(off, es), asArray);
          if r.Success? then DerivedFromTransitive(r.value, q, p); r else r
      else
        var ps := Size(pt);
        if off < 0 || off > ps then
          if !asArray then Failure(OutOfBounds)
          else if ps == 0 then Failure(DivisionByZero)
          else
            var q := OffsetByElements(p, TruncDiv(off, ps));
            var r := Resolve(rule, q, TruncRem(off, ps), false);
            if r.Success? then DerivedFromTransitive(r.value, q, p); r else r
        else if pt.CompoundT? then
          var ms := pt.members;
          var k := if rule == AsWritten then FirstMemberAtOrBefore(ms, off, 0)
                   else LastMemberAtOrBefore(ms, off, |ms|);
          if k.None? then Failure(NoStructureMember)
          else
            var m := ms[k.value];
            var q := MemberPtr(p, m);
            var r := Resolve(rule, q, off - m.offset, false);
            if r.Success? then DerivedFromTransitive(r.value, q, p); r else r
        else if pt.ObjectT? then
          var fs := pt.fields;
          var k := FirstField(rule, fs, off, 0);
          if k.None? then Failure(NoField)
          else
            var f := fs[k.value];
            var q := InstanceFieldPtr(p, f);
            var r := Resolve(rule, q, if rule == AsWritten then f.offset - off else off - f.offset, false);
            if r.Success? then DerivedFromTransitive(r.value, q, p); r else r
        else Failure(UndeterminedType)
  }

  /** `Pointer.offsetInBytes` as the source has it. */
  function OffsetInBytes(p: Pointer, off: int, asArray: bool): (r: Result<Pointer, PointerError>)
    ensures r.Success? ==> DerivedFrom(r.value, p)
  {
    Resolve(AsWritten, p, off, asArray)
  }

  // ----- properties of offset resolution -----

  /** A zero offset, or a zero element count, yields the pointer itself. */
  lemma ZeroOffsetIsIdentity(rule: SelectionRule, p: Pointer, asArray: bool)
    ensures Resolve(rule, p, 0, asArray) == Success(p)
    ensures OffsetByElements(p, 0) == p
  {
  }

  /** Into an array, an exact multiple of the element size is exactly the
      element pointer at offset / elementSize. */
  lemma {:induction false} ArrayExactMultiple(rule: SelectionRule, p: Pointer, off: int, asArray: bool)
    requires PointeeType(p).ArrayT? && Size(PointeeType(p).elementType) > 0
    requires off > 0 && off % Size(PointeeType(p).elementType) == 0
    ensures Resolve(rule, p, off, asArray)
         == Success(ElementPtr(p, PointeeType(p).elementType, off / Size(PointeeType(p).elementType)))
  {
    var es := Size(PointeeType(p).elementType);
    assert TruncRem(off, es) == 0;
    assert TruncDiv(off, es) == off / es;
  }

  /** Into an array, any successful resolution goes through the element at the
      truncated quotient. */
  lemma {:induction false} ArrayGoesThroughElement(rule: SelectionRule, p: Pointer, off: int, asArray: bool)
    requires PointeeType(p).ArrayT? && off != 0
    requires Resolve(rule, p, off, asArray).Success?
    ensures Size(PointeeType(p).elementType) > 0
    ensures DerivedFrom(Resolve(rule, p, off, asArray).value,
                        ElementPtr(p, PointeeType(p).elementType, TruncDiv(off, Size(PointeeType(p).elementType))))
  {
  }

  /** Outside a non-array pointee, without the array flag, an offset is out of bounds. */
  lemma OutOfBoundsWithoutArray(rule: SelectionRule, p: Pointer, off: int)
    requires !PointeeType(p).ArrayT?
    requires off < 0 || off > Size(PointeeType(p))
    ensures Resolve(rule, p, off, false) == Failure(OutOfBounds)
  {
  }

  /** With the array flag, an exact multiple of the pointee size outside the
      pointee addresses a sibling element: the offset pointer by that many elements. */
  lemma {:induction false} SiblingElement(rule: SelectionRule, p: Pointer, off: int)
    requires !PointeeType(p).ArrayT? && Size(PointeeType(p)) > 0
    requires off < 0 || off > Size(PointeeType(p))
    requires TruncRem(off, Size(PointeeType(p))) == 0
    ensures Resolve(rule, p, off, true) == Success(OffsetPtr(p, TruncDiv(off, Size(PointeeType(p)))))
  {
    var ps := Size(PointeeType(p));
    var d := TruncDiv(off, ps);
    assert d != 0 by {
      if off > 0 { assert off / ps >= 1; } else { assert Abs(off) / ps >= 1; }
    }
  }

  /** As written, a structure offset is always looked up in the FIRST member
      that starts at or before it: with a member at offset 0, every in-bounds
      offset goes into member 0. */
  lemma {:induction false} AsWrittenFirstMember(p: Pointer, off: int, asArray: bool)
    requires PointeeType(p).CompoundT? && |PointeeType(p).members| > 0
    requires PointeeType(p).members[0].offset == 0
    requires 0 < off <= Size(PointeeType(p))
    requires Resolve(AsWritten, p, off, asArray).Success?
    ensures DerivedFrom(Resolve(AsWritten, p, off, asArray).value, MemberPtr(p, PointeeType(p).members[0]))
  {
  }

  /** A structure offset before every member can not be resolved. */
  lemma NoMemberBeforeOffset(rule: SelectionRule, p: Pointer, off: int, asArray: bool)
    requires PointeeType(p).CompoundT? && 0 < off <= Size(PointeeType(p))
    requires forall j :: 0 <= j < |PointeeType(p).members| ==> PointeeType(p).members[j].offset > off
    ensures Resolve(rule, p, off, asArray) == Failure(NoStructureMember)
  {
    var ms := PointeeType(p).members;
    if rule == AsWritten {
      assert FirstMemberAtOrBefore(ms, off, 0).None?;
    } else {
      assert LastMemberAtOrBefore(ms, off, |ms|).None?;
    }
  }

  predicate OffsetsIncrease(ms: seq<CompoundMember>) {
    forall i, j :: 0 <= i < j < |ms| ==> ms[i].offset < ms[j].offset
  }

  /** Under the intended rule, the offset of a member of a structure whose
      member offsets increase resolves to exactly that member. */
  lemma {:induction false} IntendedMemberStart(p: Pointer, k: nat, asArray: bool)
    requires PointeeType(p).CompoundT? && k < |PointeeType(p).members|
    requires OffsetsIncrease(PointeeType(p).members)
    requires 0 < PointeeType(p).members[k].offset <= Size(PointeeType(p))
    ensures Resolve(Intended, p, PointeeType(p).members[k].offset, asArray)
         == Success(MemberPtr(p, PointeeType(p).members[k]))
  {
    var ms := PointeeType(p).members;
    var off := ms[k].offset;
    var r := LastMemberAtOrBefore(ms, off, |ms|);
    assert r.Some? && r.value == k;
  }

  /** As written, a field whose offset is not below its own size is never
      selected, whatever the offset. */
  lemma FieldAtOrPastItsSizeNeverSelected(f: FieldElement, off: int)
    requires f.offset >= Size(f.fieldType)
    ensures !FieldWindowAsWritten(f, off)
  {
  }

  /** As written, inside an instance field (past its first byte) the recursion
      receives the negated relative offset, so a non-array field type reports
      the offset as out of bounds. */
  lemma {:induction false} AsWrittenInsideFieldOutOfBounds(p: Pointer, off: int, asArray: bool)
    requires PointeeType(p).ObjectT? && 0 < off <= Size(PointeeType(p))
    requires FirstField(AsWritten, PointeeType(p).fields, off, 0).Some?
    requires var f := PointeeType(p).fields[FirstField(AsWritten, PointeeType(p).fields, off, 0).value];
             off > f.offset && !f.fieldType.ArrayT?
    ensures Resolve(AsWritten, p, off, asArray) == Failure(OutOfBounds)
  {
  }

  /** Counterexample to the source's field test: an object of 16 bytes with one
      long field at offset 8; offset 8 is the start of that field, yet no field
      is found. */
  lemma AsWrittenMissesFieldStart(root: RootPointer)
    requires root == OtherRoot(0, ObjectT([FieldElement(false, 8, OtherT(0, 8))], 16))
    ensures OffsetInBytes(Root(root), 8, false) == Failure(NoField)
  {
    var fs := [FieldElement(false, 8, OtherT(0, 8))];
    assert !FieldWindowAsWritten(fs[0], 8);
    assert FirstField(AsWritten, fs, 8, 0) == None;
  }

  /** Counterexample to the source's member test: a 16-byte structure of two
      8-byte scalars at offsets 0 and 8; offset 8, the start of the second
      member, is looked up in the first and fails. */
  lemma AsWrittenMissesSecondMember(root: RootPointer)
    requires root == OtherRoot(0, CompoundT([CompoundMember("a", 0, OtherT(0, 8)), CompoundMember("b", 8, OtherT(0, 8))], 16))
    ensures OffsetInBytes(Root(root), 8, false) == Failure(UndeterminedType)
  {
    var ms := [CompoundMember("a", 0, OtherT(0, 8)), CompoundMember("b", 8, OtherT(0, 8))];
    assert FirstMemberAtOrBefore(ms, 8, 0) == Some(0);
  }

  /** Under the intended rule, the start of a non-static field whose range is
      not shared with an earlier field resolves to exactly that field. */
  lemma {:induction false} IntendedFieldStart(p: Pointer, k: nat, asArray: bool)
    requires PointeeType(p).ObjectT? && k < |PointeeType(p).fields|
    requires var f := PointeeType(p).fields[k];
             !f.isStatic && Size(f.fieldType) > 0 && 0 < f.offset <= Size(PointeeType(p))
    requires forall j :: 0 <= j < k ==> !FieldWindowIntended(PointeeType(p).fields[j], PointeeType(p).fields[k].offset)
    ensures Resolve(Intended, p, PointeeType(p).fields[k].offset, asArray)
         == Success(InstanceFieldPtr(p, PointeeType(p).fields[k]))
  {
    var fs := PointeeType(p).fields;
    var off := fs[k].offset;
    var r := FirstField(Intended, fs, off, 0);
    assert FieldWindow(Intended, fs[k], off);
    assert r.Some? && r.value == k;
  }

  /** Intended counterpart of the field counterexample: offset 8 is the long
      field at offset 8. */
  lemma IntendedFindsFieldStart(root: RootPointer)
    requires root == OtherRoot(0, ObjectT([FieldElement(false, 8, OtherT(0, 8))], 16))
    ensures Resolve(Intended, Root(root), 8, false) == Success(InstanceFieldPtr(Root(root), FieldElement(false, 8, OtherT(0, 8))))
  {
    var fs := [FieldElement(false, 8, OtherT(0, 8))];
    assert FieldWindowIntended(fs[0], 8);
    assert FirstField(Intended, fs, 8, 0) == Some(0);
  }

  // ----- equality and hashing -----

  /** What the unseen pointer classes supply: each pointer's root pointer and
      root byte offset, `RootPointer.equals`/`hashCode` for roots that are not
      instance-method pointers, and the `super.equals`/`super.hashCode` that
      `InstanceMethodPointer` builds on. */
  datatype RootModel = RootModel(
    rootOf: Pointer -> RootPointer,
    rootByteOffsetOf: Pointer -> int64,
    otherEquals: (RootPointer, RootPointer) -> bool,
    otherHash: RootPointer -> int32,
    superEquals: (RootPointer, RootPointer) -> bool,
    superHash: RootPointer -> int32)

  /** The supplied equalities agree with the supplied hashes, and (as Java's
      symmetry of equals demands, since an instance-method pointer equals only
      instance-method pointers) another root never equals an instance-method pointer. */
  ghost predicate HashesAgree(rm: RootModel) {
    && (forall a, b :: rm.otherEquals(a, b) ==> b.OtherRoot? && rm.otherHash(a) == rm.otherHash(b))
    && (forall a, b :: rm.superEquals(a, b) ==> rm.superHash(a) == rm.superHash(b))
  }

  /** `InstanceMethodPointer.equals(InstanceMethodPointer)`: the same pointer,
      or equal as root pointers and for the identical method. */
  function InstanceMethodEquals(rm: RootModel, a: InstanceMethodPointer, b: InstanceMethodPointer): (r: bool)
    ensures r <==> a == b || (rm.superEquals(a, b) && a.instanceMethod == b.instanceMethod)
    ensures a.instanceMethod == b.instanceMethod ==> r
  {
    a == b || (rm.superEquals(a, b) && a.instanceMethod == b.instanceMethod)
  }

  /** `RootPointer.equals(RootPointer)`, dispatched on the receiver. */
  function RootEquals(rm: RootModel, a: RootPointer, b: RootPointer): (r: bool)
    ensures a.InstanceMethodPtr? ==> (r <==> b.InstanceMethodPtr? && InstanceMethodEquals(rm, a, b))
  {
    match a
    case InstanceMethodPtr(_) => b.InstanceMethodPtr? && InstanceMethodEquals(rm, a, b)
    case OtherRoot(_, _) => rm.otherEquals(a, b)
  }

  /** `RootPointer.hashCode()`; for an instance-method pointer
      `super.hashCode() * 19 + method.hashCode()` in int arithmetic. */
  function RootHash(rm: RootModel, a: RootPointer): int32 {
    match a
    case InstanceMethodPtr(m) => Wrap32(rm.superHash(a) as int * 19 + m.identityHash as int)
    case OtherRoot(_, _) => rm.otherHash(a)
  }

  /** Equal root pointers have equal hashes. */
  lemma RootHashAgrees(rm: RootModel, a: RootPointer, b: RootPointer)
    requires HashesAgree(rm)
    requires RootEquals(rm, a, b)
    ensures RootHash(rm, a) == RootHash(rm, b)
  {
  }

  /** An instance-method pointer is never equal to another kind of root. */
  lemma InstanceMethodNotOtherRoot(rm: RootModel, a: InstanceMethodPointer, b: RootPointer)
    requires !b.InstanceMethodPtr?
    ensures !RootEquals(rm, a, b)
  {
  }

  /** `Pointer.equals(Pointer)`: the same pointer, or the same root and the
      same root byte offset. */
  function PointerEquals(rm: RootModel, p: Pointer, q: Pointer): (r: bool)
    ensures p == q ==> r
    ensures r && p != q ==> rm.rootByteOffsetOf(p) == rm.rootByteOffsetOf(q)
  {
    p == q || (RootEquals(rm, rm.rootOf(p), rm.rootOf(q)) && rm.rootByteOffsetOf(p) == rm.rootByteOffsetOf(q))
  }

  /** `Pointer.hashCode()`: `root.hashCode() * 19 + Long.hashCode(offset)` in int arithmetic. */
  function PointerHash(rm: RootModel, p: Pointer): int32 {
    Wrap32(RootHash(rm, rm.rootOf(p)) as int * 19 + LongHash(rm.rootByteOffsetOf(p)) as int)
  }

  /** Equal pointers have equal hashes. */
  lemma PointerHashAgrees(rm: RootModel, p: Pointer, q: Pointer)
    requires HashesAgree(rm)
    requires PointerEquals(rm, p, q)
    ensures PointerHash(rm, p) == PointerHash(rm, q)
  {
    if p != q {
      RootHashAgrees(rm, rm.rootOf(p), rm.rootOf(q));
    }
  }

  /** Two pointers built differently are still equal when their roots are equal
      and their root byte offsets agree. */
  lemma SameRootSameOffsetEqual(rm: RootModel, p: Pointer, q: Pointer)
    requires RootEquals(rm, rm.rootOf(p), rm.rootOf(q))
    requires rm.rootByteOffsetOf(p) == rm.rootByteOffsetOf(q)
    ensures PointerEquals(rm, p, q)
  {
  }

  // ----- instance-method pointers -----

  datatype CreateError = MethodIsStatic

  /** The `InstanceMethodPointer` constructor: refuses a static method. */
  function NewInstanceMethodPointer(m: MethodElement): (r: Result<InstanceMethodPointer, CreateError>)
    ensures r.Failure? <==> m.isStatic
    ensures r.Success? ==> r.value.instanceMethod == m && PointeeType(Root(r.value)) == m.methodType
  {
    if m.isStatic then Failure(MethodIsStatic) else Success(InstanceMethodPtr(m))
  }

  /** The per-method cache behind `getOrCreateInstanceMethodPointer`: each
      cached pointer is the pointer to its own method. */
  predicate CacheValid(cache: map<MethodElement, InstanceMethodPointer>) {
    forall m :: m in cache ==> cache[m].instanceMethod == m
  }

  /** `InstanceMethodPointer.of(m)`: the cached pointer, else a new one that is
      cached; a static method fails and caches nothing. */
  function Of(cache: map<MethodElement, InstanceMethodPointer>, m: MethodElement)
    : (r: (Result<InstanceMethodPointer, CreateError>, map<MethodElement, InstanceMethodPointer>))
    requires CacheValid(cache)
    ensures CacheValid(r.1)
    ensures r.0.Success? ==> r.0.value.instanceMethod == m && m in r.1 && r.1[m] == r.0.value
    ensures r.0.Failure? ==> r.1 == cache
    ensures forall n :: n in cache ==> n in r.1 && r.1[n] == cache[n]
  {
    if m in cache then (Success(cache[m]), cache)
    else
      var c := NewInstanceMethodPointer(m);
      if c.Success? then (c, cache[m := c.value]) else (c, cache)
  }

  /** Asking twice for the same method yields the same pointer and leaves the cache as it was. */
  lemma OfIdempotent(cache: map<MethodElement, InstanceMethodPointer>, m: MethodElement)
    requires CacheValid(cache)
    ensures var (r1, c1) := Of(cache, m);
            var (r2, c2) := Of(c1, m);
            r2 == r1 && c2 == c1
  {
  }

  /** Pointers from `Of` for distinct methods are distinct and unequal. */
  lemma OfDistinctMethods(rm: RootModel, cache: map<MethodElement, InstanceMethodPointer>, m: MethodElement, n: MethodElement)
    requires CacheValid(cache) && m != n
    requires Of(cache, m).0.Success? && Of(Of(cache, m).1, n).0.Success?
    ensures var a := Of(cache, m).0.value;
            var b := Of(Of(cache, m).1, n).0.value;
            a != b && !InstanceMethodEquals(rm, a, b)
  {
  }

  // ----- pointer literals -----

  /** The literals of the program graph that matter for pointer literals. */
  datatype Literal = PointerLiteral(pointer: Pointer) | OtherLiteral(id: nat)

  /** A pointer type, by the value type it points to. */
  datatype PointerType = PointerTo(pointee: ValueType)

  /** `Pointer.getType()`: the pointer type over the pointer's pointee type. */
  function TypeOf(p: Pointer): PointerType {
    PointerTo(PointeeType(p))
  }

  /** `PointerLiteral.getType()`: its pointer's type. */
  function LiteralType(l: Literal): PointerType
    requires l.PointerLiteral?
  {
    TypeOf(l.pointer)
  }

  /** `getValueType()`, the pointee of `getType()`: it is the pointee type of
      the literal's pointer, and the literal's type is the pointer type over
      it, so a literal of a pointer offset by whole elements keeps its value
      type. */
  function LiteralValueType(l: Literal): (t: ValueType)
    requires l.PointerLiteral?
    ensures t == PointeeType(l.pointer)
    ensures LiteralType(l) == PointerTo(t)
    ensures forall count: int {:trigger OffsetByElements(l.pointer, count)} ::
              LiteralType(PointerLiteral(OffsetByElements(l.pointer, count))) == PointerTo(t)
  {
    LiteralType(l).pointee
  }

  /** `isZero()`: a pointer literal is never the zero literal. */
  function IsZero(l: Literal): (z: bool)
    requires l.PointerLiteral?
    ensures !z
  {
    false
  }

  /** `PointerLiteral.equals(Literal)`: only pointer literals with equal pointers. */
  function LiteralEquals(rm: RootModel, a: Literal, other: Literal): (r: bool)
    requires a.PointerLiteral?
    ensures r ==> other.PointerLiteral?
    ensures other.PointerLiteral? ==> (r <==> PointerEquals(rm, a.pointer, other.pointer))
  {
    other.PointerLiteral? && (a == other || PointerEquals(rm, a.pointer, other.pointer))
  }

  /** `PointerLiteral.hashCode()`: the hash of its pointer. */
  function LiteralHash(rm: RootModel, a: Literal): int32
    requires a.PointerLiteral?
  {
    PointerHash(rm, a.pointer)
  }

  /** Equal pointer literals have equal hashes. */
  lemma LiteralHashAgrees(rm: RootModel, a: Literal, b: Literal)
    requires HashesAgree(rm) && a.PointerLiteral?
    requires LiteralEquals(rm, a, b)
    ensures LiteralHash(rm, a) == LiteralHash(rm, b)
  {
    PointerHashAgrees(rm, a.pointer, b.pointer);
  }
}
