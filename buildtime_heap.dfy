/** The build-time heap: objects of the compiling JVM serialised into
    literals of the native image's initial heap. Strings are interned by
    equality and objects by identity, every serialised object or byte array
    becomes one heap entry under a fresh generated name, and sized array
    types are cached by name.

    Reflection is left out: the host objects, the values reflection reads
    from their fields, the type definitions and the layout queries are an
    input `World`. */
module BuildtimeHeapModel {
  import opened Wrappers

  // ----- generated names -----

  /** The decimal digit character of d. */
  function DigitChar(d: nat): (c: char)
    requires d < 10
    ensures '0' <= c <= '9' && c as int - '0' as int == d
  {
    ('0' as int + d) as char
  }

  /** The decimal form of n, as `Integer.toString` writes a non-negative int. */
  function NatToString(n: nat): (s: string)
    ensures |s| >= 1
    ensures forall i :: 0 <= i < |s| ==> '0' <= s[i] <= '9'
    ensures |s| == 1 <==> n < 10
    decreases n
  {
    if n < 10 then [DigitChar(n)] else NatToString(n / 10) + [DigitChar(n % 10)]
  }

  /** Reads a string of decimal digits back as a number. */
  function ParseNat(s: string): (r: Option<nat>)
    ensures r.Some? ==> |s| >= 1 && forall i :: 0 <= i < |s| ==> '0' <= s[i] <= '9'
  {
    if s == [] then None
    else
      var d := s[|s| - 1];
      if !('0' <= d <= '9') then None
      else if |s| == 1 then Some(d as int - '0' as int)
      else
        var init := ParseNat(s[..|s| - 1]);
        if init.None? then None
        else
          assert s == s[..|s| - 1] + [d];
          Some(init.value * 10 + (d as int - '0' as int))
  }

  /** Reading a number's decimal form gives the number back. */
  lemma {:induction false} ParseNatToString(n: nat)
    ensures ParseNat(NatToString(n)) == Some(n)
    decreases n
  {
    if n >= 10 {
      var s := NatToString(n);
      assert s[..|s| - 1] == NatToString(n / 10);
      ParseNatToString(n / 10);
    }
  }

  /** The prefix of every generated literal name. */
  const Prefix: string := "qbicc_initial_heap_obj_"

  /** `nextLiteralName()` for counter value i. */
  function LiteralName(i: nat): (s: string)
    ensures |s| > |Prefix| && s[..|Prefix|] == Prefix
  {
    Prefix + NatToString(i)
  }

  /** The counter value a generated name was made from. */
  function NameIndex(name: string): Option<nat> {
    if |name| > |Prefix| && name[..|Prefix|] == Prefix then ParseNat(name[|Prefix|..]) else None
  }

  /** Generated names can be read back. */
  lemma NameIndexOfLiteralName(i: nat)
    ensures NameIndex(LiteralName(i)) == Some(i)
  {
    assert LiteralName(i)[|Prefix|..] == NatToString(i);
    ParseNatToString(i);
  }

  /** Distinct counter values give distinct names. */
  lemma LiteralNamesDistinct(i: nat, j: nat)
    requires i != j
    ensures LiteralName(i) != LiteralName(j)
  {
    NameIndexOfLiteralName(i);
    NameIndexOfLiteralName(j);
  }

  // ----- the input world -----

  /** A loaded type definition, identified by a number. */
  type TypeRef = nat

  /** A host object, identified by its identity. */
  type ObjId = nat

  /** Primitive type descriptors: boolean, byte, short, char, int, float, long, double. */
  datatype PrimKind = Z | B | S | C | I | F | J | D

  /** A field's type descriptor: one of the primitives, or anything else
      (class and array descriptors), which is read as a reference. */
  datatype FieldKind = Primitive(prim: PrimKind) | Reference

  /** A field element of a loaded type definition. */
  datatype QField = QField(id: nat, isStatic: bool, kind: FieldKind)

  /** A field declared by a host class, with what reflection reads from it
      on the instance: `bits` through the primitive getters, `target`
      through `get` (None for null). */
  datatype HostField = HostField(name: string, bits: int, target: Option<ObjId>)

  /** One step of the superclass walk: the loaded class and the fields its
      host class declares. */
  datatype Level = Level(qClass: TypeRef, declared: seq<HostField>)

  /** A host object: an instance of a class named by `Class.getName()`, with
      its superclass walk (every class of the chain that has a superclass,
      from the concrete class up), a byte array, or an array of another
      component type. */
  datatype HostObject = Instance(className: string, levels: seq<Level>) | ByteArray(bytes: seq<int>) | OtherArray

  /** The array contents field of an array class: its class, the size of
      its element type, and the offset of its member in the class's layout. */
  datatype ContentsField = ContentsField(enclosingType: TypeRef, elementSize: nat, offset: nat)

  /** What the heap reads from the compilation context and from reflection.
      `findDefinedType` is the bootstrap class context's lookup by name,
      None where it finds no class. */
  datatype World = World(
    heap: ObjId -> HostObject,
    findDefinedType: string -> Option<TypeRef>,
    typeIdOf: TypeRef -> int,
    findField: (TypeRef, string) -> Option<QField>,
    internalName: TypeRef -> string,
    instanceSize: TypeRef -> nat,
    stringLevels: string -> seq<Level>,
    byteArrayContents: ContentsField)

  /** The name `serializeStringLiteral` looks java.lang.String up by. */
  const StringClassName: string := "java/lang/String"

  // ----- sized array types -----

  /** A struct type for an array literal of fixed length: the array class's
      header members and a contents member of `length` elements. */
  datatype SizedArrayType = SizedArrayType(
    contents: ContentsField,
    length: nat,
    typeName: string,
    contentOffset: nat,
    size: nat)

  /** The cache key of `arrayLiteralType`: the class's internal name, `_`, the length. */
  function TypeKey(w: World, contents: ContentsField, length: nat): string {
    w.internalName(contents.enclosingType) + "_" + NatToString(length)
  }

  /** The sized array type `arrayLiteralType` builds: the contents member
      keeps its offset, and the size is the array class's size plus the
      contents' size. */
  function BuildSizedType(w: World, contents: ContentsField, length: nat): (t: SizedArrayType)
    ensures t.typeName == TypeKey(w, contents, length)
    ensures t.size == w.instanceSize(contents.enclosingType) + contents.elementSize * length
    ensures t.contentOffset == contents.offset && t.contents == contents && t.length == length
  {
    SizedArrayType(contents, length, TypeKey(w, contents, length), contents.offset,
                   w.instanceSize(contents.enclosingType) + contents.elementSize * length)
  }

  /** The position of the last `_` in s. */
  function LastUnderscore(s: string): (r: Option<nat>)
    ensures r.Some? ==> r.value < |s| && s[r.value] == '_'
  {
    if s == [] then None
    else if s[|s| - 1] == '_' then Some(|s| - 1)
    else LastUnderscore(s[..|s| - 1])
  }

  /** A `_` followed only by digits is the last `_`. */
  lemma {:induction false} LastUnderscoreBeforeDigits(a: string, d: string)
    requires forall i :: 0 <= i < |d| ==> '0' <= d[i] <= '9'
    ensures LastUnderscore(a + "_" + d) == Some(|a|)
    decreases |d|
  {
    var s := a + "_" + d;
    if d != [] {
      var d' := d[..|d| - 1];
      assert s[..|s| - 1] == a + "_" + d';
      LastUnderscoreBeforeDigits(a, d');
    }
  }

  /** Cache keys determine the internal name and the length: digits contain
      no `_`, so the key splits at its last `_`. */
  lemma TypeKeyInjective(a: string, m: nat, b: string, n: nat)
    requires a + "_" + NatToString(m) == b + "_" + NatToString(n)
    ensures a == b && m == n
  {
    var x := a + "_" + NatToString(m);
    LastUnderscoreBeforeDigits(a, NatToString(m));
    LastUnderscoreBeforeDigits(b, NatToString(n));
    assert |a| == |b|;
    assert a == x[..|a|] == b;
    assert NatToString(m) == x[|a| + 1..] == NatToString(n);
    ParseNatToString(m);
    ParseNatToString(n);
  }

  // ----- object members -----

  /** A member of an object literal's struct: the header's type id, or a field's member. */
  datatype MemberKey = TypeIdMember | FieldMember(fieldId: nat)

  /** The literal stored in a member. */
  datatype MemberValue =
    | TypeIdLiteral(typeId: int)
    | PrimLiteral(kind: PrimKind, bits: int)
    | ZeroInit
    | RefTo(symbol: Symbol)

  /** A symbol of the initial heap: a name and the type of what it names. */
  datatype Symbol = Symbol(name: string, symbolType: SymbolType)
  datatype SymbolType = InstanceOf(concreteType: TypeRef) | SizedArray(arrayType: SizedArrayType)

  /** A heap entry. */
  datatype HeapLiteral =
    | ObjectLiteral(members: map<MemberKey, MemberValue>)
    | ByteArrayLiteral(typeId: int, length: nat, bytes: seq<int>)

  /** A declared host field with the loaded field found for its name. */
  datatype FieldRead = FieldRead(qf: Option<QField>, field: HostField)

  /** The reads of one level, in declaration order. */
  function LevelReads(w: World, level: Level): (rs: seq<FieldRead>)
    ensures |rs| == |level.declared|
    ensures forall k :: 0 <= k < |rs| ==>
              rs[k] == FieldRead(w.findField(level.qClass, level.declared[k].name), level.declared[k])
  {
    seq(|level.declared|, k requires 0 <= k < |level.declared| =>
      FieldRead(w.findField(level.qClass, level.declared[k].name), level.declared[k]))
  }

  /** The reads of the whole superclass walk, level after level. */
  function WalkReads(w: World, levels: seq<Level>): seq<FieldRead> {
    if levels == [] then [] else WalkReads(w, levels[..|levels| - 1]) + LevelReads(w, levels[|levels| - 1])
  }

  /** The walk over one more level reads that level's fields after the others. */
  lemma WalkReadsSnoc(w: World, levels: seq<Level>, i: nat)
    requires i < |levels|
    ensures WalkReads(w, levels[..i + 1]) == WalkReads(w, levels[..i]) + LevelReads(w, levels[i])
  {
    assert levels[..i + 1][..i] == levels[..i];
  }

  /** What the field loop does with one field. */
  datatype FieldAction = Skip | Put(value: MemberValue) | SerializeRef(target: ObjId)

  /** A field the loaded class has no field for, or a static one, is
      skipped; a primitive field gets a literal of its primitive kind; a
      null reference the zero initializer; any other reference is
      serialised. */
  function FieldStep(r: FieldRead): (a: FieldAction)
    ensures a.Skip? <==> r.qf.None? || r.qf.value.isStatic
    ensures a.Put? && a.value.ZeroInit? <==>
              r.qf.Some? && !r.qf.value.isStatic && r.qf.value.kind == Reference && r.field.target.None?
    ensures a.SerializeRef? <==>
              r.qf.Some? && !r.qf.value.isStatic && r.qf.value.kind == Reference && r.field.target.Some?
    ensures a.SerializeRef? ==> a.target == r.field.target.value
    ensures a.Put? && !a.value.ZeroInit? ==>
              r.qf.value.kind.Primitive? && a.value == PrimLiteral(r.qf.value.kind.prim, r.field.bits)
  {
    match r.qf
    case None => Skip
    case Some(qf) =>
      if qf.isStatic then Skip
      else match qf.kind
        case Primitive(k) => Put(PrimLiteral(k, r.field.bits))
        case Reference => if r.field.target.None? then Put(ZeroInit) else SerializeRef(r.field.target.value)
  }

  /** Every reference a successful field loop serialised resolves to a symbol in `objs`. */
  ghost predicate RefsResolved(rs: seq<FieldRead>, objs: map<ObjId, Option<Symbol>>) {
    forall i :: 0 <= i < |rs| && FieldStep(rs[i]).SerializeRef? ==>
      FieldStep(rs[i]).target in objs && objs[FieldStep(rs[i]).target].Some?
  }

  /** Extending a prefix of rs by one element, after some earlier reads. */
  lemma PrefixSnoc(before: seq<FieldRead>, rs: seq<FieldRead>, j: nat)
    requires j < |rs|
    ensures before + rs[..j + 1] == (before + rs[..j]) + [rs[j]]
  {
    assert rs[..j + 1] == rs[..j] + [rs[j]];
  }

  /** Resolved references stay resolved when more objects are interned. */
  lemma RefsResolvedStable(rs: seq<FieldRead>, objs: map<ObjId, Option<Symbol>>, objs': map<ObjId, Option<Symbol>>)
    requires RefsResolved(rs, objs)
    requires forall o :: o in objs ==> o in objs' && objs'[o] == objs[o]
    ensures RefsResolved(rs, objs')
  {
  }

  /** One more read keeps the references resolved when its own reference is. */
  lemma RefsResolvedSnoc(rs: seq<FieldRead>, r: FieldRead, objs: map<ObjId, Option<Symbol>>)
    requires RefsResolved(rs, objs)
    requires FieldStep(r).SerializeRef? ==> FieldStep(r).target in objs && objs[FieldStep(r).target].Some?
    ensures RefsResolved(rs + [r], objs)
  {
    forall k | 0 <= k < |rs + [r]| && FieldStep((rs + [r])[k]).SerializeRef?
      ensures FieldStep((rs + [r])[k]).target in objs && objs[FieldStep((rs + [r])[k]).target].Some?
    {
      if k < |rs| {
        assert (rs + [r])[k] == rs[k];
      }
    }
  }

  /** The ids of the non-static loaded fields the reads found. */
  function InstanceFieldIds(rs: seq<FieldRead>): set<nat> {
    set i | 0 <= i < |rs| && rs[i].qf.Some? && !rs[i].qf.value.isStatic :: rs[i].qf.value.id
  }

  /** The member map of an object literal: the type id in the header, then
      each read applied in order (a later put on the same member wins), a
      serialised reference pointing at the symbol `objs` holds for it.
      (A reference `objs` does not resolve never occurs in a successful
      serialisation; it is given the zero initializer here.) */
  function MemberMap(typeId: int, rs: seq<FieldRead>, objs: map<ObjId, Option<Symbol>>): (m: map<MemberKey, MemberValue>)
    ensures TypeIdMember in m && m[TypeIdMember] == TypeIdLiteral(typeId)
    ensures forall k :: k in m && k != TypeIdMember ==> k.FieldMember? && k.fieldId in InstanceFieldIds(rs)
  {
    if rs == [] then map[TypeIdMember := TypeIdLiteral(typeId)]
    else
      var init := rs[..|rs| - 1];
      var r := rs[|rs| - 1];
      var m0 := MemberMap(typeId, init, objs);
      assert InstanceFieldIds(init) <= InstanceFieldIds(rs) by {
        forall x | x in InstanceFieldIds(init) ensures x in InstanceFieldIds(rs) {
          var i :| 0 <= i < |init| && init[i].qf.Some? && !init[i].qf.value.isStatic && init[i].qf.value.id == x;
          assert rs[i] == init[i];
        }
      }
      ApplyRead(m0, r, objs)
  }

  /** One read applied to a member map. */
  function ApplyRead(m0: map<MemberKey, MemberValue>, r: FieldRead, objs: map<ObjId, Option<Symbol>>): (m: map<MemberKey, MemberValue>)
    ensures FieldStep(r).Skip? ==> m == m0
    ensures !FieldStep(r).Skip? ==> m.Keys == m0.Keys + {FieldMember(r.qf.value.id)}
    ensures forall k :: k in m0 && (FieldStep(r).Skip? || k != FieldMember(r.qf.value.id)) ==> k in m && m[k] == m0[k]
  {
    match FieldStep(r)
    case Skip => m0
    case Put(v) => m0[FieldMember(r.qf.value.id) := v]
    case SerializeRef(t) =>
      m0[FieldMember(r.qf.value.id) := if t in objs && objs[t].Some? then RefTo(objs[t].value) else ZeroInit]
  }

  /** The member map of a longer read sequence is the shorter one's with one more read applied. */
  lemma MemberMapSnoc(typeId: int, rs: seq<FieldRead>, r: FieldRead, objs: map<ObjId, Option<Symbol>>)
    ensures MemberMap(typeId, rs + [r], objs) == ApplyRead(MemberMap(typeId, rs, objs), r, objs)
  {
    assert (rs + [r])[..|rs + [r]| - 1] == rs;
  }

  /** A static field, or one the loaded class lacks, contributes no member. */
  lemma SkippedFieldAddsNothing(typeId: int, rs: seq<FieldRead>, r: FieldRead, objs: map<ObjId, Option<Symbol>>)
    requires r.qf.None? || r.qf.value.isStatic
    ensures MemberMap(typeId, rs + [r], objs) == MemberMap(typeId, rs, objs)
  {
    assert (rs + [r])[..|rs + [r]| - 1] == rs;
  }

  /** A non-static null reference field's member holds the zero initializer. */
  lemma NullReferenceIsZero(typeId: int, rs: seq<FieldRead>, r: FieldRead, objs: map<ObjId, Option<Symbol>>)
    requires r.qf.Some? && !r.qf.value.isStatic && r.qf.value.kind == Reference && r.field.target.None?
    ensures MemberMap(typeId, rs + [r], objs)[FieldMember(r.qf.value.id)] == ZeroInit
  {
    assert (rs + [r])[..|rs + [r]| - 1] == rs;
  }

  /** The member map only depends on the symbols of the references it serialised. */
  lemma {:induction false} MemberMapStable(typeId: int, rs: seq<FieldRead>, objs: map<ObjId, Option<Symbol>>, objs': map<ObjId, Option<Symbol>>)
    requires RefsResolved(rs, objs)
    requires forall o :: o in objs ==> o in objs' && objs'[o] == objs[o]
    ensures MemberMap(typeId, rs, objs') == MemberMap(typeId, rs, objs)
  {
    if rs != [] {
      var init := rs[..|rs| - 1];
      assert RefsResolved(init, objs) by {
        forall i | 0 <= i < |init| && FieldStep(init[i]).SerializeRef?
          ensures FieldStep(init[i]).target in objs && objs[FieldStep(init[i]).target].Some?
        {
          assert init[i] == rs[i];
        }
      }
      MemberMapStable(typeId, init, objs, objs');
    }
  }

  /** Why serialisation fails: a field refers to an array the heap serialises
      to null, so taking the symbol's name throws NullPointerException; or
      the object graph is deeper than the recursion bound (for a cycle, the
      stack overflow of the unbounded recursion). */
  datatype HeapError = NullPointerException | RecursionTooDeep

  /** The mutable parts of a build time heap. */
  datatype HeapState = HeapState(
    counter: nat,
    heap: map<Symbol, HeapLiteral>,
    objects: map<ObjId, Option<Symbol>>,
    strings: map<string, Symbol>,
    types: map<string, SizedArrayType>)

  /** What only grows: the counter, and the heap, the intern tables and the
    type cache, whose existing entries never change. New heap entries are
    named by counter values issued in between. */
  ghost predicate Grows(a: HeapState, b: HeapState) {
    && a.counter <= b.counter
    && (forall s :: s in a.heap ==> s in b.heap && b.heap[s] == a.heap[s])
    && (forall s :: s in b.heap && s !in a.heap ==>
          NameIndex(s.name).Some? && a.counter <= NameIndex(s.name).value < b.counter)
    && (forall o :: o in a.objects ==> o in b.objects && b.objects[o] == a.objects[o])
    && (forall v :: v in a.strings ==> v in b.strings && b.strings[v] == a.strings[v])
    && (forall k :: k in a.types ==> k in b.types && b.types[k] == a.types[k])
  }

  /** A new heap entry named by a counter value issued since `a` keeps
    the growth, whatever the counter has moved on to. */
  lemma GrowsByEntry(a: HeapState, b: HeapState, c: HeapState, sym: Symbol, lit: HeapLiteral)
    requires Grows(a, b)
    requires sym !in b.heap && c.heap == b.heap[sym := lit]
    requires b.counter <= c.counter && c.objects == b.objects && c.strings == b.strings && c.types == b.types
    requires NameIndex(sym.name).Some? && a.counter <= NameIndex(sym.name).value < c.counter
    ensures Grows(a, c)
  {
  }

  /** Caching an object that was not cached in `a` keeps the growth. */
  lemma GrowsByCache(a: HeapState, b: HeapState, c: HeapState, obj: ObjId, lit: Option<Symbol>)
    requires Grows(a, b)
    requires obj !in a.objects && c.objects == b.objects[obj := lit]
    requires c.counter == b.counter && c.heap == b.heap && c.strings == b.strings && c.types == b.types
    ensures Grows(a, c)
  {
  }

  /** Every state grows into itself. */
  lemma GrowsReflexive(a: HeapState)
    ensures Grows(a, a)
  {
  }

  /** Caching a sized array type under a new key keeps the growth. */
  lemma GrowsByType(a: HeapState, c: HeapState, key: string, t: SizedArrayType)
    requires key !in a.types && c == a.(types := a.types[key := t])
    ensures Grows(a, c)
  {
  }

  /** Interning a string that was not interned in `a` keeps the growth. */
  lemma GrowsByIntern(a: HeapState, b: HeapState, c: HeapState, v: string, sym: Symbol)
    requires Grows(a, b)
    requires v !in a.strings && c == b.(strings := b.strings[v := sym])
    ensures Grows(a, c)
  {
  }

  /** Growth composes. */
  lemma GrowsTransitive(a: HeapState, b: HeapState, c: HeapState)
    requires Grows(a, b) && Grows(b, c)
    ensures Grows(a, c)
  {
  }

  /** The class context finds no class for an instance's name. */
  predicate NoDefinedType(w: World, o: HostObject) {
    o.Instance? && w.findDefinedType(o.className).None?
  }

  /** What serialising a host object not seen before adds, from heap `h0` and
      counter `c0` to heap `h` and counter `c`: nothing for an array the heap
      does not serialise; for a byte array, exactly one entry, under the name
      of `c0`, holding the array class's type id, the length and the bytes;
      for an instance, an entry under the name of `c0`, typed by the loaded
      class, holding the member map of its superclass walk with references
      resolved through `objs`. */
  ghost predicate Created(w: World, c0: nat, c: nat, h0: map<Symbol, HeapLiteral>, h: map<Symbol, HeapLiteral>,
                          o: HostObject, r: Option<Symbol>, objs: map<ObjId, Option<Symbol>>)
  {
    match o
    case OtherArray => r.None? && c == c0 && h == h0
    case ByteArray(bytes) =>
      && r.Some? && r.value.name == LiteralName(c0) && r.value !in h0 && c == c0 + 1
      && r.value.symbolType.SizedArray? && r.value.symbolType.arrayType.length == |bytes|
      && h == h0[r.value := ByteArrayLiteral(w.typeIdOf(w.byteArrayContents.enclosingType), |bytes|, bytes)]
    case Instance(className, levels) =>
      && w.findDefinedType(className).Some?
      && r == Some(Symbol(LiteralName(c0), InstanceOf(w.findDefinedType(className).value)))
      && r.value !in h0 && r.value in h
      && h[r.value] == ObjectLiteral(MemberMap(w.typeIdOf(w.findDefinedType(className).value), WalkReads(w, levels), objs))
  }

  class BuildtimeHeap {
    const world: World
    /** The sized array types, by name. */
    var arrayTypes: map<string, SizedArrayType>
    /** Interned strings, by equality. */
    var stringLiterals: map<string, Symbol>
    /** Interned objects, by identity; None is the null of an array kind the heap does not serialise. */
    var objects: map<ObjId, Option<Symbol>>
    /** The initial heap. */
    var initialHeap: map<Symbol, HeapLiteral>
    /** `literalCounter`. */
    var literalCounter: nat

    /** Every heap entry is named by a counter value already used; every
      interned symbol names a heap entry; every cached array type is the
      one its key was built from. */
    predicate Valid()
      reads this
    {
      && (forall s :: s in initialHeap ==> NameIndex(s.name).Some? && NameIndex(s.name).value < literalCounter)
      && (forall o :: o in objects && objects[o].Some? ==> objects[o].value in initialHeap)
      && (forall v :: v in stringLiterals ==> stringLiterals[v] in initialHeap)
      && (forall k :: k in arrayTypes ==>
            arrayTypes[k] == BuildSizedType(world, arrayTypes[k].contents, arrayTypes[k].length)
            && k == arrayTypes[k].typeName)
    }

    /** The parts of the heap that `Extends` compares. */
    ghost function State(): HeapState
      reads this
    {
      HeapState(literalCounter, initialHeap, objects, stringLiterals, arrayTypes)
    }

    /** What only grows, from the state on entry to the current one. */
    twostate predicate Extends()
      reads this
    {
      Grows(old(State()), State())
    }

    constructor (world: World)
      ensures this.world == world && Valid()
      ensures arrayTypes == map[] && stringLiterals == map[] && objects == map[]
      ensures initialHeap == map[] && literalCounter == 0
    {
      this.world := world;
      arrayTypes := map[];
      stringLiterals := map[];
      objects := map[];
      initialHeap := map[];
      literalCounter := 0;
    }

    /** `getHeap()`. */
    function GetHeap(): (h: map<Symbol, HeapLiteral>)
      reads this
      ensures h == initialHeap
    {
      initialHeap
    }

    /** `nextLiteralName()`: the name of the current counter value; the
      counter moves on by one. */
    method NextLiteralName() returns (name: string)
      modifies this`literalCounter
      ensures name == LiteralName(old(literalCounter))
      ensures literalCounter == old(literalCounter) + 1
    {
      name := LiteralName(literalCounter);
      literalCounter := literalCounter + 1;
    }

    /** `arrayLiteralType(contents, length)`: the cached type of that name,
      or a newly built and cached one. A cached type has the same internal
      name and length, though possibly another class's layout. */
    method ArrayLiteralType(contents: ContentsField, length: nat) returns (t: SizedArrayType)
      requires Valid()
      modifies this`arrayTypes
      ensures var key := TypeKey(world, contents, length);
              && key in arrayTypes && t == arrayTypes[key]
              && (key in old(arrayTypes) ==> arrayTypes == old(arrayTypes))
              && (key !in old(arrayTypes) ==>
                    t == BuildSizedType(world, contents, length) && arrayTypes == old(arrayTypes)[key := t])
      ensures t == BuildSizedType(world, t.contents, length)
      ensures world.internalName(t.contents.enclosingType) == world.internalName(contents.enclosingType)
      ensures Valid() && Extends()
    {
      var typeName := TypeKey(world, contents, length);
      if typeName in arrayTypes {
        t := arrayTypes[typeName];
        TypeKeyInjective(world.internalName(t.contents.enclosingType), t.length,
                         world.internalName(contents.enclosingType), length);
        GrowsReflexive(State());
        return;
      }
      t := BuildSizedType(world, contents, length);
      arrayTypes := arrayTypes[typeName := t];
      GrowsByType(old(State()), State(), typeName, t);
    }

    /** Adds one heap entry under a name already issued and not yet used. */
    method Store(sym: Symbol, lit: HeapLiteral)
      requires Valid()
      requires sym !in initialHeap
      requires NameIndex(sym.name).Some? && NameIndex(sym.name).value < literalCounter
      modifies this`initialHeap
      ensures initialHeap == old(initialHeap)[sym := lit]
      ensures Valid()
    {
      initialHeap := initialHeap[sym := lit];
    }

    /** `serializeArray(byte[])`: one new heap entry, named by the next
      counter value, holding the byte array class's type id, the length and
      the bytes, typed by the sized array type for that length. */
    method SerializeByteArray(bytes: seq<int>) returns (sym: Symbol)
      requires Valid()
      modifies this`arrayTypes, this`initialHeap, this`literalCounter
      ensures literalCounter == old(literalCounter) + 1
      ensures sym.name == LiteralName(old(literalCounter)) && sym.symbolType.SizedArray?
      ensures sym.symbolType.arrayType.length == |bytes|
      ensures sym !in old(initialHeap)
      ensures initialHeap == old(initialHeap)[sym :=
                ByteArrayLiteral(world.typeIdOf(world.byteArrayContents.enclosingType), |bytes|, bytes)]
      ensures Valid() && Extends()
    {
      var contents := world.byteArrayContents;
      var literalType := ArrayLiteralType(contents, |bytes|);
      ghost var mid := State();
      var literal := ByteArrayLiteral(world.typeIdOf(contents.enclosingType), |bytes|, bytes);
      sym := AddNamedEntry(SizedArray(literalType), literal);
      GrowsTransitive(old(State()), mid, State());
    }

    /** The tail of `serializeArray(byte[])`: a symbol of the given type,
      named by the next counter value, holding the literal. */
    method AddNamedEntry(t: SymbolType, lit: HeapLiteral) returns (sym: Symbol)
      requires Valid()
      modifies this`initialHeap, this`literalCounter
      ensures literalCounter == old(literalCounter) + 1
      ensures sym == Symbol(LiteralName(old(literalCounter)), t)
      ensures sym !in old(initialHeap)
      ensures initialHeap == old(initialHeap)[sym := lit]
      ensures Valid() && Extends()
    {
      var name := NextLiteralName();
      sym := Symbol(name, t);
      NameIndexOfLiteralName(old(literalCounter));
      ghost var mid := State();
      Store(sym, lit);
      GrowsByEntry(old(State()), mid, State(), sym, lit);
    }

    /** `serializeObject(Object)`: an object serialised before yields its
      cached symbol and changes nothing; otherwise a byte array or an
      instance is serialised (an instance through its loaded class), any
      other array yields null, and the result is cached for the object.
      The entry is built before the object is cached, so its references
      are the symbols of `cacheBefore`, the identity table just before
      the object is entered in it. */
    method SerializeObject(obj: ObjId, fuel: nat) returns (r: Result<Option<Symbol>, HeapError>, ghost cacheBefore: map<ObjId, Option<Symbol>>)
      requires Valid()
      modifies this`arrayTypes, this`objects, this`initialHeap, this`literalCounter
      ensures obj in old(objects) ==> r == Success(old(objects[obj])) && unchanged(this)
      ensures r.Success? ==> obj in objects && objects[obj] == r.value
      ensures obj !in old(objects) && r.Success? ==>
                && objects == cacheBefore[obj := r.value]
                && Created(world, old(literalCounter), literalCounter, old(initialHeap), initialHeap, world.heap(obj), r.value, cacheBefore)
      ensures obj !in old(objects) && NoDefinedType(world, world.heap(obj)) ==> r == Failure(NullPointerException) && unchanged(this)
      ensures Valid() && Extends()
      decreases fuel, 5
    {
      cacheBefore := objects;
      if obj in objects {
        GrowsReflexive(State());
        return Success(objects[obj]), cacheBefore;
      }
      var res := SerializeUncached(obj, fuel);
      if res.Failure? {
        return Failure(res.error), cacheBefore;
      }
      ghost var mid := State();
      cacheBefore := objects;
      CacheObject(obj, res.value);
      GrowsByCache(old(State()), mid, State(), obj, res.value);
      r := Success(res.value);
    }

    /** The dispatch of `serializeObject(Object)` on an object not seen
      before: a byte array or an instance gets a new heap entry named by the
      next counter value, any other array yields null and adds no entry. A
      class the class context does not find makes `.load()` throw. */
    method SerializeUncached(obj: ObjId, fuel: nat) returns (r: Result<Option<Symbol>, HeapError>)
      requires Valid()
      modifies this`arrayTypes, this`objects, this`initialHeap, this`literalCounter
      ensures r.Success? ==> Created(world, old(literalCounter), literalCounter, old(initialHeap), initialHeap, world.heap(obj), r.value, objects)
      ensures NoDefinedType(world, world.heap(obj)) ==> r == Failure(NullPointerException) && unchanged(this)
      ensures Valid() && Extends()
      decreases fuel, 4
    {
      match world.heap(obj) {
        case ByteArray(bytes) =>
          var sym := SerializeByteArray(bytes);
          r := Success(Some(sym));
        case OtherArray =>
          GrowsReflexive(State());
          r := Success(None);
        case Instance(className, levels) =>
          var dt := world.findDefinedType(className);
          if dt.None? {
            GrowsReflexive(State());
            return Failure(NullPointerException);
          }
          var ltd := dt.value;
          var res := SerializeInstance(ltd, levels, fuel);
          if res.Failure? {
            return Failure(res.error);
          }
          r := Success(Some(res.value));
      }
    }

    /** Enters an object's serialised form in the identity table. */
    method CacheObject(obj: ObjId, lit: Option<Symbol>)
      requires Valid()
      requires lit.Some? ==> lit.value in initialHeap
      modifies this`objects
      ensures objects == old(objects)[obj := lit]
      ensures Valid()
    {
      objects := objects[obj := lit];
    }

    /** `serializeObject(concreteType, instance)`: takes the next name first,
      fills the member map from the header and the superclass walk, and
      adds one heap entry under that name holding it. */
    method SerializeInstance(concreteType: TypeRef, levels: seq<Level>, fuel: nat) returns (r: Result<Symbol, HeapError>)
      requires Valid()
      modifies this`arrayTypes, this`objects, this`initialHeap, this`literalCounter
      ensures r.Success? ==>
                && r.value == Symbol(LiteralName(old(literalCounter)), InstanceOf(concreteType))
                && r.value !in old(initialHeap)
                && r.value in initialHeap
                && initialHeap[r.value] == ObjectLiteral(MemberMap(world.typeIdOf(concreteType), WalkReads(world, levels), objects))
      ensures Valid() && Extends()
      decreases fuel, 3
    {
      var typeId := world.typeIdOf(concreteType);
      var myName := NextLiteralName();
      NameIndexOfLiteralName(old(literalCounter));
      var sym := Symbol(myName, InstanceOf(concreteType));
      assert sym !in initialHeap;
      var members := SerializeFields(typeId, levels, fuel);
      if members.Failure? {
        return Failure(members.error);
      }
      ghost var mid := State();
      Store(sym, ObjectLiteral(members.value));
      GrowsByEntry(old(State()), mid, State(), sym, ObjectLiteral(members.value));
      r := Success(sym);
    }

    /** The superclass walk of `serializeObject(concreteType, instance)`:
      the member map of the header and every level's fields, in order. */
    method SerializeFields(typeId: int, levels: seq<Level>, fuel: nat) returns (r: Result<map<MemberKey, MemberValue>, HeapError>)
      requires Valid()
      modifies this`arrayTypes, this`objects, this`initialHeap, this`literalCounter
      ensures r.Success? ==> r.value == MemberMap(typeId, WalkReads(world, levels), objects)
      ensures Valid() && Extends()
      decreases fuel, 2
    {
      var members := map[TypeIdMember := TypeIdLiteral(typeId)];
      ghost var start := State();
      GrowsReflexive(start);
      var i := 0;
      while i < |levels|
        invariant 0 <= i <= |levels|
        invariant RefsResolved(WalkReads(world, levels[..i]), objects)
        invariant members == MemberMap(typeId, WalkReads(world, levels[..i]), objects)
        invariant Valid() && Grows(start, State())
      {
        WalkReadsSnoc(world, levels, i);
        ghost var mid := State();
        var res := SerializeLevel(typeId, WalkReads(world, levels[..i]), levels[i], members, fuel);
        GrowsTransitive(start, mid, State());
        if res.Failure? {
          return Failure(res.error);
        }
        members := res.value;
        i := i + 1;
      }
      assert levels[..|levels|] == levels;
      r := Success(members);
    }

    /** The inner loop of the superclass walk: the fields one host class
      declares, in order, applied to the member map built so far. */
    method SerializeLevel(typeId: int, before: seq<FieldRead>, level: Level, members: map<MemberKey, MemberValue>, fuel: nat)
      returns (r: Result<map<MemberKey, MemberValue>, HeapError>)
      requires Valid()
      requires RefsResolved(before, objects)
      requires members == MemberMap(typeId, before, objects)
      modifies this`arrayTypes, this`objects, this`initialHeap, this`literalCounter
      ensures r.Success? ==> RefsResolved(before + LevelReads(world, level), objects)
      ensures r.Success? ==> r.value == MemberMap(typeId, before + LevelReads(world, level), objects)
      ensures Valid() && Extends()
      decreases fuel, 1
    {
      var rs := LevelReads(world, level);
      var m := members;
      assert before + rs[..0] == before;
      ghost var start := State();
      GrowsReflexive(start);
      for j := 0 to |level.declared|
        invariant RefsResolved(before + rs[..j], objects)
        invariant m == MemberMap(typeId, before + rs[..j], objects)
        invariant Valid() && Grows(start, State())
      {
        PrefixSnoc(before, rs, j);
        ghost var mid := State();
        var res := SerializeField(typeId, before + rs[..j], rs[j], m, fuel);
        GrowsTransitive(start, mid, State());
        if res.Failure? {
          return Failure(res.error);
        }
        m := res.value;
      }
      assert rs[..|level.declared|] == rs;
      r := Success(m);
    }

    /** One field of the inner loop: a field that is not an instance field
      is skipped, a primitive value or null is stored as it is, and a
      reference is stored as the symbol of the serialised target. */
    method SerializeField(typeId: int, done: seq<FieldRead>, read: FieldRead, m: map<MemberKey, MemberValue>, fuel: nat)
      returns (r: Result<map<MemberKey, MemberValue>, HeapError>)
      requires Valid()
      requires RefsResolved(done, objects)
      requires m == MemberMap(typeId, done, objects)
      modifies this`arrayTypes, this`objects, this`initialHeap, this`literalCounter
      ensures r.Success? ==> RefsResolved(done + [read], objects)
      ensures r.Success? ==> r.value == MemberMap(typeId, done + [read], objects)
      ensures Valid() && Extends()
      decreases fuel, 0
    {
      var m' := m;
      match FieldStep(read) {
        case Skip =>
        case Put(v) =>
          m' := m[FieldMember(read.qf.value.id) := v];
        case SerializeRef(target) =>
          if fuel == 0 {
            return Failure(RecursionTooDeep);
          }
          ghost var objectsBefore := objects;
          ghost var cached;
          var contents;
          contents, cached := SerializeObject(target, fuel - 1);
          if contents.Failure? {
            return Failure(contents.error);
          }
          if contents.value.None? {
            return Failure(NullPointerException);
          }
          MemberMapStable(typeId, done, objectsBefore, objects);
          RefsResolvedStable(done, objectsBefore, objects);
          m' := m[FieldMember(read.qf.value.id) := RefTo(contents.value.value)];
      }
      MemberMapSnoc(typeId, done, read, objects);
      RefsResolvedSnoc(done, read, objects);
      r := Success(m');
    }

    /** `serializeStringLiteral`: a string equal to one interned before yields
      its symbol and changes nothing; otherwise the string is serialised as
      an instance of java.lang.String, looked up by `StringClassName`, and
      interned. It is not entered in the identity table. */
    method SerializeStringLiteral(value: string, fuel: nat) returns (r: Result<Symbol, HeapError>)
      requires Valid()
      modifies this`arrayTypes, this`stringLiterals, this`objects, this`initialHeap, this`literalCounter
      ensures value in old(stringLiterals) ==> r == Success(old(stringLiterals[value])) && unchanged(this)
      ensures value !in old(stringLiterals) && world.findDefinedType(StringClassName).None? ==>
                r == Failure(NullPointerException) && unchanged(this)
      ensures value !in old(stringLiterals) && r.Success? ==>
                && world.findDefinedType(StringClassName).Some?
                && stringLiterals == old(stringLiterals)[value := r.value]
                && Created(world, old(literalCounter), literalCounter, old(initialHeap), initialHeap,
                           Instance(StringClassName, world.stringLevels(value)), Some(r.value), objects)
      ensures value !in old(stringLiterals) && r.Failure? ==> stringLiterals == old(stringLiterals)
      ensures Valid() && Extends()
    {
      if value in stringLiterals {
        GrowsReflexive(State());
        return Success(stringLiterals[value]);
      }
      var jls := world.findDefinedType(StringClassName);
      if jls.None? {
        GrowsReflexive(State());
        return Failure(NullPointerException);
      }
      var sl := SerializeInstance(jls.value, world.stringLevels(value), fuel);
      if sl.Failure? {
        return sl;
      }
      ghost var mid := State();
      stringLiterals := stringLiterals[value := sl.value];
      GrowsByIntern(old(State()), mid, State(), value, sl.value);
      r := sl;
    }
  }

  /** Serialising the same object twice gives the symbol of the first time,
      without a new name or heap entry. */
  method SerializeTwice(heap: BuildtimeHeap, obj: ObjId, fuel: nat) returns (first: Result<Option<Symbol>, HeapError>, second: Result<Option<Symbol>, HeapError>)
    requires heap.Valid()
    modifies heap
    ensures first.Success? ==> second == first
  {
    ghost var cached;
    first, cached := heap.SerializeObject(obj, fuel);
    var counter := heap.literalCounter;
    second, cached := heap.SerializeObject(obj, fuel);
    assert first.Success? ==> heap.literalCounter == counter;
  }
}
