/** Dispatch-table construction: per-class vtables and per-interface itables
    filtered by reachability, their structure layouts, the values of their
    slots (implementations or error-raising stubs), the per-class itable
    dictionaries closed by a zero sentinel, the global tables of tables
    indexed by type id, and slot lookup by name and descriptor.

    The compilation context is a parameter: which methods were enqueued,
    which have an exact function, which are invokable, the function type of
    an element, virtual method resolution on a class, and the loaded
    definition of each type. Names of emitted symbols are left out; emitted
    data is recorded under the type(s) its name is built from. */
module Dispatch {
  import opened Wrappers

  /** A loaded type definition, identified by a number. */
  type TypeRef = nat

  /** A function type, left uninterpreted. */
  type FnType = nat

  /** A method element. Elements have identity (`id`); name and descriptor
      are what slot lookup and virtual resolution compare. */
  datatype Method = Method(
    id: nat,
    name: string,
    descriptor: string,
    enclosingType: TypeRef,
    isAbstract: bool,
    isNative: bool)

  /** What a loaded type definition tells this component: its type id,
      whether it is abstract, its instance methods in declaration order, and
      its full set of implemented interfaces in visiting order. */
  datatype TypeDef = TypeDef(
    typeId: nat,
    isAbstract: bool,
    instanceMethods: seq<Method>,
    interfaceFullImplementedSet: seq<TypeRef>)

  /** The queries this component makes of the compilation context.
      `functionTypeFor` is `getFunctionTypeForElement`, which the itable code
      also applies to a method that was not found (`None`). */
  datatype Context = Context(
    load: TypeRef -> TypeDef,
    wasEnqueued: Method -> bool,
    hasExactFunction: Method -> bool,
    isInvokable: Method -> bool,
    functionTypeFor: Option<Method> -> FnType,
    resolveVirtual: (TypeRef, string, string) -> Option<Method>,
    pointerSize: nat,
    typeIdSize: nat)

  // ----- filtering -----

  /** The methods of `ms` that were enqueued, in their order in `ms`. */
  function Reachable(ctx: Context, ms: seq<Method>): (r: seq<Method>)
    ensures |r| <= |ms|
    ensures forall m :: m in r <==> m in ms && ctx.wasEnqueued(m)
  {
    if ms == [] then []
    else
      var last := ms[|ms| - 1];
      assert ms == ms[..|ms| - 1] + [last];
      var init := Reachable(ctx, ms[..|ms| - 1]);
      if ctx.wasEnqueued(last) then init + [last] else init
  }

  /** Filtering distributes over concatenation, so it keeps the relative
      order of the methods it keeps. */
  lemma {:induction false} ReachableAppend(ctx: Context, a: seq<Method>, b: seq<Method>)
    ensures Reachable(ctx, a + b) == Reachable(ctx, a) + Reachable(ctx, b)
    decreases |b|
  {
    if b == [] {
      assert a + b == a;
    } else {
      var b' := b[..|b| - 1];
      assert (a + b)[..|a + b| - 1] == a + b';
      assert (a + b)[|a + b| - 1] == b[|b| - 1];
      ReachableAppend(ctx, a, b');
    }
  }

  /** When every method was enqueued, the table is the whole list, in order. */
  lemma {:induction false} ReachableKeepsAll(ctx: Context, ms: seq<Method>)
    requires forall i :: 0 <= i < |ms| ==> ctx.wasEnqueued(ms[i])
    ensures Reachable(ctx, ms) == ms
  {
    if ms != [] {
      ReachableKeepsAll(ctx, ms[..|ms| - 1]);
      assert ms == ms[..|ms| - 1] + [ms[|ms| - 1]];
    }
  }

  /** The loop of `buildFilteredVTable` and `buildFilteredITableForInterface`:
      the class's instance methods that were enqueued, in declaration order. */
  method FilterInstanceMethods(ctx: Context, ms: seq<Method>) returns (table: seq<Method>)
    ensures table == Reachable(ctx, ms)
  {
    table := [];
    for i := 0 to |ms|
      invariant table == Reachable(ctx, ms[..i])
    {
      assert ms[..i + 1][..i] == ms[..i];
      if ctx.wasEnqueued(ms[i]) {
        table := table + [ms[i]];
      }
    }
    assert ms[..|ms|] == ms;
  }

  // ----- layout -----

  /** Member `m<index>` of a table structure: a pointer to `fnType` at `offset`. */
  datatype SlotMember = SlotMember(index: nat, fnType: FnType, offset: nat)

  /** The structure type of a vtable or itable. */
  datatype TableType = TableType(members: seq<SlotMember>, size: nat)

  /** The member loop and structure size of the table builders: one
      pointer-sized member per method, member `i` at `i * pointerSize`,
      typed by the method's function type, and a size of
      `length * pointerSize`. */
  method TableLayout(ctx: Context, table: seq<Method>) returns (t: TableType)
    ensures |t.members| == |table|
    ensures forall i :: 0 <= i < |table| ==>
              t.members[i] == SlotMember(i, ctx.functionTypeFor(Some(table[i])), i * ctx.pointerSize)
    ensures t.size == |table| * ctx.pointerSize
  {
    var members := [];
    for i := 0 to |table|
      invariant |members| == i
      invariant forall k :: 0 <= k < i ==>
                  members[k] == SlotMember(k, ctx.functionTypeFor(Some(table[k])), k * ctx.pointerSize)
    {
      members := members + [SlotMember(i, ctx.functionTypeFor(Some(table[i])), i * ctx.pointerSize)];
    }
    t := TableType(members, |table| * ctx.pointerSize);
  }

  /** With that layout, the slots of a table of n methods do not overlap and
      all lie inside the structure. */
  lemma {:induction false} SlotsDisjointAndInside(n: nat, pointerSize: nat, i: nat, j: nat)
    requires i < j < n
    ensures i * pointerSize + pointerSize <= j * pointerSize
    ensures j * pointerSize + pointerSize <= n * pointerSize
  {
    assert i * pointerSize + pointerSize == (i + 1) * pointerSize;
    assert j * pointerSize + pointerSize == (j + 1) * pointerSize;
    MultiplyIsMonotonic(i + 1, j, pointerSize);
    MultiplyIsMonotonic(j + 1, n, pointerSize);
  }

  lemma {:induction false} MultiplyIsMonotonic(a: nat, b: nat, c: nat)
    requires a <= b
    ensures a * c <= b * c
  {
    assert b * c == a * c + (b - a) * c;
  }

  /** A built vtable: its methods, its structure type, and (standing for its
      symbol) the class it belongs to. */
  datatype VTableInfo = VTableInfo(vtable: seq<Method>, tableType: TableType)

  /** A built itable: its methods, its structure type and its interface. */
  datatype ITableInfo = ITableInfo(itable: seq<Method>, tableType: TableType, iface: TypeRef)

  // ----- slot values -----

  /** The error-raising helpers a slot can point to. */
  datatype Stub = AbstractMethodErrorStub | UnsatisfiedLinkErrorStub | IncompatibleClassChangeErrorStub

  /** A slot's literal: a method's implementation, or a helper bit-cast to a
      pointer to a function type. */
  datatype SlotValue = ImplOf(m: Method) | StubCast(stub: Stub, castTo: FnType)

  /** A function declared in a class's section so that its data can refer to it. */
  datatype Declaration = DeclaredStub(stub: Stub) | DeclaredImpl(m: Method, fnType: FnType)

  /** An error reported to the compilation context. */
  datatype Diagnostic =
    | MissingImplementation(m: Method, cls: TypeRef)
    | NoVTableEntry(target: Method)
    | NoITableEntry(target: Method)

  /** What a slot becomes: a value (with the declaration it needs, if any),
      or a reported error and no value. */
  datatype SlotOutcome = Slot(value: SlotValue, declares: Option<Declaration>) | Missing(report: Diagnostic)

  /** A vtable slot of class `cls` holding method `m`: abstract methods get
      the AbstractMethodError helper and native ones the UnsatisfiedLinkError
      helper, both cast to `m`'s function type; a concrete method without an
      implementation is reported; otherwise the slot holds the
      implementation, declared when it belongs to another class. */
  function VTableSlot(ctx: Context, cls: TypeRef, m: Method): (o: SlotOutcome)
    ensures o.Slot? && o.value.StubCast? <==> m.isAbstract || m.isNative
    ensures o.Slot? && o.value.StubCast? ==>
              && o.value.castTo == ctx.functionTypeFor(Some(m))
              && (o.value.stub == AbstractMethodErrorStub <==> m.isAbstract)
              && o.value.stub != IncompatibleClassChangeErrorStub
              && o.declares == Some(DeclaredStub(o.value.stub))
    ensures o.Missing? <==> !m.isAbstract && !m.isNative && !ctx.hasExactFunction(m)
    ensures o.Missing? ==> o.report == MissingImplementation(m, cls)
    ensures o.Slot? && o.value.ImplOf? ==> o.value.m == m && (o.declares.Some? <==> m.enclosingType != cls)
  {
    if m.isAbstract || m.isNative then
      var stub := if m.isAbstract then AbstractMethodErrorStub else UnsatisfiedLinkErrorStub;
      Slot(StubCast(stub, ctx.functionTypeFor(Some(m))), Some(DeclaredStub(stub)))
    else if !ctx.hasExactFunction(m) then
      Missing(MissingImplementation(m, cls))
    else
      Slot(ImplOf(m), if m.enclosingType != cls then Some(DeclaredImpl(m, ctx.functionTypeFor(Some(m)))) else None)
  }

  /** An itable slot of class `cls` for the interface method `selector`: the
      class's virtual resolution of the selector's name and descriptor is
      looked up, and its function type taken, before any null check. Not
      found: the IncompatibleClassChangeError helper; abstract: the
      AbstractMethodError helper; native, or without implementation and not
      invokable: the UnsatisfiedLinkError helper; without implementation but
      invokable: a reported error; otherwise the implementation. */
  function ITableSlot(ctx: Context, cls: TypeRef, selector: Method): (o: SlotOutcome)
    ensures var found := ctx.resolveVirtual(cls, selector.name, selector.descriptor);
            && (o.Slot? && o.value.StubCast? ==> o.value.castTo == ctx.functionTypeFor(found))
            && (o.Slot? && o.value.StubCast? && o.value.stub == IncompatibleClassChangeErrorStub <==> found.None?)
            && (o.Slot? && o.value.StubCast? && o.value.stub == AbstractMethodErrorStub <==> found.Some? && found.value.isAbstract)
            && (o.Slot? && o.value.StubCast? && o.value.stub == UnsatisfiedLinkErrorStub <==>
                  found.Some? && !found.value.isAbstract
                  && (found.value.isNative || (!ctx.hasExactFunction(found.value) && !ctx.isInvokable(found.value))))
            && (o.Missing? <==> found.Some? && !found.value.isAbstract && !found.value.isNative
                                && !ctx.hasExactFunction(found.value) && ctx.isInvokable(found.value))
            && (o.Slot? && o.value.ImplOf? ==> found == Some(o.value.m))
  {
    var methImpl := ctx.resolveVirtual(cls, selector.name, selector.descriptor);
    var implType := ctx.functionTypeFor(methImpl);
    if methImpl.None? then
      Slot(StubCast(IncompatibleClassChangeErrorStub, implType), Some(DeclaredStub(IncompatibleClassChangeErrorStub)))
    else if methImpl.value.isAbstract then
      Slot(StubCast(AbstractMethodErrorStub, implType), Some(DeclaredStub(AbstractMethodErrorStub)))
    else if methImpl.value.isNative || !ctx.hasExactFunction(methImpl.value) then
      if !methImpl.value.isNative && ctx.isInvokable(methImpl.value) then
        Missing(MissingImplementation(methImpl.value, cls))
      else
        Slot(StubCast(UnsatisfiedLinkErrorStub, implType), Some(DeclaredStub(UnsatisfiedLinkErrorStub)))
    else
      var m := methImpl.value;
      Slot(ImplOf(m), if m.enclosingType != cls then Some(DeclaredImpl(m, implType)) else None)
  }

  /** An itable slot that resolves to method m holds what a vtable slot of m
      holds, except that a concrete method without implementation that is not
      invokable gets the UnsatisfiedLinkError helper instead of an error. */
  lemma ResolvedITableSlotMatchesVTableSlot(ctx: Context, cls: TypeRef, selector: Method, m: Method)
    requires ctx.resolveVirtual(cls, selector.name, selector.descriptor) == Some(m)
    ensures !m.isAbstract && !m.isNative && !ctx.hasExactFunction(m) && !ctx.isInvokable(m) ==>
              ITableSlot(ctx, cls, selector) ==
                Slot(StubCast(UnsatisfiedLinkErrorStub, ctx.functionTypeFor(Some(m))), Some(DeclaredStub(UnsatisfiedLinkErrorStub)))
    ensures m.isAbstract || m.isNative || ctx.hasExactFunction(m) || ctx.isInvokable(m) ==>
              ITableSlot(ctx, cls, selector) == VTableSlot(ctx, cls, m)
  {
  }

  /** The slot outcomes of a vtable of class `cls`. */
  function VTableOutcomes(ctx: Context, cls: TypeRef, vtable: seq<Method>): (os: seq<SlotOutcome>)
    ensures |os| == |vtable|
    ensures forall i :: 0 <= i < |vtable| ==> os[i] == VTableSlot(ctx, cls, vtable[i])
  {
    seq(|vtable|, i requires 0 <= i < |vtable| => VTableSlot(ctx, cls, vtable[i]))
  }

  /** The slot outcomes of an itable, as implemented by class `cls`. */
  function ITableOutcomes(ctx: Context, cls: TypeRef, itable: seq<Method>): (os: seq<SlotOutcome>)
    ensures |os| == |itable|
    ensures forall i :: 0 <= i < |itable| ==> os[i] == ITableSlot(ctx, cls, itable[i])
  {
    seq(|itable|, i requires 0 <= i < |itable| => ITableSlot(ctx, cls, itable[i]))
  }

  /** The value map of a table: member index to literal, for the slots that
      have a value. */
  function ValuesOf(os: seq<SlotOutcome>): (values: map<nat, SlotValue>)
    ensures forall i: nat :: i in values <==> i < |os| && os[i].Slot?
    ensures forall i: nat :: i in values ==> i < |os| && values[i] == os[i].value
  {
    map i | 0 <= i < |os| && os[i].Slot? :: os[i].value
  }

  /** The declarations the slots need. */
  function DeclarationsOf(os: seq<SlotOutcome>): (ds: set<Declaration>)
    ensures forall i :: 0 <= i < |os| && os[i].Slot? && os[i].declares.Some? ==> os[i].declares.value in ds
  {
    if os == [] then {}
    else
      var last := os[|os| - 1];
      DeclarationsOf(os[..|os| - 1]) + (if last.Slot? && last.declares.Some? then {last.declares.value} else {})
  }

  /** Every declaration comes from a slot that declares it. */
  lemma {:induction false} DeclarationsComeFromSlots(os: seq<SlotOutcome>, d: Declaration)
    requires d in DeclarationsOf(os)
    ensures exists i :: 0 <= i < |os| && os[i].Slot? && os[i].declares == Some(d)
  {
    var init := os[..|os| - 1];
    var last := os[|os| - 1];
    if d in DeclarationsOf(init) {
      DeclarationsComeFromSlots(init, d);
      var i :| 0 <= i < |init| && init[i].Slot? && init[i].declares == Some(d);
      assert os[i] == init[i];
    } else {
      assert last.Slot? && last.declares == Some(d);
    }
  }

  /** The errors reported for the slots, in slot order. */
  function Reports(os: seq<SlotOutcome>): (rs: seq<Diagnostic>)
    ensures |rs| <= |os|
    ensures forall i :: 0 <= i < |os| && os[i].Missing? ==> os[i].report in rs
  {
    if os == [] then []
    else
      var last := os[|os| - 1];
      Reports(os[..|os| - 1]) + (if last.Missing? then [last.report] else [])
  }

  /** A table without missing implementations reports nothing. */
  lemma {:induction false} NoMissingNoReports(os: seq<SlotOutcome>)
    requires forall i :: 0 <= i < |os| ==> os[i].Slot?
    ensures Reports(os) == []
  {
    if os != [] {
      NoMissingNoReports(os[..|os| - 1]);
    }
  }

  /** Every reported error comes from a slot without a value. */
  lemma {:induction false} ReportsComeFromMissingSlots(os: seq<SlotOutcome>, d: Diagnostic)
    requires d in Reports(os)
    ensures exists i :: 0 <= i < |os| && os[i] == Missing(d)
  {
    assert os != [];
    if d in Reports(os[..|os| - 1]) {
      ReportsComeFromMissingSlots(os[..|os| - 1], d);
      var i :| 0 <= i < |os| - 1 && os[..|os| - 1][i] == Missing(d);
      assert os[i] == Missing(d);
    } else {
      assert os[|os| - 1] == Missing(d);
    }
  }

  /** The slot loop of `emitVTable` and `emitITables`: the value map, the
      declarations and the reported errors of a table's slots. */
  method FillValues(os: seq<SlotOutcome>) returns (values: map<nat, SlotValue>, declared: set<Declaration>, errors: seq<Diagnostic>)
    ensures values == ValuesOf(os)
    ensures declared == DeclarationsOf(os)
    ensures errors == Reports(os)
  {
    values := map[];
    declared := {};
    errors := [];
    for i := 0 to |os|
      invariant forall k: nat :: k in values <==> k < i && os[k].Slot?
      invariant forall k: nat :: k in values ==> k < i && values[k] == os[k].value
      invariant declared == DeclarationsOf(os[..i])
      invariant errors == Reports(os[..i])
    {
      assert os[..i + 1][..i] == os[..i];
      match os[i]
      case Slot(v, d) =>
        values := values[i := v];
        if d.Some? {
          declared := declared + {d.value};
        }
      case Missing(report) =>
        errors := errors + [report];  // the slot is left out of the value map
    }
    assert os[..|os|] == os;
  }

  // ----- itable dictionaries -----

  /** The interfaces of a class's full implemented set whose itable exists and
      is not empty, each once, in visiting order. */
  function MyITables(itables: map<TypeRef, ITableInfo>, ifaces: seq<TypeRef>): (r: seq<TypeRef>)
    ensures forall t :: t in r <==> t in ifaces && t in itables && |itables[t].itable| > 0
    ensures forall i, j :: 0 <= i < j < |r| ==> r[i] != r[j]
  {
    if ifaces == [] then []
    else
      var last := ifaces[|ifaces| - 1];
      assert ifaces == ifaces[..|ifaces| - 1] + [last];
      var init := MyITables(itables, ifaces[..|ifaces| - 1]);
      if last in itables && |itables[last].itable| > 0 && last !in init then init + [last] else init
  }

  /** The collection step of `emitITables`. */
  method SelectITables(itables: map<TypeRef, ITableInfo>, ifaces: seq<TypeRef>) returns (my: seq<TypeRef>)
    ensures my == MyITables(itables, ifaces)
  {
    my := [];
    for i := 0 to |ifaces|
      invariant my == MyITables(itables, ifaces[..i])
    {
      assert ifaces[..i + 1][..i] == ifaces[..i];
      var t := ifaces[i];
      if t in itables && |itables[t].itable| > 0 && t !in my {
        my := my + [t];
      }
    }
    assert ifaces[..|ifaces|] == ifaces;
  }

  /** An entry of a class's itable dictionary: an interface's type id with
      that class's itable for it, or the zero-initialised sentinel. */
  datatype DictEntry = Entry(interfaceTypeId: nat, iface: TypeRef) | ZeroSentinel

  /** The interface entries of a dictionary, one per selected interface. */
  function DictEntries(ctx: Context, my: seq<TypeRef>): seq<DictEntry> {
    seq(|my|, k requires 0 <= k < |my| => Entry(ctx.load(my[k]).typeId, my[k]))
  }

  /** One more selected interface adds its entry at the end. */
  lemma DictEntriesStep(ctx: Context, my: seq<TypeRef>, j: nat)
    requires j < |my|
    ensures DictEntries(ctx, my[..j + 1]) == DictEntries(ctx, my[..j]) + [Entry(ctx.load(my[j]).typeId, my[j])]
  {
  }

  /** A class's itable dictionary: one entry per selected interface, in
      order, then the sentinel. */
  function Dictionary(ctx: Context, my: seq<TypeRef>): (d: seq<DictEntry>)
    ensures |d| == |my| + 1
    ensures d[|my|] == ZeroSentinel
    ensures forall k :: 0 <= k < |my| ==> d[k] == Entry(ctx.load(my[k]).typeId, my[k])
  {
    DictEntries(ctx, my) + [ZeroSentinel]
  }

  /** The dispatch-time search of a dictionary: scan for the interface's
      type id, and give up at the sentinel (IncompatibleClassChangeError). */
  function SearchDictionary(d: seq<DictEntry>, typeId: nat): (r: Option<TypeRef>)
    ensures r.Some? ==> Entry(typeId, r.value) in d
  {
    if d == [] || d[0] == ZeroSentinel then None
    else if d[0].interfaceTypeId == typeId then Some(d[0].iface)
    else SearchDictionary(d[1..], typeId)
  }

  /** Distinct interfaces of a dictionary have distinct type ids. */
  ghost predicate TypeIdsDistinct(ctx: Context, my: seq<TypeRef>) {
    forall i, j :: 0 <= i < |my| && 0 <= j < |my| && ctx.load(my[i]).typeId == ctx.load(my[j]).typeId ==> i == j
  }

  /** The search finds the itable of every selected interface, and finds
      nothing for a type id no selected interface has, stopping at the sentinel. */
  lemma {:induction false} SearchFindsSelectedInterfaces(ctx: Context, my: seq<TypeRef>, typeId: nat)
    requires TypeIdsDistinct(ctx, my)
    ensures forall k :: 0 <= k < |my| && ctx.load(my[k]).typeId == typeId ==>
              SearchDictionary(Dictionary(ctx, my), typeId) == Some(my[k])
    ensures (forall k :: 0 <= k < |my| ==> ctx.load(my[k]).typeId != typeId) ==>
              SearchDictionary(Dictionary(ctx, my), typeId) == None
  {
    if my != [] {
      var d := Dictionary(ctx, my);
      assert d[1..] == Dictionary(ctx, my[1..]);
      assert TypeIdsDistinct(ctx, my[1..]) by {
        forall i, j | 0 <= i < |my[1..]| && 0 <= j < |my[1..]| && ctx.load(my[1..][i]).typeId == ctx.load(my[1..][j]).typeId
          ensures i == j
        {
          assert my[1..][i] == my[i + 1] && my[1..][j] == my[j + 1];
        }
      }
      SearchFindsSelectedInterfaces(ctx, my[1..], typeId);
      forall k | 0 <= k < |my| && ctx.load(my[k]).typeId == typeId
        ensures SearchDictionary(d, typeId) == Some(my[k])
      {
        if k > 0 {
          assert ctx.load(my[0]).typeId != typeId;
          assert my[1..][k - 1] == my[k];
        }
      }
      if forall k :: 0 <= k < |my| ==> ctx.load(my[k]).typeId != typeId {
        assert forall k :: 0 <= k < |my[1..]| ==> ctx.load(my[1..][k]).typeId != typeId by {
          forall k | 0 <= k < |my[1..]|
            ensures ctx.load(my[1..][k]).typeId != typeId
          {
            assert my[1..][k] == my[k + 1];
          }
        }
      }
    }
  }

  /** The itable data emitted for class `cls`: for each selected interface,
      the value map of its slots. */
  function ITableFuncs(ctx: Context, cls: TypeRef, itables: map<TypeRef, ITableInfo>, my: seq<TypeRef>): (f: map<TypeRef, map<nat, SlotValue>>)
    requires forall t :: t in my ==> t in itables
    ensures f.Keys == set t | t in my
  {
    if my == [] then map[]
    else
      var last := my[|my| - 1];
      assert my == my[..|my| - 1] + [last];
      ITableFuncs(ctx, cls, itables, my[..|my| - 1])[last := ValuesOf(ITableOutcomes(ctx, cls, itables[last].itable))]
  }

  /** The declarations needed by all of a class's itables. */
  function ITableDeclarations(ctx: Context, cls: TypeRef, itables: map<TypeRef, ITableInfo>, my: seq<TypeRef>): set<Declaration>
    requires forall t :: t in my ==> t in itables
  {
    if my == [] then {}
    else
      var last := my[|my| - 1];
      ITableDeclarations(ctx, cls, itables, my[..|my| - 1]) + DeclarationsOf(ITableOutcomes(ctx, cls, itables[last].itable))
  }

  /** The errors reported for all of a class's itables, in order. */
  function ITableReports(ctx: Context, cls: TypeRef, itables: map<TypeRef, ITableInfo>, my: seq<TypeRef>): seq<Diagnostic>
    requires forall t :: t in my ==> t in itables
  {
    if my == [] then []
    else
      var last := my[|my| - 1];
      ITableReports(ctx, cls, itables, my[..|my| - 1]) + Reports(ITableOutcomes(ctx, cls, itables[last].itable))
  }

  /** One more selected interface extends the itable data, declarations and
      errors by that interface's slots. */
  lemma ITableStep(ctx: Context, cls: TypeRef, itables: map<TypeRef, ITableInfo>, my: seq<TypeRef>, j: nat)
    requires forall t :: t in my ==> t in itables
    requires j < |my|
    ensures var os := ITableOutcomes(ctx, cls, itables[my[j]].itable);
            && ITableFuncs(ctx, cls, itables, my[..j + 1]) == ITableFuncs(ctx, cls, itables, my[..j])[my[j] := ValuesOf(os)]
            && ITableDeclarations(ctx, cls, itables, my[..j + 1]) == ITableDeclarations(ctx, cls, itables, my[..j]) + DeclarationsOf(os)
            && ITableReports(ctx, cls, itables, my[..j + 1]) == ITableReports(ctx, cls, itables, my[..j]) + Reports(os)
  {
    assert my[..j + 1][..j] == my[..j];
  }

  /** Every selected interface's itable data holds exactly the slot values
      its implementation by the class resolves to. */
  lemma {:induction false} ITableFuncsOfSelected(ctx: Context, cls: TypeRef, itables: map<TypeRef, ITableInfo>, my: seq<TypeRef>, t: TypeRef)
    requires forall u :: u in my ==> u in itables
    requires t in my
    ensures ITableFuncs(ctx, cls, itables, my)[t] == ValuesOf(ITableOutcomes(ctx, cls, itables[t].itable))
  {
    var last := my[|my| - 1];
    if t != last {
      assert my == my[..|my| - 1] + [last];
      ITableFuncsOfSelected(ctx, cls, itables, my[..|my| - 1], t);
    }
  }

  // ----- global tables of tables -----

  /** A slot of a global table: zero, or the symbol of a class's table. */
  datatype GlobalSlot = Zero | SymbolOf(t: TypeRef)

  /** Why filling a global table fails: the assertion that a slot is still
      zero, or an index outside the array. */
  datatype TableError = DoubleAssignment(typeId: nat) | TypeIdOutOfRange(typeId: nat)

  /** Every writer's type id is a slot of the table, and no two writers share one. */
  predicate WritersFit(writers: set<TypeRef>, typeIdOf: TypeRef -> nat, length: nat) {
    && (forall t :: t in writers ==> typeIdOf(t) < length)
    && (forall a, b :: a in writers && b in writers && typeIdOf(a) == typeIdOf(b) ==> a == b)
  }

  /** The loops of `emitVTableTable` and `emitITableTable`: a zero-filled
      table of `length` slots in which each writer, in any order, writes its
      symbol at its type id after asserting the slot is still zero. It
      succeeds exactly when the writers fit; then each slot holds the symbol
      of the writer with that type id, and zero where there is none. */
  method AssignByTypeId(writers: set<TypeRef>, typeIdOf: TypeRef -> nat, length: nat) returns (r: Result<seq<GlobalSlot>, TableError>)
    ensures r.Success? <==> WritersFit(writers, typeIdOf, length)
    ensures r.Success? ==> |r.value| == length
    ensures r.Success? ==> forall k :: 0 <= k < length ==>
              (r.value[k] == Zero <==> forall t :: t in writers ==> typeIdOf(t) != k)
    ensures r.Success? ==> forall k :: 0 <= k < length && r.value[k] != Zero ==>
              r.value[k].t in writers && typeIdOf(r.value[k].t) == k
  {
    var slots := new GlobalSlot[length](_ => Zero);
    var remaining := writers;
    ghost var done: set<TypeRef> := {};
    while remaining != {}
      invariant remaining !! done && remaining + done == writers
      invariant WritersFit(done, typeIdOf, length)
      invariant forall k :: 0 <= k < length ==>
                  (slots[k] == Zero <==> forall t :: t in done ==> typeIdOf(t) != k)
      invariant forall k :: 0 <= k < length && slots[k] != Zero ==>
                  slots[k].t in done && typeIdOf(slots[k].t) == k
      decreases remaining
    {
      var t :| t in remaining;
      var typeId := typeIdOf(t);
      if typeId >= length {
        return Failure(TypeIdOutOfRange(typeId));
      }
      if slots[typeId] != Zero {
        assert slots[typeId].t in writers && slots[typeId].t != t;
        return Failure(DoubleAssignment(typeId));
      }
      slots[typeId] := SymbolOf(t);
      remaining := remaining - {t};
      done := done + {t};
    }
    r := Success(slots[..]);
  }

  /** A global table has exactly one non-zero slot per writer. */
  lemma GlobalTableSlotOfWriter(writers: set<TypeRef>, typeIdOf: TypeRef -> nat, length: nat, table: seq<GlobalSlot>, t: TypeRef)
    requires WritersFit(writers, typeIdOf, length) && |table| == length
    requires forall k :: 0 <= k < length ==> (table[k] == Zero <==> forall u :: u in writers ==> typeIdOf(u) != k)
    requires forall k :: 0 <= k < length && table[k] != Zero ==> table[k].t in writers && typeIdOf(table[k].t) == k
    requires t in writers
    ensures table[typeIdOf(t)] == SymbolOf(t)
  {
  }

  // ----- slot lookup -----

  /** The first slot whose method has the given name and descriptor. */
  function FirstMatch(table: seq<Method>, name: string, descriptor: string): (r: Option<nat>)
    ensures r.Some? ==> r.value < |table| && table[r.value].name == name && table[r.value].descriptor == descriptor
    ensures r.Some? ==> forall j :: 0 <= j < r.value ==> !(table[j].name == name && table[j].descriptor == descriptor)
    ensures r.None? ==> forall j :: 0 <= j < |table| ==> !(table[j].name == name && table[j].descriptor == descriptor)
  {
    if table == [] then None
    else if table[0].name == name && table[0].descriptor == descriptor then Some(0)
    else
      var rest := FirstMatch(table[1..], name, descriptor);
      if rest.Some? then Some(rest.value + 1) else None
  }

  /** The search loop of `getVTableIndex` and `getITableIndex`. */
  method IndexOf(table: seq<Method>, target: Method) returns (r: Option<nat>)
    ensures r == FirstMatch(table, target.name, target.descriptor)
  {
    for i := 0 to |table|
      invariant forall j :: 0 <= j < i ==> !(table[j].name == target.name && table[j].descriptor == target.descriptor)
    {
      if target.name == table[i].name && target.descriptor == table[i].descriptor {
        FirstMatchUnique(table, target.name, target.descriptor, i);
        return Some(i);
      }
    }
    FirstMatchUnique(table, target.name, target.descriptor, |table|);
    return None;
  }

  /** `FirstMatch` is determined by its contract: the index i with a match
      at i and none before, or None when there is no match (i == |table|). */
  lemma FirstMatchUnique(table: seq<Method>, name: string, descriptor: string, i: nat)
    requires i <= |table|
    requires forall j :: 0 <= j < i ==> !(table[j].name == name && table[j].descriptor == descriptor)
    requires i < |table| ==> table[i].name == name && table[i].descriptor == descriptor
    ensures FirstMatch(table, name, descriptor) == if i < |table| then Some(i) else None
  {
  }

  /** Name and descriptor identify at most one slot of the table. */
  predicate SignaturesDistinct(table: seq<Method>) {
    forall i, j ::
      (0 <= i < |table| && 0 <= j < |table| && table[i].name == table[j].name && table[i].descriptor == table[j].descriptor)
      ==> i == j
  }

  /** With distinct signatures, looking up slot i's method finds slot i. */
  lemma LookupOfSlotIsItsIndex(table: seq<Method>, i: nat)
    requires SignaturesDistinct(table) && i < |table|
    ensures FirstMatch(table, table[i].name, table[i].descriptor) == Some(i)
  {
    FirstMatchUnique(table, table[i].name, table[i].descriptor, i);
  }

  // ----- the dispatch-tables state -----

  /** The structure type of an itable dictionary entry: a pointer-sized
      `itable` member at 0 and the `typeId` member after it. */
  datatype DictEntryType = DictEntryType(itableOffset: nat, typeIdOffset: nat, size: nat)

  /** The loop of `emitITables` over the selected interfaces: each one's
      itable data, the declarations and errors of its slots, and its
      dictionary entry, followed by the sentinel. */
  method ClassITables(ctx: Context, cls: TypeRef, itables: map<TypeRef, ITableInfo>, my: seq<TypeRef>)
    returns (funcs: map<TypeRef, map<nat, SlotValue>>, decls: set<Declaration>, errors: seq<Diagnostic>, entries: seq<DictEntry>)
    requires forall t :: t in my ==> t in itables
    ensures funcs == ITableFuncs(ctx, cls, itables, my)
    ensures decls == ITableDeclarations(ctx, cls, itables, my)
    ensures errors == ITableReports(ctx, cls, itables, my)
    ensures entries == Dictionary(ctx, my)
  {
    funcs := map[];
    decls := {};
    errors := [];
    entries := [];
    for j := 0 to |my|
      invariant funcs == ITableFuncs(ctx, cls, itables, my[..j])
      invariant decls == ITableDeclarations(ctx, cls, itables, my[..j])
      invariant errors == ITableReports(ctx, cls, itables, my[..j])
      invariant entries == DictEntries(ctx, my[..j])
    {
      ITableStep(ctx, cls, itables, my, j);
      DictEntriesStep(ctx, my, j);
      var os := ITableOutcomes(ctx, cls, itables[my[j]].itable);
      var values, ds, es := FillValues(os);
      funcs := funcs[my[j] := values];
      decls := decls + ds;
      errors := errors + es;
      entries := entries + [Entry(ctx.load(my[j]).typeId, my[j])];
    }
    assert my[..|my|] == my;
    entries := entries + [ZeroSentinel];
  }

  /** Declarations placed in class `cls`'s section. */
  function InSection(cls: TypeRef, ds: set<Declaration>): set<(TypeRef, Declaration)> {
    set d | d in ds :: (cls, d)
  }

  /** A dictionary with at least one interface entry, closed by the sentinel. */
  predicate EndsInSentinel(d: seq<DictEntry>) {
    |d| >= 2 && d[|d| - 1] == ZeroSentinel
  }

  class DispatchTables {
    /** Built tables, keyed by class or interface. */
    var vtables: map<TypeRef, VTableInfo>
    var itables: map<TypeRef, ITableInfo>
    /** The classes whose itable dictionary was emitted. */
    var classesWithITables: set<TypeRef>
    /** The element counts of the two global arrays, once built. */
    var vtablesGlobalLength: Option<nat>
    var itablesGlobalLength: Option<nat>
    var itableDictType: Option<DictEntryType>
    /** Emitted data: each class's vtable value map, each class's itables
      per interface, each class's dictionary, and the two global arrays. */
    var emittedVTables: map<TypeRef, map<nat, SlotValue>>
    var emittedITables: map<TypeRef, map<TypeRef, map<nat, SlotValue>>>
    var dictionaries: map<TypeRef, seq<DictEntry>>
    var vtablesGlobalValue: Option<seq<GlobalSlot>>
    var itablesGlobalValue: Option<seq<GlobalSlot>>
    /** Effects on the compilation context: functions declared in each
      class's section, reported errors in order, registered entry points in order. */
    var declared: set<(TypeRef, Declaration)>
    var reported: seq<Diagnostic>
    var entryPoints: seq<Method>

    /** Every class with itables has a dictionary that ends in the sentinel
      after at least one interface entry. */
    predicate Valid()
      reads this
    {
      forall c :: c in classesWithITables ==> c in dictionaries && EndsInSentinel(dictionaries[c])
    }

    constructor ()
      ensures Valid()
      ensures vtables == map[] && itables == map[] && classesWithITables == {}
      ensures vtablesGlobalLength == None && itablesGlobalLength == None && itableDictType == None
      ensures emittedVTables == map[] && emittedITables == map[] && dictionaries == map[]
      ensures vtablesGlobalValue == None && itablesGlobalValue == None
      ensures declared == {} && reported == [] && entryPoints == []
    {
      vtables := map[];
      itables := map[];
      classesWithITables := {};
      vtablesGlobalLength := None;
      itablesGlobalLength := None;
      itableDictType := None;
      emittedVTables := map[];
      emittedITables := map[];
      dictionaries := map[];
      vtablesGlobalValue := None;
      itablesGlobalValue := None;
      declared := {};
      reported := [];
      entryPoints := [];
    }

    /** `getVTableInfo` / `getITableInfo`: the built table, if any. */
    function GetVTableInfo(cls: TypeRef): (r: Option<VTableInfo>)
      reads this
      ensures r.Some? <==> cls in vtables
      ensures r.Some? ==> r.value == vtables[cls]
    {
      if cls in vtables then Some(vtables[cls]) else None
    }

    function GetITableInfo(cls: TypeRef): (r: Option<ITableInfo>)
      reads this
      ensures r.Some? <==> cls in itables
      ensures r.Some? ==> r.value == itables[cls]
    {
      if cls in itables then Some(itables[cls]) else None
    }

    /** `buildFilteredVTable`: the class's reachable instance methods in
      declaration order, each registered as an entry point, laid out one
      pointer per slot. */
    method BuildFilteredVTable(ctx: Context, cls: TypeRef)
      modifies this`vtables, this`entryPoints
      ensures var vt := Reachable(ctx, ctx.load(cls).instanceMethods);
              && cls in vtables && vtables == old(vtables)[cls := vtables[cls]]
              && vtables[cls].vtable == vt
              && |vtables[cls].tableType.members| == |vt|
              && (forall i :: 0 <= i < |vt| ==> vtables[cls].tableType.members[i].offset == i * ctx.pointerSize)
              && vtables[cls].tableType.size == |vt| * ctx.pointerSize
              && entryPoints == old(entryPoints) + vt
    {
      var vt := FilterInstanceMethods(ctx, ctx.load(cls).instanceMethods);
      entryPoints := entryPoints + vt;
      var tableType := TableLayout(ctx, vt);
      vtables := vtables[cls := VTableInfo(vt, tableType)];
    }

    /** `buildFilteredITableForInterface`: the same filtering and layout,
      without entry-point registration, recorded with its interface. */
    method BuildFilteredITableForInterface(ctx: Context, cls: TypeRef)
      modifies this`itables
      ensures var it := Reachable(ctx, ctx.load(cls).instanceMethods);
              && cls in itables && itables == old(itables)[cls := itables[cls]]
              && itables[cls].itable == it && itables[cls].iface == cls
              && |itables[cls].tableType.members| == |it|
              && (forall i :: 0 <= i < |it| ==> itables[cls].tableType.members[i].offset == i * ctx.pointerSize)
              && itables[cls].tableType.size == |it| * ctx.pointerSize
    {
      var it := FilterInstanceMethods(ctx, ctx.load(cls).instanceMethods);
      var tableType := TableLayout(ctx, it);
      itables := itables[cls := ITableInfo(it, tableType, cls)];
    }

    /** `buildVTablesGlobal`: an array of `vtables.size() + 19` pointers
      (the 19 covering primitive types, void, primitive arrays and the
      reference array). */
    method BuildVTablesGlobal()
      modifies this`vtablesGlobalLength
      ensures vtablesGlobalLength == Some(|vtables| + 19)
    {
      vtablesGlobalLength := Some(|vtables| + 19);
    }

    /** `buildITablesGlobal`: the dictionary entry type (the itable pointer at
      0, the type id right after it) and an array of dictionary pointers
      whose length, like the vtables array's, is `vtables.size() + 19`. */
    method BuildITablesGlobal(ctx: Context)
      modifies this`itablesGlobalLength, this`itableDictType
      ensures itableDictType == Some(DictEntryType(0, ctx.pointerSize, ctx.pointerSize + ctx.typeIdSize))
      ensures itablesGlobalLength == Some(|vtables| + 19)
    {
      itableDictType := Some(DictEntryType(0, ctx.pointerSize, ctx.pointerSize + ctx.typeIdSize));
      itablesGlobalLength := Some(|vtables| + 19);
    }

    /** `emitVTable`: nothing for an abstract class; otherwise the value map
      of the class's vtable slots, the declarations they need in the
      class's section, and one error per slot without implementation. */
    method EmitVTable(ctx: Context, cls: TypeRef)
      requires Valid()
      requires !ctx.load(cls).isAbstract ==> cls in vtables
      modifies this`emittedVTables, this`declared, this`reported
      ensures Valid()
      ensures ctx.load(cls).isAbstract ==>
                emittedVTables == old(emittedVTables) && declared == old(declared) && reported == old(reported)
      ensures !ctx.load(cls).isAbstract ==>
                var os := VTableOutcomes(ctx, cls, vtables[cls].vtable);
                && emittedVTables == old(emittedVTables)[cls := ValuesOf(os)]
                && declared == old(declared) + InSection(cls, DeclarationsOf(os))
                && reported == old(reported) + Reports(os)
    {
      if ctx.load(cls).isAbstract {
        return;
      }
      var os := VTableOutcomes(ctx, cls, vtables[cls].vtable);
      var values, decls, errors := FillValues(os);
      emittedVTables := emittedVTables[cls := values];
      declared := declared + InSection(cls, decls);
      reported := reported + errors;
    }

    /** `emitITables`: nothing for an abstract class, or for a class none of
      whose interfaces has a non-empty itable. Otherwise the class is
      recorded among the classes with itables, each selected interface's
      itable is emitted with its slots as the class resolves them, and the
      class's dictionary lists the selected interfaces, then the sentinel. */
    method EmitITables(ctx: Context, cls: TypeRef)
      requires Valid()
      modifies this`classesWithITables, this`emittedITables, this`dictionaries, this`declared, this`reported
      ensures Valid()
      ensures var my := MyITables(old(itables), ctx.load(cls).interfaceFullImplementedSet);
              if ctx.load(cls).isAbstract || my == [] then
                && classesWithITables == old(classesWithITables) && emittedITables == old(emittedITables)
                && dictionaries == old(dictionaries) && declared == old(declared) && reported == old(reported)
              else
                && classesWithITables == old(classesWithITables) + {cls}
                && emittedITables == old(emittedITables)[cls := ITableFuncs(ctx, cls, old(itables), my)]
                && dictionaries == old(dictionaries)[cls := Dictionary(ctx, my)]
                && declared == old(declared) + InSection(cls, ITableDeclarations(ctx, cls, old(itables), my))
                && reported == old(reported) + ITableReports(ctx, cls, old(itables), my)
    {
      if ctx.load(cls).isAbstract {
        return;
      }
      var my := SelectITables(itables, ctx.load(cls).interfaceFullImplementedSet);
      if my == [] {
        return;
      }
      var funcs, decls, errors, entries := ClassITables(ctx, cls, itables, my);
      RecordClassITables(cls, funcs, decls, errors, entries);
    }

    /** The state changes of `emitITables` for a class with itables. */
    method RecordClassITables(cls: TypeRef, funcs: map<TypeRef, map<nat, SlotValue>>, decls: set<Declaration>,
                              errors: seq<Diagnostic>, entries: seq<DictEntry>)
      requires Valid() && EndsInSentinel(entries)
      modifies this`classesWithITables, this`emittedITables, this`dictionaries, this`declared, this`reported
      ensures Valid()
      ensures classesWithITables == old(classesWithITables) + {cls}
      ensures emittedITables == old(emittedITables)[cls := funcs]
      ensures dictionaries == old(dictionaries)[cls := entries]
      ensures declared == old(declared) + InSection(cls, decls)
      ensures reported == old(reported) + errors
    {
      classesWithITables := classesWithITables + {cls};
      emittedITables := emittedITables[cls := funcs];
      dictionaries := dictionaries[cls := entries];
      declared := declared + InSection(cls, decls);
      reported := reported + errors;
    }

    /** `emitVTableTable`: the global vtables array, zero-filled, with each
      non-abstract class's vtable at its type id. Fails when two such
      classes share a type id or a type id is past the end; the array is
      recorded only on success. */
    method EmitVTableTable(ctx: Context) returns (r: Result<(), TableError>)
      requires vtablesGlobalLength.Some?
      modifies this`vtablesGlobalValue
      ensures var writers := set t | t in vtables && !ctx.load(t).isAbstract;
              r.Success? <==> WritersFit(writers, t => ctx.load(t).typeId, vtablesGlobalLength.value)
      ensures r.Failure? ==> vtablesGlobalValue == old(vtablesGlobalValue)
      ensures r.Success? ==> vtablesGlobalValue.Some? && |vtablesGlobalValue.value| == vtablesGlobalLength.value
      ensures r.Success? ==> forall t :: t in vtables && !ctx.load(t).isAbstract ==>
                ctx.load(t).typeId < vtablesGlobalLength.value && vtablesGlobalValue.value[ctx.load(t).typeId] == SymbolOf(t)
      ensures r.Success? ==> forall k :: 0 <= k < vtablesGlobalLength.value ==>
                (vtablesGlobalValue.value[k] == Zero <==>
                   forall t :: t in vtables && !ctx.load(t).isAbstract ==> ctx.load(t).typeId != k)
    {
      var writers := set t | t in vtables && !ctx.load(t).isAbstract;
      var typeIdOf := (t: TypeRef) => ctx.load(t).typeId;
      var table := AssignByTypeId(writers, typeIdOf, vtablesGlobalLength.value);
      if table.Failure? {
        return Failure(table.error);
      }
      forall t | t in vtables && !ctx.load(t).isAbstract
        ensures ctx.load(t).typeId < |table.value| && table.value[ctx.load(t).typeId] == SymbolOf(t)
      {
        GlobalTableSlotOfWriter(writers, typeIdOf, vtablesGlobalLength.value, table.value, t);
      }
      vtablesGlobalValue := Some(table.value);
      r := Success(());
    }

    /** `emitITableTable`: the global dictionaries array, zero-filled, with
      each class that has itables at its type id, under the same failure
      rules. */
    method EmitITableTable(ctx: Context) returns (r: Result<(), TableError>)
      requires itablesGlobalLength.Some?
      modifies this`itablesGlobalValue
      ensures r.Success? <==> WritersFit(classesWithITables, t => ctx.load(t).typeId, itablesGlobalLength.value)
      ensures r.Failure? ==> itablesGlobalValue == old(itablesGlobalValue)
      ensures r.Success? ==> itablesGlobalValue.Some? && |itablesGlobalValue.value| == itablesGlobalLength.value
      ensures r.Success? ==> forall t :: t in classesWithITables ==>
                ctx.load(t).typeId < itablesGlobalLength.value && itablesGlobalValue.value[ctx.load(t).typeId] == SymbolOf(t)
      ensures r.Success? ==> forall k :: 0 <= k < itablesGlobalLength.value ==>
                (itablesGlobalValue.value[k] == Zero <==>
                   forall t :: t in classesWithITables ==> ctx.load(t).typeId != k)
    {
      var typeIdOf := (t: TypeRef) => ctx.load(t).typeId;
      var table := AssignByTypeId(classesWithITables, typeIdOf, itablesGlobalLength.value);
      if table.Failure? {
        return Failure(table.error);
      }
      forall t | t in classesWithITables
        ensures ctx.load(t).typeId < |table.value| && table.value[ctx.load(t).typeId] == SymbolOf(t)
      {
        GlobalTableSlotOfWriter(classesWithITables, typeIdOf, itablesGlobalLength.value, table.value, t);
      }
      itablesGlobalValue := Some(table.value);
      r := Success(());
    }

    /** `getVTableIndex`: the first slot of the defining class's vtable whose
      name and descriptor match the target; when there is none (or no
      vtable) an error is reported and 0 returned. */
    method GetVTableIndex(target: Method) returns (i: nat)
      modifies this`reported
      ensures var found := if target.enclosingType in vtables
                           then FirstMatch(vtables[target.enclosingType].vtable, target.name, target.descriptor)
                           else None;
              && (found.Some? ==> i == found.value && reported == old(reported))
              && (found.None? ==> i == 0 && reported == old(reported) + [NoVTableEntry(target)])
    {
      var info := GetVTableInfo(target.enclosingType);
      if info.Some? {
        var found := IndexOf(info.value.vtable, target);
        if found.Some? {
          return found.value;
        }
      }
      reported := reported + [NoVTableEntry(target)];
      return 0;
    }

    /** `getITableIndex`: the same search in the defining interface's itable. */
    method GetITableIndex(target: Method) returns (i: nat)
      modifies this`reported
      ensures var found := if target.enclosingType in itables
                           then FirstMatch(itables[target.enclosingType].itable, target.name, target.descriptor)
                           else None;
              && (found.Some? ==> i == found.value && reported == old(reported))
              && (found.None? ==> i == 0 && reported == old(reported) + [NoITableEntry(target)])
    {
      var info := GetITableInfo(target.enclosingType);
      if info.Some? {
        var found := IndexOf(info.value.itable, target);
        if found.Some? {
          return found.value;
        }
      }
      reported := reported + [NoITableEntry(target)];
      return 0;
    }
  }
}
