# qbicc core, modelled in Dafny

qbicc is an ahead-of-time Java-to-native compiler. This project models the parts of it that lower, dispatch and address, together with the state each part keeps. The properties the code promises are proved about the model. There are ten modules, one per file:

| module | file | models |
|---|---|---|
| `Wrappers` | `wrappers.dfy` | `Option` and `Result` |
| `JavaInt` | `java_int.dfy` | Java `int`/`long` arithmetic: 32-bit wrap-around, the `(int)` cast, `Math.toIntExact`, truncating `/` and `%`, `Long.hashCode` |
| `Pointers` | `pointer.dfy` | `Pointer.offsetInBytes`, `offsetByElements`, pointer equality and hash, `InstanceMethodPointer` and `PointerLiteral` |
| `VMHelpers` | `vm_helpers.dfy` | the runtime's `instanceof`, `checkcast`, array-store and `raise*` helpers over an uninterpreted object model |
| `BooleanMemory` | `boolean_array_memory.dfy` | `BooleanArrayMemory`, a class over `array<bool>` |
| `Nodes` | `nodes.dfy` | `AbstractNode`'s lazily cached hash and `BlockEntry` identity |
| `LLVMBlocks` | `basic_block.dfy` | `BasicBlockImpl`, the LLVM basic-block builder and its emission |
| `Dispatch` | `dispatch_tables.dfy` | `DispatchTables`: vtables, itables, itable dictionaries, the global tables of tables, and slot lookup |
| `BuildtimeHeapModel` | `buildtime_heap.dfy` | `BuildtimeHeap`: serialisation of build-time objects into the initial heap, with interning and naming |
| `LLVMSelection`, `LLVMVisitor` | `llvm_selection.dfy`, `llvm_node_visitor.dfy` | `LLVMNodeVisitor`'s instruction selection and type lowering, which are pure, and its memoised lowering of a method graph, which is a class |

State-changing components are classes. Their fields are `map`, `seq` or `array`, and their methods state the whole new state. Examples are the dispatch tables, the build-time heap, the basic block, the node visitor and the boolean memory. Pure components are datatypes and functions. The compilation context, reflection, the layout and the object model are inputs: datatypes of functions, such as `Dispatch.Context`, `BuildtimeHeapModel.World`, `VMHelpers.ObjectModel` and `Pointers.RootModel`.

## Model

| member | source | states |
|---|---|---|
| Nodes.EffectiveHash | compiler/src/main/java/org/qbicc/graph/AbstractNode.java:56-66 | The reported hash is never 0. A non-zero structural hash is reported as is, and 0 becomes `1 << 31`. |
| Nodes.EffectiveHashCollisions | compiler/src/main/java/org/qbicc/graph/AbstractNode.java:58-62 | The replacement of 0 adds exactly one collision: two structural hashes report the same hash code iff they are equal or are 0 and `Integer.MIN_VALUE`. |
| Nodes.AbstractNode.constructor | compiler/src/main/java/org/qbicc/graph/AbstractNode.java:12-33 | The getters return exactly the call site, element, line and bci that were passed in, and no hash is cached yet. |
| Nodes.AbstractNode.HashCode | compiler/src/main/java/org/qbicc/graph/AbstractNode.java:56-66 | Returns the effective hash, which is non-zero, and leaves it cached. Once cached, later calls return the cached value and leave the cache unchanged. |
| Nodes.BlockEntry.constructor | compiler/src/main/java/org/qbicc/graph/BlockEntry.java:11-14 | A block entry has line 0 and bytecode index -1, and is pinned to the label it was given. |
| Nodes.BlockEntry.PinnedBlockLabel | compiler/src/main/java/org/qbicc/graph/BlockEntry.java:16-18 | `getPinnedBlockLabel` is the constructor's label. |
| Nodes.BlockEntry.Equals | compiler/src/main/java/org/qbicc/graph/BlockEntry.java:33-39 | True exactly for a block entry with an equal label. |
| Nodes.BlockEntry.HashCode | compiler/src/main/java/org/qbicc/graph/BlockEntry.java:24-26 | The hash is the effective hash of the label's hash, and it is cached in the node. |
| Nodes.EqualityIsEquivalence | compiler/src/main/java/org/qbicc/graph/BlockEntry.java:33-39 | Block-entry equality is reflexive, symmetric and transitive. |
| Nodes.NeverEqualsOtherNode | compiler/src/main/java/org/qbicc/graph/BlockEntry.java:33-35 | A block entry never equals a node of another kind. |
| Nodes.EqualEntriesEqualHashes | compiler/src/main/java/org/qbicc/graph/BlockEntry.java:24-26 | Equal block entries report equal hashes. |
| Pointers.OffsetByElements | compiler/src/main/java/org/qbicc/pointer/Pointer.java:95-100 | The result has the same pointee type and is derived from the pointer. It is the pointer itself exactly when the count is 0. |
| Pointers.FirstMemberAtOrBefore | compiler/src/main/java/org/qbicc/pointer/Pointer.java:68-74 | Finds the first member in list order whose offset is at or before the target, or reports that none is. |
| Pointers.LastMemberAtOrBefore | compiler/src/main/java/org/qbicc/pointer/Pointer.java:66-76 | The intended member choice: the last member whose offset is at or before the target. |
| Pointers.FirstField | compiler/src/main/java/org/qbicc/pointer/Pointer.java:80-89 | Finds the first non-static field that the selection rule accepts for the offset, or reports that none does. |
| Pointers.Resolve | compiler/src/main/java/org/qbicc/pointer/Pointer.java:42-93 | `offsetInBytes` under either member and field rule. On success the result is derived from the pointer through element, member, field or offset sub-pointers. |
| Pointers.OffsetInBytes | compiler/src/main/java/org/qbicc/pointer/Pointer.java:42-93 | `offsetInBytes` with the source's own member and field tests. Any result is derived from the pointer. |
| Pointers.ZeroOffsetIsIdentity | compiler/src/main/java/org/qbicc/pointer/Pointer.java:43-45 | A zero byte offset and a zero element count both return the pointer itself. |
| Pointers.ArrayExactMultiple | compiler/src/main/java/org/qbicc/pointer/Pointer.java:47-54 | Into an array, an exact multiple of the element size is the element pointer at `offset / elementSize`. |
| Pointers.ArrayGoesThroughElement | compiler/src/main/java/org/qbicc/pointer/Pointer.java:47-54 | Into an array, every successful resolution goes through the element at the truncated quotient, and the element size is positive. |
| Pointers.OutOfBoundsWithoutArray | compiler/src/main/java/org/qbicc/pointer/Pointer.java:56-60 | Outside a non-array pointee, without the array flag, the offset is rejected as out of bounds. |
| Pointers.SiblingElement | compiler/src/main/java/org/qbicc/pointer/Pointer.java:56-64 | With the array flag, an exact multiple of the pointee size outside the pointee is `offsetByElements` by that many elements. |
| Pointers.AsWrittenFirstMember | compiler/src/main/java/org/qbicc/pointer/Pointer.java:66-76 | As written, when member 0 is at offset 0, every in-bounds structure offset resolves inside member 0. |
| Pointers.NoMemberBeforeOffset | compiler/src/main/java/org/qbicc/pointer/Pointer.java:66-76 | When every member starts after the offset, resolution fails with "no structure member". |
| Pointers.IntendedMemberStart | compiler/src/main/java/org/qbicc/pointer/Pointer.java:66-76 | Under the intended rule, with increasing member offsets, a member's own offset resolves to exactly that member. |
| Pointers.FieldAtOrPastItsSizeNeverSelected | compiler/src/main/java/org/qbicc/pointer/Pointer.java:85 | As written, a field whose offset is not below its type's size is never selected, whatever the offset. |
| Pointers.AsWrittenInsideFieldOutOfBounds | compiler/src/main/java/org/qbicc/pointer/Pointer.java:85-86 | As written, once a field is selected strictly past its start, the negative recursive offset is rejected as out of bounds. |
| Pointers.AsWrittenMissesFieldStart | compiler/src/main/java/org/qbicc/pointer/Pointer.java:85-86 | A concrete object whose field at offset 8 is not found at offset 8. |
| Pointers.AsWrittenMissesSecondMember | compiler/src/main/java/org/qbicc/pointer/Pointer.java:69-73 | A concrete two-member structure whose second member is not found at its own offset. |
| Pointers.IntendedFieldStart | compiler/src/main/java/org/qbicc/pointer/Pointer.java:78-91 | Under the intended rule, the start of a non-static field that no earlier field covers resolves to exactly that field. |
| Pointers.IntendedFindsFieldStart | compiler/src/main/java/org/qbicc/pointer/Pointer.java:85-86 | Under the intended rule, the counterexample object's offset 8 is its field. |
| Pointers.PointerEquals | compiler/src/main/java/org/qbicc/pointer/Pointer.java:122-137 | A pointer equals itself. Two distinct equal pointers have equal root byte offsets. |
| Pointers.SameRootSameOffsetEqual | compiler/src/main/java/org/qbicc/pointer/Pointer.java:135-137 | Pointers with equal roots and equal root byte offsets are equal, however they were built. |
| Pointers.PointerHashAgrees | compiler/src/main/java/org/qbicc/pointer/Pointer.java:111-137 | Equal pointers have equal hashes (`root.hashCode() * 19 + Long.hashCode(offset)` in int arithmetic). |
| Pointers.NewInstanceMethodPointer | compiler/src/main/java/org/qbicc/pointer/InstanceMethodPointer.java:11-16 | Fails exactly for a static method. Otherwise the pointer holds the method and points to the method's type. |
| Pointers.Of | compiler/src/main/java/org/qbicc/pointer/InstanceMethodPointer.java:19-21 | Returns the cached pointer for the method, or creates and caches one. The cache stays valid and keeps every earlier entry, and a static method caches nothing. |
| Pointers.OfIdempotent | compiler/src/main/java/org/qbicc/pointer/InstanceMethodPointer.java:19-21 | Asking twice for the same method yields the same pointer and leaves the cache as the first call left it. |
| Pointers.OfDistinctMethods | compiler/src/main/java/org/qbicc/pointer/InstanceMethodPointer.java:19-21 | The pointers that `of` gives for distinct methods are distinct and not equal. |
| Pointers.InstanceMethodEquals | compiler/src/main/java/org/qbicc/pointer/InstanceMethodPointer.java:37-39 | Equal exactly when the pointers are the same, or when they are equal as root pointers and hold the identical method. |
| Pointers.RootEquals | compiler/src/main/java/org/qbicc/pointer/InstanceMethodPointer.java:33-39 | An instance-method pointer equals a root exactly when that root is an instance-method pointer equal to it. |
| Pointers.InstanceMethodNotOtherRoot | compiler/src/main/java/org/qbicc/pointer/InstanceMethodPointer.java:33-35 | An instance-method pointer never equals another kind of root. |
| Pointers.RootHashAgrees | compiler/src/main/java/org/qbicc/pointer/InstanceMethodPointer.java:27-30 | Equal roots have equal hashes (`super.hashCode() * 19 + method.hashCode()`). |
| Pointers.LiteralValueType | compiler/src/main/java/org/qbicc/graph/literal/PointerLiteral.java:24-30 | `getValueType()`, the pointee of `getType()`, is the pointee type of the literal's pointer. `getType()` is the pointer type over it, and a literal of that pointer offset by any number of whole elements has the same type. |
| Pointers.IsZero | compiler/src/main/java/org/qbicc/graph/literal/PointerLiteral.java:42-44 | A pointer literal is never zero. |
| Pointers.LiteralEquals | compiler/src/main/java/org/qbicc/graph/literal/PointerLiteral.java:47-53 | Only a pointer literal can be equal, and it is equal exactly when the pointers are equal. |
| Pointers.LiteralHashAgrees | compiler/src/main/java/org/qbicc/graph/literal/PointerLiteral.java:56-58 | Equal pointer literals have equal hashes. |
| VMHelpers.IsAssignableToLeaf | runtime/main/src/main/java/cc/quarkus/qcc/runtime/main/VMHelpers.java:58-68 | A class target accepts exactly its subclass type-id range, an interface target exactly its implementors, and any other target only its own type id. |
| VMHelpers.IsAssignableTo | runtime/main/src/main/java/cc/quarkus/qcc/runtime/main/VMHelpers.java:43-56 | With 0 dims, the leaf check on the value's type id. A non-reference-array value is never assignable to an array type. With equal dims, the leaf check on the element type id. A value with more dims is assignable only to java.lang.Object. |
| VMHelpers.FullInstanceof | runtime/main/src/main/java/cc/quarkus/qcc/runtime/main/VMHelpers.java:13-20 | The result is 0 or 1. It is 1 exactly for a non-null instance that is assignable to the class's type id and dims. |
| VMHelpers.CheckcastTypeId | runtime/main/src/main/java/cc/quarkus/qcc/runtime/main/VMHelpers.java:35-40 | Returns exactly for null or an assignable value. Any other value throws ClassCastException. |
| VMHelpers.CheckcastClass | runtime/main/src/main/java/cc/quarkus/qcc/runtime/main/VMHelpers.java:29-33 | Either returns or throws ClassCastException. |
| VMHelpers.ArrayStoreCheck | runtime/main/src/main/java/cc/quarkus/qcc/runtime/main/VMHelpers.java:22-27 | Either returns or raises ArrayStoreException. Null always passes. |
| VMHelpers.Raise | runtime/main/src/main/java/cc/quarkus/qcc/runtime/main/VMHelpers.java:110-142 | Each raise helper never returns normally and throws the error it is named after. |
| VMHelpers.CheckcastAgreesWithInstanceof | runtime/main/src/main/java/cc/quarkus/qcc/runtime/main/VMHelpers.java:13-40 | A checkcast to a class passes exactly when the value is null or `instanceof` gives 1. |
| VMHelpers.ArrayStoreIsCheckcastOneDimensionLess | runtime/main/src/main/java/cc/quarkus/qcc/runtime/main/VMHelpers.java:22-40 | The array store check into d dims is the cast check against d - 1 dims. |
| VMHelpers.ArrayStoreDimensionWraps | runtime/main/src/main/java/cc/quarkus/qcc/runtime/main/VMHelpers.java:23 | In int arithmetic, the check against `Integer.MIN_VALUE` dims is the check against `Integer.MAX_VALUE` dims. |
| VMHelpers.NonArrayNotAssignableToArray | runtime/main/src/main/java/cc/quarkus/qcc/runtime/main/VMHelpers.java:43-56 | A cast of a non-reference-array object to an array type throws ClassCastException. |
| VMHelpers.DeeperArrayOnlyToObject | runtime/main/src/main/java/cc/quarkus/qcc/runtime/main/VMHelpers.java:51-53 | An array with more dims than the target is assignable exactly when the target is java.lang.Object. |
| VMHelpers.ShallowerArrayNeverAssignable | runtime/main/src/main/java/cc/quarkus/qcc/runtime/main/VMHelpers.java:46-55 | An array with fewer dims than the target is never assignable. |
| VMHelpers.LeafReflexiveForClasses | runtime/main/src/main/java/cc/quarkus/qcc/runtime/main/VMHelpers.java:59-61 | With nested type-id ranges, every class accepts itself. |
| VMHelpers.LeafTransitiveForClasses | runtime/main/src/main/java/cc/quarkus/qcc/runtime/main/VMHelpers.java:59-61 | With nested type-id ranges, the class leaf check is transitive. |
| BooleanMemory.LowBit | interpreter/src/main/java/org/qbicc/interpreter/memory/BooleanArrayMemory.java:83 | The stored boolean is true exactly when the int is odd, which is `(value & 1) != 0`. |
| BooleanMemory.AsInt | interpreter/src/main/java/org/qbicc/interpreter/memory/BooleanArrayMemory.java:40 | Loading gives 0 or 1, and storing it back gives the same boolean. |
| BooleanMemory.ExactIndex | interpreter/src/main/java/org/qbicc/interpreter/memory/BooleanArrayMemory.java:40 | `Math.toIntExact`: defined exactly inside the int range, where it keeps the value. |
| BooleanMemory.StoreIndex | interpreter/src/main/java/org/qbicc/interpreter/memory/BooleanArrayMemory.java:82-90 | Every non-plain mode uses `toIntExact`. The plain mode's `(int)` cast always yields an index congruent to the long modulo 2^32. Inside the int range both keep the value. |
| BooleanMemory.PlainStoreIndexWraps | interpreter/src/main/java/org/qbicc/interpreter/memory/BooleanArrayMemory.java:83 | As written, a plain store at index 2^32 addresses element 0, while a load and any other store refuse that index. |
| BooleanMemory.StoreIndexIntended | interpreter/src/main/java/org/qbicc/interpreter/memory/BooleanArrayMemory.java:82-90 | The intended store index: in every mode it is the `Math.toIntExact` conversion that `load8` uses. |
| BooleanMemory.ExactIndexNeverWraps | interpreter/src/main/java/org/qbicc/interpreter/memory/BooleanArrayMemory.java:83-89 | The intended conversion differs from the written one exactly for a plain store outside the int range. Index 2^32 is refused in every mode. |
| BooleanMemory.BooleanArrayMemory.Store8Intended | interpreter/src/main/java/org/qbicc/interpreter/memory/BooleanArrayMemory.java:80-91 | The store with the intended conversion succeeds exactly at an index inside the int range and the array. It writes the low bit there and changes nothing else, and a failure changes nothing. |
| BooleanMemory.IntendedStoreReadsBack | interpreter/src/main/java/org/qbicc/interpreter/memory/BooleanArrayMemory.java:37-91 | With the intended conversion, a store and a load at the same index succeed and fail together in every mode, and the load reads back the stored bit. |
| BooleanMemory.BooleanArrayMemory.constructor | interpreter/src/main/java/org/qbicc/interpreter/memory/BooleanArrayMemory.java:29-31 | The memory wraps exactly the given array. |
| BooleanMemory.BooleanArrayMemory.GetArray | interpreter/src/main/java/org/qbicc/interpreter/memory/BooleanArrayMemory.java:33-35 | Returns the backing array itself. |
| BooleanMemory.BooleanArrayMemory.GetSize | interpreter/src/main/java/org/qbicc/interpreter/memory/BooleanArrayMemory.java:195-198 | The size is the array's length. |
| BooleanMemory.BooleanArrayMemory.Load8 | interpreter/src/main/java/org/qbicc/interpreter/memory/BooleanArrayMemory.java:37-48 | In every read mode: 1 if the element is true, else 0. An index outside the int range or the array fails. |
| BooleanMemory.BooleanArrayMemory.Store8 | interpreter/src/main/java/org/qbicc/interpreter/memory/BooleanArrayMemory.java:80-91 | Stores the low bit at the converted index and leaves every other element unchanged. A failed index conversion or bounds check changes nothing. |
| BooleanMemory.BooleanArrayMemory.CompareAndExchange8 | interpreter/src/main/java/org/qbicc/interpreter/memory/BooleanArrayMemory.java:133-148 | Returns the prior element as 0/1. It stores the low bit of `update` exactly when the prior element equals the low bit of `expect`, and otherwise leaves the array unchanged. |
| BooleanMemory.BooleanArrayMemory.Reject | interpreter/src/main/java/org/qbicc/interpreter/memory/BooleanArrayMemory.java:50-178 | Every 16/32/64-bit, reference, type and pointer load, store and compare-and-exchange throws InvalidMemoryAccessException and leaves the array alone. |
| BooleanMemory.BooleanArrayMemory.StoreMemory | interpreter/src/main/java/org/qbicc/interpreter/memory/BooleanArrayMemory.java:123-131 | `storeMemory` always throws UnsupportedOperationException. |
| BooleanMemory.BooleanArrayMemory.Copy | interpreter/src/main/java/org/qbicc/interpreter/memory/BooleanArrayMemory.java:180-183 | A fresh memory of exactly `newSize` elements that keeps the common prefix and pads with false. A negative size, or one outside the int range, fails. |
| BooleanMemory.BooleanArrayMemory.Clone | interpreter/src/main/java/org/qbicc/interpreter/memory/BooleanArrayMemory.java:185-188 | A fresh memory with identical contents. |
| BooleanMemory.BooleanArrayMemory.CloneZeroed | interpreter/src/main/java/org/qbicc/interpreter/memory/BooleanArrayMemory.java:190-193 | A fresh memory of the same length, all false. |
| LLVMBlocks.BasicBlockImpl.constructor | machine/llvm/src/main/java/cc/quarkus/qcc/machine/llvm/impl/BasicBlockImpl.java:38-41 | A new block has no phis, no items, is not terminated, and is chained after its predecessor. |
| LLVMBlocks.BasicBlockImpl.Phi | machine/llvm/src/main/java/cc/quarkus/qcc/machine/llvm/impl/BasicBlockImpl.java:70-73 | Appends to `phis` whether or not the block is terminated. `items` and the flag are unchanged. |
| LLVMBlocks.BasicBlockImpl.Emit | machine/llvm/src/main/java/cc/quarkus/qcc/machine/llvm/impl/BasicBlockImpl.java:115-267 | Fails exactly on a terminated block, leaving the lists unchanged. Otherwise it appends the instruction as the last item, in call order. |
| LLVMBlocks.BasicBlockImpl.Terminate | machine/llvm/src/main/java/cc/quarkus/qcc/machine/llvm/impl/BasicBlockImpl.java:77-111 | Fails exactly on a terminated block and changes nothing. Otherwise it appends the terminator and sets `terminated`. |
| LLVMBlocks.BasicBlockImpl.AtomicRmw | machine/llvm/src/main/java/cc/quarkus/qcc/machine/llvm/impl/BasicBlockImpl.java:269-271 | Always fails as unsupported. |
| LLVMBlocks.BasicBlockImpl.AppendAsBlockTo | machine/llvm/src/main/java/cc/quarkus/qcc/machine/llvm/impl/BasicBlockImpl.java:278-303 | Appends exactly what the emission specification gives for the chain of blocks, and fails exactly when that specification fails. |
| LLVMBlocks.BasicBlockImpl.AppendBlockLines | machine/llvm/src/main/java/cc/quarkus/qcc/machine/llvm/impl/BasicBlockImpl.java:290-302 | Appends the block's label (except for the root block), then its phis, then its items. |
| LLVMBlocks.AppendPhis | machine/llvm/src/main/java/cc/quarkus/qcc/machine/llvm/impl/BasicBlockImpl.java:296-302 | Appends one line per phi, in list order. |
| LLVMBlocks.AppendItems | machine/llvm/src/main/java/cc/quarkus/qcc/machine/llvm/impl/BasicBlockImpl.java:296-302 | Appends one line per item, in list order. |
| LLVMBlocks.EmptyBlockEmitsNothing | machine/llvm/src/main/java/cc/quarkus/qcc/machine/llvm/impl/BasicBlockImpl.java:283-286 | A block with no phis and no items adds nothing to what its predecessors emit. |
| LLVMBlocks.UnterminatedBlockFails | machine/llvm/src/main/java/cc/quarkus/qcc/machine/llvm/impl/BasicBlockImpl.java:287-289 | A non-empty unterminated block makes emission fail. |
| LLVMBlocks.PrecedingBlocksFirst | machine/llvm/src/main/java/cc/quarkus/qcc/machine/llvm/impl/BasicBlockImpl.java:279-282 | The predecessors' lines are a prefix of the block's emission, and a predecessor's failure is the block's failure. |
| LLVMBlocks.OneTerminatorLast | machine/llvm/src/main/java/cc/quarkus/qcc/machine/llvm/impl/BasicBlockImpl.java:62-111 | A terminated block emits exactly one terminator, as its last line, after its label, its phis and its other items. |
| Dispatch.ReachableAppend | plugins/dispatch/src/main/java/org/qbicc/plugin/dispatch/DispatchTables.java:83-91 | Filtering by `wasEnqueued` distributes over concatenation, so declaration order is kept. |
| Dispatch.ReachableKeepsAll | plugins/dispatch/src/main/java/org/qbicc/plugin/dispatch/DispatchTables.java:83-91 | When every method was enqueued, the table is the whole method list in order. |
| Dispatch.FilterInstanceMethods | plugins/dispatch/src/main/java/org/qbicc/plugin/dispatch/DispatchTables.java:83-91 | The loop yields exactly the enqueued instance methods, in declaration order. |
| Dispatch.TableLayout | plugins/dispatch/src/main/java/org/qbicc/plugin/dispatch/DispatchTables.java:95-101 | The struct has one member per method. Member `i` is at `i * pointerSize` with the method's function type, and the size is `length * pointerSize`. |
| Dispatch.SlotsDisjointAndInside | plugins/dispatch/src/main/java/org/qbicc/plugin/dispatch/DispatchTables.java:95-100 | With that layout, slots do not overlap and all lie inside the struct. |
| Dispatch.VTableSlot | plugins/dispatch/src/main/java/org/qbicc/plugin/dispatch/DispatchTables.java:173-191 | An abstract or native method gets its stub cast to the method's type. A concrete method without an implementation is reported. Otherwise the slot holds the implementation, declared when it comes from another class. |
| Dispatch.ITableSlot | plugins/dispatch/src/main/java/org/qbicc/plugin/dispatch/DispatchTables.java:249-283 | Not found: the ICCE stub. Abstract: the AME stub. Native, or no implementation and not invokable: the ULE stub. No implementation but invokable: an error. Otherwise the implementation. The function type is taken before the null check. |
| Dispatch.ResolvedITableSlotMatchesVTableSlot | plugins/dispatch/src/main/java/org/qbicc/plugin/dispatch/DispatchTables.java:173-283 | An itable slot resolved to m holds what a vtable slot of m holds. The one exception is a non-invokable method without an implementation, which gets the ULE stub. |
| Dispatch.FillValues | plugins/dispatch/src/main/java/org/qbicc/plugin/dispatch/DispatchTables.java:173-192 | The slot loop's value map holds exactly the slots with a value. It also yields their declarations and the errors in slot order. |
| Dispatch.DeclarationsComeFromSlots | plugins/dispatch/src/main/java/org/qbicc/plugin/dispatch/DispatchTables.java:173-189 | Every declaration the slot loop adds to the section comes from a slot whose value is a declared stub or a foreign implementation. |
| Dispatch.NoMissingNoReports | plugins/dispatch/src/main/java/org/qbicc/plugin/dispatch/DispatchTables.java:182-186 | A table without missing implementations reports nothing. |
| Dispatch.ReportsComeFromMissingSlots | plugins/dispatch/src/main/java/org/qbicc/plugin/dispatch/DispatchTables.java:182-186 | Every reported error comes from a slot that has no value. |
| Dispatch.MyITables | plugins/dispatch/src/main/java/org/qbicc/plugin/dispatch/DispatchTables.java:226-232 | An interface is selected exactly when it is implemented and has a built, non-empty itable. |
| Dispatch.SelectITables | plugins/dispatch/src/main/java/org/qbicc/plugin/dispatch/DispatchTables.java:226-232 | The collection loop yields that selection. |
| Dispatch.Dictionary | plugins/dispatch/src/main/java/org/qbicc/plugin/dispatch/DispatchTables.java:287-297 | `size + 1` entries: entry k is selected interface k's type id with its itable, and the last entry is the zero sentinel. |
| Dispatch.SearchDictionary | plugins/dispatch/src/main/java/org/qbicc/plugin/dispatch/DispatchTables.java:293-294 | A scan of the dictionary for a type id finds only an itable stored in the dictionary under that type id. |
| Dispatch.SearchFindsSelectedInterfaces | plugins/dispatch/src/main/java/org/qbicc/plugin/dispatch/DispatchTables.java:287-297 | With distinct type ids, the scan finds every selected interface's itable, and for any other type id it reaches the sentinel. |
| Dispatch.ITableFuncs | plugins/dispatch/src/main/java/org/qbicc/plugin/dispatch/DispatchTables.java:244-286 | Emits itable data for exactly the selected interfaces. |
| Dispatch.ITableFuncsOfSelected | plugins/dispatch/src/main/java/org/qbicc/plugin/dispatch/DispatchTables.java:244-286 | Each selected interface's data is exactly the value map of its slots as the class resolves them. |
| Dispatch.ClassITables | plugins/dispatch/src/main/java/org/qbicc/plugin/dispatch/DispatchTables.java:243-294 | The loop over the selected interfaces yields each one's data, the declarations, the errors in order, and the dictionary closed by the sentinel. |
| Dispatch.AssignByTypeId | plugins/dispatch/src/main/java/org/qbicc/plugin/dispatch/DispatchTables.java:202-215 | Succeeds exactly when every writer's type id is in range and no two writers share one. Each slot then holds the symbol of the writer with that type id, or zero where there is no such writer. |
| Dispatch.GlobalTableSlotOfWriter | plugins/dispatch/src/main/java/org/qbicc/plugin/dispatch/DispatchTables.java:205-214 | Each writer's slot holds its own symbol. |
| Dispatch.FirstMatch | plugins/dispatch/src/main/java/org/qbicc/plugin/dispatch/DispatchTables.java:342-347 | Gives the first index whose name and descriptor match, or none when nothing matches. |
| Dispatch.IndexOf | plugins/dispatch/src/main/java/org/qbicc/plugin/dispatch/DispatchTables.java:342-347 | The search loop computes that first match. |
| Dispatch.LookupOfSlotIsItsIndex | plugins/dispatch/src/main/java/org/qbicc/plugin/dispatch/DispatchTables.java:338-351 | When signatures are distinct, looking up slot i's method finds i. |
| Dispatch.DispatchTables.constructor | plugins/dispatch/src/main/java/org/qbicc/plugin/dispatch/DispatchTables.java:42-60 | A new instance has no tables, no emitted data and no effects. |
| Dispatch.DispatchTables.GetVTableInfo | plugins/dispatch/src/main/java/org/qbicc/plugin/dispatch/DispatchTables.java:74-76 | The built vtable of the class, or none when it has none. |
| Dispatch.DispatchTables.GetITableInfo | plugins/dispatch/src/main/java/org/qbicc/plugin/dispatch/DispatchTables.java:78 | The built itable of the interface, or none when it has none. |
| Dispatch.DispatchTables.BuildFilteredVTable | plugins/dispatch/src/main/java/org/qbicc/plugin/dispatch/DispatchTables.java:80-105 | Records, for this class only, the enqueued instance methods in declaration order with the pointer-per-slot layout. They are also registered as entry points, in that order. |
| Dispatch.DispatchTables.BuildFilteredITableForInterface | plugins/dispatch/src/main/java/org/qbicc/plugin/dispatch/DispatchTables.java:107-131 | The same filtering and layout, recorded with its interface, and no entry points. |
| Dispatch.DispatchTables.BuildVTablesGlobal | plugins/dispatch/src/main/java/org/qbicc/plugin/dispatch/DispatchTables.java:133-144 | The global vtables array has `vtables.size() + 19` slots. |
| Dispatch.DispatchTables.BuildITablesGlobal | plugins/dispatch/src/main/java/org/qbicc/plugin/dispatch/DispatchTables.java:146-163 | The dictionary entry type has the itable pointer at 0 and the type id right after it. The global array also has `vtables.size() + 19` slots. |
| Dispatch.DispatchTables.EmitVTable | plugins/dispatch/src/main/java/org/qbicc/plugin/dispatch/DispatchTables.java:165-197 | Nothing for an abstract class. Otherwise the class's value map, the declarations in its section, and one error per missing implementation. |
| Dispatch.DispatchTables.EmitITables | plugins/dispatch/src/main/java/org/qbicc/plugin/dispatch/DispatchTables.java:222-300 | Nothing for an abstract class or when no interface is selected. Otherwise the class joins `classesWithITables`, the selected itables are emitted, and the dictionary ends in the sentinel. |
| Dispatch.DispatchTables.RecordClassITables | plugins/dispatch/src/main/java/org/qbicc/plugin/dispatch/DispatchTables.java:237-297 | Records the class, its itable data, its dictionary, the declarations and the errors, and keeps the dictionary invariant. |
| Dispatch.DispatchTables.EmitVTableTable | plugins/dispatch/src/main/java/org/qbicc/plugin/dispatch/DispatchTables.java:199-220 | Succeeds exactly when the non-abstract classes' type ids fit and are distinct. Each such class's vtable is then at its type id, and every other slot is zero. |
| Dispatch.DispatchTables.EmitITableTable | plugins/dispatch/src/main/java/org/qbicc/plugin/dispatch/DispatchTables.java:302-324 | The same for the classes with itables and their dictionaries. |
| Dispatch.DispatchTables.GetVTableIndex | plugins/dispatch/src/main/java/org/qbicc/plugin/dispatch/DispatchTables.java:338-351 | The first matching slot of the defining class's vtable. When there is none, one error is reported and 0 returned. |
| Dispatch.DispatchTables.GetITableIndex | plugins/dispatch/src/main/java/org/qbicc/plugin/dispatch/DispatchTables.java:353-366 | The same in the defining interface's itable. |
| BuildtimeHeapModel.ParseNatToString | plugins/serialization/src/main/java/org/qbicc/plugin/serialization/BuildtimeHeap.java:108-110 | Reading a counter value's decimal form gives the value back. |
| BuildtimeHeapModel.LiteralName | plugins/serialization/src/main/java/org/qbicc/plugin/serialization/BuildtimeHeap.java:26 | Every generated name starts with `qbicc_initial_heap_obj_`. |
| BuildtimeHeapModel.NameIndexOfLiteralName | plugins/serialization/src/main/java/org/qbicc/plugin/serialization/BuildtimeHeap.java:108-110 | The counter value can be read back from a generated name. |
| BuildtimeHeapModel.LiteralNamesDistinct | plugins/serialization/src/main/java/org/qbicc/plugin/serialization/BuildtimeHeap.java:108-110 | Distinct counter values give distinct names. |
| BuildtimeHeapModel.BuildSizedType | plugins/serialization/src/main/java/org/qbicc/plugin/serialization/BuildtimeHeap.java:174-193 | The type is named `internalName_length`, and its size is the array class's size plus the contents' size. |
| BuildtimeHeapModel.TypeKeyInjective | plugins/serialization/src/main/java/org/qbicc/plugin/serialization/BuildtimeHeap.java:176 | A cache key determines both the internal name and the length. |
| BuildtimeHeapModel.FieldStep | plugins/serialization/src/main/java/org/qbicc/plugin/serialization/BuildtimeHeap.java:127-157 | Skip exactly a missing or static field. A primitive gets a literal of its kind. A null reference gets the zero initializer, and any other reference is serialised. |
| BuildtimeHeapModel.MemberMap | plugins/serialization/src/main/java/org/qbicc/plugin/serialization/BuildtimeHeap.java:117-165 | The header holds the type id. Every other member is a non-static field that was read. |
| BuildtimeHeapModel.ApplyRead | plugins/serialization/src/main/java/org/qbicc/plugin/serialization/BuildtimeHeap.java:130-157 | A skipped field leaves the map unchanged. Any other read sets its own member only. |
| BuildtimeHeapModel.SkippedFieldAddsNothing | plugins/serialization/src/main/java/org/qbicc/plugin/serialization/BuildtimeHeap.java:130 | A static or missing field contributes no member. |
| BuildtimeHeapModel.NullReferenceIsZero | plugins/serialization/src/main/java/org/qbicc/plugin/serialization/BuildtimeHeap.java:149-151 | A non-static null reference field's member is the zero initializer. |
| BuildtimeHeapModel.BuildtimeHeap.constructor | plugins/serialization/src/main/java/org/qbicc/plugin/serialization/BuildtimeHeap.java:28-43 | A new heap has empty caches, an empty initial heap and counter 0. |
| BuildtimeHeapModel.BuildtimeHeap.GetHeap | plugins/serialization/src/main/java/org/qbicc/plugin/serialization/BuildtimeHeap.java:57-59 | The initial heap. |
| BuildtimeHeapModel.BuildtimeHeap.NextLiteralName | plugins/serialization/src/main/java/org/qbicc/plugin/serialization/BuildtimeHeap.java:108-110 | Returns the name of the current counter value and advances the counter by one. |
| BuildtimeHeapModel.BuildtimeHeap.ArrayLiteralType | plugins/serialization/src/main/java/org/qbicc/plugin/serialization/BuildtimeHeap.java:174-193 | Returns the cached type for the key. A miss caches the built type, and a hit changes nothing. |
| BuildtimeHeapModel.BuildtimeHeap.SerializeByteArray | plugins/serialization/src/main/java/org/qbicc/plugin/serialization/BuildtimeHeap.java:196-208 | Adds exactly one new heap entry under the next name. It holds the array class's type id, the length and the bytes, and it is typed by the sized array type. |
| BuildtimeHeapModel.BuildtimeHeap.AddNamedEntry | plugins/serialization/src/main/java/org/qbicc/plugin/serialization/BuildtimeHeap.java:205-207 | Exactly one new entry, under the next counter value's name. |
| BuildtimeHeapModel.BuildtimeHeap.SerializeObject | plugins/serialization/src/main/java/org/qbicc/plugin/serialization/BuildtimeHeap.java:72-106 | An object seen before yields its cached symbol and changes nothing. For a new object, the entry is built first and then cached by identity. A byte array's entry holds the byte array class's type id, its length and its bytes. An instance's entry is typed by its loaded class and holds the member map of its superclass walk, with references resolved through the table as it was before caching. Any other array yields null. A class the class context does not find throws NullPointerException. |
| BuildtimeHeapModel.BuildtimeHeap.SerializeUncached | plugins/serialization/src/main/java/org/qbicc/plugin/serialization/BuildtimeHeap.java:77-102 | Under the next counter value's name: a byte array gets exactly one new entry holding its class's type id, its length and its bytes, and an instance gets an entry typed by its loaded class, holding the member map of its superclass walk. Any other array yields null, adds no heap entry and uses no name. A class that is not found throws NullPointerException and changes nothing. |
| BuildtimeHeapModel.BuildtimeHeap.CacheObject | plugins/serialization/src/main/java/org/qbicc/plugin/serialization/BuildtimeHeap.java:104 | Enters the result in the identity table. |
| BuildtimeHeapModel.BuildtimeHeap.SerializeInstance | plugins/serialization/src/main/java/org/qbicc/plugin/serialization/BuildtimeHeap.java:112-172 | Takes the next name and adds one new entry under it. The entry holds the member map of the header and every level's fields. |
| BuildtimeHeapModel.BuildtimeHeap.SerializeFields | plugins/serialization/src/main/java/org/qbicc/plugin/serialization/BuildtimeHeap.java:119-165 | The superclass walk yields exactly the member map of all levels' reads. |
| BuildtimeHeapModel.BuildtimeHeap.SerializeLevel | plugins/serialization/src/main/java/org/qbicc/plugin/serialization/BuildtimeHeap.java:126-162 | One host class's fields, applied in order to the map built so far. |
| BuildtimeHeapModel.BuildtimeHeap.SerializeField | plugins/serialization/src/main/java/org/qbicc/plugin/serialization/BuildtimeHeap.java:127-161 | One field, as `FieldStep` says. A serialised reference is stored as its target's symbol. |
| BuildtimeHeapModel.BuildtimeHeap.SerializeStringLiteral | plugins/serialization/src/main/java/org/qbicc/plugin/serialization/BuildtimeHeap.java:61-70 | An equal string interned before yields its symbol and changes nothing. Otherwise java.lang.String is looked up by its slash name, and a failed lookup throws NullPointerException and changes nothing. On success the string gets an entry under the next name, typed by that class and holding the member map of the string's fields, and is interned by equality. |
| BuildtimeHeapModel.SerializeTwice | plugins/serialization/src/main/java/org/qbicc/plugin/serialization/BuildtimeHeap.java:72-75 | Serialising the same object twice gives the first result again. |
| LLVMSelection.LowerTypeCases | compiler/generator/llvm/generic/src/main/java/cc/quarkus/qcc/compiler/native_image/llvm/generic/LLVMNodeVisitor.java:407-449 | Void maps to void and boolean to i1. Integers of 1/2/4/8 bytes map to i8..i64 and floats of 4/8 bytes to float32/float64. References map to i8*. Other widths are unreachable, and other types throw IllegalStateException. |
| LLVMSelection.SignednessIsNotLowered | compiler/generator/llvm/generic/src/main/java/cc/quarkus/qcc/compiler/native_image/llvm/generic/LLVMNodeVisitor.java:418-431 | A signed and an unsigned integer type of the same size lower alike. |
| LLVMSelection.IntegerWidthPreserved | compiler/generator/llvm/generic/src/main/java/cc/quarkus/qcc/compiler/native_image/llvm/generic/LLVMNodeVisitor.java:418-431 | An integer type lowers exactly when its int-cast size is 1, 2, 4 or 8. It then has 8 bits per byte. |
| LLVMSelection.SizeCastWraps | compiler/generator/llvm/generic/src/main/java/cc/quarkus/qcc/compiler/native_image/llvm/generic/LLVMNodeVisitor.java:420 | An integer type whose size is 2^32 + 8 is lowered to i64 by the `(int)` cast. |
| LLVMSelection.TwoWaySelection | compiler/generator/llvm/generic/src/main/java/cc/quarkus/qcc/compiler/native_image/llvm/generic/LLVMNodeVisitor.java:133-189 | Add, multiply, `==` and `!=` take the float form exactly for floating types, and never a signed or unsigned form. |
| LLVMSelection.ThreeWaySelection | compiler/generator/llvm/generic/src/main/java/cc/quarkus/qcc/compiler/native_image/llvm/generic/LLVMNodeVisitor.java:191-237 | `<`, `<=`, `>`, `>=` take the float form exactly for floating types and the signed form exactly for signed types, and otherwise the unsigned form. Divide and remainder behave the same way (lines 295-317). |
| LLVMSelection.OneWaySelection | compiler/generator/llvm/generic/src/main/java/cc/quarkus/qcc/compiler/native_image/llvm/generic/LLVMNodeVisitor.java:143-159 | And, or and xor ignore the type and use integer forms; shift left and subtract are the same (lines 283-293). |
| LLVMSelection.ShiftRightSelection | compiler/generator/llvm/generic/src/main/java/cc/quarkus/qcc/compiler/native_image/llvm/generic/LLVMNodeVisitor.java:273-281 | Shift right is `ashr` exactly for signed types and is `lshr` otherwise. |
| LLVMSelection.ComparisonKeepsRelation | compiler/generator/llvm/generic/src/main/java/cc/quarkus/qcc/compiler/native_image/llvm/generic/LLVMNodeVisitor.java:171-237 | Every comparison compares in its node's direction, and no other node yields a comparison. |
| LLVMSelection.SelectionDependsOnTagOnly | compiler/generator/llvm/generic/src/main/java/cc/quarkus/qcc/compiler/native_image/llvm/generic/LLVMNodeVisitor.java:125-131 | The choice depends only on the type's floating/signed tag. |
| LLVMSelection.ConvertSelection | compiler/generator/llvm/generic/src/main/java/cc/quarkus/qcc/compiler/native_image/llvm/generic/LLVMNodeVisitor.java:329-343 | A float input converts by the output's signedness, and an integer input by its own signedness. |
| LLVMSelection.ExtendTruncateSelection | compiler/generator/llvm/generic/src/main/java/cc/quarkus/qcc/compiler/native_image/llvm/generic/LLVMNodeVisitor.java:345-369 | Extend is fpext, sext or zext by the input's tag. Truncate is ftrunc for a float input, otherwise trunc, whatever the output. |
| LLVMSelection.IntegerNegIsFloatForm | compiler/generator/llvm/generic/src/main/java/cc/quarkus/qcc/compiler/native_image/llvm/generic/LLVMNodeVisitor.java:265-271 | As written, negation of a signed integer is lowered to the floating-point `fneg`. |
| LLVMVisitor.WithValue | compiler/generator/llvm/generic/src/main/java/cc/quarkus/qcc/compiler/native_image/llvm/generic/LLVMNodeVisitor.java:254-256 | A known block is included exactly when the phi has a non-null value for it. |
| LLVMVisitor.OneTerminatorPerBlock | machine/llvm/src/main/java/cc/quarkus/qcc/machine/llvm/impl/BasicBlockImpl.java:62-66 | In the lowering's log, no two control transfers are for the same target block. |
| LLVMVisitor.LLVMNodeVisitor.constructor | compiler/generator/llvm/generic/src/main/java/cc/quarkus/qcc/compiler/native_image/llvm/generic/LLVMNodeVisitor.java:74-82 | All three memo maps are empty and no code has been emitted. |
| LLVMVisitor.LLVMNodeVisitor.MapType | compiler/generator/llvm/generic/src/main/java/cc/quarkus/qcc/compiler/native_image/llvm/generic/LLVMNodeVisitor.java:407-449 | Always the lowering of the type. A miss caches the lowering, and a hit or a failure leaves the cache alone. |
| LLVMVisitor.LLVMNodeVisitor.MapBlock | compiler/generator/llvm/generic/src/main/java/cc/quarkus/qcc/compiler/native_image/llvm/generic/LLVMNodeVisitor.java:396-405 | A mapped block is returned unchanged. A new target block is created and recorded before its terminator is lowered, at most once per graph block, and it ends with its terminator. |
| LLVMVisitor.LLVMNodeVisitor.MapValue | compiler/generator/llvm/generic/src/main/java/cc/quarkus/qcc/compiler/native_image/llvm/generic/LLVMNodeVisitor.java:453-461 | A recorded non-null value is returned with no change. Otherwise the visit's result is recorded. |
| LLVMVisitor.LLVMNodeVisitor.VisitTerminator | compiler/generator/llvm/generic/src/main/java/cc/quarkus/qcc/compiler/native_image/llvm/generic/LLVMNodeVisitor.java:99-121 | Each terminator adds one control transfer to its block. An unknown one is reported and emits nothing. A terminator whose block is not yet mapped fails. |
| LLVMVisitor.LLVMNodeVisitor.VisitGoto | compiler/generator/llvm/generic/src/main/java/cc/quarkus/qcc/compiler/native_image/llvm/generic/LLVMNodeVisitor.java:99-103 | Maps the block, then the resume target, and adds `br` to the target. |
| LLVMVisitor.LLVMNodeVisitor.VisitIf | compiler/generator/llvm/generic/src/main/java/cc/quarkus/qcc/compiler/native_image/llvm/generic/LLVMNodeVisitor.java:105-109 | A conditional `br` to the mapped true and false branches. |
| LLVMVisitor.LLVMNodeVisitor.VisitReturn | compiler/generator/llvm/generic/src/main/java/cc/quarkus/qcc/compiler/native_image/llvm/generic/LLVMNodeVisitor.java:111-115 | `ret void` in the mapped block. |
| LLVMVisitor.LLVMNodeVisitor.VisitValueReturn | compiler/generator/llvm/generic/src/main/java/cc/quarkus/qcc/compiler/native_image/llvm/generic/LLVMNodeVisitor.java:117-121 | `ret` typed by the lowering of the returned value's type. |
| LLVMVisitor.LLVMNodeVisitor.VisitValue | compiler/generator/llvm/generic/src/main/java/cc/quarkus/qcc/compiler/native_image/llvm/generic/LLVMNodeVisitor.java:373-382 | A literal yields its constant. Catch yields null. An unknown value is reported and yields `false`. Every other value emits the instruction the selection functions choose into its scheduled block. |
| LLVMVisitor.LLVMNodeVisitor.VisitArithmetic | compiler/generator/llvm/generic/src/main/java/cc/quarkus/qcc/compiler/native_image/llvm/generic/LLVMNodeVisitor.java:133-237 | Emits `SelectBinary(kind, node type)` on the lowered node type, with two operands, into the node's block. |
| LLVMVisitor.LLVMNodeVisitor.VisitBitwise | compiler/generator/llvm/generic/src/main/java/cc/quarkus/qcc/compiler/native_image/llvm/generic/LLVMNodeVisitor.java:143-159 | The same for and, or, xor, shift left and subtract. |
| LLVMVisitor.LLVMNodeVisitor.VisitNeg | compiler/generator/llvm/generic/src/main/java/cc/quarkus/qcc/compiler/native_image/llvm/generic/LLVMNodeVisitor.java:265-271 | Emits `fneg` on the lowered input type, into the node's block. |
| LLVMVisitor.LLVMNodeVisitor.VisitCast | compiler/generator/llvm/generic/src/main/java/cc/quarkus/qcc/compiler/native_image/llvm/generic/LLVMNodeVisitor.java:319-369 | Emits `SelectCast` from the lowered input type to the lowered node type. |
| LLVMVisitor.LLVMNodeVisitor.VisitSelect | compiler/generator/llvm/generic/src/main/java/cc/quarkus/qcc/compiler/native_image/llvm/generic/LLVMNodeVisitor.java:239-244 | Emits `select`, typed by the true value's and the condition's lowered types. |
| LLVMVisitor.LLVMNodeVisitor.VisitPhi | compiler/generator/llvm/generic/src/main/java/cc/quarkus/qcc/compiler/native_image/llvm/generic/LLVMNodeVisitor.java:251-263 | The phi's items match the known blocks that have a value, one to one and in order, each from the block's target block. |
| LLVMVisitor.LLVMNodeVisitor.RegisterPhi | compiler/generator/llvm/generic/src/main/java/cc/quarkus/qcc/compiler/native_image/llvm/generic/LLVMNodeVisitor.java:252-253 | The phi is emitted with no items and recorded as the node's value before any incoming value is visited. |
| LLVMVisitor.LLVMNodeVisitor.AddIncoming | compiler/generator/llvm/generic/src/main/java/cc/quarkus/qcc/compiler/native_image/llvm/generic/LLVMNodeVisitor.java:254-261 | The loop adds exactly one item per known block with a value, and none for the others. |
| LLVMVisitor.LLVMNodeVisitor.VisitAction | compiler/generator/llvm/generic/src/main/java/cc/quarkus/qcc/compiler/native_image/llvm/generic/LLVMNodeVisitor.java:92-95 | A block entry does nothing. Any other action is reported (lines 384-387). |
| LLVMVisitor.LLVMNodeVisitor.ExecuteAsWritten | compiler/generator/llvm/generic/src/main/java/cc/quarkus/qcc/compiler/native_image/llvm/generic/LLVMNodeVisitor.java:86-88 | As written, lowering a method whose entry terminator is recognised always fails. |
| LLVMVisitor.LLVMNodeVisitor.Execute | compiler/generator/llvm/generic/src/main/java/cc/quarkus/qcc/compiler/native_image/llvm/generic/LLVMNodeVisitor.java:86-88 | Mapping the entry block instead: on success the entry block ends with its only control transfer. |

## Left out

- Concurrency. `synchronized` and the attachment races of `get(ctxt)` are out, and all memory-access modes are modelled as one sequential read or write, with no ordering semantics.
- Reflection, the layout, the type system and the literal factory are inputs. Field values come pre-read in `World`, and literals are opaque constructors.
- `ctxt.error` is modelled as an appended diagnostic, without its message text. Logging and the statistics counters are out.
- Symbol names of emitted tables (`vtable-…`, `itable-…`, `qbicc_itable_funcs_for_…`) are out. Emitted data is recorded under the type(s) its name is built from. Section placement is a set of (class, declaration) pairs, and `declareData` is not recorded.
- HashSet and HashMap iteration order. The selected itables of a class are kept in first-occurrence order of the implemented set. The global tables are filled from a set in any order, and the proof covers every order.
- Java object identity. Methods, types and objects are numbered values. A pointer and a method element are compared by value.
- `Assert.checkNotNullParam` is out, and null arguments are not modelled.
- `BasicBlockImpl.name`, `appendTo` and `func.assignName` are out (the textual output): a block's label is its number. `createBlock` delegates to the function and is out.
- Unbounded recursion is bounded by a `fuel` parameter, which returns `RecursionTooDeep` when spent. That covers the visitor's recursion through blocks and values, and the heap's recursion through referenced objects. On a cyclic object graph the source overflows its stack, and the model fails once its fuel runs out.
- `BuildtimeHeap`'s `literalCounter` is an unbounded `nat`, so the wrap-around after 2^31 names is not modelled.
- The `serializeArray` overloads other than `byte[]` return null in the source. The model does the same (`OtherArray` yields None). A field referring to such an array then fails with NullPointerException, as `contents.getName()` would.
- The `IllegalAccessException` branch of the field loop is out: reflection access is taken to succeed.
- `findDefinedType` of the bootstrap class context is an input from names to an optional class. A name it does not find makes `.load()` throw NullPointerException, and the model fails the same way. The class context is not part of this model. So the model does not decide whether the lookup accepts the dotted `Class.getName()` form used for instances (`BuildtimeHeap.java` line 100) as well as the slash form used for java.lang.String (line 66).
- `Pointers.Resolve`: the long offset is an unbounded integer. Java `long` overflow in `offset - memberOffset` is not modelled.
- The unseen pointer classes (ElementPointer, MemberPointer, OffsetPointer, InstanceFieldPointer, RootPointer) are constructors of one datatype. Their roots, root byte offsets and root equality are a `RootModel` input.
- `getFunctionTypeForElement(methImpl)` on a method that was not found is modelled as the function type of "no element" (`functionTypeFor(None)`), because the source calls it before the null check.
- The rejecting access methods of `BooleanArrayMemory` are collapsed into one `Reject` method over a datatype of the access kinds.
- `LLVMVisitor.LLVMNodeVisitor.VisitArithmetic`: the contract does not pin which LLVM values the operands are, only the instruction, its operand type and its block. The same holds for `VisitBitwise`, `VisitNeg`, `VisitCast` and `VisitSelect`.
- `LLVMVisitor.LLVMNodeVisitor.VisitIf`: the contract states the true and false targets of the conditional `br`, but not which LLVM value it tests.
- `LLVMVisitor.LLVMNodeVisitor.VisitValueReturn`: the contract states the type of `ret`, but not which LLVM value it returns.
- `LLVMVisitor.LLVMNodeVisitor.VisitTerminator`: the contracts of the visits do not state that the log and the error list only grow.
- `LLVMVisitor.LLVMNodeVisitor.VisitPhi`: the contract says where each item comes from, not what its value is. The source visits each incoming value before it maps it, so a non-phi incoming value is lowered twice; the model does the same.
- The visitor records its instructions in a log of (target block, instruction) pairs instead of calling `BasicBlockImpl`, and `knownBlocks` (a Set) is a sequence.
- `LLVMDefaultModuleCompileStage` (build orchestration and the external LLVM compiler), `ConstTypeResolver`, `ConstructorElement`, `JavaObject`/`JavaObjectImpl` and `Phi` are outside this model. Neither are `VMHelpers`' monitor and `omError` helpers, which use native mutexes and allocation.
- No floating-point arithmetic is modelled. Selection sees only a float/non-float tag.

## Findings

The model follows the source as written. For each row below it also defines the evidently intended behaviour and proves the intended property of it.

| source | as written | input that shows it | evidently intended | confidence | as-written member | corrected member |
|---|---|---|---|---|---|---|
| compiler/src/main/java/org/qbicc/pointer/Pointer.java:85-86 | A field is chosen when `offset >= fieldOffset && offset < field type size`, and the recursion continues on `fieldOffset - offset` | A 16-byte object whose only field is a non-static 8-byte field at offset 8: `offsetInBytes(8, false)` finds no field, since 8 is not below the size 8 | Choose the field whose range `[fieldOffset, fieldOffset + size)` holds the offset, and recurse on `offset - fieldOffset` | high, not executed | Pointers.AsWrittenMissesFieldStart | Pointers.IntendedFieldStart |
| compiler/src/main/java/org/qbicc/pointer/Pointer.java:69-73 | The first member in list order with `memberOffset <= offset` is chosen; with member 0 at offset 0, that is always member 0 | A 16-byte struct of two 8-byte members at 0 and 8: offset 8 is looked for inside the first member and fails with "cannot determine type" | Choose the last member whose offset is at or before the target (the "most-fitting member" of the comment at line 67) | high, not executed | Pointers.AsWrittenMissesSecondMember | Pointers.IntendedMemberStart |
| interpreter/src/main/java/org/qbicc/interpreter/memory/BooleanArrayMemory.java:83 | The plain store narrows its long index with `(int) index`; every other access mode uses `Math.toIntExact` | Index 2^32: a plain store writes element 0, while the same index throws ArithmeticException for a load or any other store | `Math.toIntExact` in the plain mode as well | medium, not executed | BooleanMemory.PlainStoreIndexWraps | BooleanMemory.StoreIndexIntended |
| compiler/generator/llvm/generic/src/main/java/cc/quarkus/qcc/compiler/native_image/llvm/generic/LLVMNodeVisitor.java:86-88 | `execute` visits the entry block's terminator directly. The visit maps the entry block, which lowers the same terminator into the new block, and then the visit adds its own control transfer | A method whose entry block ends in `Return`: the second `ret` meets a terminated block and throws IllegalStateException | Map the entry block (`map(entryBlock)`), which lowers its terminator exactly once | high, not executed | LLVMVisitor.LLVMNodeVisitor.ExecuteAsWritten | LLVMVisitor.LLVMNodeVisitor.Execute |
