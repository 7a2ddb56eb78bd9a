/** The LLVM node visitor: lowers one method's program graph to LLVM
    instructions, starting from the entry block's terminator and visiting
    each node's operands before the node. Values, blocks and types are
    memoised in three maps; a target block is created and recorded before
    its terminator is lowered, and a phi is recorded before its incoming
    values are visited, which is what stops the recursion at loops.

    The instructions the visitor emits are kept as one log of (target block,
    instruction) pairs, with the terminated target blocks; a result
    handle is the position of its instruction in the log. */
module LLVMVisitor {
  import opened Wrappers
  import opened JavaInt
  import opened LLVMSelection

  /** Program-graph values and blocks, and target (LLVM) blocks. */
  type ValueId = nat
  type GraphBlock = nat
  type TargetBlock = nat

  /** The terminator of a graph block. */
  datatype TerminatorNode =
    | GotoNode(resumeTarget: GraphBlock)
    | IfNode(condition: ValueId, trueBranch: GraphBlock, falseBranch: GraphBlock)
    | ReturnNode
    | ValueReturnNode(returnValue: ValueId)
    | UnknownTerminator

  /** A value node and its operands. A phi gives its value for each block,
      None for a block it has no value for. */
  datatype ValueNode =
    | BinaryValue(kind: BinaryKind, left: ValueId, right: ValueId)
    | NegValue(negInput: ValueId)
    | CastValue(castKind: CastKind, castInput: ValueId)
    | SelectValue(selectCondition: ValueId, trueValue: ValueId, falseValue: ValueId)
    | PhiValue(incoming: GraphBlock -> Option<ValueId>)
    | CatchValue
    | IntegerLiteral(longValue: int64)
    | UnknownValue

  /** The action nodes: block entries, and every other kind. */
  datatype ActionNode = BlockEntryAction | UnknownAction

  /** The method body being lowered: its entry block, the blocks reachable
      from it, each value's node, type and scheduled block, and each block's
      terminator (which the schedule places in that block). */
  datatype Graph = Graph(
    entryBlock: GraphBlock,
    knownBlocks: seq<GraphBlock>,
    node: ValueId -> ValueNode,
    typeOf: ValueId -> NodeType,
    blockOf: ValueId -> GraphBlock,
    terminator: GraphBlock -> TerminatorNode)

  /** An LLVM value: the result of the instruction at a log position, an
      integer constant, `false`, or Java's null (what a `Catch` visit returns). */
  datatype LValue = Local(index: nat) | IntConstant(value: int64) | FalseConstant | NullValue

  datatype LTerm =
    | Br(dest: TargetBlock)
    | CondBr(cond: LValue, ifTrue: TargetBlock, ifFalse: TargetBlock)
    | RetVoid
    | RetValue(retType: LType, retValue: LValue)

  /** An emitted instruction. */
  datatype LOp =
    | Compute(instr: Instr, operandType: LType, operands: seq<LValue>)
    | Cast(castInstr: Instr, fromType: LType, operand: LValue, toType: LType)
    | SelectOp(condType: LType, cond: LValue, valueType: LType, ifTrue: LValue, ifFalse: LValue)
    | PhiOp(phiType: LType)
    | TermOp(term: LTerm)

  datatype Emission = Emission(block: TargetBlock, op: LOp)

  /** One incoming entry of a phi: a value and the block it comes from. */
  datatype PhiIncoming = PhiIncoming(value: LValue, from: TargetBlock)

  /** The errors the visitor reports to the compilation context and carries on. */
  datatype Diagnostic = UnrecognizedValue(v: ValueId) | UnrecognizedAction | UnrecognizedTerminator(b: GraphBlock)

  /** Why lowering stops: `map(Type)` threw, an instruction was added to a
      terminated block (IllegalStateException), or the graph is deeper than
      the recursion bound. */
  datatype LoweringError = TypeFailure(typeError: TypeError) | BlockAlreadyTerminated | RecursionTooDeep

  /** Terminated blocks exist, and every control transfer in the log is the
      one recorded for its block. */
  ghost predicate TerminatorsRecorded(code: seq<Emission>, terminators: map<TargetBlock, nat>, blockCount: nat) {
    && (forall x :: x in terminators ==> x < blockCount)
    && (forall i :: 0 <= i < |code| && code[i].op.TermOp? ==> code[i].block in terminators && terminators[code[i].block] == i)
  }

  /** So no two control transfers in the log are for the same block. */
  lemma OneTerminatorPerBlock(code: seq<Emission>, terminators: map<TargetBlock, nat>, blockCount: nat, i: nat, j: nat)
    requires TerminatorsRecorded(code, terminators, blockCount)
    requires i < |code| && j < |code| && code[i].op.TermOp? && code[j].op.TermOp? && code[i].block == code[j].block
    ensures i == j
  {
  }

  /** r is the result of the last instruction of the log, which was added to block tb. */
  predicate ProducedLast(code: seq<Emission>, tb: TargetBlock, r: LValue) {
    |code| > 0 && r == Local(|code| - 1) && code[|code| - 1].block == tb
  }

  /** The last instruction of the log is a control transfer out of block tb. */
  predicate EndsBlock(code: seq<Emission>, tb: TargetBlock) {
    |code| > 0 && code[|code| - 1].block == tb && code[|code| - 1].op.TermOp?
  }

  /** The known blocks a phi has a value for, in iteration order. */
  function WithValue(known: seq<GraphBlock>, incoming: GraphBlock -> Option<ValueId>): (r: seq<GraphBlock>)
    ensures |r| <= |known|
    ensures forall x :: x in r ==> x in known && incoming(x).Some?
    ensures forall x :: x in known && incoming(x).Some? ==> x in r
  {
    if known == [] then []
    else
      var init := WithValue(known[..|known| - 1], incoming);
      var last := known[|known| - 1];
      assert known == known[..|known| - 1] + [last];
      if incoming(last).Some? then init + [last] else init
  }

  /** One more known block adds itself when the phi has a value for it. */
  lemma WithValueSnoc(known: seq<GraphBlock>, j: nat, incoming: GraphBlock -> Option<ValueId>)
    requires j < |known|
    ensures WithValue(known[..j + 1], incoming) ==
            WithValue(known[..j], incoming) + (if incoming(known[j]).Some? then [known[j]] else [])
  {
    assert known[..j + 1][..j] == known[..j];
  }

  /** The items of a phi match the known blocks with a value one to one, in order. */
  ghost predicate ItemsMatch(items: seq<PhiIncoming>, blocks: seq<GraphBlock>, mapped: map<GraphBlock, TargetBlock>) {
    |items| == |blocks| && forall i :: 0 <= i < |items| ==> blocks[i] in mapped && items[i].from == mapped[blocks[i]]
  }

  /** Matching items stay matched when the block map only grows. */
  lemma ItemsMatchGrows(items: seq<PhiIncoming>, blocks: seq<GraphBlock>, m1: map<GraphBlock, TargetBlock>, m2: map<GraphBlock, TargetBlock>)
    requires ItemsMatch(items, blocks, m1)
    requires forall b :: b in m1 ==> b in m2 && m2[b] == m1[b]
    ensures ItemsMatch(items, blocks, m2)
  {
  }

  /** An item for the next block extends a match by one. */
  lemma ItemsMatchSnoc(items: seq<PhiIncoming>, blocks: seq<GraphBlock>, b: GraphBlock, item: PhiIncoming, m: map<GraphBlock, TargetBlock>)
    requires ItemsMatch(items, blocks, m) && b in m && item.from == m[b]
    ensures ItemsMatch(items + [item], blocks + [b], m)
  {
  }

  /** Every cached type is the lowering of its type. */
  ghost predicate TypesCached(types: map<NodeType, LType>) {
    forall t :: t in types ==> LowerType(t) == Success(types[t])
  }

  /** Every mapped graph block has a target block `createBlock` made, and
      no target block serves two graph blocks. */
  ghost predicate BlocksCreated(mappedBlocks: map<GraphBlock, TargetBlock>, owner: map<TargetBlock, GraphBlock>, blockCount: nat) {
    && (forall b :: b in mappedBlocks ==> mappedBlocks[b] < blockCount)
    && (forall b :: b in mappedBlocks ==> mappedBlocks[b] in owner && owner[mappedBlocks[b]] == b)
  }

  class LLVMNodeVisitor {
    const graph: Graph
    /** `types`: lowered types. */
    var types: map<NodeType, LType>
    /** `mappedValues`: lowered values (a stored null counts as absent). */
    var mappedValues: map<ValueId, LValue>
    /** `mappedBlocks`: the target block for each graph block. */
    var mappedBlocks: map<GraphBlock, TargetBlock>
    /** The number of blocks `func.createBlock()` has made. */
    var blockCount: nat
    var code: seq<Emission>
    /** The terminated blocks, each with the log position of its terminator. */
    var terminators: map<TargetBlock, nat>
    /** The graph block each created target block was made for. */
    ghost var owner: map<TargetBlock, GraphBlock>
    /** The incoming entries of each phi, by the phi's log position. */
    var phiItems: map<nat, seq<PhiIncoming>>
    var errors: seq<Diagnostic>

    /** The three caches and the log agree with each other, and every phi
      with items is already in the log. */
    ghost predicate Valid()
      reads this
    {
      && TypesCached(types)
      && BlocksCreated(mappedBlocks, owner, blockCount)
      && TerminatorsRecorded(code, terminators, blockCount)
      && (forall q :: q in phiItems ==> q < |code|)
    }

    /** What a visit keeps: the created blocks, the target block of every
      mapped graph block, the terminated blocks, and the items of every
      phi other than p. */
    twostate predicate ExtendsOutside(p: int)
      reads this
    {
      && old(blockCount) <= blockCount
      && (forall b :: b in old(mappedBlocks) ==> b in mappedBlocks && mappedBlocks[b] == old(mappedBlocks[b]))
      && old(terminators).Keys <= terminators.Keys
      && (forall q :: q in old(phiItems) && q != p ==> q in phiItems && phiItems[q] == old(phiItems[q]))
    }

    twostate predicate Extends()
      reads this
    {
      ExtendsOutside(-1)
    }

    constructor (graph: Graph)
      ensures this.graph == graph && Valid()
      ensures types == map[] && mappedValues == map[] && mappedBlocks == map[]
      ensures blockCount == 0 && code == [] && terminators == map[] && phiItems == map[] && errors == []
    {
      this.graph := graph;
      types := map[];
      mappedValues := map[];
      mappedBlocks := map[];
      blockCount := 0;
      code := [];
      terminators := map[];
      owner := map[];
      phiItems := map[];
      errors := [];
    }

    // ----- mapping -----

    /** `map(Type)`: always the lowering of the type; a miss caches it, a
      hit or a failure leaves the cache alone. */
    method MapType(t: NodeType) returns (r: Result<LType, LoweringError>)
      requires Valid()
      modifies this`types
      ensures Valid()
      ensures LowerType(t).Success? ==> r == Success(LowerType(t).value)
      ensures LowerType(t).Failure? ==> r == Failure(TypeFailure(LowerType(t).error))
      ensures types == if t in old(types) || LowerType(t).Failure? then old(types) else old(types)[t := LowerType(t).value]
    {
      if t in types {
        return Success(types[t]);
      }
      var res := LowerType(t);
      if res.Failure? {
        return Failure(TypeFailure(res.error));
      }
      types := types[t := res.value];
      r := Success(res.value);
    }

    /** Adds an instruction other than a control transfer to a target
      block: a phi always, anything else only to a block that is not
      terminated (else IllegalStateException and nothing changes). */
    method Append(tb: TargetBlock, op: LOp) returns (r: Result<LValue, LoweringError>)
      requires Valid() && tb < blockCount && !op.TermOp?
      modifies this`code
      ensures !op.PhiOp? && tb in terminators ==> r == Failure(BlockAlreadyTerminated) && code == old(code)
      ensures op.PhiOp? || tb !in terminators ==> r == Success(Local(|old(code)|)) && code == old(code) + [Emission(tb, op)]
      ensures Valid()
    {
      if !op.PhiOp? && tb in terminators {
        return Failure(BlockAlreadyTerminated);
      }
      r := Success(Local(|code|));
      code := code + [Emission(tb, op)];
    }

    /** `map(BasicBlock)`: the recorded target block of a graph block, or a
      new one, recorded before the graph block's terminator is lowered into
      it. A new block ends with its terminator when that lowering succeeds. */
    method MapBlock(b: GraphBlock, fuel: nat) returns (r: Result<TargetBlock, LoweringError>)
      requires Valid()
      modifies this
      ensures b in old(mappedBlocks) ==> r == Success(old(mappedBlocks[b])) && unchanged(this)
      ensures r.Success? ==> b in mappedBlocks && mappedBlocks[b] == r.value
      ensures b !in old(mappedBlocks) ==> b in mappedBlocks && mappedBlocks[b] == old(blockCount)
      ensures b !in old(mappedBlocks) && r.Success? && !graph.terminator(b).UnknownTerminator? ==>
                r.value in terminators && EndsBlock(code, r.value)
      ensures Valid() && Extends()
      decreases fuel, 1
    {
      if b in mappedBlocks {
        return Success(mappedBlocks[b]);
      }
      var mapped := blockCount;
      blockCount := blockCount + 1;
      mappedBlocks := mappedBlocks[b := mapped];
      owner := owner[mapped := b];
      var t := VisitTerminator(b, fuel);
      if t.Failure? {
        return Failure(t.error);
      }
      r := Success(mapped);
    }

    /** `map(Value)`: a recorded non-null value, or the value's visit, then
      recorded. */
    method MapValue(v: ValueId, fuel: nat) returns (r: Result<LValue, LoweringError>)
      requires Valid()
      modifies this
      ensures v in old(mappedValues) && old(mappedValues[v]) != NullValue ==> r == Success(old(mappedValues[v])) && unchanged(this)
      ensures r.Success? ==> v in mappedValues && mappedValues[v] == r.value
      ensures Valid() && Extends()
      decreases fuel, 1
    {
      if v in mappedValues && mappedValues[v] != NullValue {
        return Success(mappedValues[v]);
      }
      r := VisitValue(v, fuel);
      if r.Failure? {
        return;
      }
      mappedValues := mappedValues[v := r.value];
    }

    // ----- terminators -----

    /** The terminator visits: each maps the block the terminator is in,
      lowers its operands and targets, and adds one control transfer to that
      block. An unrecognised terminator is reported and emits nothing. As
      written, visiting a terminator whose block is not yet mapped lowers it
      twice (the mapping lowers it once) and the second transfer fails. */
    method VisitTerminator(b: GraphBlock, fuel: nat) returns (r: Result<(), LoweringError>)
      requires Valid()
      modifies this
      ensures graph.terminator(b).UnknownTerminator? ==>
                r.Success? && errors == old(errors) + [UnrecognizedTerminator(b)] && code == old(code)
      ensures r.Success? && !graph.terminator(b).UnknownTerminator? ==>
                b in mappedBlocks && mappedBlocks[b] in terminators && EndsBlock(code, mappedBlocks[b])
      ensures r.Success? ==> match graph.terminator(b)
                case GotoNode(t) => t in mappedBlocks && code[|code| - 1].op.term == Br(mappedBlocks[t])
                case IfNode(_, t, f) =>
                  && t in mappedBlocks && f in mappedBlocks && code[|code| - 1].op.term.CondBr?
                  && code[|code| - 1].op.term.ifTrue == mappedBlocks[t] && code[|code| - 1].op.term.ifFalse == mappedBlocks[f]
                case ReturnNode => code[|code| - 1].op.term == RetVoid
                case ValueReturnNode(x) =>
                  && code[|code| - 1].op.term.RetValue?
                  && LowerType(graph.typeOf(x)) == Success(code[|code| - 1].op.term.retType)
                case UnknownTerminator => true
      ensures b !in old(mappedBlocks) && !graph.terminator(b).UnknownTerminator? ==> r.Failure?
      ensures Valid() && Extends()
      decreases fuel, 0
    {
      if graph.terminator(b).UnknownTerminator? {
        errors := errors + [UnrecognizedTerminator(b)];
        return Success(());
      }
      if fuel == 0 {
        return Failure(RecursionTooDeep);
      }
      match graph.terminator(b) {
        case GotoNode(target) =>
          r := VisitGoto(b, target, fuel - 1);
        case IfNode(condition, trueBranch, falseBranch) =>
          r := VisitIf(b, condition, trueBranch, falseBranch, fuel - 1);
        case ReturnNode =>
          r := VisitReturn(b, fuel - 1);
        case ValueReturnNode(returnValue) =>
          r := VisitValueReturn(b, returnValue, fuel - 1);
      }
    }

    /** `Goto`: the block, then the resume target; `br` to the target. */
    method VisitGoto(b: GraphBlock, target: GraphBlock, fuel: nat) returns (r: Result<(), LoweringError>)
      requires Valid() && graph.terminator(b) == GotoNode(target)
      modifies this
      ensures r.Success? ==>
                && b in mappedBlocks && mappedBlocks[b] in terminators && EndsBlock(code, mappedBlocks[b])
                && target in mappedBlocks && code[|code| - 1].op.term == Br(mappedBlocks[target])
      ensures b !in old(mappedBlocks) ==> r.Failure?
      ensures Valid() && Extends()
      decreases fuel, 2
    {
      var tb := MapBlock(b, fuel);
      if tb.Failure? {
        return Failure(tb.error);
      }
      var dest := MapBlock(target, fuel);
      if dest.Failure? {
        return Failure(dest.error);
      }
      r := Terminate(tb.value, Br(dest.value));
    }

    /** `If`: the block, then the condition and both branches; a conditional `br`. */
    method VisitIf(b: GraphBlock, condition: ValueId, trueBranch: GraphBlock, falseBranch: GraphBlock, fuel: nat)
      returns (r: Result<(), LoweringError>)
      requires Valid() && graph.terminator(b) == IfNode(condition, trueBranch, falseBranch)
      modifies this
      ensures r.Success? ==>
                && b in mappedBlocks && mappedBlocks[b] in terminators && EndsBlock(code, mappedBlocks[b])
                && trueBranch in mappedBlocks && falseBranch in mappedBlocks && code[|code| - 1].op.term.CondBr?
                && code[|code| - 1].op.term.ifTrue == mappedBlocks[trueBranch]
                && code[|code| - 1].op.term.ifFalse == mappedBlocks[falseBranch]
      ensures b !in old(mappedBlocks) ==> r.Failure?
      ensures Valid() && Extends()
      decreases fuel, 3
    {
      var tb := MapBlock(b, fuel);
      if tb.Failure? {
        return Failure(tb.error);
      }
      var targets := MapBranches(condition, trueBranch, falseBranch, fuel);
      if targets.Failure? {
        return Failure(targets.error);
      }
      var (cond, ifTrue, ifFalse) := targets.value;
      r := Terminate(tb.value, CondBr(cond, ifTrue, ifFalse));
    }

    /** The condition, the true branch and the false branch of an `If`, mapped in that order. */
    method MapBranches(condition: ValueId, trueBranch: GraphBlock, falseBranch: GraphBlock, fuel: nat)
      returns (r: Result<(LValue, TargetBlock, TargetBlock), LoweringError>)
      requires Valid()
      modifies this
      ensures r.Success? ==>
                && trueBranch in mappedBlocks && mappedBlocks[trueBranch] == r.value.1
                && falseBranch in mappedBlocks && mappedBlocks[falseBranch] == r.value.2
      ensures Valid() && Extends()
      decreases fuel, 2
    {
      var cond := MapValue(condition, fuel);
      if cond.Failure? {
        return Failure(cond.error);
      }
      var ifTrue := MapBlock(trueBranch, fuel);
      if ifTrue.Failure? {
        return Failure(ifTrue.error);
      }
      var ifFalse := MapBlock(falseBranch, fuel);
      if ifFalse.Failure? {
        return Failure(ifFalse.error);
      }
      r := Success((cond.value, ifTrue.value, ifFalse.value));
    }

    /** `Return`: the block; `ret void`. */
    method VisitReturn(b: GraphBlock, fuel: nat) returns (r: Result<(), LoweringError>)
      requires Valid() && graph.terminator(b) == ReturnNode
      modifies this
      ensures r.Success? ==>
                && b in mappedBlocks && mappedBlocks[b] in terminators && EndsBlock(code, mappedBlocks[b])
                && code[|code| - 1].op.term == RetVoid
      ensures b !in old(mappedBlocks) ==> r.Failure?
      ensures Valid() && Extends()
      decreases fuel, 2
    {
      var tb := MapBlock(b, fuel);
      if tb.Failure? {
        return Failure(tb.error);
      }
      r := Terminate(tb.value, RetVoid);
    }

    /** `ValueReturn`: the block, the returned value's type and the value; `ret` of that value. */
    method VisitValueReturn(b: GraphBlock, returnValue: ValueId, fuel: nat) returns (r: Result<(), LoweringError>)
      requires Valid() && graph.terminator(b) == ValueReturnNode(returnValue)
      modifies this
      ensures r.Success? ==>
                && b in mappedBlocks && mappedBlocks[b] in terminators && EndsBlock(code, mappedBlocks[b])
                && code[|code| - 1].op.term.RetValue?
                && LowerType(graph.typeOf(returnValue)) == Success(code[|code| - 1].op.term.retType)
      ensures b !in old(mappedBlocks) ==> r.Failure?
      ensures Valid() && Extends()
      decreases fuel, 3
    {
      var tb := MapBlock(b, fuel);
      if tb.Failure? {
        return Failure(tb.error);
      }
      var typed := MapTyped(returnValue, fuel);
      if typed.Failure? {
        return Failure(typed.error);
      }
      r := Terminate(tb.value, RetValue(typed.value.0, typed.value.1));
    }

    /** A value's type, then the value. */
    method MapTyped(x: ValueId, fuel: nat) returns (r: Result<(LType, LValue), LoweringError>)
      requires Valid()
      modifies this
      ensures r.Success? ==> LowerType(graph.typeOf(x)) == Success(r.value.0)
      ensures Valid() && Extends()
      decreases fuel, 2
    {
      var t := MapType(graph.typeOf(x));
      if t.Failure? {
        return Failure(t.error);
      }
      var value := MapValue(x, fuel);
      if value.Failure? {
        return Failure(value.error);
      }
      r := Success((t.value, value.value));
    }

    /** Adds a control transfer to a target block and so terminates it;
      on a block already terminated, IllegalStateException and nothing changes. */
    method Terminate(tb: TargetBlock, term: LTerm) returns (r: Result<(), LoweringError>)
      requires Valid() && tb < blockCount
      modifies this`code, this`terminators
      ensures tb in old(terminators) ==>
                r == Failure(BlockAlreadyTerminated) && code == old(code) && terminators == old(terminators)
      ensures tb !in old(terminators) ==>
                && r == Success(())
                && code == old(code) + [Emission(tb, TermOp(term))]
                && terminators == old(terminators)[tb := |old(code)|]
      ensures Valid() && Extends()
    {
      if tb in terminators {
        return Failure(BlockAlreadyTerminated);
      }
      code := code + [Emission(tb, TermOp(term))];
      terminators := terminators[tb := |code| - 1];
      r := Success(());
    }

    // ----- values -----

    /** What a successful visit of v yields: for a computed value, the
      result of the last instruction of the log, added to the block v is
      scheduled in and chosen from the types as the selection functions say;
      for a phi, a phi whose items match the known blocks with a value. */
    ghost predicate LoweredValue(v: ValueId, r: LValue)
      reads this
    {
      match graph.node(v)
      case BinaryValue(kind, _, _) =>
        && graph.blockOf(v) in mappedBlocks && ProducedLast(code, mappedBlocks[graph.blockOf(v)], r)
        && code[|code| - 1].op.Compute? && |code[|code| - 1].op.operands| == 2
        && code[|code| - 1].op.instr == SelectBinary(kind, graph.typeOf(v))
        && LowerType(graph.typeOf(v)) == Success(code[|code| - 1].op.operandType)
      case NegValue(input) =>
        && graph.blockOf(v) in mappedBlocks && ProducedLast(code, mappedBlocks[graph.blockOf(v)], r)
        && code[|code| - 1].op.Compute? && code[|code| - 1].op.instr == FNeg
        && LowerType(graph.typeOf(input)) == Success(code[|code| - 1].op.operandType)
      case CastValue(kind, input) =>
        && graph.blockOf(v) in mappedBlocks && ProducedLast(code, mappedBlocks[graph.blockOf(v)], r)
        && code[|code| - 1].op.Cast?
        && code[|code| - 1].op.castInstr == SelectCast(kind, graph.typeOf(input), graph.typeOf(v))
        && LowerType(graph.typeOf(input)) == Success(code[|code| - 1].op.fromType)
        && LowerType(graph.typeOf(v)) == Success(code[|code| - 1].op.toType)
      case SelectValue(condition, trueValue, _) =>
        && graph.blockOf(v) in mappedBlocks && ProducedLast(code, mappedBlocks[graph.blockOf(v)], r)
        && code[|code| - 1].op.SelectOp?
        && LowerType(graph.typeOf(trueValue)) == Success(code[|code| - 1].op.valueType)
        && LowerType(graph.typeOf(condition)) == Success(code[|code| - 1].op.condType)
      case PhiValue(incoming) =>
        && r.Local? && r.index in phiItems
        && ItemsMatch(phiItems[r.index], WithValue(graph.knownBlocks, incoming), mappedBlocks)
      case CatchValue => r == NullValue
      case IntegerLiteral(value) => r == IntConstant(value)
      case UnknownValue => r == FalseConstant
    }

    /** The value visits. A catch yields null, an integer literal its
      constant, and an unrecognised value is reported and yields `false`,
      all without emitting; every other value adds one instruction, chosen
      from the types as the selection functions say, to its scheduled block
      and yields that instruction's result. */
    method VisitValue(v: ValueId, fuel: nat) returns (r: Result<LValue, LoweringError>)
      requires Valid()
      modifies this
      ensures graph.node(v).CatchValue? ==> r == Success(NullValue) && unchanged(this)
      ensures graph.node(v).IntegerLiteral? ==> r == Success(IntConstant(graph.node(v).longValue)) && unchanged(this)
      ensures graph.node(v).UnknownValue? ==>
                r == Success(FalseConstant) && errors == old(errors) + [UnrecognizedValue(v)] && code == old(code)
      ensures r.Success? ==> LoweredValue(v, r.value)
      ensures Valid() && Extends()
      decreases fuel, 0
    {
      match graph.node(v) {
        case CatchValue =>
          return Success(NullValue);
        case IntegerLiteral(value) =>
          return Success(IntConstant(value));
        case UnknownValue =>
          errors := errors + [UnrecognizedValue(v)];
          return Success(FalseConstant);
        case _ =>
      }
      if fuel == 0 {
        return Failure(RecursionTooDeep);
      }
      r := VisitComputed(v, fuel - 1);
    }

    /** The visits of the values that emit an instruction. */
    method VisitComputed(v: ValueId, fuel: nat) returns (r: Result<LValue, LoweringError>)
      requires Valid()
      requires !graph.node(v).CatchValue? && !graph.node(v).IntegerLiteral? && !graph.node(v).UnknownValue?
      modifies this
      ensures r.Success? ==> LoweredValue(v, r.value)
      ensures Valid() && Extends()
      decreases fuel, 7
    {
      match graph.node(v) {
        case BinaryValue(kind, left, right) =>
          if kind in {AndNode, OrNode, XorNode, ShlNode, SubNode} {
            r := VisitBitwise(v, kind, left, right, fuel);
          } else {
            r := VisitArithmetic(v, kind, left, right, fuel);
          }
        case NegValue(input) =>
          r := VisitNeg(v, input, fuel);
        case CastValue(kind, input) =>
          r := VisitCast(v, kind, input, fuel);
        case SelectValue(condition, trueValue, falseValue) =>
          r := VisitSelect(v, condition, trueValue, falseValue, fuel);
        case PhiValue(incoming) =>
          r := VisitPhi(v, incoming, fuel);
      }
    }

    /** Add, multiply, comparisons, shift right, divide and remainder: map
      the node's type, the operands and the block, in that order. */
    method VisitArithmetic(v: ValueId, kind: BinaryKind, left: ValueId, right: ValueId, fuel: nat) returns (r: Result<LValue, LoweringError>)
      requires Valid()
      modifies this
      ensures r.Success? ==>
                && graph.blockOf(v) in mappedBlocks && ProducedLast(code, mappedBlocks[graph.blockOf(v)], r.value)
                && code[|code| - 1].op.Compute? && |code[|code| - 1].op.operands| == 2
                && code[|code| - 1].op.instr == SelectBinary(kind, graph.typeOf(v))
                && LowerType(graph.typeOf(v)) == Success(code[|code| - 1].op.operandType)
      ensures Valid() && Extends()
      decreases fuel, 5
    {
      var operandType := MapType(graph.typeOf(v));
      if operandType.Failure? {
        return Failure(operandType.error);
      }
      r := EmitBinary(v, left, right, SelectBinary(kind, graph.typeOf(v)), operandType.value, fuel);
    }

    /** Maps both operands and the block, then adds the instruction. */
    method EmitBinary(v: ValueId, left: ValueId, right: ValueId, instr: Instr, operandType: LType, fuel: nat)
      returns (r: Result<LValue, LoweringError>)
      requires Valid()
      modifies this
      ensures r.Success? ==>
                && graph.blockOf(v) in mappedBlocks && ProducedLast(code, mappedBlocks[graph.blockOf(v)], r.value)
                && code[|code| - 1].op.Compute? && |code[|code| - 1].op.operands| == 2
                && code[|code| - 1].op.instr == instr && code[|code| - 1].op.operandType == operandType
      ensures Valid() && Extends()
      decreases fuel, 4
    {
      var operands := MapOperands(v, left, right, fuel);
      if operands.Failure? {
        return Failure(operands.error);
      }
      var (l, rt, tb) := operands.value;
      r := Append(tb, Compute(instr, operandType, [l, rt]));
    }

    /** And, or, xor, shift left and subtract: map the operands, the block
      and then the node's type. */
    method VisitBitwise(v: ValueId, kind: BinaryKind, left: ValueId, right: ValueId, fuel: nat) returns (r: Result<LValue, LoweringError>)
      requires Valid()
      modifies this
      ensures r.Success? ==>
                && graph.blockOf(v) in mappedBlocks && ProducedLast(code, mappedBlocks[graph.blockOf(v)], r.value)
                && code[|code| - 1].op.Compute? && |code[|code| - 1].op.operands| == 2
                && code[|code| - 1].op.instr == SelectBinary(kind, graph.typeOf(v))
                && LowerType(graph.typeOf(v)) == Success(code[|code| - 1].op.operandType)
      ensures Valid() && Extends()
      decreases fuel, 4
    {
      var operands := MapOperands(v, left, right, fuel);
      if operands.Failure? {
        return Failure(operands.error);
      }
      var (l, rt, tb) := operands.value;
      r := EmitTyped(tb, graph.typeOf(v), SelectBinary(kind, graph.typeOf(v)), [l, rt]);
    }

    /** Maps a type, then adds an instruction computing on operands of that type. */
    method EmitTyped(tb: TargetBlock, t: NodeType, instr: Instr, operands: seq<LValue>) returns (r: Result<LValue, LoweringError>)
      requires Valid() && tb < blockCount
      modifies this`types, this`code
      ensures r.Success? ==>
                && ProducedLast(code, tb, r.value)
                && LowerType(t).Success? && code[|code| - 1].op == Compute(instr, LowerType(t).value, operands)
      ensures Valid() && Extends()
    {
      var operandType := MapType(t);
      if operandType.Failure? {
        return Failure(operandType.error);
      }
      r := Append(tb, Compute(instr, operandType.value, operands));
    }

    /** The left operand, the right operand and the node's block, mapped in that order. */
    method MapOperands(v: ValueId, left: ValueId, right: ValueId, fuel: nat)
      returns (r: Result<(LValue, LValue, TargetBlock), LoweringError>)
      requires Valid()
      modifies this
      ensures r.Success? ==> graph.blockOf(v) in mappedBlocks && mappedBlocks[graph.blockOf(v)] == r.value.2
      ensures Valid() && Extends()
      decreases fuel, 3
    {
      var l := MapValue(left, fuel);
      if l.Failure? {
        return Failure(l.error);
      }
      var rt := MapValue(right, fuel);
      if rt.Failure? {
        return Failure(rt.error);
      }
      var tb := MapBlock(graph.blockOf(v), fuel);
      if tb.Failure? {
        return Failure(tb.error);
      }
      r := Success((l.value, rt.value, tb.value));
    }

    /** The input of a unary node, then the node's block. */
    method MapInput(v: ValueId, input: ValueId, fuel: nat) returns (r: Result<(LValue, TargetBlock), LoweringError>)
      requires Valid()
      modifies this
      ensures r.Success? ==> graph.blockOf(v) in mappedBlocks && mappedBlocks[graph.blockOf(v)] == r.value.1
      ensures Valid() && Extends()
      decreases fuel, 3
    {
      var x := MapValue(input, fuel);
      if x.Failure? {
        return Failure(x.error);
      }
      var tb := MapBlock(graph.blockOf(v), fuel);
      if tb.Failure? {
        return Failure(tb.error);
      }
      r := Success((x.value, tb.value));
    }

    /** `Neg`: maps the input's type, the input and the block, and emits `fneg`. */
    method VisitNeg(v: ValueId, input: ValueId, fuel: nat) returns (r: Result<LValue, LoweringError>)
      requires Valid()
      modifies this
      ensures r.Success? ==>
                && graph.blockOf(v) in mappedBlocks && ProducedLast(code, mappedBlocks[graph.blockOf(v)], r.value)
                && code[|code| - 1].op.Compute? && code[|code| - 1].op.instr == FNeg
                && LowerType(graph.typeOf(input)) == Success(code[|code| - 1].op.operandType)
      ensures Valid() && Extends()
      decreases fuel, 5
    {
      var inputType := MapType(graph.typeOf(input));
      if inputType.Failure? {
        return Failure(inputType.error);
      }
      r := EmitUnary(v, input, SelectNeg(graph.typeOf(input)), inputType.value, fuel);
    }

    /** Maps the input and the block, then adds the one-operand instruction. */
    method EmitUnary(v: ValueId, input: ValueId, instr: Instr, operandType: LType, fuel: nat)
      returns (r: Result<LValue, LoweringError>)
      requires Valid()
      modifies this
      ensures r.Success? ==>
                && graph.blockOf(v) in mappedBlocks && ProducedLast(code, mappedBlocks[graph.blockOf(v)], r.value)
                && code[|code| - 1].op.Compute? && code[|code| - 1].op.instr == instr
                && code[|code| - 1].op.operandType == operandType
      ensures Valid() && Extends()
      decreases fuel, 4
    {
      var x := MapInput(v, input, fuel);
      if x.Failure? {
        return Failure(x.error);
      }
      r := Append(x.value.1, Compute(instr, operandType, [x.value.0]));
    }

    /** `BitCast`, `Convert`, `Extend`, `Truncate`: map the input's type, the
      node's type, the input and the block. */
    method VisitCast(v: ValueId, kind: CastKind, input: ValueId, fuel: nat) returns (r: Result<LValue, LoweringError>)
      requires Valid()
      modifies this
      ensures r.Success? ==>
                && graph.blockOf(v) in mappedBlocks && ProducedLast(code, mappedBlocks[graph.blockOf(v)], r.value)
                && code[|code| - 1].op.Cast?
                && code[|code| - 1].op.castInstr == SelectCast(kind, graph.typeOf(input), graph.typeOf(v))
                && LowerType(graph.typeOf(input)) == Success(code[|code| - 1].op.fromType)
                && LowerType(graph.typeOf(v)) == Success(code[|code| - 1].op.toType)
      ensures Valid() && Extends()
      decreases fuel, 6
    {
      var inputType := MapType(graph.typeOf(input));
      if inputType.Failure? {
        return Failure(inputType.error);
      }
      r := EmitConversion(v, kind, input, inputType.value, fuel);
    }

    /** The rest of a conversion: the node's type, then the input and the block. */
    method EmitConversion(v: ValueId, kind: CastKind, input: ValueId, fromType: LType, fuel: nat) returns (r: Result<LValue, LoweringError>)
      requires Valid()
      modifies this
      ensures r.Success? ==>
                && graph.blockOf(v) in mappedBlocks && ProducedLast(code, mappedBlocks[graph.blockOf(v)], r.value)
                && code[|code| - 1].op.Cast?
                && code[|code| - 1].op.castInstr == SelectCast(kind, graph.typeOf(input), graph.typeOf(v))
                && code[|code| - 1].op.fromType == fromType
                && LowerType(graph.typeOf(v)) == Success(code[|code| - 1].op.toType)
      ensures Valid() && Extends()
      decreases fuel, 5
    {
      var outputType := MapType(graph.typeOf(v));
      if outputType.Failure? {
        return Failure(outputType.error);
      }
      r := EmitCast(v, input, SelectCast(kind, graph.typeOf(input), graph.typeOf(v)), fromType, outputType.value, fuel);
    }

    /** Maps the input and the block, then adds the conversion. */
    method EmitCast(v: ValueId, input: ValueId, instr: Instr, fromType: LType, toType: LType, fuel: nat)
      returns (r: Result<LValue, LoweringError>)
      requires Valid()
      modifies this
      ensures r.Success? ==>
                && graph.blockOf(v) in mappedBlocks && ProducedLast(code, mappedBlocks[graph.blockOf(v)], r.value)
                && code[|code| - 1].op.Cast? && code[|code| - 1].op.castInstr == instr
                && code[|code| - 1].op.fromType == fromType && code[|code| - 1].op.toType == toType
      ensures Valid() && Extends()
      decreases fuel, 4
    {
      var x := MapInput(v, input, fuel);
      if x.Failure? {
        return Failure(x.error);
      }
      r := Append(x.value.1, Cast(instr, fromType, x.value.0, toType));
    }

    /** `Select`: maps the true value's type, then the block, and then the
      rest of the instruction. */
    method VisitSelect(v: ValueId, condition: ValueId, trueValue: ValueId, falseValue: ValueId, fuel: nat)
      returns (r: Result<LValue, LoweringError>)
      requires Valid()
      modifies this
      ensures r.Success? ==>
                && graph.blockOf(v) in mappedBlocks && ProducedLast(code, mappedBlocks[graph.blockOf(v)], r.value)
                && code[|code| - 1].op.SelectOp?
                && LowerType(graph.typeOf(trueValue)) == Success(code[|code| - 1].op.valueType)
                && LowerType(graph.typeOf(condition)) == Success(code[|code| - 1].op.condType)
      ensures Valid() && Extends()
      decreases fuel, 4
    {
      var valueType := MapType(graph.typeOf(trueValue));
      if valueType.Failure? {
        return Failure(valueType.error);
      }
      var tb := MapBlock(graph.blockOf(v), fuel);
      if tb.Failure? {
        return Failure(tb.error);
      }
      r := EmitSelect(tb.value, condition, trueValue, falseValue, valueType.value, fuel);
    }

    /** The rest of `Select`: the condition's type, the condition, the true
      value and the false value, then the `select` itself. */
    method EmitSelect(tb: TargetBlock, condition: ValueId, trueValue: ValueId, falseValue: ValueId, valueType: LType, fuel: nat)
      returns (r: Result<LValue, LoweringError>)
      requires Valid() && tb < blockCount
      modifies this
      ensures r.Success? ==>
                && ProducedLast(code, tb, r.value)
                && code[|code| - 1].op.SelectOp? && code[|code| - 1].op.valueType == valueType
                && LowerType(graph.typeOf(condition)) == Success(code[|code| - 1].op.condType)
      ensures Valid() && Extends()
      decreases fuel, 3
    {
      var cond := MapTyped(condition, fuel);
      if cond.Failure? {
        return Failure(cond.error);
      }
      var values := MapChoices(trueValue, falseValue, fuel);
      if values.Failure? {
        return Failure(values.error);
      }
      r := Append(tb, SelectOp(cond.value.0, cond.value.1, valueType, values.value.0, values.value.1));
    }

    /** The true value, then the false value, of a `Select`. */
    method MapChoices(trueValue: ValueId, falseValue: ValueId, fuel: nat) returns (r: Result<(LValue, LValue), LoweringError>)
      requires Valid()
      modifies this
      ensures Valid() && Extends()
      decreases fuel, 2
    {
      var ifTrue := MapValue(trueValue, fuel);
      if ifTrue.Failure? {
        return Failure(ifTrue.error);
      }
      var ifFalse := MapValue(falseValue, fuel);
      if ifFalse.Failure? {
        return Failure(ifFalse.error);
      }
      r := Success((ifTrue.value, ifFalse.value));
    }

    /** `PhiValue`: maps the block and the type, adds the phi, records it as
      the node's value, and only then visits the incoming values. */
    method VisitPhi(v: ValueId, incoming: GraphBlock -> Option<ValueId>, fuel: nat) returns (r: Result<LValue, LoweringError>)
      requires Valid()
      modifies this
      ensures r.Success? ==>
                && r.value.Local? && r.value.index in phiItems
                && ItemsMatch(phiItems[r.value.index], WithValue(graph.knownBlocks, incoming), mappedBlocks)
      ensures Valid() && Extends()
      decreases fuel, 5
    {
      var tb := MapBlock(graph.blockOf(v), fuel);
      if tb.Failure? {
        return Failure(tb.error);
      }
      var p := RegisterPhi(v, tb.value);
      if p.Failure? {
        return Failure(p.error);
      }
      var added := AddIncoming(p.value, incoming, fuel);
      if added.Failure? {
        return Failure(added.error);
      }
      r := Success(Local(p.value));
    }

    /** Maps the type of v and adds a phi of that type to a block, with no
      items yet, recorded as the value of v. */
    method RegisterPhi(v: ValueId, tb: TargetBlock) returns (r: Result<nat, LoweringError>)
      requires Valid() && tb < blockCount
      modifies this`types, this`code, this`terminators, this`phiItems, this`mappedValues
      ensures LowerType(graph.typeOf(v)).Failure? ==> r == Failure(TypeFailure(LowerType(graph.typeOf(v)).error))
      ensures r.Success? ==>
                && LowerType(graph.typeOf(v)).Success?
                && r.value == |old(code)| && code == old(code) + [Emission(tb, PhiOp(LowerType(graph.typeOf(v)).value))]
                && r.value !in old(phiItems) && phiItems == old(phiItems)[r.value := []]
                && mappedValues == old(mappedValues)[v := Local(r.value)]
      ensures Valid() && Extends()
    {
      var phiType := MapType(graph.typeOf(v));
      if phiType.Failure? {
        return Failure(phiType.error);
      }
      var p := AddPhi(v, tb, phiType.value);
      r := Success(p);
    }

    /** `phi(type)` on a block, and the phi recorded as the value of v. */
    method AddPhi(v: ValueId, tb: TargetBlock, phiType: LType) returns (p: nat)
      requires Valid() && tb < blockCount
      modifies this`code, this`phiItems, this`mappedValues
      ensures p == |old(code)| && code == old(code) + [Emission(tb, PhiOp(phiType))]
      ensures p !in old(phiItems) && phiItems == old(phiItems)[p := []]
      ensures mappedValues == old(mappedValues)[v := Local(p)]
      ensures Valid() && Extends()
    {
      p := |code|;
      var e := Append(tb, PhiOp(phiType));
      phiItems := phiItems[p := []];
      mappedValues := mappedValues[v := Local(p)];
    }

    /** The incoming loop of `PhiValue`: for each known block in turn with a
      value, visits the value, maps it and the block, and adds one item. */
    method AddIncoming(p: nat, incoming: GraphBlock -> Option<ValueId>, fuel: nat) returns (r: Result<(), LoweringError>)
      requires Valid() && p in phiItems && phiItems[p] == []
      modifies this
      ensures r.Success? ==> p in phiItems && ItemsMatch(phiItems[p], WithValue(graph.knownBlocks, incoming), mappedBlocks)
      ensures Valid() && ExtendsOutside(p)
      decreases fuel, 4
    {
      var known := graph.knownBlocks;
      for j := 0 to |known|
        invariant p in phiItems && ItemsMatch(phiItems[p], WithValue(known[..j], incoming), mappedBlocks)
        invariant Valid() && ExtendsOutside(p)
      {
        WithValueSnoc(known, j, incoming);
        var value := incoming(known[j]);
        if value.Some? {
          var added := AddIncomingItem(p, WithValue(known[..j], incoming), known[j], value.value, fuel);
          if added.Failure? {
            return Failure(added.error);
          }
        }
      }
      assert known[..|known|] == known;
      r := Success(());
    }

    /** One known block with a value: its item is added after the items
      of the blocks before it. */
    method AddIncomingItem(p: nat, ghost blocks: seq<GraphBlock>, kb: GraphBlock, value: ValueId, fuel: nat)
      returns (r: Result<(), LoweringError>)
      requires Valid() && p in phiItems && ItemsMatch(phiItems[p], blocks, mappedBlocks)
      modifies this
      ensures r.Success? ==> p in phiItems && ItemsMatch(phiItems[p], blocks + [kb], mappedBlocks)
      ensures Valid() && ExtendsOutside(p)
      decreases fuel, 3
    {
      ghost var before, items := mappedBlocks, phiItems[p];
      var item := VisitIncoming(value, kb, fuel);
      if item.Failure? {
        return Failure(item.error);
      }
      ItemsMatchGrows(items, blocks, before, mappedBlocks);
      AddItem(p, item.value);
      ItemsMatchSnoc(items, blocks, kb, item.value, mappedBlocks);
      r := Success(());
    }

    /** One known block's part of the incoming loop: visits the value, then
      maps it and the block; the item pairs the two. */
    method VisitIncoming(value: ValueId, kb: GraphBlock, fuel: nat) returns (r: Result<PhiIncoming, LoweringError>)
      requires Valid()
      modifies this
      ensures r.Success? ==> kb in mappedBlocks && r.value.from == mappedBlocks[kb]
      ensures Valid() && Extends()
      decreases fuel, 2
    {
      var visited := VisitValue(value, fuel);
      if visited.Failure? {
        return Failure(visited.error);
      }
      var mv := MapValue(value, fuel);
      if mv.Failure? {
        return Failure(mv.error);
      }
      var mb := MapBlock(kb, fuel);
      if mb.Failure? {
        return Failure(mb.error);
      }
      r := Success(PhiIncoming(mv.value, mb.value));
    }

    /** `phi.item(value, block)`. */
    method AddItem(p: nat, item: PhiIncoming)
      requires Valid() && p in phiItems
      modifies this`phiItems
      ensures phiItems == old(phiItems)[p := old(phiItems[p]) + [item]]
      ensures Valid() && ExtendsOutside(p)
    {
      phiItems := phiItems[p := phiItems[p] + [item]];
    }

    // ----- actions and the entry point -----

    /** The action visits: a block entry does nothing, any other action is reported. */
    method VisitAction(a: ActionNode)
      modifies this`errors
      ensures errors == old(errors) + (if a.UnknownAction? then [UnrecognizedAction] else [])
    {
      if a.UnknownAction? {
        errors := errors + [UnrecognizedAction];
      }
    }

    /** `execute()` as written: visits the entry block's terminator, whose
      first step maps the entry block and so lowers the same terminator;
      the visit's own control transfer then meets a terminated block. */
    method ExecuteAsWritten(fuel: nat) returns (r: Result<(), LoweringError>)
      requires Valid() && graph.entryBlock !in mappedBlocks
      modifies this
      ensures !graph.terminator(graph.entryBlock).UnknownTerminator? ==> r.Failure?
      ensures Valid() && Extends()
    {
      r := VisitTerminator(graph.entryBlock, fuel);
    }

    /** `execute()` as intended: maps the entry block, which lowers its
      terminator once; on success the entry block ends with its only
      terminator. */
    method Execute(fuel: nat) returns (r: Result<TargetBlock, LoweringError>)
      requires Valid() && graph.entryBlock !in mappedBlocks
      modifies this
      ensures r.Success? ==> graph.entryBlock in mappedBlocks && mappedBlocks[graph.entryBlock] == r.value
      ensures r.Success? && !graph.terminator(graph.entryBlock).UnknownTerminator? ==>
                && r.value in terminators
                && EndsBlock(code, r.value)
                && forall i :: 0 <= i < |code| - 1 && code[i].block == r.value ==> !code[i].op.TermOp?
      ensures Valid() && Extends()
    {
      r := MapBlock(graph.entryBlock, fuel);
    }
  }
}
