/** A basic block of the LLVM textual-IR builder: phis and ordinary
    instructions kept in two lists in call order, a `terminated` flag that
    admits one terminator and nothing after it, and emission of the chain of
    preceding blocks followed by this one. Instruction operands are opaque
    value references; block names and the text of each instruction are not
    modelled, only which lines are emitted in which order. */
module LLVMBlocks {
  import opened Wrappers

  /** An operand (an LLVM value or type) or a block reference. */
  type ValueRef = nat
  type BlockRef = nat

  datatype IntCondition = Eq | Ne | Ugt | Uge | Ult | Ule | Sgt | Sge | Slt | Sle

  datatype BinaryOp = Add | Sub | Mul | Shl | Udiv | Sdiv | Lshr | Ashr | And | Or | Xor | Urem | Srem

  /** The non-terminating instructions the block builds. */
  datatype Operation =
    | Assign(value: ValueRef)
    | Select(condType: ValueRef, cond: ValueRef, valueType: ValueRef, trueValue: ValueRef, falseValue: ValueRef)
    | Binary(op: BinaryOp, opType: ValueRef, arg1: ValueRef, arg2: ValueRef)
    | Icmp(condition: IntCondition, cmpType: ValueRef, lhs: ValueRef, rhs: ValueRef)
    | Call(callType: ValueRef, callee: ValueRef)
    | Load(loadType: ValueRef, loadPointeeType: ValueRef, loadPointer: ValueRef)
    | Store(storeType: ValueRef, storedValue: ValueRef, storePointeeType: ValueRef, storePointer: ValueRef)
    | Fence(ordering: nat)

  /** The terminators: `br`, conditional `br`, `ret`, `ret` of a value, `unreachable`. */
  datatype Terminator =
    | Br(dest: BlockRef)
    | CondBr(brCond: ValueRef, ifTrue: BlockRef, ifFalse: BlockRef)
    | RetVoid
    | RetValue(retType: ValueRef, retValue: ValueRef)
    | Unreachable

  /** An entry of the `items` list. */
  datatype Item = OpItem(op: Operation) | TermItem(term: Terminator)

  /** An entry of the `phis` list: a phi of a type. */
  datatype PhiItem = PhiItem(phiType: ValueRef)

  /** One emitted line: a block label, a phi, or an item. */
  datatype Line = LabelLine(block: BlockRef) | PhiLine(phi: PhiItem) | ItemLine(item: Item)

  datatype BlockError = AlreadyTerminated | NotTerminated | Unsupported

  /** What emission produced: the lines appended to the target, and whether
      it stopped with IllegalStateException (the lines then are those
      appended before the failure). */
  datatype Emitted = Emitted(lines: seq<Line>, failed: bool)

  function PhiLines(ps: seq<PhiItem>): (ls: seq<Line>)
    ensures |ls| == |ps| && forall i :: 0 <= i < |ps| ==> ls[i] == PhiLine(ps[i])
  {
    if ps == [] then [] else [PhiLine(ps[0])] + PhiLines(ps[1..])
  }

  function ItemLines(its: seq<Item>): (ls: seq<Line>)
    ensures |ls| == |its| && forall i :: 0 <= i < |its| ==> ls[i] == ItemLine(its[i])
  {
    if its == [] then [] else [ItemLine(its[0])] + ItemLines(its[1..])
  }

  predicate IsTerminatorLine(l: Line) {
    l.ItemLine? && l.item.TermItem?
  }

  /** The number of terminator lines. */
  function TerminatorCount(ls: seq<Line>): nat {
    if ls == [] then 0 else (if IsTerminatorLine(ls[0]) then 1 else 0) + TerminatorCount(ls[1..])
  }

  lemma {:induction false} TerminatorCountAppend(a: seq<Line>, b: seq<Line>)
    ensures TerminatorCount(a + b) == TerminatorCount(a) + TerminatorCount(b)
  {
    if a == [] {
      assert a + b == b;
    } else {
      assert (a + b)[1..] == a[1..] + b;
      TerminatorCountAppend(a[1..], b);
    }
  }

  lemma {:induction false} NoTerminatorLines(ls: seq<Line>)
    requires forall i :: 0 <= i < |ls| ==> !IsTerminatorLine(ls[i])
    ensures TerminatorCount(ls) == 0
  {
    if ls != [] {
      NoTerminatorLines(ls[1..]);
    }
  }

  /** Items are well formed for a termination state: no terminator before the
      last item, and the last item is a terminator exactly when the block is terminated. */
  predicate ItemsWellFormed(items: seq<Item>, terminated: bool) {
    && (forall i :: 0 <= i < |items| - 1 ==> items[i].OpItem?)
    && (terminated <==> |items| > 0 && items[|items| - 1].TermItem?)
  }

  class BasicBlockImpl {
    const id: BlockRef
    const prev: BasicBlockImpl?
    /** Whether this is its function's root block, which is emitted without a label. */
    const isRoot: bool
    var phis: seq<PhiItem>
    var items: seq<Item>
    var terminated: bool
    /** The blocks before this one, and the length of that chain. */
    ghost const before: set<object>
    ghost const depth: nat

    /** The chain of preceding blocks is finite and `before` holds exactly its blocks. */
    ghost predicate Chained()
      decreases depth
    {
      if prev == null then before == {}
      else before == {prev} + prev.before && prev.depth < depth && prev.Chained()
    }

    predicate Valid()
      reads this
    {
      ItemsWellFormed(items, terminated)
    }

    constructor (id: BlockRef, prev: BasicBlockImpl?, isRoot: bool)
      requires prev != null ==> prev.Chained()
      ensures this.id == id && this.prev == prev && this.isRoot == isRoot
      ensures phis == [] && items == [] && !terminated
      ensures Chained() && Valid()
    {
      this.id := id;
      this.prev := prev;
      this.isRoot := isRoot;
      phis := [];
      items := [];
      terminated := false;
      before := if prev == null then {} else {prev} + prev.before;
      depth := if prev == null then 0 else prev.depth + 1;
    }

    /** `phi(type)`: appends a phi whatever the termination state and changes nothing else. */
    method Phi(phiType: ValueRef) returns (index: nat)
      requires Valid()
      modifies this
      ensures Valid()
      ensures phis == old(phis) + [PhiItem(phiType)] && index == |old(phis)|
      ensures items == old(items) && terminated == old(terminated)
    {
      index := |phis|;
      phis := phis + [PhiItem(phiType)];
    }

    /** Every non-terminating builder (`assign`, `select`, `add` ... `srem`,
      `icmp`, `call`, `load`, `store`, `fence`): fails on a terminated block
      without changing it, else appends the instruction to `items`. */
    method Emit(op: Operation) returns (r: Result<nat, BlockError>)
      requires Valid()
      modifies this
      ensures Valid()
      ensures r.Failure? <==> old(terminated)
      ensures r.Failure? ==> r.error == AlreadyTerminated && items == old(items)
      ensures r.Success? ==> items == old(items) + [OpItem(op)] && r.value == |old(items)|
      ensures phis == old(phis) && terminated == old(terminated)
    {
      if terminated {
        return Failure(AlreadyTerminated);
      }
      r := Success(|items|);
      items := items + [OpItem(op)];
    }

    /** Every terminator (`br`, conditional `br`, `ret`, `ret` of a value,
      `unreachable`): fails on a terminated block without changing it, else
      appends the terminator and marks the block terminated. */
    method Terminate(t: Terminator) returns (r: Result<nat, BlockError>)
      requires Valid()
      modifies this
      ensures Valid()
      ensures r.Failure? <==> old(terminated)
      ensures r.Failure? ==> r.error == AlreadyTerminated && items == old(items)
      ensures r.Success? ==> items == old(items) + [TermItem(t)] && r.value == |old(items)|
      ensures terminated && phis == old(phis)
    {
      if terminated {
        return Failure(AlreadyTerminated);
      }
      r := Success(|items|);
      terminated := true;
      items := items + [TermItem(t)];
    }

    /** `atomicrmw()`: always unsupported. */
    method AtomicRmw() returns (r: Result<nat, BlockError>)
      ensures r == Failure(Unsupported)
    {
      r := Failure(Unsupported);
    }

    /** The lines of this block alone: its label unless it is the root block,
      then its phis, then its items. */
    function BlockLines(): (ls: seq<Line>)
      reads this
    {
      (if isRoot then [] else [LabelLine(id)]) + PhiLines(phis) + ItemLines(items)
    }

    /** What `appendAsBlockTo` appends: first the preceding blocks, then
      nothing for an empty block, a failure for a non-empty unterminated
      block, else this block's lines. */
    ghost function Emission(): Emitted
      requires Chained()
      reads this, before
      decreases depth
    {
      var earlier := if prev == null then Emitted([], false) else prev.Emission();
      if earlier.failed then earlier
      else if |phis| == 0 && |items| == 0 then earlier
      else if !terminated then Emitted(earlier.lines, true)
      else Emitted(earlier.lines + BlockLines(), false)
    }

    /** `appendAsBlockTo(target)`. */
    method AppendAsBlockTo(target: seq<Line>) returns (out: seq<Line>, failed: bool)
      requires Chained()
      decreases depth
      ensures out == target + Emission().lines && failed == Emission().failed
    {
      ghost var earlier := if prev == null then Emitted([], false) else prev.Emission();
      out := target;
      failed := false;
      if prev != null {
        out, failed := prev.AppendAsBlockTo(out);
      }
      if failed || (|phis| == 0 && |items| == 0) {
        return;
      }
      if !terminated {
        failed := true;
        return;
      }
      out := AppendBlockLines(out);
      AppendAssociative(target, earlier.lines, BlockLines());
    }

    /** The part of `appendAsBlockTo` that writes this block: the label
      unless this is the root block, then the phis, then the items. */
    method AppendBlockLines(target: seq<Line>) returns (out: seq<Line>)
      ensures out == target + BlockLines()
    {
      var labelLines: seq<Line> := if isRoot then [] else [LabelLine(id)];
      out := AppendPhis(target + labelLines, phis);
      out := AppendItems(out, items);
      assert labelLines + PhiLines(phis) + ItemLines(items) == BlockLines();
      AppendAssociative(target, labelLines, PhiLines(phis));
      AppendAssociative(target, labelLines + PhiLines(phis), ItemLines(items));
    }
  }

  lemma AppendAssociative(a: seq<Line>, b: seq<Line>, c: seq<Line>)
    ensures (a + b) + c == a + (b + c)
  {
  }

  /** The phi loop of `appendAsBlockTo`: one line per phi, in list order. */
  method AppendPhis(target: seq<Line>, ps: seq<PhiItem>) returns (out: seq<Line>)
    ensures out == target + PhiLines(ps)
  {
    out := target;
    var i := 0;
    while i < |ps|
      invariant 0 <= i <= |ps|
      invariant out == target + PhiLines(ps)[..i]
    {
      out := out + [PhiLine(ps[i])];
      i := i + 1;
      assert PhiLines(ps)[..i] == PhiLines(ps)[..i - 1] + [PhiLine(ps[i - 1])];
    }
    assert PhiLines(ps)[..|ps|] == PhiLines(ps);
  }

  /** The item loop of `appendAsBlockTo`: one line per item, in list order. */
  method AppendItems(target: seq<Line>, its: seq<Item>) returns (out: seq<Line>)
    ensures out == target + ItemLines(its)
  {
    out := target;
    var i := 0;
    while i < |its|
      invariant 0 <= i <= |its|
      invariant out == target + ItemLines(its)[..i]
    {
      out := out + [ItemLine(its[i])];
      i := i + 1;
      assert ItemLines(its)[..i] == ItemLines(its)[..i - 1] + [ItemLine(its[i - 1])];
    }
    assert ItemLines(its)[..|its|] == ItemLines(its);
  }

  // ----- properties of emission -----

  /** A block with no phis and no items adds nothing to what the blocks before it emit. */
  lemma EmptyBlockEmitsNothing(b: BasicBlockImpl)
    requires b.Chained() && b.phis == [] && b.items == []
    ensures b.Emission() == (if b.prev == null then Emitted([], false) else b.prev.Emission())
  {
  }

  /** A non-empty block that is not terminated makes emission fail. */
  lemma UnterminatedBlockFails(b: BasicBlockImpl)
    requires b.Chained() && !b.terminated && (b.phis != [] || b.items != [])
    ensures b.Emission().failed
  {
  }

  /** The blocks before this one are emitted first: their lines are a prefix. */
  lemma PrecedingBlocksFirst(b: BasicBlockImpl)
    requires b.Chained() && b.prev != null
    ensures b.prev.Emission().lines <= b.Emission().lines
    ensures b.prev.Emission().failed ==> b.Emission() == b.prev.Emission()
  {
  }

  /** Lines with no terminator but the last have exactly one, when the last is one. */
  lemma OnlyLastTerminates(ls: seq<Line>)
    requires |ls| > 0 && IsTerminatorLine(ls[|ls| - 1])
    requires forall i :: 0 <= i < |ls| - 1 ==> !IsTerminatorLine(ls[i])
    ensures TerminatorCount(ls) == 1
  {
    var init := ls[..|ls| - 1];
    assert ls == init + [ls[|ls| - 1]];
    NoTerminatorLines(init);
    TerminatorCountAppend(init, [ls[|ls| - 1]]);
  }

  /** A well-formed, terminated block emits its phis before its items and
      exactly one terminator, as its last line. */
  lemma OneTerminatorLast(b: BasicBlockImpl)
    requires b.Valid() && b.terminated
    ensures TerminatorCount(b.BlockLines()) == 1
    ensures IsTerminatorLine(b.BlockLines()[|b.BlockLines()| - 1])
    ensures b.BlockLines() == (if b.isRoot then [] else [LabelLine(b.id)]) + PhiLines(b.phis) + ItemLines(b.items)
  {
    var head := (if b.isRoot then [] else [LabelLine(b.id)]) + PhiLines(b.phis);
    var ls := b.BlockLines();
    assert ls == head + ItemLines(b.items);
    assert forall i :: 0 <= i < |ls| - 1 ==> !IsTerminatorLine(ls[i]) by {
      forall i | 0 <= i < |ls| - 1 ensures !IsTerminatorLine(ls[i]) {
        if i >= |head| {
          assert ls[i] == ItemLines(b.items)[i - |head|];
        }
      }
    }
    OnlyLastTerminates(ls);
  }
}
