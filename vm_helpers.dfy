/** The runtime type checks that compiled code calls into: `instanceof`,
    `checkcast`, the array store check, the type-id assignability rules they
    share, and the helpers that raise the VM's standard errors. The object
    model the runtime reads (type ids of objects, array dimensions, the class
    hierarchy's type-id ranges, interface implementation) is a parameter. */
module VMHelpers {
  import opened JavaInt

  /** A reference: null or an object, identified by a number. */
  datatype Ref = Null | Obj(id: nat)

  /** A `java.lang.Class` value, identified by a number. */
  type ClassRef = nat

  /** The queries of the runtime's `ObjectModel` that the checks use. Type ids
      are the integers of `type_id.intValue()`. */
  datatype ObjectModel = ObjectModel(
    typeIdOf: nat -> int,
    isReferenceArray: int -> bool,
    dimensionsOf: nat -> int32,
    elementTypeIdOf: nat -> int,
    isJavaLangObject: int -> bool,
    isClass: int -> bool,
    isInterface: int -> bool,
    maxSubclassTypeIdOf: int -> int,
    doesImplement: (int, int) -> bool,
    typeIdFromClass: ClassRef -> int,
    dimensionsFromClass: ClassRef -> int32)

  /** The errors the helpers raise. */
  datatype JavaError =
    | AbstractMethodError
    | ArithmeticException
    | ArrayIndexOutOfBoundsException
    | ArrayStoreException
    | ClassCastException
    | IncompatibleClassChangeError
    | NegativeArraySizeException
    | NullPointerException
    | UnsatisfiedLinkError

  /** How a helper call ends: it returns, or it throws. */
  datatype Outcome = Returns | Throws(error: JavaError)

  /** `isAssignableToLeaf`: a class target accepts exactly the type ids of its
      subclass range, an interface target its implementors, and any other
      target (a primitive array type) only itself. */
  function IsAssignableToLeaf(om: ObjectModel, valueTypeId: int, toTypeId: int): (r: bool)
    ensures om.isClass(toTypeId) ==> (r <==> toTypeId <= valueTypeId <= om.maxSubclassTypeIdOf(toTypeId))
    ensures !om.isClass(toTypeId) && om.isInterface(toTypeId) ==> (r <==> om.doesImplement(valueTypeId, toTypeId))
    ensures !om.isClass(toTypeId) && !om.isInterface(toTypeId) ==> (r <==> valueTypeId == toTypeId)
  {
    if om.isClass(toTypeId) then
      toTypeId <= valueTypeId && valueTypeId <= om.maxSubclassTypeIdOf(toTypeId)
    else if om.isInterface(toTypeId) then
      om.doesImplement(valueTypeId, toTypeId)
    else
      valueTypeId == toTypeId
  }

  /** `isAssignableTo` of a non-null value to a type id with a number of
      array dimensions. */
  function IsAssignableTo(om: ObjectModel, value: Ref, toTypeId: int, toDimensions: int32): (r: bool)
    requires value.Obj?
    ensures toDimensions == 0 ==> (r <==> IsAssignableToLeaf(om, om.typeIdOf(value.id), toTypeId))
    ensures toDimensions != 0 && !om.isReferenceArray(om.typeIdOf(value.id)) ==> !r
    ensures toDimensions != 0 && om.isReferenceArray(om.typeIdOf(value.id)) ==>
              (r <==> (om.dimensionsOf(value.id) == toDimensions
                         && IsAssignableToLeaf(om, om.elementTypeIdOf(value.id), toTypeId))
                      || (om.dimensionsOf(value.id) > toDimensions && om.isJavaLangObject(toTypeId)))
  {
    if toDimensions == 0 then
      IsAssignableToLeaf(om, om.typeIdOf(value.id), toTypeId)
    else if om.isReferenceArray(om.typeIdOf(value.id)) then
      var valueDims := om.dimensionsOf(value.id);
      if valueDims == toDimensions then
        IsAssignableToLeaf(om, om.elementTypeIdOf(value.id), toTypeId)
      else if valueDims > toDimensions then
        om.isJavaLangObject(toTypeId)
      else
        false
    else
      false
  }

  /** `full_instanceof(instance, cls)`: 1 for a non-null instance assignable
      to the class's type id and dimensions, else 0. */
  function FullInstanceof(om: ObjectModel, instance: Ref, cls: ClassRef): (r: int32)
    ensures r == 0 || r == 1
    ensures r == 1 <==> instance.Obj?
                        && IsAssignableTo(om, instance, om.typeIdFromClass(cls), om.dimensionsFromClass(cls))
  {
    if instance.Null? then 0
    else if IsAssignableTo(om, instance, om.typeIdFromClass(cls), om.dimensionsFromClass(cls)) then 1
    else 0
  }

  /** `checkcast_typeId`: null and assignable values pass; any other value
      throws ClassCastException. */
  function CheckcastTypeId(om: ObjectModel, value: Ref, toTypeId: int, toDimensions: int32): (o: Outcome)
    ensures o == Returns || o == Throws(ClassCastException)
    ensures o == Returns <==> value.Null? || IsAssignableTo(om, value, toTypeId, toDimensions)
  {
    if value.Null? || IsAssignableTo(om, value, toTypeId, toDimensions) then Returns
    else Throws(ClassCastException)
  }

  /** `checkcast_class`: the type-id check against the class's type id and dimensions. */
  function CheckcastClass(om: ObjectModel, value: Ref, cls: ClassRef): (o: Outcome)
    ensures o == Returns || o == Throws(ClassCastException)
  {
    CheckcastTypeId(om, value, om.typeIdFromClass(cls), om.dimensionsFromClass(cls))
  }

  /** `arrayStoreCheck`: storing into an array of `toDimensions` dimensions
      checks the value against one dimension fewer (in int arithmetic); a
      failure raises ArrayStoreException. */
  function ArrayStoreCheck(om: ObjectModel, value: Ref, toTypeId: int, toDimensions: int32): (o: Outcome)
    ensures o == Returns || o == Throws(ArrayStoreException)
    ensures value.Null? ==> o == Returns
  {
    if value.Null? || IsAssignableTo(om, value, toTypeId, Wrap32(toDimensions as int - 1)) then Returns
    else Raise(ArrayStoreException)
  }

  /** Each `raise*` helper: it never returns normally and throws the error it is named after. */
  function Raise(e: JavaError): (o: Outcome)
    ensures o != Returns && o.error == e
  {
    Throws(e)
  }

  // ----- properties -----

  /** `checkcast` to a class passes exactly when the value is null or an instance of it. */
  lemma CheckcastAgreesWithInstanceof(om: ObjectModel, value: Ref, cls: ClassRef)
    ensures CheckcastClass(om, value, cls) == Returns <==> value.Null? || FullInstanceof(om, value, cls) == 1
  {
  }

  /** The array store check of an array of d dimensions is the cast check
      to d - 1 dimensions, with ArrayStoreException for ClassCastException. */
  lemma ArrayStoreIsCheckcastOneDimensionLess(om: ObjectModel, value: Ref, toTypeId: int, toDimensions: int32)
    requires toDimensions != MIN_INT
    ensures ArrayStoreCheck(om, value, toTypeId, toDimensions) == Returns
        <==> CheckcastTypeId(om, value, toTypeId, toDimensions - 1) == Returns
  {
  }

  /** In int arithmetic, an array store check against `Integer.MIN_VALUE`
      dimensions checks against `Integer.MAX_VALUE` dimensions. */
  lemma ArrayStoreDimensionWraps(om: ObjectModel, value: Ref, toTypeId: int)
    requires value.Obj?
    ensures ArrayStoreCheck(om, value, toTypeId, MIN_INT) == Returns
        <==> IsAssignableTo(om, value, toTypeId, 0x7FFF_FFFF)
  {
    assert Wrap32(MIN_INT as int - 1) == 0x7FFF_FFFF;
  }

  /** An object whose type is not a reference array is never assignable to an array type. */
  lemma NonArrayNotAssignableToArray(om: ObjectModel, value: Ref, toTypeId: int, toDimensions: int32)
    requires value.Obj? && toDimensions != 0 && !om.isReferenceArray(om.typeIdOf(value.id))
    ensures CheckcastTypeId(om, value, toTypeId, toDimensions) == Throws(ClassCastException)
  {
  }

  /** An array of more dimensions than the target is assignable exactly when
      the target's leaf is java.lang.Object. */
  lemma DeeperArrayOnlyToObject(om: ObjectModel, value: Ref, toTypeId: int, toDimensions: int32)
    requires value.Obj? && toDimensions != 0 && om.isReferenceArray(om.typeIdOf(value.id))
    requires om.dimensionsOf(value.id) > toDimensions
    ensures IsAssignableTo(om, value, toTypeId, toDimensions) <==> om.isJavaLangObject(toTypeId)
  {
  }

  /** An array of fewer dimensions than the target is never assignable. */
  lemma ShallowerArrayNeverAssignable(om: ObjectModel, value: Ref, toTypeId: int, toDimensions: int32)
    requires value.Obj? && toDimensions != 0
    requires om.dimensionsOf(value.id) < toDimensions
    ensures !IsAssignableTo(om, value, toTypeId, toDimensions)
  {
  }

  /** The class hierarchy numbers type ids so that each class's subclasses
      form the range [typeId, maxSubclassTypeId], and a subclass's range
      lies inside its superclass's. */
  ghost predicate RangesNested(om: ObjectModel) {
    && (forall t :: om.isClass(t) ==> t <= om.maxSubclassTypeIdOf(t))
    && (forall a, b :: om.isClass(a) && om.isClass(b) && a <= b <= om.maxSubclassTypeIdOf(a)
          ==> om.maxSubclassTypeIdOf(b) <= om.maxSubclassTypeIdOf(a))
  }

  /** With nested ranges, every class accepts its own type id. */
  lemma LeafReflexiveForClasses(om: ObjectModel, t: int)
    requires RangesNested(om) && om.isClass(t)
    ensures IsAssignableToLeaf(om, t, t)
  {
  }

  /** With nested ranges, the class leaf check is transitive: a value
      assignable to class b, where b is assignable to class a, is assignable to a. */
  lemma {:induction false} LeafTransitiveForClasses(om: ObjectModel, v: int, b: int, a: int)
    requires RangesNested(om) && om.isClass(a) && om.isClass(b)
    requires IsAssignableToLeaf(om, v, b) && IsAssignableToLeaf(om, b, a)
    ensures IsAssignableToLeaf(om, v, a)
  {
    assert om.maxSubclassTypeIdOf(b) <= om.maxSubclassTypeIdOf(a);
  }
}
