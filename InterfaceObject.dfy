/**
 * `InterfaceObject<TInterface, UObject>`: like `InterfaceReference`, but with
 * no setter, so the underlying value is fixed when the wrapper is built. It
 * is a value here; the constructors are functions. `oneParameter` marks the
 * subclass `InterfaceObject<TInterface>` (object type `UnityEngine.Object`).
 */
module InterfaceObjects {
  import opened Wrappers
  import opened TypeModel
  import opened InterfaceReferences

  datatype InterfaceObject = InterfaceObject(
    u: Universe, interfaceType: TypeId, objectType: TypeId, oneParameter: bool,
    underlyingValue: Option<Obj>)
  {
    /** The one-parameter form has object type `UnityEngine.Object`, and the
        field holds a `UObject` or null. */
    predicate Valid() {
      (oneParameter ==> objectType == UnityObject) && HasStaticType(u, underlyingValue, objectType)
    }

    /** `UnderlyingValue`: the stored field, typed as `UnityEngine.Object`. */
    function UnderlyingValue(): (r: Option<Obj>)
      requires Valid()
      ensures HasStaticType(u, r, objectType)
    {
      underlyingValue
    }

    /** `Value`: the field cast to `TInterface`. */
    function Value(): (r: Option<Obj>)
      ensures r.None? <==> underlyingValue.None? || !IsInstanceOf(u, underlyingValue.value, interfaceType)
      ensures r.Some? ==> r == underlyingValue
    {
      As(u, underlyingValue, interfaceType)
    }

    /** The closed generic type of a field holding this wrapper:
        `InterfaceObject<TInterface>` or `InterfaceObject<TInterface, UObject>`. */
    function DeclaredFieldType(): (r: FieldType)
      ensures WellFormedFieldType(r) && r.Generic? && r.arguments[0] == interfaceType
      ensures oneParameter <==> r.definition == InterfaceObject1
      ensures !oneParameter ==> r.definition == InterfaceObject2 && r.arguments[1] == objectType
    {
      if oneParameter then Generic(InterfaceObject1, [interfaceType])
      else Generic(InterfaceObject2, [interfaceType, objectType])
    }

    /** `implicit operator TInterface`: the same as `Value`. */
    function ToInterface(): (r: Option<Obj>)
      ensures r == Value()
      ensures r.Some? ==> IsInstanceOf(u, r.value, interfaceType)
    {
      Value()
    }
  }

  /** `new InterfaceObject<TInterface, UObject>()`. */
  function NewDefault(u: Universe, interfaceType: TypeId, objectType: TypeId): (r: InterfaceObject)
    ensures r.Valid() && r.UnderlyingValue().None? && r.Value().None?
    ensures r.interfaceType == interfaceType && r.objectType == objectType && !r.oneParameter
  {
    InterfaceObject(u, interfaceType, objectType, false, None)
  }

  /** `new InterfaceObject<TInterface, UObject>(UObject target)`. */
  function NewFromTarget(u: Universe, interfaceType: TypeId, objectType: TypeId, target: Option<Obj>): (r: InterfaceObject)
    requires HasStaticType(u, target, objectType)
    ensures r.Valid() && r.UnderlyingValue() == target
    ensures r.interfaceType == interfaceType && r.objectType == objectType && !r.oneParameter
  {
    InterfaceObject(u, interfaceType, objectType, false, target)
  }

  /** `new InterfaceObject<TInterface, UObject>(TInterface @interface)`: stores
      `@interface as UObject`, null when it is not a `UObject`. */
  function NewFromInterface(u: Universe, interfaceType: TypeId, objectType: TypeId, iface: Option<Obj>): (r: InterfaceObject)
    requires HasStaticType(u, iface, interfaceType)
    ensures r.Valid()
    ensures r.interfaceType == interfaceType && r.objectType == objectType && !r.oneParameter
    ensures HasStaticType(u, iface, objectType) ==> r.UnderlyingValue() == iface && r.Value() == iface
    ensures !HasStaticType(u, iface, objectType) ==> r.UnderlyingValue().None? && r.Value().None?
  {
    InterfaceObject(u, interfaceType, objectType, false, As(u, iface, objectType))
  }

  /** `new InterfaceObject<TInterface>()`: the one-parameter subclass. */
  function NewOneParameter(u: Universe, interfaceType: TypeId): (r: InterfaceObject)
    ensures r.Valid() && r.UnderlyingValue().None?
    ensures r.interfaceType == interfaceType && r.objectType == UnityObject && r.oneParameter
  {
    InterfaceObject(u, interfaceType, UnityObject, true, None)
  }

  /** A wrapper built from a target that implements the interface yields that
      target; one built from a target that does not yields null, though the
      target is still its underlying value. */
  lemma TargetValue(u: Universe, interfaceType: TypeId, objectType: TypeId, target: Obj)
    requires IsInstanceOf(u, target, objectType)
    ensures var w := NewFromTarget(u, interfaceType, objectType, Some(target));
            (IsInstanceOf(u, target, interfaceType) ==> w.Value() == Some(target))
            && (!IsInstanceOf(u, target, interfaceType) ==> w.Value().None? && w.UnderlyingValue() == Some(target))
  {
  }
}
