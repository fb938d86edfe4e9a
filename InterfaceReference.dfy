/**
 * `InterfaceReference<TInterface, UObject>`: a serialized `UObject` field
 * exposed as a `TInterface`. The generic arguments become the constant fields
 * `interfaceType` and `objectType`; `oneParameter` marks the subclass
 * `InterfaceReference<TInterface>`, which fixes `UObject` to
 * `UnityEngine.Object`. A reference of a static type `T` is an
 * `Option<Obj>` that is null or an instance of `T`; the `requires` clauses
 * that say so are what the C# compiler checks at every call.
 */
module InterfaceReferences {
  import opened Wrappers
  import opened TypeModel

  /** A nullable reference of static type `t`. */
  predicate HasStaticType(u: Universe, x: Option<Obj>, t: TypeId) {
    x.None? || IsInstanceOf(u, x.value, t)
  }

  class InterfaceReference {
    const u: Universe
    const interfaceType: TypeId
    const objectType: TypeId
    const oneParameter: bool
    var underlyingValue: Option<Obj>

    /** The one-parameter form has object type `UnityEngine.Object`, and the
        field holds a `UObject` or null. */
    ghost predicate Valid()
      reads this
    {
      (oneParameter ==> objectType == UnityObject) && HasStaticType(u, underlyingValue, objectType)
    }

    /** `new InterfaceReference<TInterface, UObject>()`. */
    constructor (u: Universe, interfaceType: TypeId, objectType: TypeId)
      ensures Valid()
      ensures this.u == u && this.interfaceType == interfaceType && this.objectType == objectType && !oneParameter
      ensures underlyingValue.None?
    {
      this.u := u;
      this.interfaceType := interfaceType;
      this.objectType := objectType;
      oneParameter := false;
      underlyingValue := None;
    }

    /** `new InterfaceReference<TInterface, UObject>(UObject target)`. */
    constructor FromTarget(u: Universe, interfaceType: TypeId, objectType: TypeId, target: Option<Obj>)
      requires HasStaticType(u, target, objectType)
      ensures Valid()
      ensures this.u == u && this.interfaceType == interfaceType && this.objectType == objectType && !oneParameter
      ensures underlyingValue == target
    {
      this.u := u;
      this.interfaceType := interfaceType;
      this.objectType := objectType;
      oneParameter := false;
      underlyingValue := target;
    }

    /** `new InterfaceReference<TInterface, UObject>(TInterface @interface)`:
        stores `@interface as UObject`. */
    constructor FromInterface(u: Universe, interfaceType: TypeId, objectType: TypeId, iface: Option<Obj>)
      requires HasStaticType(u, iface, interfaceType)
      ensures Valid()
      ensures this.u == u && this.interfaceType == interfaceType && this.objectType == objectType && !oneParameter
      ensures underlyingValue == As(u, iface, objectType)
      ensures iface.Some? && !IsInstanceOf(u, iface.value, objectType) ==> underlyingValue.None?
    {
      this.u := u;
      this.interfaceType := interfaceType;
      this.objectType := objectType;
      oneParameter := false;
      underlyingValue := As(u, iface, objectType);
    }

    /** `new InterfaceReference<TInterface>()`: the one-parameter subclass,
        whose object type is `UnityEngine.Object`. */
    constructor OneParameter(u: Universe, interfaceType: TypeId)
      ensures Valid()
      ensures this.u == u && this.interfaceType == interfaceType && objectType == UnityObject && oneParameter
      ensures underlyingValue.None?
    {
      this.u := u;
      this.interfaceType := interfaceType;
      objectType := UnityObject;
      oneParameter := true;
      underlyingValue := None;
    }

    /** The `Value` getter: null for a null field, otherwise the field cast to
        `TInterface`, which is null when it does not implement the interface. */
    function Value(): (r: Option<Obj>)
      reads this
      ensures underlyingValue.None? ==> r.None?
      ensures underlyingValue.Some? && IsInstanceOf(u, underlyingValue.value, interfaceType) ==> r == underlyingValue
      ensures underlyingValue.Some? && !IsInstanceOf(u, underlyingValue.value, interfaceType) ==> r.None?
    {
      if underlyingValue.None? then None else As(u, underlyingValue, interfaceType)
    }

    /** The getter's `Debug.Assert` fails (and only logs) exactly when a
        non-null field does not implement the interface. */
    predicate ValueAssertionFails(): (r: bool)
      reads this
      ensures r <==> underlyingValue.Some? && Value().None?
    {
      underlyingValue.Some? && As(u, underlyingValue, interfaceType).None?
    }

    /** `implicit operator TInterface`: the same as `Value`. */
    function ToInterface(): (r: Option<Obj>)
      reads this
      ensures r == Value()
      ensures r.Some? ==> r == underlyingValue && IsInstanceOf(u, r.value, interfaceType)
    {
      Value()
    }

    /** The `Value` setter: null clears the field; anything else is stored
        cast to `UObject`, so a value that is not a `UObject` clears the field
        too (the `Debug.Assert` reporting it only logs). */
    method SetValue(value: Option<Obj>) returns (assertionFailed: bool)
      requires Valid()
      requires HasStaticType(u, value, interfaceType)
      modifies this
      ensures Valid()
      ensures value.None? ==> underlyingValue.None?
      ensures value.Some? ==> underlyingValue == As(u, value, objectType)
      ensures assertionFailed <==> value.Some? && !IsInstanceOf(u, value.value, objectType)
      ensures !assertionFailed ==> Value() == value
      ensures assertionFailed ==> Value().None?
    {
      assertionFailed := false;
      if value.None? {
        underlyingValue := None;
      } else {
        var newValue := As(u, value, objectType);
        assertionFailed := newValue.None?;
        underlyingValue := newValue;
      }
    }

    /** The closed generic type of a field holding this reference:
        `InterfaceReference<TInterface>` or `InterfaceReference<TInterface, UObject>`. */
    function DeclaredFieldType(): (r: FieldType)
      reads this
      ensures WellFormedFieldType(r) && r.Generic? && r.arguments[0] == interfaceType
      ensures oneParameter <==> r.definition == InterfaceReference1
      ensures !oneParameter ==> r.definition == InterfaceReference2 && r.arguments[1] == objectType
    {
      if oneParameter then Generic(InterfaceReference1, [interfaceType])
      else Generic(InterfaceReference2, [interfaceType, objectType])
    }

    /** The `UnderlyingValue` getter. */
    function UnderlyingValue(): (r: Option<Obj>)
      reads this
      requires Valid()
      ensures HasStaticType(u, r, objectType)
    {
      underlyingValue
    }

    /** The `UnderlyingValue` setter. */
    method SetUnderlyingValue(value: Option<Obj>)
      requires Valid()
      requires HasStaticType(u, value, objectType)
      modifies this
      ensures Valid()
      ensures UnderlyingValue() == value
    {
      underlyingValue := value;
    }
  }
}
