/**
 * The `InterfaceObject` property drawer that hands the field to the
 * `InterfaceObject` editor logic. Like the `InterfaceReference` drawer it
 * reads `fieldInfo.FieldType`, which for an array or list field is the
 * collection's type; `None` stands for the exception
 * `GetGenericTypeDefinition` throws on a type that is not generic.
 */
module InterfaceObjectDrawer {
  import opened Wrappers
  import opened TypeModel
  import opened InterfaceObjects
  import InterfaceObjectUtility

  /** `GetObjectAndInterfaceType`: throws for a non-generic type; for the
      two-parameter definition the interface is argument 0 and the object
      type argument 1; for any other generic definition the object type is
      `UnityEngine.Object` and the interface is argument 0. */
  function GetObjectAndInterfaceType(fieldType: FieldType): (r: Option<TypePair>)
    requires WellFormedFieldType(fieldType)
    ensures r.None? <==> fieldType.NonGeneric?
    ensures fieldType.Generic? && fieldType.definition == InterfaceObject2
            ==> r.value.interfaceType == fieldType.arguments[0] && r.value.objectType == fieldType.arguments[1]
    ensures fieldType.Generic? && fieldType.definition != InterfaceObject2
            ==> r.value.objectType == UnityObject && r.value.interfaceType == fieldType.arguments[0]
  {
    if fieldType.NonGeneric? then None
    else if fieldType.definition == InterfaceObject2 then
      var types := fieldType.arguments;
      Some(TypePair(types[1], types[0]))
    else
      Some(TypePair(UnityObject, fieldType.arguments[0]))
  }

  /** The arguments `OnGUI` builds and passes on: that pair, unchanged, or the
      exception. */
  function OnGUIArguments(u: Universe, fieldType: FieldType): (r: Option<ConstructedArguments>)
    requires WellFormedFieldType(fieldType)
    ensures r.None? <==> fieldType.NonGeneric?
    ensures r.Some? ==>
              var p := GetObjectAndInterfaceType(fieldType).value;
              r.value.args == InterfaceObjectArguments(p.objectType, p.interfaceType)
              && (r.value.logged == [] <==> IsAssignableFrom(u, UnityObject, p.objectType) && IsInterface(u, p.interfaceType))
  {
    match GetObjectAndInterfaceType(fieldType)
    case None => None
    case Some(p) => Some(NewInterfaceObjectArguments(u, p.objectType, p.interfaceType))
  }

  /** The drawer recovers exactly the pair of types an `InterfaceObject` was
      declared with, for both the one- and the two-parameter form, when the
      field holds the wrapper itself. */
  lemma RecoversDeclaredTypes(w: InterfaceObject)
    requires w.Valid()
    ensures WellFormedFieldType(w.DeclaredFieldType())
    ensures GetObjectAndInterfaceType(w.DeclaredFieldType()) == Some(TypePair(w.objectType, w.interfaceType))
  {
  }

  /** A field holding a generic collection of wrappers: the element wrapper
      type is taken for the interface, the interface assertion logs, and no
      object can be assigned. */
  lemma CollectionFieldRejectsEverything(u: Universe, fieldType: FieldType, obj: Obj)
    requires WellFormedFieldType(fieldType)
    requires fieldType.Generic? && fieldType.definition.OtherDefinition?
    requires !IsInterface(u, fieldType.arguments[0])
    requires forall t :: !(IsAssignableFrom(u, fieldType.arguments[0], t) && IsAssignableFrom(u, UnityObject, t))
    ensures GetObjectAndInterfaceType(fieldType) == Some(TypePair(UnityObject, fieldType.arguments[0]))
    ensures InterfaceTypeNotInterface in OnGUIArguments(u, fieldType).value.logged
    ensures !InterfaceObjectUtility.CanAssign(u, obj, OnGUIArguments(u, fieldType).value.args)
  {
    assert !(IsAssignableFrom(u, fieldType.arguments[0], obj.runtimeType) && IsAssignableFrom(u, UnityObject, obj.runtimeType));
  }
}
