/**
 * The property drawer registered for `InterfaceReference<>` and
 * `InterfaceReference<,>`: it reads the pair of types off the field's generic
 * arguments and hands them to the editor logic. Unity draws each element of
 * an array or list field with the same drawer, and `fieldInfo.FieldType` is
 * then the collection's type; the reading does not account for that.
 *
 * `None` stands for the `InvalidOperationException` that
 * `GetGenericTypeDefinition` throws on a type that is not generic.
 */
module InterfaceReferenceDrawer {
  import opened Wrappers
  import opened TypeModel
  import opened InterfaceReferences
  import InterfaceReferenceUtility

  /** `GetObjectAndInterfaceType`: throws for a non-generic type; for the
      two-parameter definition the interface is argument 0 and the object
      type argument 1; for any other generic definition the object type is
      `UnityEngine.Object` and the interface is argument 0. */
  function GetObjectAndInterfaceType(fieldType: FieldType): (r: Option<TypePair>)
    requires WellFormedFieldType(fieldType)
    ensures r.None? <==> fieldType.NonGeneric?
    ensures fieldType.Generic? && fieldType.definition == InterfaceReference2
            ==> r.value.interfaceType == fieldType.arguments[0] && r.value.objectType == fieldType.arguments[1]
    ensures fieldType.Generic? && fieldType.definition != InterfaceReference2
            ==> r.value.objectType == UnityObject && r.value.interfaceType == fieldType.arguments[0]
  {
    if fieldType.NonGeneric? then None
    else if fieldType.definition == InterfaceReference2 then
      var types := fieldType.arguments;
      Some(TypePair(types[1], types[0]))
    else
      Some(TypePair(UnityObject, fieldType.arguments[0]))
  }

  /** `GetArguments`: the constructed `InterfaceObjectArguments` of that pair,
      with the assertions the constructor logs on the way. */
  function GetArguments(u: Universe, fieldType: FieldType): (r: Option<ConstructedArguments>)
    requires WellFormedFieldType(fieldType)
    ensures r.None? <==> fieldType.NonGeneric?
    ensures r.Some? ==>
              var p := GetObjectAndInterfaceType(fieldType).value;
              r.value.args == InterfaceObjectArguments(p.objectType, p.interfaceType)
              && (r.value.logged == [] <==> IsAssignableFrom(u, UnityObject, p.objectType) && IsInterface(u, p.interfaceType))
  {
    match GetObjectAndInterfaceType(fieldType)
    case None => None
    case Some(p) => Some(NewInterfaceObjectArguments(u, p.objectType, p.interfaceType))
  }

  /** The drawer's `GetPropertyHeight`: the editor height for the interface
      type the drawer reads off the field, or the exception. */
  function GetPropertyHeight(u: Universe, fieldType: FieldType, property: Option<Obj>, singleLineHeight: real): (r: Option<real>)
    requires WellFormedFieldType(fieldType)
    ensures r.None? <==> fieldType.NonGeneric?
    ensures r.Some? ==>
              var i := GetObjectAndInterfaceType(fieldType).value.interfaceType;
              r.value == if property.Some? && !IsAssignableFrom(u, i, property.value.runtimeType)
                         then singleLineHeight + InterfaceReferenceUtility.HelpBoxHeight
                         else singleLineHeight
  {
    match GetArguments(u, fieldType)
    case None => None
    case Some(a) => Some(InterfaceReferenceUtility.GetPropertyHeight(u, property, a.args, singleLineHeight))
  }

  /** The drawer recovers exactly the pair of types an `InterfaceReference`
      was declared with, for both the one- and the two-parameter form, when
      the field holds the wrapper itself. */
  lemma RecoversDeclaredTypes(r: InterfaceReference)
    requires r.Valid()
    ensures WellFormedFieldType(r.DeclaredFieldType())
    ensures GetObjectAndInterfaceType(r.DeclaredFieldType()) == Some(TypePair(r.objectType, r.interfaceType))
  {
  }

  /** A field declared with an interface and a `UnityEngine.Object` type logs
      no assertion when its arguments are built. */
  lemma WellTypedFieldLogsNothing(u: Universe, r: InterfaceReference)
    requires r.Valid()
    requires IsInterface(u, r.interfaceType) && IsAssignableFrom(u, UnityObject, r.objectType)
    ensures GetArguments(u, r.DeclaredFieldType()).Some?
    ensures GetArguments(u, r.DeclaredFieldType()).value.logged == []
  {
    RecoversDeclaredTypes(r);
  }

  /** A field holding a generic collection of wrappers (`List<InterfaceReference<I>>`):
      the drawer takes the element type `InterfaceReference<I>` for the
      interface. That is a class, so the interface assertion logs; and since
      no `UnityEngine.Object` derives from it, no object, dragged or resolved
      through its GameObject, can be assigned, and every assigned element
      shows the help box. */
  lemma CollectionFieldRejectsEverything(u: Universe, fieldType: FieldType, obj: Obj, singleLineHeight: real)
    requires WellFormedFieldType(fieldType)
    requires fieldType.Generic? && fieldType.definition.OtherDefinition?
    requires !IsInterface(u, fieldType.arguments[0])
    requires forall t :: !(IsAssignableFrom(u, fieldType.arguments[0], t) && IsAssignableFrom(u, UnityObject, t))
    ensures GetObjectAndInterfaceType(fieldType) == Some(TypePair(UnityObject, fieldType.arguments[0]))
    ensures InterfaceTypeNotInterface in GetArguments(u, fieldType).value.logged
    ensures !InterfaceReferenceUtility.CanAssign(u, obj, GetArguments(u, fieldType).value.args, true)
    ensures !InterfaceReferenceUtility.CanAssign(u, obj, GetArguments(u, fieldType).value.args, false)
    ensures IsInstanceOf(u, obj, UnityObject)
            ==> GetPropertyHeight(u, fieldType, Some(obj), singleLineHeight)
                == Some(singleLineHeight + InterfaceReferenceUtility.HelpBoxHeight)
  {
    var args := GetArguments(u, fieldType).value.args;
    var c := InterfaceReferenceUtility.Candidate(u, obj, args, true);
    assert !(IsAssignableFrom(u, fieldType.arguments[0], c.runtimeType) && IsAssignableFrom(u, UnityObject, c.runtimeType));
    assert !(IsAssignableFrom(u, fieldType.arguments[0], obj.runtimeType) && IsAssignableFrom(u, UnityObject, obj.runtimeType));
  }
}
