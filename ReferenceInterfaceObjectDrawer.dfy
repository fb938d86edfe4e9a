/**
 * The second drawer registered for `InterfaceObject<>` and
 * `InterfaceObject<,>`: a plain object field with the picker. It reads the
 * two-parameter generic arguments in the opposite order from the one in
 * which `InterfaceObject<TInterface, UObject>` declares them. `None` stands
 * for the exception `GetGenericTypeDefinition` throws on a type that is not
 * generic (an array field).
 */
module ReferenceInterfaceObjectDrawer {
  import opened Wrappers
  import opened TypeModel
  import opened ObjectSelector
  import opened InterfaceObjects
  import InterfaceObjectDrawer
  import InterfaceObjectUtility

  /** `GetObjectAndInterfaceType`: throws for a non-generic type; for the
      two-parameter definition the object type is argument 0 and the
      interface argument 1; for any other generic definition the object type
      is `UnityEngine.Object` and the interface is argument 0. */
  function GetObjectAndInterfaceType(fieldType: FieldType): (r: Option<TypePair>)
    requires WellFormedFieldType(fieldType)
    ensures r.None? <==> fieldType.NonGeneric?
    ensures fieldType.Generic? && fieldType.definition == InterfaceObject2
            ==> r.value.objectType == fieldType.arguments[0] && r.value.interfaceType == fieldType.arguments[1]
    ensures fieldType.Generic? && fieldType.definition != InterfaceObject2
            ==> r.value.objectType == UnityObject && r.value.interfaceType == fieldType.arguments[0]
  {
    if fieldType.NonGeneric? then None
    else if fieldType.definition == InterfaceObject2 then
      var types := fieldType.arguments;
      Some(TypePair(types[0], types[1]))
    else
      Some(TypePair(UnityObject, fieldType.arguments[0]))
  }

  /** For a two-parameter `InterfaceObject` this drawer swaps the declared
      pair, and so disagrees with the other `InterfaceObject` drawer whenever
      the two arguments differ; for the one-parameter form both agree. */
  lemma SwapsDeclaredTypes(w: InterfaceObject)
    requires w.Valid()
    ensures WellFormedFieldType(w.DeclaredFieldType())
    ensures !w.oneParameter ==> GetObjectAndInterfaceType(w.DeclaredFieldType()) == Some(TypePair(w.interfaceType, w.objectType))
    ensures w.oneParameter ==> GetObjectAndInterfaceType(w.DeclaredFieldType()) == Some(TypePair(w.objectType, w.interfaceType))
    ensures (GetObjectAndInterfaceType(w.DeclaredFieldType())
             == InterfaceObjectDrawer.GetObjectAndInterfaceType(w.DeclaredFieldType()))
            <==> w.oneParameter || w.interfaceType == w.objectType
  {
    InterfaceObjectDrawer.RecoversDeclaredTypes(w);
  }

  /** The scene predicate of `OpenDelayed`: the `InterfaceObject` editor's
      `CanAssign` for the pair this drawer read. */
  predicate ScenePredicate(u: Universe, p: TypePair, obj: Obj): (r: bool)
    ensures r <==> InterfaceObjectUtility.CanAssign(u, obj, InterfaceObjectArguments(p.objectType, p.interfaceType))
  {
    IsAssignableFrom(u, p.interfaceType, obj.runtimeType) && IsAssignableFrom(u, p.objectType, obj.runtimeType)
  }

  /** Despite the swap, the scene predicate this drawer builds for a wrapper
      accepts exactly the objects that the other `InterfaceObject` drawer's
      `CanAssign` accepts for the same wrapper: the predicate tests both types
      alike. Only the asset filter, which enumerates the types derived from
      what it takes to be the interface, sees the swap. */
  lemma ScenePredicateAgreesWithOtherDrawer(u: Universe, w: InterfaceObject, obj: Obj)
    requires w.Valid()
    ensures WellFormedFieldType(w.DeclaredFieldType())
    ensures GetObjectAndInterfaceType(w.DeclaredFieldType()).Some?
    ensures InterfaceObjectDrawer.OnGUIArguments(w.u, w.DeclaredFieldType()).Some?
    ensures ScenePredicate(u, GetObjectAndInterfaceType(w.DeclaredFieldType()).value, obj)
            == InterfaceObjectUtility.CanAssign(u, obj, InterfaceObjectDrawer.OnGUIArguments(u, w.DeclaredFieldType()).value.args)
  {
    SwapsDeclaredTypes(w);
    InterfaceObjectDrawer.RecoversDeclaredTypes(w);
  }

  /** A field holding a generic collection of wrappers: the element wrapper
      type is taken for the interface, so the scene predicate rejects every
      object and the asset filter enumerates the types derived from the
      wrapper class that are `UnityEngine.Object`s, of which there are none. */
  lemma CollectionFieldRejectsEverything(u: Universe, fieldType: FieldType, obj: Obj, derived: seq<TypeId>)
    requires WellFormedFieldType(fieldType)
    requires fieldType.Generic? && fieldType.definition.OtherDefinition?
    requires forall t :: !(IsAssignableFrom(u, fieldType.arguments[0], t) && IsAssignableFrom(u, UnityObject, t))
    requires forall t :: t in derived ==> IsAssignableFrom(u, fieldType.arguments[0], t)
    ensures GetObjectAndInterfaceType(fieldType) == Some(TypePair(UnityObject, fieldType.arguments[0]))
    ensures !ScenePredicate(u, GetObjectAndInterfaceType(fieldType).value, obj)
    ensures Tokens(u, Qualifying(u, derived, GetObjectAndInterfaceType(fieldType).value.objectType)) == ""
  {
    assert !(IsAssignableFrom(u, fieldType.arguments[0], obj.runtimeType) && IsAssignableFrom(u, UnityObject, obj.runtimeType));
    TokensEmptyIffNoneQualify(u, derived, UnityObject);
  }

  /** The picker filter of `OpenDelayed`, given the types `TypeCache` reports
      as derived from the interface type: one token per derived type
      assignable to the object type, empty when there is none, and the scene
      predicate above. */
  method OpenDelayedFilter(u: Universe, derived: seq<TypeId>, p: TypePair) returns (filter: ObjectSelectorFilter)
    ensures filter.assetSearchFilter == Tokens(u, Qualifying(u, derived, p.objectType))
    ensures filter.assetSearchFilter == "" <==> forall t :: t in derived ==> !IsAssignableFrom(u, p.objectType, t)
    ensures filter.sceneFilterCallback.Some?
    ensures forall o :: CheckFilter(filter, o) <==> ScenePredicate(u, p, o)
  {
    var sb := AppendTypeTokens(u, derived, p.objectType);
    TokensEmptyIffNoneQualify(u, derived, p.objectType);
    filter := ObjectSelectorFilter(sb, Some(obj => ScenePredicate(u, p, obj)));
  }
}
