/**
 * The editor logic behind the `InterfaceReference` property drawer: which
 * objects may be stored in a field that requires an interface, how a dragged
 * GameObject is resolved to the component that implements the interface, the
 * height of the field, the asset search filter handed to the picker, and what
 * a change in the object field leaves in the serialized property.
 */
module InterfaceReferenceUtility {
  import opened Wrappers
  import opened TypeModel
  import opened ObjectSelector

  /** `_helpBoxHeight`: the extra height of the wrong-interface help box. */
  const HelpBoxHeight: real := 24.0

  /** A GameObject that has a component implementing the interface is replaced
      by its first such component; any other reference is returned unchanged. */
  function GetComponentInGameObjectOrDefault(u: Universe, obj: Option<Obj>, args: InterfaceObjectArguments): (r: Option<Obj>)
    ensures r.None? <==> obj.None?
    ensures obj.Some? && IsInstanceOf(u, obj.value, GameObject)
            && TryGetComponent(u, obj.value.components, args.interfaceType).Some?
            ==> r == TryGetComponent(u, obj.value.components, args.interfaceType)
                && r.value in obj.value.components && IsInstanceOf(u, r.value, args.interfaceType)
    ensures !(obj.Some? && IsInstanceOf(u, obj.value, GameObject)
              && TryGetComponent(u, obj.value.components, args.interfaceType).Some?)
            ==> r == obj
  {
    if obj.Some? && IsInstanceOf(u, obj.value, GameObject) then
      var comp := TryGetComponent(u, obj.value.components, args.interfaceType);
      if comp.Some? then comp else obj
    else obj
  }

  /** A GameObject with exactly one component implementing the interface
      resolves to that component. */
  lemma UniqueComponentResolves(u: Universe, go: Obj, args: InterfaceObjectArguments, k: nat)
    requires IsInstanceOf(u, go, GameObject) && k < |go.components|
    requires IsInstanceOf(u, go.components[k], args.interfaceType)
    requires forall j :: 0 <= j < |go.components| && j != k ==> !IsInstanceOf(u, go.components[j], args.interfaceType)
    ensures GetComponentInGameObjectOrDefault(u, Some(go), args) == Some(go.components[k])
  {
    var r := TryGetComponent(u, go.components, args.interfaceType);
    assert r.Some?;
    var k' :| 0 <= k' < |go.components| && go.components[k'] == r.value
              && IsInstanceOf(u, go.components[k'], args.interfaceType)
              && forall j :: 0 <= j < k' ==> !IsInstanceOf(u, go.components[j], args.interfaceType);
    assert k' == k;
  }

  /** The object tested by `CanAssign`: with `lookIntoGameObject`, a GameObject
      is first resolved to its implementing component. */
  function Candidate(u: Universe, obj: Obj, args: InterfaceObjectArguments, lookIntoGameObject: bool): Obj {
    if lookIntoGameObject then GetComponentInGameObjectOrDefault(u, Some(obj), args).value else obj
  }

  /** `CanAssign(obj, args, lookIntoGameObject)`: the (possibly resolved)
      object's runtime type implements the interface and derives from the
      object type. */
  function CanAssign(u: Universe, obj: Obj, args: InterfaceObjectArguments, lookIntoGameObject: bool): (r: bool)
    ensures !lookIntoGameObject ==> (r <==> IsCompatible(u, obj.runtimeType, args))
    ensures lookIntoGameObject && !(IsInstanceOf(u, obj, GameObject)
              && TryGetComponent(u, obj.components, args.interfaceType).Some?)
            ==> (r <==> IsCompatible(u, obj.runtimeType, args))
    ensures lookIntoGameObject && IsInstanceOf(u, obj, GameObject)
              && TryGetComponent(u, obj.components, args.interfaceType).Some?
            ==> (r <==> IsCompatible(u, TryGetComponent(u, obj.components, args.interfaceType).value.runtimeType, args))
  {
    var candidate := Candidate(u, obj, args, lookIntoGameObject);
    IsAssignableFrom(u, args.interfaceType, candidate.runtimeType)
      && IsAssignableFrom(u, args.objectType, candidate.runtimeType)
  }

  /** `CanAssign(objects, args, lookIntoGameObject)`: every object can be assigned. */
  function CanAssignAll(u: Universe, objects: seq<Obj>, args: InterfaceObjectArguments, lookIntoGameObject: bool): (r: bool)
    ensures r <==> forall i :: 0 <= i < |objects| ==> CanAssign(u, objects[i], args, lookIntoGameObject)
  {
    if objects == [] then true
    else
      var rest := CanAssignAll(u, objects[1..], args, lookIntoGameObject);
      assert forall i :: 1 <= i < |objects| ==> objects[i] == objects[1..][i - 1];
      CanAssign(u, objects[0], args, lookIntoGameObject) && rest
  }

  /** `IsAssignedAndHasWrongInterface`: a non-null reference whose runtime
      type does not implement the interface, which is exactly a non-null
      reference that reads as null when cast to the interface. */
  predicate IsAssignedAndHasWrongInterface(u: Universe, obj: Option<Obj>, args: InterfaceObjectArguments): (r: bool)
    ensures r ==> obj.Some?
    ensures r <==> obj.Some? && As(u, obj, args.interfaceType).None?
  {
    obj.Some? && !IsAssignableFrom(u, args.interfaceType, obj.value.runtimeType)
  }

  /** An assignable object never shows the wrong-interface help box, and the
      test ignores the object type entirely. */
  lemma CanAssignExcludesWrongInterface(u: Universe, obj: Obj, args: InterfaceObjectArguments, otherObjectType: TypeId)
    ensures CanAssign(u, obj, args, false) ==> !IsAssignedAndHasWrongInterface(u, Some(obj), args)
    ensures IsAssignedAndHasWrongInterface(u, Some(obj), args)
            == IsAssignedAndHasWrongInterface(u, Some(obj), InterfaceObjectArguments(otherObjectType, args.interfaceType))
  {
  }

  /** `GetPropertyHeight`: one line, plus the help box when the stored value
      has the wrong interface. */
  function GetPropertyHeight(u: Universe, property: Option<Obj>, args: InterfaceObjectArguments, singleLineHeight: real): (r: real)
    ensures IsAssignedAndHasWrongInterface(u, property, args) ==> r == singleLineHeight + HelpBoxHeight
    ensures !IsAssignedAndHasWrongInterface(u, property, args) ==> r == singleLineHeight
    ensures r > singleLineHeight <==> IsAssignedAndHasWrongInterface(u, property, args)
  {
    if IsAssignedAndHasWrongInterface(u, property, args) then singleLineHeight + HelpBoxHeight else singleLineHeight
  }

  /** `IsAsset(type)`: every type other than exactly `GameObject` and
      `Component` (an identity test, not an assignability test). */
  function IsAsset(t: TypeId): (r: bool)
    ensures !r <==> t == GameObject || t == Component
  {
    !(t == GameObject || t == Component)
  }

  /** A type derived from `Component` (a MonoBehaviour, say) still counts as
      an asset: the identity test disagrees there with an assignability test
      against the same two types. */
  lemma ComponentSubtypeIsAsset(u: Universe, t: TypeId)
    requires IsAssignableFrom(u, Component, t) && t != Component && t != GameObject
    ensures IsAsset(t)
    ensures IsAsset(t) != !(IsAssignableFrom(u, GameObject, t) || IsAssignableFrom(u, Component, t))
  {
  }

  // ----- OpenDelayed -----

  /** The asset search filter of `OpenDelayed` as a value: the tokens of the
      qualifying derived types, or `"t:"` when there are none. */
  function AssetFilter(u: Universe, derived: seq<TypeId>, args: InterfaceObjectArguments): (s: string)
    ensures s != ""
    ensures s == "t:" <==> forall t :: t in derived ==> !IsAssignableFrom(u, args.objectType, t)
  {
    var tokens := Tokens(u, Qualifying(u, derived, args.objectType));
    TokensEmptyIffNoneQualify(u, derived, args.objectType);
    TokensEmptyIff(u, Qualifying(u, derived, args.objectType));
    if tokens == "" then "t:" else tokens
  }

  /** The picker filter `OpenDelayed` builds from `TypeCache.GetTypesDerivedFrom(args.InterfaceType)`
      (given as `derived`): the asset string, and `CanAssign` without the
      GameObject look-up as the scene predicate. */
  method OpenDelayedFilter(u: Universe, derived: seq<TypeId>, args: InterfaceObjectArguments) returns (filter: ObjectSelectorFilter)
    ensures filter.assetSearchFilter == AssetFilter(u, derived, args)
    ensures filter.sceneFilterCallback.Some?
    ensures forall o :: CheckFilter(filter, o) <==> IsCompatible(u, o.runtimeType, args)
  {
    var sb := AppendTypeTokens(u, derived, args.objectType);
    if |sb| == 0 {
      sb := sb + "t:";
    }
    filter := ObjectSelectorFilter(sb, Some(obj => CanAssign(u, obj, args, false)));
  }

  /** Every qualifying derived type's token is part of the asset filter. */
  lemma AssetFilterListsQualifying(u: Universe, derived: seq<TypeId>, args: InterfaceObjectArguments, t: TypeId)
    requires t in derived && IsAssignableFrom(u, args.objectType, t)
    ensures IsSubstring(Token(u, t), AssetFilter(u, derived, args))
  {
    QualifyingTokenInFilter(u, derived, args.objectType, t);
    TokensEmptyIffNoneQualify(u, derived, args.objectType);
  }

  // ----- OnGUI -----

  /** What the change-check block leaves in the property after the object
      field reported `picked`. The restore of the previous value is
      immediately overwritten by the resolved value, so `prev` never matters. */
  function StoredAfterChange(u: Universe, prev: Option<Obj>, picked: Option<Obj>, args: InterfaceObjectArguments): (r: Option<Obj>)
    ensures r == GetComponentInGameObjectOrDefault(u, picked, args)
  {
    GetComponentInGameObjectOrDefault(u, picked, args)
  }

  /** A pick that cannot be assigned is kept, not reverted: with an interface
      type 10 that nothing implements, a plain object of type 5 is stored
      even though the field previously held null. */
  lemma UnassignablePickIsKept()
    ensures var u := Universe({}, {10}, map[]);
            var args := InterfaceObjectArguments(UnityObject, 10);
            var picked := Obj(7, 5, []);
            !CanAssign(u, picked, args, true)
            && StoredAfterChange(u, None, Some(picked), args) == Some(picked)
  {
  }

  /** A drop the drag gate accepts stores a value that can be assigned and
      does not raise the wrong-interface help box. */
  lemma AcceptedPickIsAssignable(u: Universe, prev: Option<Obj>, obj: Obj, args: InterfaceObjectArguments)
    requires CanAssign(u, obj, args, true)
    ensures var s := StoredAfterChange(u, prev, Some(obj), args);
            s.Some? && CanAssign(u, s.value, args, false) && !IsAssignedAndHasWrongInterface(u, s, args)
  {
  }

  /** Whether the object field is enabled while it is drawn: disabled only by
      a drag-update event over the field, while the GUI was enabled, carrying
      an object that cannot be assigned (after the GameObject look-up). */
  function FieldEnabled(u: Universe, args: InterfaceObjectArguments, guiEnabled: bool, isDragUpdated: bool,
                        mouseInside: bool, dragged: seq<Obj>): (r: bool)
    ensures r ==> guiEnabled
    ensures guiEnabled && !r <==> isDragUpdated && mouseInside && guiEnabled
                                  && exists i :: 0 <= i < |dragged| && !CanAssign(u, dragged[i], args, true)
  {
    if isDragUpdated && mouseInside && guiEnabled && !CanAssignAll(u, dragged, args, true) then false else guiEnabled
  }

  /** The state-changing part of `OnGUI`: the help-box decision, the drag gate
      with its restoration of `GUI.enabled`, and the change-check block.
      `edit` is what the host's object field reports: `None` when it was not
      changed this frame, `Some(picked)` when the user picked `picked`. */
  method OnGUI(property: SerializedProperty, gui: GuiState, u: Universe, args: InterfaceObjectArguments,
               isDragUpdated: bool, mouseInside: bool, dragged: seq<Obj>, edit: Option<Option<Obj>>)
    returns (showsHelpBox: bool, enabledDuringField: bool)
    modifies property, gui
    ensures showsHelpBox == IsAssignedAndHasWrongInterface(u, old(property.objectReferenceValue), args)
    ensures enabledDuringField == FieldEnabled(u, args, old(gui.enabled), isDragUpdated, mouseInside, dragged)
    ensures gui.enabled == old(gui.enabled)
    ensures edit.None? ==> property.objectReferenceValue == old(property.objectReferenceValue)
    ensures edit.Some? ==> property.objectReferenceValue
                           == StoredAfterChange(u, old(property.objectReferenceValue), edit.value, args)
  {
    var prevValue := property.objectReferenceValue;
    showsHelpBox := IsAssignedAndHasWrongInterface(u, prevValue, args);

    var prevEnabledState := gui.enabled;
    if isDragUpdated && mouseInside && gui.enabled && !CanAssignAll(u, dragged, args, true) {
      gui.enabled := false;
    }
    enabledDuringField := gui.enabled;

    if edit.Some? {
      property.objectReferenceValue := edit.value;
      var newVal := GetComponentInGameObjectOrDefault(u, property.objectReferenceValue, args);
      if newVal.Some? && !CanAssign(u, newVal.value, args, false) {
        property.objectReferenceValue := prevValue;
      }
      property.objectReferenceValue := newVal;
    }

    gui.enabled := prevEnabledState;
  }
}
