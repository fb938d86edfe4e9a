/**
 * The editor logic behind the `InterfaceObject` property drawer. Unlike the
 * `InterfaceReference` drawer it never looks into a GameObject, it really
 * reverts a change to an object that cannot be assigned, and its asset
 * search filter is empty when no type qualifies.
 */
module InterfaceObjectUtility {
  import opened Wrappers
  import opened TypeModel
  import opened ObjectSelector
  import InterfaceReferenceUtility

  /** `CanAssign(obj, args)`: the runtime type implements the interface and
      derives from the object type. */
  function CanAssign(u: Universe, obj: Obj, args: InterfaceObjectArguments): (r: bool)
    ensures r <==> IsAssignableFrom(u, args.interfaceType, obj.runtimeType)
                   && IsAssignableFrom(u, args.objectType, obj.runtimeType)
  {
    IsCompatible(u, obj.runtimeType, args)
  }

  /** `CanAssign(objects, args)`: every object can be assigned. */
  function CanAssignAll(u: Universe, objects: seq<Obj>, args: InterfaceObjectArguments): (r: bool)
    ensures r <==> forall i :: 0 <= i < |objects| ==> CanAssign(u, objects[i], args)
  {
    if objects == [] then true
    else
      var rest := CanAssignAll(u, objects[1..], args);
      assert forall i :: 1 <= i < |objects| ==> objects[i] == objects[1..][i - 1];
      CanAssign(u, objects[0], args) && rest
  }

  /** This drawer's test is the other drawer's test without the GameObject look-up. */
  lemma CanAssignAgreesWithReferenceUtility(u: Universe, objects: seq<Obj>, args: InterfaceObjectArguments)
    ensures forall o :: CanAssign(u, o, args) == InterfaceReferenceUtility.CanAssign(u, o, args, false)
    ensures CanAssignAll(u, objects, args) == InterfaceReferenceUtility.CanAssignAll(u, objects, args, false)
  {
  }

  /** The value the change-check block leaves after the object field reported
      `newVal`: kept when null or assignable, otherwise the previous value. */
  function StoredAfterChange(u: Universe, prev: Option<Obj>, newVal: Option<Obj>, args: InterfaceObjectArguments): (r: Option<Obj>)
    ensures newVal.None? || CanAssign(u, newVal.value, args) ==> r == newVal
    ensures newVal.Some? && !CanAssign(u, newVal.value, args) ==> r == prev
  {
    if !(newVal.None? || CanAssign(u, newVal.value, args)) then prev else newVal
  }

  /** A field that held null or an assignable value still does after any change. */
  lemma ChangeKeepsFieldAssignable(u: Universe, prev: Option<Obj>, newVal: Option<Obj>, args: InterfaceObjectArguments)
    requires prev.None? || CanAssign(u, prev.value, args)
    ensures var r := StoredAfterChange(u, prev, newVal, args);
            r.None? || CanAssign(u, r.value, args)
  {
  }

  /** Whether the object field is enabled while it is drawn: disabled only by
      a drag-update event over the field, while the GUI was enabled, carrying
      an object that cannot be assigned. */
  function FieldEnabled(u: Universe, args: InterfaceObjectArguments, guiEnabled: bool, isDragUpdated: bool,
                        mouseInside: bool, dragged: seq<Obj>): (r: bool)
    ensures r ==> guiEnabled
    ensures guiEnabled && !r <==> isDragUpdated && mouseInside && guiEnabled
                                  && exists i :: 0 <= i < |dragged| && !CanAssign(u, dragged[i], args)
  {
    if isDragUpdated && mouseInside && guiEnabled && !CanAssignAll(u, dragged, args) then false else guiEnabled
  }

  /** The state-changing part of `OnGUI`: the drag gate with its restoration
      of `GUI.enabled`, and the change-check block. `edit` is what the host's
      object field reports: `None` when it was not changed this frame,
      `Some(picked)` when the user picked `picked`. */
  method OnGUI(property: SerializedProperty, gui: GuiState, u: Universe, args: InterfaceObjectArguments,
               isDragUpdated: bool, mouseInside: bool, dragged: seq<Obj>, edit: Option<Option<Obj>>)
    returns (enabledDuringField: bool)
    modifies property, gui
    ensures enabledDuringField == FieldEnabled(u, args, old(gui.enabled), isDragUpdated, mouseInside, dragged)
    ensures gui.enabled == old(gui.enabled)
    ensures edit.None? ==> property.objectReferenceValue == old(property.objectReferenceValue)
    ensures edit.Some? ==> property.objectReferenceValue
                           == StoredAfterChange(u, old(property.objectReferenceValue), edit.value, args)
  {
    var prevValue := property.objectReferenceValue;

    var prevEnabledState := gui.enabled;
    if isDragUpdated && mouseInside && gui.enabled && !CanAssignAll(u, dragged, args) {
      gui.enabled := false;
    }
    enabledDuringField := gui.enabled;
    if edit.Some? {
      property.objectReferenceValue := edit.value;
    }

    gui.enabled := prevEnabledState;

    if edit.Some? {
      var newVal := property.objectReferenceValue;
      if !(newVal.None? || CanAssign(u, newVal.value, args)) {
        property.objectReferenceValue := prevValue;
      }
    }
  }

  /** The picker filter `OpenDelayed` builds from `TypeCache.GetTypesDerivedFrom(args.InterfaceType)`
      (given as `derived`): the tokens of the qualifying types, with no
      fallback, and `CanAssign` as the scene predicate. */
  method OpenDelayedFilter(u: Universe, derived: seq<TypeId>, args: InterfaceObjectArguments) returns (filter: ObjectSelectorFilter)
    ensures filter.assetSearchFilter == Tokens(u, Qualifying(u, derived, args.objectType))
    ensures filter.assetSearchFilter == "" <==> forall t :: t in derived ==> !IsAssignableFrom(u, args.objectType, t)
    ensures filter.sceneFilterCallback.Some?
    ensures forall o :: CheckFilter(filter, o) <==> CanAssign(u, o, args)
  {
    var sb := AppendTypeTokens(u, derived, args.objectType);
    TokensEmptyIffNoneQualify(u, derived, args.objectType);
    filter := ObjectSelectorFilter(sb, Some(obj => CanAssign(u, obj, args)));
  }
}
