# ReferenceInterfaces — a Dafny model of the editor logic

ReferenceInterfaces is a Unity editor extension. It lets a serialized field
hold a `UnityEngine.Object` that implements a given interface. The runtime
wrappers `InterfaceReference<TInterface, UObject>` and
`InterfaceObject<TInterface, UObject>` store one object field. Property drawers
show that field as an object field:
- The two editor utilities, `InterfaceReferenceUtility` and
  `InterfaceObjectUtility`, each have a drag gate in their `OnGUI`. It
  disables the field while a dragged object cannot be assigned.
- Only `InterfaceReferenceUtility` turns a dragged GameObject into its
  implementing component. It does so before the gate's test and after a pick.
  `InterfaceObjectUtility` tests the GameObject itself, so its gate refuses
  one.
- `ReferenceInterfaceObjectDrawer` has no drag gate. It draws a bare object
  field typed by what it reads as the interface.

Two drawers, `InterfaceObjectDawer` and `ReferenceInterfaceObjectDrawer`,
register for the same `InterfaceObject<>` and `InterfaceObject<,>` types.
Which one draws such a field is up to the host.

The drawers also offer an object picker window. It lists the scene objects
that pass its own filter and narrows them by search text. The drag gates and
the picker filters refuse objects without the interface. When the picker
closes, its closed callback receives the cancel flag where it expects a
success flag: after a choice it stores nothing, and after a cancel it stores
the current object. The picker's tab bar uses a small radio-button group.

This project models that logic and proves what each part promises.

- **Types and objects** (`TypeModel`). Reflection is an abstract universe. It
  records which type is assignable to which, which types are interfaces, and
  each type's full name. An object is a record of its instance id, its runtime
  type and, for a GameObject, its ordered component list. A nullable reference
  is an `Option<Obj>`. It also holds the loop that builds the asset search
  filter, shared by all three `OpenDelayed`.
- **`InterfaceReferenceUtility`** and **`InterfaceObjectUtility`**. These are
  the assignability tests, the GameObject-to-component resolution, the
  wrong-interface height rule and `IsAsset`. They also cover the picker filters
  and the state-changing part of each `OnGUI`: the drag gate that lowers
  `GUI.enabled` and restores it, and the change check on the serialized
  property. Both `OnGUI` are methods on a `SerializedProperty` and a
  `GuiState` object.
- **`ObjectSelector`**. The picker window is a class whose fields are the
  sequences and flags the C# window updates. `FilterItems` rebuilds the
  filtered list. `InitData` sorts the fetched rows. The selection events set
  the current item, and `OnDisable` reports the closed callback's arguments
  and the undo action. `GetTransformPath` walks up the parent chain in a loop.
- **`ToggleGroups`**. The toggle group is a class over a sequence of `Toggle`
  objects. Its methods follow the C# loops and their re-entrant notification.
- **`InterfaceReferences`** and **`InterfaceObjects`**. The reference is a
  class with a setter. `InterfaceObject` is a value, since only its
  constructors write its field.
- **The three drawers**. They map the field's type to its (object type,
  interface type) pair. That type is a closed generic type or a non-generic
  one. For a field holding an array or list of wrappers, it is the
  collection's type. A non-generic type makes `GetGenericTypeDefinition`
  throw, which is `None` in the model. A list type makes the drawers read the
  element wrapper type as the interface.

Host inputs become parameters:
- the hierarchy walk of `HierarchyProperty`, as a sequence of entries;
- `EditorUtility.InstanceIDToObject`, as a lookup function;
- `Undo.GetCurrentGroup()`, as an integer;
- `TypeCache.GetTypesDerivedFrom`, as a sequence of type ids;
- the drag-and-drop state and the object field's reported edit.

Culture-invariant case-insensitive matching is an abstract character fold. The
label order of `string.CompareTo` is an abstract total preorder, given as a
rank of each label.

The code behaves as follows where a reader might expect otherwise:
- The GameObject look-up takes the first component that implements the
  interface, whatever else the component is. It does not search for exactly
  one compatible member.
- `InterfaceReferenceUtility`'s asset filter falls back to `"t:"` when no type
  qualifies. The other two filters are then empty.
- The picker has no category switching. The assets tab is never populated.
- The selected item is not restored when the picker opens.
- In `InterfaceReferenceUtility.OnGUI` the restore of the previous value
  after an unassignable pick is overwritten by the next line, so the pick is
  kept.
- `ToggleGroup.Validate` ends with every toggle off, the one it just
  switched on included.
- `ReferenceInterfaceObjectDrawer` reads the two generic arguments of
  `InterfaceObject<,>` in the reverse of their declared order.

The abstract universe does not know that nothing derived from a wrapper class
is a `UnityEngine.Object`. The lemmas about collection fields take that as a
premise.

## Model

| member | source | states |
|---|---|---|
| TypeModel.As | Runtime/InterfaceReference.cs:28 | `x as T` is the reference itself exactly when it is non-null and an instance of `T`, and null otherwise |
| TypeModel.TryGetComponent | Editor/InterfaceReferenceUtility.cs:122 | null exactly when no component is an instance of the type; otherwise the earliest such component in the GameObject's order |
| TypeModel.NewInterfaceObjectArguments | Editor/InterfaceReferenceUtility.cs:144-150 | stores both types unchanged; logs the object-type assertion exactly when the object type is not a `UnityEngine.Object`, and the interface assertion exactly when the interface type is no interface, in that order (the identical struct of Editor/InterfaceObjectUtility.cs:94-106 is the same member) |
| TypeModel.Qualifying | Editor/InterfaceReferenceUtility.cs:103-107 | the types the loop emits a token for: exactly the derived types assignable to the object type |
| TypeModel.TokensEmptyIff | Editor/InterfaceReferenceUtility.cs:106-110 | the concatenated tokens are empty exactly when no type qualifies, and each token adds at least the three characters `t:` and a space |
| TypeModel.TokenOccurs | Editor/InterfaceReferenceUtility.cs:106 | every listed type's `"t:" + FullName + " "` token occurs in the concatenation |
| TypeModel.AppendTypeTokens | Editor/InterfaceReferenceUtility.cs:102-107 | the `foreach` over the derived types appends one token per type assignable to the object type, in enumeration order |
| TypeModel.QualifyingTokenInFilter | Editor/InterfaceReferenceUtility.cs:103-107 | a derived type assignable to the object type has its token in the built string |
| TypeModel.TokensEmptyIffNoneQualify | Editor/InterfaceObjectUtility.cs:73-79 | the built string is empty exactly when no derived type is assignable to the object type |
| ObjectSelector.DefaultFilter | Editor/ObjectSelectorWindow.cs:308 | the parameterless filter has an empty asset string and a callback that accepts every object |
| ObjectSelector.CheckFilter | Editor/ObjectSelectorWindow.cs:290-294 | an object passes when there is no scene callback, and otherwise exactly when the callback accepts it |
| ObjectSelector.FoldString | Editor/ObjectSelectorWindow.cs:173 | folding keeps the length and folds each character in place |
| ObjectSelector.Matching | Editor/ObjectSelectorWindow.cs:173 | the kept rows are exactly the rows whose folded label contains the folded search text, or all rows for a null or empty text; never more rows than given |
| ObjectSelector.MatchingAppend | Editor/ObjectSelectorWindow.cs:173 | the `Where` filter distributes over concatenation, so it keeps the rows in `allItems` order |
| ObjectSelector.MatchingEmptyTextKeepsAll | Editor/ObjectSelectorWindow.cs:173 | a null or empty search text keeps every row, in order |
| ObjectSelector.MatchingIdempotent | Editor/ObjectSelectorWindow.cs:169-176 | filtering an already filtered list by the same text changes nothing |
| ObjectSelector.MatchingSubMultiset | Editor/ObjectSelectorWindow.cs:173 | filtering never duplicates a row |
| ObjectSelector.InsertByLabel | Editor/ObjectSelectorWindow.cs:144 | insertion adds exactly that row to the multiset of rows |
| ObjectSelector.InsertByLabelSorted | Editor/ObjectSelectorWindow.cs:144 | inserting into a label-sorted list keeps it sorted and keeps any lower bound on the ranks |
| ObjectSelector.SortByLabel | Editor/ObjectSelectorWindow.cs:144 | the result of `allItems.Sort` by label is ascending by label and a permutation of the input, with no promise about ties |
| ObjectSelector.ComponentRowsSound | Editor/ObjectSelectorWindow.cs:282-286 | every component row carries the GameObject's name and the id of a listed component that passes the filter |
| ObjectSelector.ComponentRowsComplete | Editor/ObjectSelectorWindow.cs:282-286 | every listed component that passes the filter has its row |
| ObjectSelector.HierarchyRowsSound | Editor/ObjectSelectorWindow.cs:270-288 | every fetched row has an instance id and comes from a GameObject entry of the walk, as the GameObject's own passing row or a passing component's row |
| ObjectSelector.HierarchyRowsComplete | Editor/ObjectSelectorWindow.cs:276-286 | every GameObject of the walk that passes the filter, and every passing component of one, has its row; non-GameObject entries are skipped |
| ObjectSelector.PathNames | Editor/ObjectSelectorWindow.cs:246-256 | the names from the root down to the transform end with the transform's own name |
| ObjectSelector.JoinPathSnoc | Editor/ObjectSelectorWindow.cs:252 | adding a deeper name appends "/" and that name to the joined path |
| ObjectSelector.TransformPathOfChild | Editor/ObjectSelectorWindow.cs:249-254 | a root's path is its name; a child's path is its parent's path, "/", and its own name |
| ObjectSelector.TransformPathEndsWithName | Editor/ObjectSelectorWindow.cs:249 | the path ends with the transform's own name |
| ObjectSelector.FirstOrDefault | Editor/ObjectSelectorWindow.cs:207 | the first selected row, or null for an empty selection |
| ObjectSelector.ObjectSelectorWindow.constructor | Editor/ObjectSelectorWindow.cs:35 | a new window starts cancelled, with no current item and empty lists |
| ObjectSelector.ObjectSelectorWindow.Show | Editor/ObjectSelectorWindow.cs:56-67 | installs the filter and initialises the data, leaving the current item and the cancel flag as they were |
| ObjectSelector.ObjectSelectorWindow.InitData | Editor/ObjectSelectorWindow.cs:130-147 | records the undo group and resets the search text to ""; `allItems` is a label-sorted permutation of the fetched rows, and the filtered list is "None" followed by all of them |
| ObjectSelector.ObjectSelectorWindow.FilterItems | Editor/ObjectSelectorWindow.cs:169-176 | the filtered list is the "None" row followed by exactly the matching rows of `allItems`, in order, whatever was there before |
| ObjectSelector.ObjectSelectorWindow.SetSearchText | Editor/ObjectSelectorWindow.cs:44-52 | stores the text and rebuilds the list from `allItems` and the text alone, so setting the same text again changes nothing |
| ObjectSelector.ObjectSelectorWindow.FetchAllComponents | Editor/ObjectSelectorWindow.cs:270-288 | the walk yields, per GameObject entry, its own row if it passes the filter and then one row per passing component, in walk order |
| ObjectSelector.ObjectSelectorWindow.FetchEntry | Editor/ObjectSelectorWindow.cs:276-286 | one entry yields nothing unless it is a GameObject, then the rows above |
| ObjectSelector.ObjectSelectorWindow.GetCurrentObject | Editor/ObjectSelectorWindow.cs:296-300 | null when nothing is current or the current row is "None", otherwise the object its id names |
| ObjectSelector.ObjectSelectorWindow.ItemSelectionChanged | Editor/ObjectSelectorWindow.cs:205-210 | the first selected row becomes current, and the selection callback receives the object it names (null for "None") |
| ObjectSelector.ObjectSelectorWindow.ItemsChosen | Editor/ObjectSelectorWindow.cs:212-217 | the first chosen row becomes current, the cancel flag is cleared, and closing reports that object with flag false and collapses the undo group |
| ObjectSelector.ObjectSelectorWindow.OnDisable | Editor/ObjectSelectorWindow.cs:120-128 | the closed callback receives the current object and the cancel flag; a cancelled session reverts to the recorded undo group, a chosen one collapses it |
| ObjectSelector.ObjectSelectorWindow.GetTransformPath | Editor/ObjectSelectorWindow.cs:246-256 | the loop's result is the ancestor names from root to leaf joined by "/" |
| ObjectSelector.OnSelectionChanged | Editor/InterfaceReferenceUtility.cs:113 | the selection callback stores the object in the property |
| ObjectSelector.OnSelectorClosed | Editor/InterfaceReferenceUtility.cs:113 | the closed callback stores the object only when its flag argument is true |
| ObjectSelector.CloseSession | Editor/ObjectSelectorWindow.cs:122 | because the cancel flag is passed where the callback expects success, closing stores the current object exactly when the session was cancelled, and leaves the property unchanged after a choice |
| InterfaceReferenceUtility.GetComponentInGameObjectOrDefault | Editor/InterfaceReferenceUtility.cs:120-125 | a GameObject with a component implementing the interface becomes its first such component, as `TryGetComponent` finds it; anything else, null included, is returned unchanged |
| InterfaceReferenceUtility.UniqueComponentResolves | Editor/InterfaceReferenceUtility.cs:122 | a GameObject with exactly one implementing component resolves to that component |
| InterfaceReferenceUtility.CanAssign | Editor/InterfaceReferenceUtility.cs:131-136 | the object's runtime type, or with the look-up its first implementing component's, is assignable to both the interface and the object type |
| InterfaceReferenceUtility.CanAssignAll | Editor/InterfaceReferenceUtility.cs:129 | the array form holds exactly when every element can be assigned, so an empty drag is assignable |
| InterfaceReferenceUtility.IsAssignedAndHasWrongInterface | Editor/InterfaceReferenceUtility.cs:127 | holds exactly for a non-null reference that reads as null when cast to the interface |
| InterfaceReferenceUtility.CanAssignExcludesWrongInterface | Editor/InterfaceReferenceUtility.cs:127 | an assignable object never has the wrong interface, and the wrong-interface test does not depend on the object type |
| InterfaceReferenceUtility.GetPropertyHeight | Editor/InterfaceReferenceUtility.cs:84-89 | one line plus 24 exactly when the value is non-null without the interface, one line otherwise |
| InterfaceReferenceUtility.IsAsset | Editor/InterfaceReferenceUtility.cs:91-94 | false exactly for the types `GameObject` and `Component` themselves; what this identity test means is stated by `ComponentSubtypeIsAsset` |
| InterfaceReferenceUtility.ComponentSubtypeIsAsset | Editor/InterfaceReferenceUtility.cs:93 | a type derived from `Component` but distinct from it still counts as an asset, so the identity test disagrees there with an assignability test against the same types |
| InterfaceReferenceUtility.AssetFilter | Editor/InterfaceReferenceUtility.cs:101-110 | the asset filter is never empty, and is `"t:"` exactly when no derived type is assignable to the object type |
| InterfaceReferenceUtility.OpenDelayedFilter | Editor/InterfaceReferenceUtility.cs:101-112 | the picker gets that asset string and a scene predicate accepting exactly the objects compatible with both types, without the GameObject look-up |
| InterfaceReferenceUtility.AssetFilterListsQualifying | Editor/InterfaceReferenceUtility.cs:103-107 | every qualifying derived type's token is in the asset filter |
| InterfaceReferenceUtility.StoredAfterChange | Editor/InterfaceReferenceUtility.cs:52-59 | after a change the property holds the look-up of the picked value; the restore of the previous value is overwritten |
| InterfaceReferenceUtility.UnassignablePickIsKept | Editor/InterfaceReferenceUtility.cs:56-58 | a concrete pick that cannot be assigned is stored anyway, over a previous null |
| InterfaceReferenceUtility.AcceptedPickIsAssignable | Editor/InterfaceReferenceUtility.cs:47-58 | a pick the drag gate accepts leaves an assignable value with the right interface |
| InterfaceReferenceUtility.FieldEnabled | Editor/InterfaceReferenceUtility.cs:46-48 | the field is disabled only by a drag update over it while the GUI is enabled with some dragged object that cannot be assigned after the look-up |
| InterfaceReferenceUtility.OnGUI | Editor/InterfaceReferenceUtility.cs:32-62 | the help box shows exactly for a wrong-interface value, the field is enabled as the gate says, `GUI.enabled` is restored, and the property changes only on an edit, to the stored value above |
| InterfaceObjectUtility.CanAssign | Editor/InterfaceObjectUtility.cs:91 | the runtime type is assignable to both the interface and the object type, with no GameObject look-up; `CanAssignAgreesWithReferenceUtility` relates it to the other utility |
| InterfaceObjectUtility.CanAssignAll | Editor/InterfaceObjectUtility.cs:89 | the array form holds exactly when every element can be assigned, so an empty array is assignable |
| InterfaceObjectUtility.CanAssignAgreesWithReferenceUtility | Editor/InterfaceObjectUtility.cs:89-91 | both tests agree with the other drawer's tests without the look-up |
| InterfaceObjectUtility.StoredAfterChange | Editor/InterfaceObjectUtility.cs:42-47 | a null or assignable new value is kept, a non-null unassignable one is reverted to the previous value |
| InterfaceObjectUtility.ChangeKeepsFieldAssignable | Editor/InterfaceObjectUtility.cs:42-47 | a field holding null or an assignable value keeps that property across any change |
| InterfaceObjectUtility.FieldEnabled | Editor/InterfaceObjectUtility.cs:34-36 | the field is disabled only by a drag update over it while the GUI is enabled with some dragged object that cannot be assigned |
| InterfaceObjectUtility.OnGUI | Editor/InterfaceObjectUtility.cs:31-47 | the field is enabled as the gate says, `GUI.enabled` is restored, and the property changes only on an edit, to the stored value above |
| InterfaceObjectUtility.OpenDelayedFilter | Editor/InterfaceObjectUtility.cs:73-81 | one token per qualifying derived type, empty when none qualifies, and `CanAssign` as the scene predicate |
| ToggleGroups.RemoveFirst | Editor/UIElements/ToggleGroup.cs:29 | `List.Remove` leaves the list unchanged for an absent toggle, and otherwise removes exactly one occurrence |
| ToggleGroups.RemoveFirstDistinct | Editor/UIElements/ToggleGroup.cs:27-32 | removal from a duplicate-free list leaves a duplicate-free list of exactly the other toggles |
| ToggleGroups.RegisterThenUnregister | Editor/UIElements/ToggleGroup.cs:19-32 | registering a new toggle and then unregistering it restores the list |
| ToggleGroups.FirstOn | Editor/UIElements/ToggleGroup.cs:53 | `Find` gives null exactly when no toggle is on, otherwise the earliest one that is on |
| ToggleGroups.ToggleGroup.constructor | Editor/UIElements/ToggleGroup.cs:11-17 | a new group is empty |
| ToggleGroups.ToggleGroup.RegisterToggle | Editor/UIElements/ToggleGroup.cs:19-25 | null and registered toggles are ignored, any other is appended, and the list stays free of duplicates |
| ToggleGroups.ToggleGroup.UnregisterToggle | Editor/UIElements/ToggleGroup.cs:27-32 | reports whether the toggle was registered; it is gone afterwards and the other toggles remain |
| ToggleGroups.ToggleGroup.GetFirstActiveToggle | Editor/UIElements/ToggleGroup.cs:51-54 | the earliest registered toggle that is on, or null when none is |
| ToggleGroups.ToggleGroup.IsAnyOn | Editor/UIElements/ToggleGroup.cs:56-59 | holds exactly when some registered toggle is on |
| ToggleGroups.ToggleGroup.ValidateToggleIsInGroup | Editor/UIElements/ToggleGroup.cs:83-87 | throws exactly for null or an unregistered toggle; its consequence for the group is stated by `HandleToggleChanged`'s outcome |
| ToggleGroups.ToggleGroup.HandleToggleChanged | Editor/UIElements/ToggleGroup.cs:66-81 | throws for a toggle outside the group and then changes nothing; otherwise every other registered toggle ends off, the target ends on, and `OnToggleChanged` is raised once with the target |
| ToggleGroups.ToggleGroup.Validate | Editor/UIElements/ToggleGroup.cs:34-49 | does nothing on an empty group; otherwise ends with every toggle off, the first one it activated included, having raised the event for the first toggle exactly when none was on |
| InterfaceReferences.InterfaceReference.constructor | Runtime/InterfaceReference.cs:53 | the default constructor leaves the field null |
| InterfaceReferences.InterfaceReference.FromTarget | Runtime/InterfaceReference.cs:54 | the target constructor stores the target |
| InterfaceReferences.InterfaceReference.FromInterface | Runtime/InterfaceReference.cs:55 | the interface constructor stores `@interface as UObject`, null when it is not a `UObject` |
| InterfaceReferences.InterfaceReference.OneParameter | Runtime/InterfaceReference.cs:65-67 | the one-parameter subclass has object type `UnityEngine.Object` and starts null |
| InterfaceReferences.InterfaceReference.Value | Runtime/InterfaceReference.cs:24-31 | null for a null field; otherwise the field when it implements the interface, and null when it does not |
| InterfaceReferences.InterfaceReference.ValueAssertionFails | Runtime/InterfaceReference.cs:29 | the getter's assertion fails exactly when a non-null field reads back as null |
| InterfaceReferences.InterfaceReference.ToInterface | Runtime/InterfaceReference.cs:57 | the implicit conversion equals `Value`, and is non-null only for a field implementing the interface |
| InterfaceReferences.InterfaceReference.SetValue | Runtime/InterfaceReference.cs:32-42 | null clears the field; any other value is stored cast to `UObject`, the assertion logs exactly when that cast fails, and `Value` then reads back the value set, or null after a failed cast |
| InterfaceReferences.InterfaceReference.DeclaredFieldType | Runtime/InterfaceReference.cs:13 | the field type is the one- or two-parameter generic instance with the interface as argument 0 and the object type as argument 1 |
| InterfaceReferences.InterfaceReference.UnderlyingValue | Runtime/InterfaceReference.cs:49 | the getter returns the stored `UObject` or null |
| InterfaceReferences.InterfaceReference.SetUnderlyingValue | Runtime/InterfaceReference.cs:50 | set then get returns the value set |
| InterfaceObjects.InterfaceObject.UnderlyingValue | Runtime/InterfaceObject.cs:14 | returns the stored `UObject` or null |
| InterfaceObjects.InterfaceObject.Value | Runtime/InterfaceObject.cs:15 | null exactly when the field is null or does not implement the interface; otherwise the field |
| InterfaceObjects.InterfaceObject.DeclaredFieldType | Runtime/InterfaceObject.cs:8 | the field type is the one- or two-parameter generic instance with the interface as argument 0 and the object type as argument 1 |
| InterfaceObjects.InterfaceObject.ToInterface | Runtime/InterfaceObject.cs:21 | the implicit conversion equals `Value` |
| InterfaceObjects.NewDefault | Runtime/InterfaceObject.cs:17 | the default constructor gives a null field and a null value |
| InterfaceObjects.NewFromTarget | Runtime/InterfaceObject.cs:18 | the target constructor stores the target, which `UnderlyingValue` returns |
| InterfaceObjects.NewFromInterface | Runtime/InterfaceObject.cs:19 | the interface constructor stores the value when it is a `UObject`, and null otherwise |
| InterfaceObjects.NewOneParameter | Runtime/InterfaceObject.cs:25-27 | the one-parameter subclass has object type `UnityEngine.Object` and a null field |
| InterfaceObjects.TargetValue | Runtime/InterfaceObject.cs:15-18 | a target that implements the interface is the value; one that does not reads as null but stays the underlying value |
| InterfaceReferenceDrawer.GetObjectAndInterfaceType | Editor/InterfaceReferenceDawer.cs:32-44 | throws exactly for a non-generic field type; for `InterfaceReference<,>` the interface is argument 0 and the object type argument 1; for any other generic type the object type is `UnityEngine.Object` and the interface is argument 0 |
| InterfaceReferenceDrawer.GetArguments | Editor/InterfaceReferenceDawer.cs:46-50 | throws exactly when the reading does; otherwise builds the arguments from exactly that pair, logging the constructor's assertions exactly when its conditions fail |
| InterfaceReferenceDrawer.GetPropertyHeight | Editor/InterfaceReferenceDawer.cs:26-30 | throws exactly when the reading does; otherwise the height adds 24 exactly when the value is non-null without the interface read off the field |
| InterfaceReferenceDrawer.RecoversDeclaredTypes | Editor/InterfaceReferenceDawer.cs:35-43 | for a field of either wrapper form the drawer recovers exactly the declared object and interface types |
| InterfaceReferenceDrawer.WellTypedFieldLogsNothing | Editor/InterfaceReferenceDawer.cs:46-50 | a wrapper field declared with an interface and a `UnityEngine.Object` type logs no assertion |
| InterfaceReferenceDrawer.CollectionFieldRejectsEverything | Editor/InterfaceReferenceDawer.cs:32-49 | for a list of wrappers the element wrapper type is read as the interface, the interface assertion logs, no object can be assigned with or without the GameObject look-up, and every assigned element shows the help box |
| InterfaceObjectDrawer.GetObjectAndInterfaceType | Editor/InterfaceObjectDawer.cs:26-38 | throws exactly for a non-generic field type; for `InterfaceObject<,>` the interface is argument 0 and the object type argument 1; for any other generic type the object type is `UnityEngine.Object` and the interface is argument 0 |
| InterfaceObjectDrawer.OnGUIArguments | Editor/InterfaceObjectDawer.cs:21-22 | throws exactly when the reading does; otherwise `OnGUI` passes arguments built from exactly that pair |
| InterfaceObjectDrawer.RecoversDeclaredTypes | Editor/InterfaceObjectDawer.cs:29-37 | for a field of either wrapper form the drawer recovers exactly the declared object and interface types |
| InterfaceObjectDrawer.CollectionFieldRejectsEverything | Editor/InterfaceObjectDawer.cs:21-37 | for a list of wrappers the element wrapper type is read as the interface, the interface assertion logs, and no object can be assigned |
| ReferenceInterfaceObjectDrawer.GetObjectAndInterfaceType | Editor/ReferenceInterfaceObjectDrawer.cs:56-69 | throws exactly for a non-generic field type; for `InterfaceObject<,>` the object type is argument 0 and the interface argument 1; for any other generic type the object type is `UnityEngine.Object` and the interface is argument 0 |
| ReferenceInterfaceObjectDrawer.SwapsDeclaredTypes | Editor/ReferenceInterfaceObjectDrawer.cs:60-65 | for a two-parameter `InterfaceObject` the pair comes out swapped against its declaration, and the two `InterfaceObject` drawers agree exactly for the one-parameter form or equal arguments |
| ReferenceInterfaceObjectDrawer.ScenePredicate | Editor/ReferenceInterfaceObjectDrawer.cs:49 | the scene predicate is the `InterfaceObject` editor's `CanAssign` for the pair the drawer read |
| ReferenceInterfaceObjectDrawer.ScenePredicateAgreesWithOtherDrawer | Editor/ReferenceInterfaceObjectDrawer.cs:49-65 | for every wrapper and object, the predicate over this drawer's swapped reading accepts exactly what the other drawer's `CanAssign` accepts for the same wrapper |
| ReferenceInterfaceObjectDrawer.CollectionFieldRejectsEverything | Editor/ReferenceInterfaceObjectDrawer.cs:41-69 | for a list of wrappers the scene predicate rejects every object and the asset filter is empty |
| ReferenceInterfaceObjectDrawer.OpenDelayedFilter | Editor/ReferenceInterfaceObjectDrawer.cs:41-49 | one token per derived type assignable to the object type, empty when none is, and the scene predicate above |

## Left out

- Rendering is not modelled. That covers styles, the help box drawing, the interface label, `GUI.backgroundColor`, the list view with `MakeItem` and `BindItem`, the search field, the tab layout and window placement. Both `Tab` classes only restyle a `Toggle`.
- Colours are not modelled. `InterfaceReferenceUtility.OnGUI` saves `GUI.backgroundColor` and turns it red for a wrong-interface value. It then writes the saved background colour into `GUI.color`, so the background stays red and `GUI.color` changes.
- Host services are inputs, not models. `Undo` becomes the recorded group and the reported undo action. `HierarchyProperty` is a given sequence of entries. `TypeCache` is a given sequence of derived types. `EditorUtility.InstanceIDToObject` is a lookup function. `DragAndDrop` is the dragged sequence and the event flags. `EditorGUI.ObjectField` is the reported edit.
- `EditorApplication.delayCall` and the `_isOpeningQueued` and `_queuedOpening` flags only defer opening the picker. The picker's control id, focus handling and `FinishInit` are left out for the same reason.
- The picker's singleton `Instance`, window creation and `Close` are not modelled: `ItemsChosen` calls `OnDisable` directly.
- `UpdateDetails` is left out, because it depends on `AssetDatabase` and the transform lookups. Its `GetTransformPath` is modelled.
- The assets tab is left out. `FetchAllAssets` is never called, and `HandleGroupChanged` and the tab registration only drive the empty handler.
- `SortByLabel`: `List.Sort` is modelled by its result, a label-sorted permutation, not by its algorithm or its order of ties.
- `ItemInfo` rows are values. Two rows with the same id and label are indistinguishable here, whereas C# compares them by reference.
- Culture-exact case folding and string ordering are abstract parameters.
- Pixel heights other than the +24 rule are opaque; `singleLineHeight` is a parameter.
- `ToggleGroups.ToggleGroup.HandleToggleChanged`: the change event of `value = true` is taken as dispatched synchronously to this group, which registered the only callback. A toggle registered with several groups is not modelled.
- The `RequireInterfaceAttribute` drawer and attribute are attribute wiring. They are not part of this model, and neither are the sample scripts.
- The C# compiler's static typing is stated as `requires`. The setters, the wrapper constructors and the wrapper lemmas ask that a reference of static type `T` be null or an instance of `T`. The drawers ask that a closed generic type have one argument per parameter, and at least one.
