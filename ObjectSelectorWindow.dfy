/**
 * The object picker window: one selection session over the scene's
 * GameObjects and components.
 *
 * The host's hierarchy walk, `EditorUtility.InstanceIDToObject` and the undo
 * stack are inputs: a sequence of hierarchy entries, a lookup function from
 * instance ids to objects, and the undo group current when the session
 * starts. The culture-invariant case-insensitive comparison is an abstract
 * character fold, and `string.CompareTo` on labels an abstract total preorder,
 * given as a rank of each label.
 */
module ObjectSelector {
  import opened Wrappers
  import opened TypeModel

  /** One row of the list; `InstanceID` is null only for the synthetic "None" row. */
  datatype ItemInfo = ItemInfo(InstanceID: Option<int>, Label: string)

  /** The shared `_nullItem` row that heads every filtered list. */
  const NullItem: ItemInfo := ItemInfo(None, "None")

  /** The picker's filter: an asset search string and an optional scene predicate. */
  datatype ObjectSelectorFilter = ObjectSelectorFilter(assetSearchFilter: string, sceneFilterCallback: Option<Obj -> bool>)

  /** The parameterless `ObjectSelectorFilter()` constructor. */
  function DefaultFilter(): (f: ObjectSelectorFilter)
    ensures f.assetSearchFilter == ""
    ensures f.sceneFilterCallback.Some?
    ensures forall o :: CheckFilter(f, o)
  {
    ObjectSelectorFilter("", Some(x => true))
  }

  /** `CheckFilter`: an object passes unless the scene callback exists and rejects it. */
  predicate CheckFilter(f: ObjectSelectorFilter, obj: Obj): (r: bool)
    ensures f.sceneFilterCallback.None? ==> r
    ensures f.sceneFilterCallback.Some? ==> (r <==> f.sceneFilterCallback.value(obj))
  {
    f.sceneFilterCallback.None? || f.sceneFilterCallback.value(obj)
  }

  // ----- Search text -----

  /** The string with every character case-folded. */
  function FoldString(fold: char -> char, s: string): (r: string)
    ensures |r| == |s|
    ensures forall i :: 0 <= i < |s| ==> r[i] == fold(s[i])
  {
    seq(|s|, i requires 0 <= i < |s| => fold(s[i]))
  }

  /** The `Where` condition of `FilterItems`: a null or empty search text keeps
      every label; otherwise the folded text must occur in the folded label. */
  predicate LabelMatches(fold: char -> char, rowLabel: string, searchText: Option<string>) {
    searchText.None? || searchText.value == ""
    || IsSubstring(FoldString(fold, searchText.value), FoldString(fold, rowLabel))
  }

  /** The items whose label matches, in their original order. */
  function Matching(fold: char -> char, items: seq<ItemInfo>, searchText: Option<string>): (r: seq<ItemInfo>)
    ensures |r| <= |items|
    ensures forall x :: x in r <==> x in items && LabelMatches(fold, x.Label, searchText)
  {
    if items == [] then []
    else
      (if LabelMatches(fold, items[0].Label, searchText) then [items[0]] else [])
      + Matching(fold, items[1..], searchText)
  }

  /** Filtering distributes over concatenation, so it keeps the original order. */
  lemma {:induction false} MatchingAppend(fold: char -> char, a: seq<ItemInfo>, b: seq<ItemInfo>, searchText: Option<string>)
    ensures Matching(fold, a + b, searchText) == Matching(fold, a, searchText) + Matching(fold, b, searchText)
  {
    if a == [] {
      assert a + b == b;
    } else {
      assert (a + b)[0] == a[0];
      assert (a + b)[1..] == a[1..] + b;
      MatchingAppend(fold, a[1..], b, searchText);
    }
  }

  /** A null or empty search text keeps every item. */
  lemma {:induction false} MatchingEmptyTextKeepsAll(fold: char -> char, items: seq<ItemInfo>, searchText: Option<string>)
    requires searchText.None? || searchText.value == ""
    ensures Matching(fold, items, searchText) == items
  {
    if items != [] {
      MatchingEmptyTextKeepsAll(fold, items[1..], searchText);
    }
  }

  /** Filtering an already filtered list with the same text changes nothing. */
  lemma {:induction false} MatchingIdempotent(fold: char -> char, items: seq<ItemInfo>, searchText: Option<string>)
    ensures Matching(fold, Matching(fold, items, searchText), searchText) == Matching(fold, items, searchText)
  {
    if items != [] {
      var head := if LabelMatches(fold, items[0].Label, searchText) then [items[0]] else [];
      MatchingAppend(fold, head, Matching(fold, items[1..], searchText), searchText);
      MatchingIdempotent(fold, items[1..], searchText);
      if head != [] {
        assert head[1..] == [];
      }
    }
  }

  /** Filtering never duplicates an item. */
  lemma {:induction false} MatchingSubMultiset(fold: char -> char, items: seq<ItemInfo>, searchText: Option<string>)
    ensures multiset(Matching(fold, items, searchText)) <= multiset(items)
  {
    if items != [] {
      MatchingSubMultiset(fold, items[1..], searchText);
      assert items == [items[0]] + items[1..];
      assert multiset(items) == multiset{items[0]} + multiset(items[1..]);
    }
  }

  // ----- Sorting by label -----

  /** Ascending by label rank; ties may come in any order. */
  predicate SortedByLabel(labelRank: string -> real, s: seq<ItemInfo>) {
    forall i, j :: 0 <= i < j < |s| ==> labelRank(s[i].Label) <= labelRank(s[j].Label)
  }

  /** Every item of `s` ranks at least `bound`. */
  predicate RanksAtLeast(labelRank: string -> real, bound: real, s: seq<ItemInfo>) {
    forall i :: 0 <= i < |s| ==> bound <= labelRank(s[i].Label)
  }

  /** `x` placed before the first item that does not rank below it. */
  function InsertByLabel(labelRank: string -> real, x: ItemInfo, s: seq<ItemInfo>): (r: seq<ItemInfo>)
    ensures multiset(r) == multiset(s) + multiset{x}
  {
    if s == [] then [x]
    else if labelRank(x.Label) <= labelRank(s[0].Label) then [x] + s
    else
      assert s == [s[0]] + s[1..];
      [s[0]] + InsertByLabel(labelRank, x, s[1..])
  }

  lemma {:induction false} InsertByLabelSorted(labelRank: string -> real, x: ItemInfo, s: seq<ItemInfo>, bound: real)
    requires SortedByLabel(labelRank, s)
    ensures SortedByLabel(labelRank, InsertByLabel(labelRank, x, s))
    ensures RanksAtLeast(labelRank, bound, s) && bound <= labelRank(x.Label)
            ==> RanksAtLeast(labelRank, bound, InsertByLabel(labelRank, x, s))
  {
    if s == [] {
    } else if labelRank(x.Label) <= labelRank(s[0].Label) {
      assert RanksAtLeast(labelRank, labelRank(x.Label), s);
      SortedCons(labelRank, x, s);
    } else {
      var s0 := labelRank(s[0].Label);
      assert RanksAtLeast(labelRank, s0, s[1..]);
      InsertByLabelSorted(labelRank, x, s[1..], s0);
      InsertByLabelSorted(labelRank, x, s[1..], bound);
      var rest := InsertByLabel(labelRank, x, s[1..]);
      SortedCons(labelRank, s[0], rest);
    }
  }

  /** An item that ranks no higher than a sorted list may head it. */
  lemma SortedCons(labelRank: string -> real, y: ItemInfo, t: seq<ItemInfo>)
    requires SortedByLabel(labelRank, t) && RanksAtLeast(labelRank, labelRank(y.Label), t)
    ensures SortedByLabel(labelRank, [y] + t)
    ensures forall bound :: bound <= labelRank(y.Label) && RanksAtLeast(labelRank, bound, t)
              ==> RanksAtLeast(labelRank, bound, [y] + t)
  {
    var r := [y] + t;
    forall i, j | 0 <= i < j < |r| ensures labelRank(r[i].Label) <= labelRank(r[j].Label) {
      assert r[j] == t[j - 1];
      if i > 0 { assert r[i] == t[i - 1]; }
    }
    forall bound | bound <= labelRank(y.Label) && RanksAtLeast(labelRank, bound, t)
      ensures RanksAtLeast(labelRank, bound, r)
    {
      forall i | 0 <= i < |r| ensures bound <= labelRank(r[i].Label) {
        if i > 0 { assert r[i] == t[i - 1]; }
      }
    }
  }

  /** The result of `allItems.Sort(...)` by label: a sorted permutation.
      `List.Sort` is not stable, so nothing is promised about ties. */
  function SortByLabel(labelRank: string -> real, s: seq<ItemInfo>): (r: seq<ItemInfo>)
    ensures SortedByLabel(labelRank, r)
    ensures multiset(r) == multiset(s)
  {
    if s == [] then []
    else
      assert s == [s[0]] + s[1..];
      var rest := SortByLabel(labelRank, s[1..]);
      InsertByLabelSorted(labelRank, s[0], rest, 0.0);
      InsertByLabel(labelRank, s[0], rest)
  }

  // ----- Hierarchy walk -----

  /** One step of `HierarchyProperty.Next` over the scene: the object it
      points at, its instance id and its name. */
  datatype HierarchyEntry = HierarchyEntry(pptrValue: Option<Obj>, instanceId: int, name: string)

  /** The component rows of one GameObject; each carries the GameObject's name. */
  function ComponentRows(f: ObjectSelectorFilter, components: seq<Obj>, rowLabel: string): seq<ItemInfo>
  {
    if components == [] then []
    else
      var last := components[|components| - 1];
      ComponentRows(f, components[..|components| - 1], rowLabel)
      + (if CheckFilter(f, last) then [ItemInfo(Some(last.instanceId), rowLabel)] else [])
  }

  /** The rows one hierarchy entry yields: none unless it is a GameObject;
      otherwise the GameObject's own row if it passes the filter, then one row
      per passing component. */
  function EntryRows(u: Universe, f: ObjectSelectorFilter, e: HierarchyEntry): seq<ItemInfo>
  {
    var go := As(u, e.pptrValue, GameObject);
    if go.None? then []
    else
      (if CheckFilter(f, go.value) then [ItemInfo(Some(e.instanceId), e.name)] else [])
      + ComponentRows(f, go.value.components, e.name)
  }

  /** What `FetchAllComponents` yields over the whole walk, in walk order. */
  function HierarchyRows(u: Universe, f: ObjectSelectorFilter, h: seq<HierarchyEntry>): seq<ItemInfo>
  {
    if h == [] then [] else HierarchyRows(u, f, h[..|h| - 1]) + EntryRows(u, f, h[|h| - 1])
  }

  lemma ComponentRowsStep(f: ObjectSelectorFilter, components: seq<Obj>, c: Obj, rowLabel: string)
    ensures ComponentRows(f, components + [c], rowLabel)
            == ComponentRows(f, components, rowLabel) + (if CheckFilter(f, c) then [ItemInfo(Some(c.instanceId), rowLabel)] else [])
  {
    assert (components + [c])[..|components|] == components;
  }

  lemma HierarchyRowsStep(u: Universe, f: ObjectSelectorFilter, h: seq<HierarchyEntry>, e: HierarchyEntry)
    ensures HierarchyRows(u, f, h + [e]) == HierarchyRows(u, f, h) + EntryRows(u, f, e)
  {
    assert (h + [e])[..|h|] == h;
  }

  /** An instance id that the walk admits: the id of a GameObject entry whose
      GameObject passes the filter, or of a passing component of one. */
  ghost predicate AdmittedFrom(u: Universe, f: ObjectSelectorFilter, e: HierarchyEntry, item: ItemInfo) {
    var go := As(u, e.pptrValue, GameObject);
    go.Some? && item.Label == e.name &&
    ((CheckFilter(f, go.value) && item.InstanceID == Some(e.instanceId))
     || exists c :: c in go.value.components && CheckFilter(f, c) && item.InstanceID == Some(c.instanceId))
  }

  lemma {:induction false} ComponentRowsSound(f: ObjectSelectorFilter, components: seq<Obj>, rowLabel: string, item: ItemInfo)
    requires item in ComponentRows(f, components, rowLabel)
    ensures item.Label == rowLabel
    ensures exists c :: c in components && CheckFilter(f, c) && item.InstanceID == Some(c.instanceId)
  {
    var front := components[..|components| - 1];
    var last := components[|components| - 1];
    if item in ComponentRows(f, front, rowLabel) {
      ComponentRowsSound(f, front, rowLabel, item);
      var c :| c in front && CheckFilter(f, c) && item.InstanceID == Some(c.instanceId);
      assert c in components;
    } else {
      assert last in components;
    }
  }

  lemma {:induction false} ComponentRowsComplete(f: ObjectSelectorFilter, components: seq<Obj>, rowLabel: string, c: Obj)
    requires c in components && CheckFilter(f, c)
    ensures ItemInfo(Some(c.instanceId), rowLabel) in ComponentRows(f, components, rowLabel)
  {
    var front := components[..|components| - 1];
    assert components == front + [components[|components| - 1]];
    if c != components[|components| - 1] {
      ComponentRowsComplete(f, front, rowLabel, c);
    }
  }

  /** Every row the walk yields has an instance id, and was admitted by the
      filter for some GameObject entry of the walk (never the "None" row). */
  lemma {:induction false} HierarchyRowsSound(u: Universe, f: ObjectSelectorFilter, h: seq<HierarchyEntry>, item: ItemInfo)
    requires item in HierarchyRows(u, f, h)
    ensures item.InstanceID.Some?
    ensures exists k :: 0 <= k < |h| && AdmittedFrom(u, f, h[k], item)
  {
    var front := h[..|h| - 1];
    var e := h[|h| - 1];
    if item in HierarchyRows(u, f, front) {
      HierarchyRowsSound(u, f, front, item);
      var k :| 0 <= k < |front| && AdmittedFrom(u, f, front[k], item);
      assert h[k] == front[k];
    } else {
      var go := As(u, e.pptrValue, GameObject);
      if item in ComponentRows(f, go.value.components, e.name) {
        ComponentRowsSound(f, go.value.components, e.name, item);
      }
      assert AdmittedFrom(u, f, h[|h| - 1], item);
    }
  }

  /** Conversely, every GameObject of the walk that passes the filter, and
      every passing component of one, has its row. */
  lemma {:induction false} HierarchyRowsComplete(u: Universe, f: ObjectSelectorFilter, h: seq<HierarchyEntry>, k: nat)
    requires k < |h| && As(u, h[k].pptrValue, GameObject).Some?
    ensures CheckFilter(f, h[k].pptrValue.value) ==> ItemInfo(Some(h[k].instanceId), h[k].name) in HierarchyRows(u, f, h)
    ensures forall c :: c in h[k].pptrValue.value.components && CheckFilter(f, c)
              ==> ItemInfo(Some(c.instanceId), h[k].name) in HierarchyRows(u, f, h)
  {
    var front := h[..|h| - 1];
    if k < |h| - 1 {
      assert h[k] == front[k];
      HierarchyRowsComplete(u, f, front, k);
    } else {
      var go := h[k].pptrValue.value;
      forall c | c in go.components && CheckFilter(f, c)
        ensures ItemInfo(Some(c.instanceId), h[k].name) in HierarchyRows(u, f, h)
      {
        ComponentRowsComplete(f, go.components, h[k].name, c);
      }
    }
  }

  // ----- Transforms -----

  /** A scene transform: its name and its parent (null at a root). */
  class Transform {
    const name: string
    const parent: Transform?
    ghost const depth: nat

    /** The parent chain is finite: every parent is strictly shallower. */
    ghost predicate Valid()
      decreases depth
    {
      parent != null ==> parent.depth < depth && parent.Valid()
    }

    constructor (name: string, parent: Transform?)
      requires parent != null ==> parent.Valid()
      ensures Valid() && this.name == name && this.parent == parent
    {
      this.name := name;
      this.parent := parent;
      this.depth := if parent == null then 0 else parent.depth + 1;
    }
  }

  /** The names from the root down to `t` itself. */
  function PathNames(t: Transform): (r: seq<string>)
    requires t.Valid()
    decreases t.depth
    ensures |r| >= 1 && r[|r| - 1] == t.name
  {
    if t.parent == null then [t.name] else PathNames(t.parent) + [t.name]
  }

  /** The names joined with "/". */
  function JoinPath(names: seq<string>): string
    requires |names| >= 1
  {
    if |names| == 1 then names[0] else names[0] + "/" + JoinPath(names[1..])
  }

  lemma {:induction false} JoinPathSnoc(names: seq<string>, last: string)
    requires |names| >= 1
    ensures JoinPath(names + [last]) == JoinPath(names) + "/" + last
  {
    if |names| > 1 {
      assert (names + [last])[1..] == names[1..] + [last];
      JoinPathSnoc(names[1..], last);
    } else {
      assert (names + [last])[1..] == [last];
    }
  }

  /** A child's path is its parent's path, "/", and its own name; a root's
      path is its name alone. */
  lemma TransformPathOfChild(t: Transform)
    requires t.Valid()
    ensures t.parent == null ==> JoinPath(PathNames(t)) == t.name
    ensures t.parent != null ==> JoinPath(PathNames(t)) == JoinPath(PathNames(t.parent)) + "/" + t.name
  {
    if t.parent != null {
      JoinPathSnoc(PathNames(t.parent), t.name);
    }
  }

  /** The path ends with the transform's own name. */
  lemma {:induction false} TransformPathEndsWithName(t: Transform)
    requires t.Valid()
    ensures var p := JoinPath(PathNames(t)); |p| >= |t.name| && p[|p| - |t.name|..] == t.name
  {
    TransformPathOfChild(t);
  }

  // ----- The session -----

  /** `selectedItems.FirstOrDefault() as ItemInfo`. */
  function FirstOrDefault(selected: seq<ItemInfo>): (r: Option<ItemInfo>)
    ensures r.None? <==> selected == []
    ensures r.Some? ==> r.value == selected[0]
  {
    if selected == [] then None else Some(selected[0])
  }

  /** The two ways the undo group recorded at the start is closed. */
  datatype UndoAction = RevertAllDownToGroup(group: int) | CollapseUndoOperations(group: int)

  /** What `OnDisable` does: the arguments of the closed callback and the
      undo action. */
  datatype CloseReport = CloseReport(closedObject: Option<Obj>, callbackFlag: bool, undo: UndoAction)

  class ObjectSelectorWindow {
    const fold: char -> char
    const labelRank: string -> real

    var filter: ObjectSelectorFilter
    var allItems: seq<ItemInfo>
    var filteredItems: seq<ItemInfo>
    var searchText: Option<string>
    var currentItem: Option<ItemInfo>
    var userCanceled: bool
    var undoGroup: int

    /** `ScriptableObject.CreateInstance`: a fresh window starts cancelled,
        with nothing selected. */
    constructor (fold: char -> char, labelRank: string -> real)
      ensures this.fold == fold && this.labelRank == labelRank
      ensures userCanceled && currentItem.None? && searchText.None?
      ensures allItems == [] && filteredItems == []
    {
      this.fold := fold;
      this.labelRank := labelRank;
      filter := DefaultFilter();
      allItems := [];
      filteredItems := [];
      searchText := None;
      currentItem := None;
      userCanceled := true;
      undoGroup := 0;
    }

    /** `Show` on this window: install the filter and initialise the data. */
    method Show(newFilter: ObjectSelectorFilter, currentGroup: int, u: Universe, hierarchy: seq<HierarchyEntry>)
      modifies this
      ensures filter == newFilter && undoGroup == currentGroup && searchText == Some("")
      ensures SortedByLabel(labelRank, allItems)
      ensures multiset(allItems) == multiset(HierarchyRows(u, newFilter, hierarchy))
      ensures filteredItems == [NullItem] + allItems
      ensures currentItem == old(currentItem) && userCanceled == old(userCanceled)
    {
      filter := newFilter;
      InitData(currentGroup, u, hierarchy);
    }

    /** `InitData`: record the undo group, reset the search text, fetch and
        sort the rows, then filter. */
    method InitData(currentGroup: int, u: Universe, hierarchy: seq<HierarchyEntry>)
      modifies this
      ensures undoGroup == currentGroup && searchText == Some("")
      ensures SortedByLabel(labelRank, allItems)
      ensures multiset(allItems) == multiset(HierarchyRows(u, filter, hierarchy))
      ensures filteredItems == [NullItem] + allItems
      ensures filter == old(filter) && currentItem == old(currentItem) && userCanceled == old(userCanceled)
    {
      undoGroup := currentGroup;
      searchText := Some("");
      var fetched := FetchAllComponents(u, hierarchy);
      var sorted := SortByLabel(labelRank, fetched);
      MatchingEmptyTextKeepsAll(fold, sorted, Some(""));
      allItems := sorted;
      FilterItems();
      assert allItems == sorted && filter == old(filter) && searchText == Some("");
    }

    /** `FilterItems`: clear the list, add the "None" row, then every row
        whose label matches the search text. */
    method FilterItems()
      modifies this`filteredItems
      ensures filteredItems == [NullItem] + Matching(fold, allItems, searchText)
    {
      filteredItems := [];
      filteredItems := filteredItems + [NullItem];
      filteredItems := filteredItems + Matching(fold, allItems, searchText);
    }

    /** The `SearchText` setter. The list depends on `allItems` and the text
        alone, so setting the same text again leaves it as it is. */
    method SetSearchText(value: Option<string>)
      modifies this`searchText, this`filteredItems
      ensures searchText == value
      ensures filteredItems == [NullItem] + Matching(fold, allItems, value)
      ensures old(searchText) == value && old(filteredItems) == [NullItem] + Matching(fold, allItems, value)
              ==> filteredItems == old(filteredItems)
    {
      searchText := value;
      FilterItems();
    }

    /** The walk of `FetchAllComponents`, with the filter applied per object. */
    method FetchAllComponents(u: Universe, hierarchy: seq<HierarchyEntry>) returns (items: seq<ItemInfo>)
      ensures items == HierarchyRows(u, filter, hierarchy)
    {
      items := [];
      var i := 0;
      while i < |hierarchy|
        invariant 0 <= i <= |hierarchy|
        invariant items == HierarchyRows(u, filter, hierarchy[..i])
      {
        var e := hierarchy[i];
        assert hierarchy[..i + 1] == hierarchy[..i] + [e];
        HierarchyRowsStep(u, filter, hierarchy[..i], e);
        var rows := FetchEntry(u, e);
        items := items + rows;
        i := i + 1;
      }
      assert hierarchy[..i] == hierarchy;
    }

    /** One pass of the walk: skip an entry that is not a GameObject, else
        yield the GameObject's row and then each component's row, each only
        if it passes the filter. */
    method FetchEntry(u: Universe, e: HierarchyEntry) returns (rows: seq<ItemInfo>)
      ensures rows == EntryRows(u, filter, e)
    {
      rows := [];
      var go := As(u, e.pptrValue, GameObject);
      if go.None? {
        return;
      }
      if CheckFilter(filter, go.value) {
        rows := rows + [ItemInfo(Some(e.instanceId), e.name)];
      }
      ghost var head := rows;
      var comps := go.value.components;
      var j := 0;
      while j < |comps|
        invariant 0 <= j <= |comps|
        invariant rows == head + ComponentRows(filter, comps[..j], e.name)
      {
        var comp := comps[j];
        assert comps[..j + 1] == comps[..j] + [comp];
        ComponentRowsStep(filter, comps[..j], comp, e.name);
        if CheckFilter(filter, comp) {
          rows := rows + [ItemInfo(Some(comp.instanceId), e.name)];
        }
        j := j + 1;
      }
      assert comps[..j] == comps;
    }

    /** `GetCurrentObject`: null for no selection or for the "None" row,
        otherwise the object the instance id names. */
    function GetCurrentObject(lookup: int -> Option<Obj>): (r: Option<Obj>)
      reads this
      ensures currentItem.None? || currentItem.value.InstanceID.None? ==> r.None?
      ensures currentItem.Some? && currentItem.value.InstanceID.Some?
              ==> r == lookup(currentItem.value.InstanceID.value)
    {
      if currentItem.None? || currentItem.value.InstanceID.None? then None
      else lookup(currentItem.value.InstanceID.value)
    }

    /** `ItemSelectionChanged`: the first selected row becomes current and the
        selection callback is handed the object it names. */
    method ItemSelectionChanged(selected: seq<ItemInfo>, lookup: int -> Option<Obj>) returns (reported: Option<Obj>)
      modifies this`currentItem
      ensures currentItem == FirstOrDefault(selected)
      ensures reported == GetCurrentObject(lookup)
      ensures selected != [] && selected[0].InstanceID.None? ==> reported.None?
    {
      currentItem := FirstOrDefault(selected);
      reported := GetCurrentObject(lookup);
    }

    /** `ItemsChosen`: the first chosen row becomes current, the session is
        no longer cancelled, and the window closes. */
    method ItemsChosen(selected: seq<ItemInfo>, lookup: int -> Option<Obj>) returns (report: CloseReport)
      modifies this`currentItem, this`userCanceled
      ensures currentItem == FirstOrDefault(selected) && !userCanceled
      ensures report == CloseReport(GetCurrentObject(lookup), false, CollapseUndoOperations(undoGroup))
      ensures selected != [] && selected[0].InstanceID.None? ==> report.closedObject.None?
    {
      currentItem := FirstOrDefault(selected);
      userCanceled := false;
      report := OnDisable(lookup);
    }

    /** `OnDisable`: the closed callback receives the current object and the
        cancel flag; a cancelled session reverts to the recorded undo group,
        a chosen one collapses into it. */
    method OnDisable(lookup: int -> Option<Obj>) returns (report: CloseReport)
      ensures report.closedObject == GetCurrentObject(lookup)
      ensures report.callbackFlag == userCanceled
      ensures userCanceled ==> report.undo == RevertAllDownToGroup(undoGroup)
      ensures !userCanceled ==> report.undo == CollapseUndoOperations(undoGroup)
    {
      var undo := if userCanceled then RevertAllDownToGroup(undoGroup) else CollapseUndoOperations(undoGroup);
      report := CloseReport(GetCurrentObject(lookup), userCanceled, undo);
    }

    /** `GetTransformPath`: start with the transform's name and prepend each
        ancestor's name and "/" while walking up. */
    method GetTransformPath(transform: Transform) returns (path: string)
      requires transform.Valid()
      ensures path == JoinPath(PathNames(transform))
    {
      path := transform.name;
      var t: Transform := transform;
      ghost var below: seq<string> := [];
      while t.parent != null
        invariant t.Valid()
        invariant PathNames(transform) == PathNames(t) + below
        invariant path == JoinPath([t.name] + below)
        decreases t.depth
      {
        assert PathNames(t) == PathNames(t.parent) + [t.name];
        assert [t.parent.name] + ([t.name] + below) == [t.parent.name, t.name] + below;
        assert ([t.parent.name] + ([t.name] + below))[1..] == [t.name] + below;
        path := t.parent.name + "/" + path;
        below := [t.name] + below;
        t := t.parent;
      }
    }
  }

  /** The selection callback every `OpenDelayed` passes to `Show`: store the
      object and apply it. */
  method OnSelectionChanged(property: SerializedProperty, obj: Option<Obj>)
    modifies property
    ensures property.objectReferenceValue == obj
  {
    property.objectReferenceValue := obj;
  }

  /** The closed callback every `OpenDelayed` passes to `Show`: store the
      object when its flag argument is true. */
  method OnSelectorClosed(property: SerializedProperty, obj: Option<Obj>, success: bool)
    modifies property
    ensures property.objectReferenceValue == if success then obj else old(property.objectReferenceValue)
  {
    if success {
      property.objectReferenceValue := obj;
    }
  }

  /** Closing a session wired as `OpenDelayed` wires it. The flag handed to
      the closed callback is the cancel flag, so the property receives the
      current object exactly when the session was cancelled, and keeps its
      value when an item was chosen. */
  method CloseSession(window: ObjectSelectorWindow, property: SerializedProperty, lookup: int -> Option<Obj>)
      returns (report: CloseReport)
    modifies property
    ensures report.callbackFlag == window.userCanceled
    ensures window.userCanceled ==> property.objectReferenceValue == window.GetCurrentObject(lookup)
    ensures !window.userCanceled ==> property.objectReferenceValue == old(property.objectReferenceValue)
  {
    report := window.OnDisable(lookup);
    OnSelectorClosed(property, report.closedObject, report.callbackFlag);
  }
}
