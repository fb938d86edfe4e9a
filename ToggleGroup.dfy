/**
 * The radio-button group of the picker's tab bar. Toggles are registered in
 * order; a change of one toggle switches every other one off and keeps the
 * changed one on, raising `OnToggleChanged` with it.
 *
 * Setting `value` on a toggle whose value actually changes notifies the
 * group synchronously (the group registered `ToggleValueChanged` on every
 * toggle it holds); `SetValueWithoutNotify` does not. The events raised are
 * returned as a sequence of the toggles passed to `OnToggleChanged`.
 */
module ToggleGroups {

  /** A UI Toolkit toggle; only its boolean value matters here. */
  class Toggle {
    var value: bool

    constructor (value: bool)
      ensures this.value == value
    {
      this.value := value;
    }
  }

  /** The result of `HandleToggleChanged`: the `ArgumentException` thrown for a
      toggle outside the group, or the `OnToggleChanged` events raised. */
  datatype Outcome = ArgumentException | Raised(events: seq<Toggle>)

  /** No toggle occurs twice. */
  predicate Distinct(ts: seq<Toggle>) {
    forall i, j :: 0 <= i < j < |ts| ==> ts[i] != ts[j]
  }

  /** `List.Remove`: the sequence without the first occurrence of `x`. */
  function RemoveFirst(s: seq<Toggle>, x: Toggle?): (r: seq<Toggle>)
    ensures x !in s ==> r == s
    ensures x in s ==> |r| == |s| - 1 && multiset(r) == multiset(s) - multiset{x}
  {
    if s == [] then []
    else
      assert s == [s[0]] + s[1..];
      assert multiset(s) == multiset{s[0]} + multiset(s[1..]);
      if s[0] == x then s[1..]
      else [s[0]] + RemoveFirst(s[1..], x)
  }

  /** Removing a toggle from a duplicate-free list leaves a duplicate-free list
      without it, the others in their old order. */
  lemma {:induction false} RemoveFirstDistinct(s: seq<Toggle>, x: Toggle?)
    requires Distinct(s)
    ensures Distinct(RemoveFirst(s, x)) && x !in RemoveFirst(s, x)
    ensures forall t :: t in RemoveFirst(s, x) <==> t in s && t != x
  {
    if s != [] && s[0] != x {
      assert Distinct(s[1..]) by {
        forall i, j | 0 <= i < j < |s[1..]| ensures s[1..][i] != s[1..][j] {
          assert s[1..][i] == s[i + 1] && s[1..][j] == s[j + 1];
        }
      }
      RemoveFirstDistinct(s[1..], x);
      var r := RemoveFirst(s, x);
      assert r == [s[0]] + RemoveFirst(s[1..], x);
      assert s[0] !in s[1..] by {
        forall k | 0 <= k < |s[1..]| ensures s[1..][k] != s[0] {
          assert s[1..][k] == s[k + 1];
        }
      }
      assert forall t :: t in s <==> t == s[0] || t in s[1..] by {
        assert s == [s[0]] + s[1..];
      }
    } else if s != [] {
      assert forall t :: t in s <==> t == s[0] || t in s[1..] by {
        assert s == [s[0]] + s[1..];
      }
      forall i, j | 0 <= i < j < |s[1..]| ensures s[1..][i] != s[1..][j] {
        assert s[1..][i] == s[i + 1] && s[1..][j] == s[j + 1];
      }
      forall k | 0 <= k < |s[1..]| ensures s[1..][k] != s[0] {
        assert s[1..][k] == s[k + 1];
      }
    }
  }

  /** Registering a new toggle and then unregistering it restores the list. */
  lemma {:induction false} RegisterThenUnregister(s: seq<Toggle>, x: Toggle)
    requires x !in s
    ensures RemoveFirst(s + [x], x) == s
  {
    if s != [] {
      assert (s + [x])[0] == s[0] && (s + [x])[1..] == s[1..] + [x];
      RegisterThenUnregister(s[1..], x);
      assert s == [s[0]] + s[1..];
    }
  }

  /** `List.Find(x => x.value)`: the earliest toggle that is on, or null. */
  function FirstOn(ts: seq<Toggle>): (r: Toggle?)
    reads ts
    ensures r == null <==> forall i :: 0 <= i < |ts| ==> !ts[i].value
    ensures r != null ==> exists k :: 0 <= k < |ts| && ts[k] == r && r.value
                            && forall j :: 0 <= j < k ==> !ts[j].value
  {
    if ts == [] then null
    else if ts[0].value then ts[0]
    else
      var r := FirstOn(ts[1..]);
      assert forall i :: 1 <= i < |ts| ==> ts[i] == ts[1..][i - 1];
      if r != null then
        ghost var k :| 0 <= k < |ts[1..]| && ts[1..][k] == r && r.value
                       && forall j :: 0 <= j < k ==> !ts[1..][j].value;
        assert ts[k + 1] == r;
        r
      else r
  }

  class ToggleGroup {
    var toggles: seq<Toggle>

    /** The group never holds a toggle twice. */
    ghost predicate Valid()
      reads this
    {
      Distinct(toggles)
    }

    constructor ()
      ensures Valid() && toggles == []
    {
      toggles := [];
    }

    /** `RegisterToggle`: null and already registered toggles are ignored,
        any other toggle is appended. */
    method RegisterToggle(toggle: Toggle?)
      requires Valid()
      modifies this
      ensures Valid()
      ensures toggle == null || toggle in old(toggles) ==> toggles == old(toggles)
      ensures toggle != null && toggle !in old(toggles) ==> toggles == old(toggles) + [toggle]
    {
      if toggle == null || toggle in toggles {
        return;
      }
      toggles := toggles + [toggle];
    }

    /** `UnregisterToggle`: removes a registered toggle, reporting whether it
        was there; an unregistered toggle leaves the list as it was. */
    method UnregisterToggle(toggle: Toggle?) returns (removed: bool)
      requires Valid()
      modifies this
      ensures Valid()
      ensures removed <==> toggle in old(toggles)
      ensures toggles == RemoveFirst(old(toggles), toggle)
      ensures toggle !in toggles
      ensures forall t :: t in toggles <==> t in old(toggles) && t != toggle
    {
      removed := toggle in toggles;
      RemoveFirstDistinct(toggles, toggle);
      toggles := RemoveFirst(toggles, toggle);
    }

    /** `GetFirstActiveToggle`. */
    function GetFirstActiveToggle(): (r: Toggle?)
      reads this, toggles
      ensures r == null <==> forall i :: 0 <= i < |toggles| ==> !toggles[i].value
      ensures r != null ==> exists k :: 0 <= k < |toggles| && toggles[k] == r && r.value
                              && forall j :: 0 <= j < k ==> !toggles[j].value
    {
      FirstOn(toggles)
    }

    /** `IsAnyOn`: some registered toggle is on. */
    function IsAnyOn(): (r: bool)
      reads this, toggles
      ensures r <==> exists i :: 0 <= i < |toggles| && toggles[i].value
    {
      GetFirstActiveToggle() != null
    }

    /** `ValidateToggleIsInGroup`: whether it throws `ArgumentException`. */
    method ValidateToggleIsInGroup(toggle: Toggle?) returns (throws: bool)
      ensures throws <==> toggle == null || toggle !in toggles
    {
      throws := toggle == null || toggle !in toggles;
    }

    /** `HandleToggleChanged`: every other registered toggle is switched off
        without notification; a target that is on is announced, one that is
        off is switched back on with notification, which re-enters the
        handler and announces it then. */
    method HandleToggleChanged(target: Toggle?) returns (outcome: Outcome)
      requires Valid()
      modifies toggles
      ensures outcome.ArgumentException? <==> target == null || target !in toggles
      ensures outcome.ArgumentException? ==> forall t :: t in toggles ==> t.value == old(t.value)
      ensures outcome.Raised? ==> outcome.events == [target] && target != null && target.value
      ensures outcome.Raised? ==> forall t :: t in toggles && t != target ==> !t.value
      decreases if target != null && target.value then 0 else 1
    {
      var throws := ValidateToggleIsInGroup(target);
      if throws {
        return ArgumentException;
      }
      var i := 0;
      while i < |toggles|
        invariant 0 <= i <= |toggles|
        invariant forall j :: 0 <= j < i && toggles[j] != target ==> !toggles[j].value
        invariant forall j :: i <= j < |toggles| ==> toggles[j].value == old(toggles[j].value)
        invariant target.value == old(target.value)
      {
        if toggles[i] != target {
          toggles[i].value := false;
        }
        i := i + 1;
      }
      if target.value {
        outcome := Raised([target]);
      } else {
        // `value = true` changes the value, so the group is notified.
        target.value := true;
        outcome := HandleToggleChanged(target);
      }
    }

    /** `Validate`: on a non-empty group with nothing on, the first toggle is
        switched on with notification; then every toggle that is on is
        switched off without notification, the one just activated included,
        so the group always ends with every toggle off. */
    method Validate() returns (raised: seq<Toggle>)
      requires Valid()
      modifies toggles
      ensures toggles == [] ==> raised == []
      ensures toggles != [] ==> forall t :: t in toggles ==> !t.value
      ensures toggles != [] && !old(IsAnyOn()) ==> raised == [toggles[0]]
      ensures old(IsAnyOn()) ==> raised == []
    {
      raised := [];
      if |toggles| == 0 {
        return;
      }
      var activeToggle := GetFirstActiveToggle();
      if activeToggle == null {
        activeToggle := toggles[0];
        // `value = true` changes the value, so the group is notified.
        activeToggle.value := true;
        var outcome := HandleToggleChanged(activeToggle);
        raised := outcome.events;
      }
      var i := 0;
      while i < |toggles|
        invariant 0 <= i <= |toggles|
        invariant forall j :: 0 <= j < i ==> !toggles[j].value
      {
        if toggles[i].value {
          toggles[i].value := false;
        }
        i := i + 1;
      }
    }
  }
}
