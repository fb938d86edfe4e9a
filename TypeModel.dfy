/**
 * The part of .NET reflection and of the Unity object model that the
 * extension relies on, stated abstractly.
 *
 * Types are ids drawn from a universe that records which type is assignable
 * to which (`IsAssignableFrom(u, a, b)` holds when a value of runtime type `b`
 * may be stored in a variable of type `a`), which types are interfaces, and
 * each type's full name. An object is a record of its instance id, its
 * runtime type and, for a GameObject, its ordered list of components.
 */
module TypeModel {
  import opened Wrappers

  type TypeId = nat

  /** Fixed ids of the engine types the extension names explicitly. */
  const UnityObject: TypeId := 0
  const GameObject: TypeId := 1
  const Component: TypeId := 2

  datatype Universe = Universe(
    subtypes: set<(TypeId, TypeId)>,   // (derived, base) pairs
    interfaces: set<TypeId>,
    fullNames: map<TypeId, string>)

  /** `a.IsAssignableFrom(b)`: the runtime type `b` is a subtype of `a`. */
  predicate IsAssignableFrom(u: Universe, a: TypeId, b: TypeId) {
    (b, a) in u.subtypes
  }

  /** `Type.IsInterface`. */
  predicate IsInterface(u: Universe, t: TypeId) {
    t in u.interfaces
  }

  /** `Type.FullName`; a type without a recorded name has the empty one. */
  function FullName(u: Universe, t: TypeId): string {
    if t in u.fullNames then u.fullNames[t] else ""
  }

  /** A live engine object (never null: nullable references are `Option<Obj>`). */
  datatype Obj = Obj(instanceId: int, runtimeType: TypeId, components: seq<Obj>)

  /** `obj is T`. */
  predicate IsInstanceOf(u: Universe, obj: Obj, t: TypeId) {
    IsAssignableFrom(u, t, obj.runtimeType)
  }

  /** `x as T`: the reference itself when its runtime type is a `T`, else null. */
  function As(u: Universe, x: Option<Obj>, t: TypeId): (r: Option<Obj>)
    ensures r.Some? <==> x.Some? && IsInstanceOf(u, x.value, t)
    ensures r.Some? ==> r == x
  {
    if x.Some? && IsInstanceOf(u, x.value, t) then x else None
  }

  /** `GameObject.TryGetComponent(type, out comp)`: the first component, in
      the GameObject's own order, whose type is a `t`; none if there is none. */
  function TryGetComponent(u: Universe, components: seq<Obj>, t: TypeId): (r: Option<Obj>)
    ensures r.None? <==> forall i :: 0 <= i < |components| ==> !IsInstanceOf(u, components[i], t)
    ensures r.Some? ==> exists k :: 0 <= k < |components| && components[k] == r.value
                          && IsInstanceOf(u, components[k], t)
                          && forall j :: 0 <= j < k ==> !IsInstanceOf(u, components[j], t)
  {
    if components == [] then None
    else if IsInstanceOf(u, components[0], t) then Some(components[0])
    else
      var r := TryGetComponent(u, components[1..], t);
      if r.Some? then
        ghost var k :| 0 <= k < |components[1..]| && components[1..][k] == r.value
                       && IsInstanceOf(u, components[1..][k], t)
                       && forall j :: 0 <= j < k ==> !IsInstanceOf(u, components[1..][j], t);
        assert components[k + 1] == r.value;
        assert forall j :: 0 <= j < k + 1 ==> !IsInstanceOf(u, components[j], t) by {
          forall j | 0 <= j < k + 1 ensures !IsInstanceOf(u, components[j], t) {
            if j > 0 { assert components[j] == components[1..][j - 1]; }
          }
        }
        r
      else
        assert forall i :: 0 <= i < |components| ==> !IsInstanceOf(u, components[i], t) by {
          forall i | 0 <= i < |components| ensures !IsInstanceOf(u, components[i], t) {
            if i > 0 { assert components[i] == components[1..][i - 1]; }
          }
        }
        r
  }

  /** The pair of types a drawer works with, as `InterfaceObjectArguments`. */
  datatype InterfaceObjectArguments = InterfaceObjectArguments(objectType: TypeId, interfaceType: TypeId)

  /** The two `Debug.Assert` messages of the `InterfaceObjectArguments` constructor. */
  datatype AssertionFailure = ObjectTypeNotUnityObject | InterfaceTypeNotInterface

  /** What the constructor produces: the arguments, and the assertion failures
      it logs on the way (a `Debug.Assert` reports, it does not stop). */
  datatype ConstructedArguments = ConstructedArguments(args: InterfaceObjectArguments, logged: seq<AssertionFailure>)

  /** `new InterfaceObjectArguments(objectType, interfaceType)`. */
  function NewInterfaceObjectArguments(u: Universe, objectType: TypeId, interfaceType: TypeId): (r: ConstructedArguments)
    ensures r.args.objectType == objectType && r.args.interfaceType == interfaceType
    ensures ObjectTypeNotUnityObject in r.logged <==> !IsAssignableFrom(u, UnityObject, objectType)
    ensures InterfaceTypeNotInterface in r.logged <==> !IsInterface(u, interfaceType)
    ensures r.logged == [] <==> IsAssignableFrom(u, UnityObject, objectType) && IsInterface(u, interfaceType)
    ensures |r.logged| == 2 ==> r.logged == [ObjectTypeNotUnityObject, InterfaceTypeNotInterface]
  {
    var first := if IsAssignableFrom(u, UnityObject, objectType) then [] else [ObjectTypeNotUnityObject];
    var second := if IsInterface(u, interfaceType) then [] else [InterfaceTypeNotInterface];
    ConstructedArguments(InterfaceObjectArguments(objectType, interfaceType), first + second)
  }

  /** The compatibility test shared by every scene predicate: the runtime type
      implements the interface and derives from the object type. */
  predicate IsCompatible(u: Universe, runtimeType: TypeId, args: InterfaceObjectArguments) {
    IsAssignableFrom(u, args.interfaceType, runtimeType) && IsAssignableFrom(u, args.objectType, runtimeType)
  }

  /** The serialized `_underlyingValue` field a drawer edits. */
  class SerializedProperty {
    var objectReferenceValue: Option<Obj>

    constructor (value: Option<Obj>)
      ensures objectReferenceValue == value
    {
      objectReferenceValue := value;
    }
  }

  /** The `GUI.enabled` flag the drawers lower while a drag is refused. */
  class GuiState {
    var enabled: bool

    constructor (enabled: bool)
      ensures this.enabled == enabled
    {
      this.enabled := enabled;
    }
  }

  // ----- Generic field types -----

  /** The generic type definitions the drawers compare against, and any other
      one (`List<>` for a list of wrappers, say) with its number of parameters. */
  datatype GenericDefinition = InterfaceReference1 | InterfaceReference2 | InterfaceObject1 | InterfaceObject2
                             | OtherDefinition(parameters: nat)

  /** `FieldInfo.FieldType`: a closed generic type, given by its definition
      and its generic arguments, or a type that is not generic at all (an
      array of wrappers, say). For a field holding a collection of wrappers
      it is the collection's type, not the wrapper's. */
  datatype FieldType = Generic(definition: GenericDefinition, arguments: seq<TypeId>) | NonGeneric

  /** The number of generic parameters of each definition. */
  function Arity(d: GenericDefinition): nat {
    match d
    case InterfaceReference1 => 1
    case InterfaceObject1 => 1
    case InterfaceReference2 => 2
    case InterfaceObject2 => 2
    case OtherDefinition(n) => n
  }

  /** A closed generic type has one argument per parameter of its definition,
      and a generic definition has at least one parameter. */
  predicate WellFormedFieldType(f: FieldType) {
    f.Generic? ==> |f.arguments| == Arity(f.definition) && 1 <= Arity(f.definition)
  }

  /** The two out-parameters of `GetObjectAndInterfaceType`. */
  datatype TypePair = TypePair(objectType: TypeId, interfaceType: TypeId)

  // ----- Asset search filter -----

  /** The types among `derived` (in enumeration order) that are assignable to
      `objectType`: the ones the `OpenDelayed` loops emit a token for. */
  function Qualifying(u: Universe, derived: seq<TypeId>, objectType: TypeId): (q: seq<TypeId>)
    ensures |q| <= |derived|
    ensures forall t :: t in q <==> t in derived && IsAssignableFrom(u, objectType, t)
  {
    if derived == [] then []
    else
      var front := derived[..|derived| - 1];
      var last := derived[|derived| - 1];
      assert derived == front + [last];
      Qualifying(u, front, objectType) + (if IsAssignableFrom(u, objectType, last) then [last] else [])
  }

  /** One search-filter token, `"t:" + type.FullName + " "`. */
  function Token(u: Universe, t: TypeId): string {
    "t:" + FullName(u, t) + " "
  }

  /** The tokens of `ts`, concatenated in order. */
  function Tokens(u: Universe, ts: seq<TypeId>): (s: string)
  {
    if ts == [] then "" else Tokens(u, ts[..|ts| - 1]) + Token(u, ts[|ts| - 1])
  }

  /** `needle` occurs in `hay` as a contiguous block. */
  predicate IsSubstring(needle: string, hay: string) {
    exists i | 0 <= i <= |hay| - |needle| :: OccursAt(needle, hay, i)
  }

  /** `needle` occurs in `hay` starting at position `i`. */
  predicate OccursAt(needle: string, hay: string, i: int) {
    0 <= i && i + |needle| <= |hay| && hay[i..i + |needle|] == needle
  }

  /** The concatenated tokens are empty exactly when there are no types. */
  lemma {:induction false} TokensEmptyIff(u: Universe, ts: seq<TypeId>)
    ensures Tokens(u, ts) == "" <==> ts == []
    ensures |Tokens(u, ts)| >= 3 * |ts|
  {
    if ts != [] {
      TokensEmptyIff(u, ts[..|ts| - 1]);
    }
  }

  /** Every listed type's token occurs in the concatenation. */
  lemma {:induction false} TokenOccurs(u: Universe, ts: seq<TypeId>, t: TypeId)
    requires t in ts
    ensures IsSubstring(Token(u, t), Tokens(u, ts))
  {
    var front := ts[..|ts| - 1];
    var tok := Token(u, t);
    assert ts == front + [ts[|ts| - 1]];
    if ts[|ts| - 1] == t {
      var hay := Tokens(u, ts);
      var i := |Tokens(u, front)|;
      assert hay[i..i + |tok|] == tok;
      assert OccursAt(tok, hay, i);
    } else {
      assert t in front;
      TokenOccurs(u, front, t);
      var i :| OccursAt(tok, Tokens(u, front), i);
      assert OccursAt(tok, Tokens(u, front), i);
      assert 0 <= i && i + |tok| <= |Tokens(u, front)|;
      var hay := Tokens(u, ts);
      assert hay == Tokens(u, front) + Token(u, ts[|ts| - 1]);
      assert hay[i..i + |tok|] == Tokens(u, front)[i..i + |tok|];
      assert OccursAt(tok, hay, i);
    }
  }

  /** The `foreach` loop over `TypeCache.GetTypesDerivedFrom(interfaceType)`
      that appends one token per type assignable to `objectType`. */
  method AppendTypeTokens(u: Universe, derived: seq<TypeId>, objectType: TypeId) returns (sb: string)
    ensures sb == Tokens(u, Qualifying(u, derived, objectType))
  {
    sb := "";
    var i := 0;
    while i < |derived|
      invariant 0 <= i <= |derived|
      invariant sb == Tokens(u, Qualifying(u, derived[..i], objectType))
    {
      var t := derived[i];
      assert derived[..i + 1] == derived[..i] + [t];
      QualifyingStep(u, derived[..i], t, objectType);
      if IsAssignableFrom(u, objectType, t) {
        TokensStep(u, Qualifying(u, derived[..i], objectType), t);
        sb := sb + Token(u, t);
      } else {
        ghost var q := Qualifying(u, derived[..i], objectType);
        assert q + [] == q;
      }
      i := i + 1;
    }
    assert derived[..i] == derived;
  }

  lemma QualifyingStep(u: Universe, s: seq<TypeId>, t: TypeId, objectType: TypeId)
    ensures Qualifying(u, s + [t], objectType)
            == Qualifying(u, s, objectType) + (if IsAssignableFrom(u, objectType, t) then [t] else [])
  {
    assert (s + [t])[..|s|] == s;
  }

  lemma TokensStep(u: Universe, ts: seq<TypeId>, t: TypeId)
    ensures Tokens(u, ts + [t]) == Tokens(u, ts) + Token(u, t)
  {
    assert (ts + [t])[..|ts|] == ts;
  }

  /** A type that is derived from the interface and assignable to the object
      type contributes its token to the filter the loop builds. */
  lemma QualifyingTokenInFilter(u: Universe, derived: seq<TypeId>, objectType: TypeId, t: TypeId)
    requires t in derived && IsAssignableFrom(u, objectType, t)
    ensures IsSubstring(Token(u, t), Tokens(u, Qualifying(u, derived, objectType)))
  {
    TokenOccurs(u, Qualifying(u, derived, objectType), t);
  }

  /** The loop appends nothing exactly when no derived type is assignable. */
  lemma TokensEmptyIffNoneQualify(u: Universe, derived: seq<TypeId>, objectType: TypeId)
    ensures Tokens(u, Qualifying(u, derived, objectType)) == ""
            <==> forall t :: t in derived ==> !IsAssignableFrom(u, objectType, t)
  {
    var q := Qualifying(u, derived, objectType);
    TokensEmptyIff(u, q);
    if q != [] {
      assert q[0] in q;
    }
  }
}
