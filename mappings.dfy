/**
 * The identifier-mapping layer: `Mappings` translates class, method and field
 * descriptions between the deobfuscated names a patch document uses and the
 * names in the target code, and `DefaultMappings` is the mapping that does
 * nothing.  A mapping is a bundle of functions; `None` stands for Java's
 * `null` ("no mapping").
 */
module Mappings {
  import opened Wrappers

  /** A method: declaring class, name, parameter type names and return type. */
  datatype MethodDescription = MethodDescription(className: string, name: string, parameters: seq<string>, returnType: string)

  datatype ClassDescription = ClassDescription(name: string)

  /** A field: the class (or type) it is looked up in, and its name. */
  datatype FieldDescription = FieldDescription(className: string, name: string)

  /** An element of the list handed to `map(List)`: one of the three kinds, or anything else. */
  datatype Description =
    | MethodDesc(methodDescription: MethodDescription)
    | ClassDesc(classDescription: ClassDescription)
    | FieldDesc(fieldDescription: FieldDescription)
    | Unmappable(text: string)

  datatype Mappings = Mappings(
    mapMethod: MethodDescription -> Option<MethodDescription>,
    mapClass: ClassDescription -> Option<ClassDescription>,
    mapField: FieldDescription -> Option<FieldDescription>,
    unmapMethod: MethodDescription -> Option<MethodDescription>,
    obfuscate: string -> string)

  /** `IllegalArgumentException("Must be mappable: ...")`. */
  datatype MappingError = MustBeMappable(thing: Description)

  predicate Mappable(d: Description) {
    !d.Unmappable?
  }

  /** The kind-specific `map` of one mappable description; the result keeps the kind. */
  function MapOne(m: Mappings, d: Description): (r: Option<Description>)
    requires Mappable(d)
    ensures r.Some? ==>
      && (r.value.MethodDesc? <==> d.MethodDesc?)
      && (r.value.ClassDesc? <==> d.ClassDesc?)
      && (r.value.FieldDesc? <==> d.FieldDesc?)
  {
    match d
    case MethodDesc(x) => (match m.mapMethod(x) case Some(y) => Some(MethodDesc(y)) case None => None)
    case ClassDesc(x) => (match m.mapClass(x) case Some(y) => Some(ClassDesc(y)) case None => None)
    case FieldDesc(x) => (match m.mapField(x) case Some(y) => Some(FieldDesc(y)) case None => None)
  }

  /** Specification of `map(List)`: the per-kind map of each element in order, or the first unmappable one. */
  function MapAll(m: Mappings, list: seq<Description>): Result<seq<Option<Description>>, MappingError> {
    if |list| == 0 then Success([])
    else if !Mappable(list[0]) then Failure(MustBeMappable(list[0]))
    else
      match MapAll(m, list[1..])
      case Success(rest) => Success([MapOne(m, list[0])] + rest)
      case Failure(e) => Failure(e)
  }

  /**
   * `Mappings.map(List)`: maps every element with the map of its own kind,
   * keeping `null` results in place; an element of any other kind throws.
   */
  method MapList(m: Mappings, list: seq<Description>) returns (r: Result<seq<Option<Description>>, MappingError>)
    ensures r == MapAll(m, list)
  {
    var mapped: seq<Option<Description>> := [];
    var i := 0;
    while i < |list|
      invariant 0 <= i <= |list|
      invariant forall k :: 0 <= k < i ==> Mappable(list[k])
      invariant |mapped| == i && forall k :: 0 <= k < i ==> mapped[k] == MapOne(m, list[k])
    {
      if !Mappable(list[i]) {
        MapAllFirstUnmappable(m, list, i);
        return Failure(MustBeMappable(list[i]));
      }
      mapped := mapped + [MapOne(m, list[i])];
      i := i + 1;
    }
    MapAllSucceeds(m, list);
    assert mapped == MapAll(m, list).value;
    r := Success(mapped);
  }

  /** When every element is mappable, `map(List)` keeps length and order and maps element-wise. */
  lemma {:induction false} MapAllSucceeds(m: Mappings, list: seq<Description>)
    requires forall k :: 0 <= k < |list| ==> Mappable(list[k])
    ensures MapAll(m, list).Success?
    ensures |MapAll(m, list).value| == |list|
    ensures forall k :: 0 <= k < |list| ==> MapAll(m, list).value[k] == MapOne(m, list[k])
  {
    if |list| > 0 {
      MapAllSucceeds(m, list[1..]);
      var rest := MapAll(m, list[1..]).value;
      forall k | 0 <= k < |list| ensures MapAll(m, list).value[k] == MapOne(m, list[k]) {
        if k > 0 { assert list[1..][k - 1] == list[k]; }
      }
    }
  }

  /** The first unmappable element is the one reported, and no list is returned. */
  lemma {:induction false} MapAllFirstUnmappable(m: Mappings, list: seq<Description>, i: nat)
    requires i < |list| && !Mappable(list[i])
    requires forall k :: 0 <= k < i ==> Mappable(list[k])
    ensures MapAll(m, list) == Failure(MustBeMappable(list[i]))
  {
    if i > 0 {
      MapAllFirstUnmappable(m, list[1..], i - 1);
    }
  }

  /** `map(List)` fails exactly when some element is of none of the three kinds. */
  lemma {:induction false} MapAllFailsIff(m: Mappings, list: seq<Description>)
    ensures MapAll(m, list).Failure? <==> exists k :: 0 <= k < |list| && !Mappable(list[k])
  {
    if exists k :: 0 <= k < |list| && !Mappable(list[k]) {
      var i :| 0 <= i < |list| && !Mappable(list[i]) && forall k :: 0 <= k < i ==> Mappable(list[k]) by {
        var j :| 0 <= j < |list| && !Mappable(list[j]);
        FirstUnmappableExists(list, j);
      }
      MapAllFirstUnmappable(m, list, i);
    } else {
      MapAllSucceeds(m, list);
    }
  }

  lemma {:induction false} FirstUnmappableExists(list: seq<Description>, j: nat)
    requires j < |list| && !Mappable(list[j])
    ensures exists i :: 0 <= i < |list| && !Mappable(list[i]) && forall k :: 0 <= k < i ==> Mappable(list[k])
    decreases j
  {
    if exists k :: 0 <= k < j && !Mappable(list[k]) {
      var k :| 0 <= k < j && !Mappable(list[k]);
      FirstUnmappableExists(list, k);
    }
  }

  // ---------------------------------------------------------------------------
  // DefaultMappings

  /** `DefaultMappings`: every `map`, `unmap` and `obfuscate` returns its argument. */
  function Default(): (m: Mappings)
    ensures forall x :: m.mapMethod(x) == Some(x)
    ensures forall x :: m.mapClass(x) == Some(x)
    ensures forall x :: m.mapField(x) == Some(x)
    ensures forall x :: m.unmapMethod(x) == Some(x)
    ensures forall s :: m.obfuscate(s) == s
  {
    Mappings(x => Some(x), x => Some(x), x => Some(x), x => Some(x), s => s)
  }

  /** Under the default mapping `unmap(map(x)) == x`, and `map(List)` returns every element unchanged. */
  lemma {:induction false} DefaultMapAllIdentity(list: seq<Description>)
    requires forall k :: 0 <= k < |list| ==> Mappable(list[k])
    ensures forall x :: Default().unmapMethod(Default().mapMethod(x).value) == Some(x)
    ensures MapAll(Default(), list) == Success(seq(|list|, k requires 0 <= k < |list| => Some(list[k])))
  {
    MapAllSucceeds(Default(), list);
    var r := MapAll(Default(), list).value;
    forall k | 0 <= k < |list| ensures r[k] == Some(list[k]) {
      assert r[k] == MapOne(Default(), list[k]);
    }
    assert r == seq(|list|, k requires 0 <= k < |list| => Some(list[k]));
  }
}
