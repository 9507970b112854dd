/**
 * Building a `ClassPatchDescriptor` from one class element of a patch
 * document: the class name through the mappings, one patch element per
 * child, the method list rewritten to the mapped names, and the `field`
 * attribute translated, including the `$N.field` form that names a field of
 * the N-th parameter of the listed methods.
 */
module ClassPatches {
  import opened Wrappers
  import opened Text
  import M = Mappings
  import opened Document
  import opened Descriptors

  /** A class patch: the (mapped) class name and its patch elements, in document order. */
  datatype ClassPatch = ClassPatch(name: string, patches: seq<PatchDescriptor>)

  /** One patch element after translation, and whether the loop over patch elements breaks after it. */
  datatype Step = Step(patch: PatchDescriptor, stop: bool)

  /** The `PatchDescriptor` constructor: attributes, trimmed text content, tag name. */
  function NewPatchDescriptor(e: Element): (p: PatchDescriptor)
    ensures p.attributes == e.attrs && p.patch == e.tag
    ensures exists lo, hi :: 0 <= lo <= hi <= |TextContent(e)| && p.methods == TextContent(e)[lo..hi]
  {
    PatchDescriptor(e.attrs, Trim(JavaTrim, TextContent(e)), e.tag)
  }

  /** The class id, mapped when the mapping knows it; a missing id reads as "". */
  function ClassName(mp: M.Mappings, e: Element): (r: string)
    ensures mp.mapClass(M.ClassDescription(Attribute(e, "id"))).None? ==> r == Attribute(e, "id")
    ensures mp.mapClass(M.ClassDescription(Attribute(e, "id"))).Some? ==>
      r == mp.mapClass(M.ClassDescription(Attribute(e, "id"))).value.name
  {
    match mp.mapClass(M.ClassDescription(Attribute(e, "id")))
    case None => Attribute(e, "id")
    case Some(c) => c.name
  }

  /** `mappings.map(methodDescriptionList)`: each description through `map`, nulls kept in place. */
  function MapMethods(mp: M.Mappings, ds: seq<M.MethodDescription>): (r: seq<Option<M.MethodDescription>>)
    ensures |r| == |ds|
  {
    seq(|ds|, k requires 0 <= k < |ds| => mp.mapMethod(ds[k]))
  }

  function AsDescriptions(ds: seq<M.MethodDescription>): (r: seq<M.Description>)
    ensures |r| == |ds| && forall k :: 0 <= k < |ds| ==> r[k] == M.MethodDesc(ds[k])
  {
    seq(|ds|, k requires 0 <= k < |ds| => M.MethodDesc(ds[k]))
  }

  /** The method-list mapping is `map(List)` on method descriptions: it never throws, and agrees entry by entry. */
  lemma {:induction false} MapMethodsIsMapList(mp: M.Mappings, ds: seq<M.MethodDescription>)
    ensures M.MapAll(mp, AsDescriptions(ds)).Success?
    ensures |M.MapAll(mp, AsDescriptions(ds)).value| == |ds|
    ensures forall k :: 0 <= k < |ds| ==>
      (MapMethods(mp, ds)[k].None? <==> M.MapAll(mp, AsDescriptions(ds)).value[k].None?)
      && (MapMethods(mp, ds)[k].Some? ==>
        M.MapAll(mp, AsDescriptions(ds)).value[k] == Some(M.MethodDesc(MapMethods(mp, ds)[k].value)))
  {
    M.MapAllSucceeds(mp, AsDescriptions(ds));
  }

  /**
   * `Integer.valueOf(...) - 1` in 32-bit arithmetic: the true difference,
   * except that the least int wraps round to the greatest.
   */
  function ParameterIndex(v: int): (r: int)
    requires IntMin <= v <= IntMax
    ensures IntMin <= r <= IntMax
    ensures (r - (v - 1)) % 0x1_0000_0000 == 0
  {
    if v == IntMin then IntMax else v - 1
  }

  /** The 32-bit result is the only int congruent to `v - 1`, so the wrap-around is the one Java performs. */
  lemma {:induction false} ParameterIndexUnique(v: int, x: int)
    requires IntMin <= v <= IntMax && IntMin <= x <= IntMax
    requires (x - (v - 1)) % 0x1_0000_0000 == 0
    ensures x == ParameterIndex(v)
  {
    var r := ParameterIndex(v);
    assert (x - r) % 0x1_0000_0000 == 0 by {
      assert x - r == (x - (v - 1)) - (r - (v - 1));
    }
  }

  /** `patchDescriptor.set("field", prefix + mapped + after)` when the field maps, otherwise nothing. */
  function Rename(mp: M.Mappings, p: PatchDescriptor, fd: M.FieldDescription, prefix: string, after: string): (r: PatchDescriptor)
    ensures mp.mapField(fd).None? ==> r == p
    ensures mp.mapField(fd).Some? ==>
      r == p.(attributes := p.attributes["field" := prefix + mp.mapField(fd).value.name + after])
  {
    match mp.mapField(fd)
    case None => p
    case Some(o) => p.(attributes := p.attributes["field" := prefix + o.name + after])
  }

  /**
   * The `$N.rest` case: the parameter slots of the listed methods, then `N`
   * parsed and decremented; an index past the slots or a null slot breaks,
   * a negative one throws, and otherwise `rest` is looked up as a field of
   * the slot's type and written back after the `$N.` prefix.
   */
  function ResolveParameterField(mp: M.Mappings, ds: seq<M.MethodDescription>, p: PatchDescriptor, head: string, after: string)
    : Result<Step, LoadError>
    requires |head| > 0 && |after| > 0
  {
    match ParameterSlots(mp, ds, |ds|)
    case Failure(e) => Failure(e)
    case Success(slots) =>
      match ParseInt(head[1..])
      case None => Failure(NotANumber(head[1..]))
      case Some(v) =>
        var i := ParameterIndex(v);
        if i >= |slots| then Success(Step(p, true))
        else if i < 0 then Failure(NegativeIndex(i))
        else match slots[i]
          case None => Success(Step(p, true))
          case Some(t) => Success(Step(Rename(mp, p, M.FieldDescription(t, after[1..]), head + ".", ""), false))
  }

  /**
   * The `field` step of the constructor.  An absent or empty `field` is left
   * alone; a leading `this.` is kept as a prefix; the part before the first
   * '.' names the field of class `className` (the mapped class name), unless
   * it is `$N` without `this.`, the parameter form.
   */
  function ResolveField(mp: M.Mappings, className: string, ds: seq<M.MethodDescription>, p: PatchDescriptor)
    : Result<Step, LoadError>
  {
    if "field" !in p.attributes || p.attributes["field"] == "" then Success(Step(p, false))
    else
      var f0 := p.attributes["field"];
      var onThis := StartsWith(f0, "this.");
      var f1 := if onThis then f0[5..] else f0;
      var prefix := if onThis then "this." else "";
      match IndexOf(f1, '.')
      case None => Success(Step(Rename(mp, p, M.FieldDescription(className, f1), prefix, ""), false))
      case Some(d) =>
        var head := f1[..d];
        var after := f1[d..];
        if head != "" && head[0] == '$' && !onThis then ResolveParameterField(mp, ds, p, head, after)
        else Success(Step(Rename(mp, p, M.FieldDescription(className, head), prefix, after), false))
  }

  /**
   * One child of the class element: its patch descriptor; when it lists
   * methods, `deobf` is set to the short name of the first and the list is
   * replaced by the mapped one (an empty parsed list throws); then the
   * `field` step.
   */
  function PatchStep(mp: M.Mappings, desc: Descriptions, id: string, className: string, e: Element): Result<Step, LoadError> {
    var p0 := NewPatchDescriptor(e);
    var ds := desc.fromListString(id, p0.methods);
    if p0.methods == "" then ResolveField(mp, className, ds, p0)
    else if |ds| == 0 then Failure(NoMethodDescription)
    else
      var p1 := p0.(attributes := p0.attributes["deobf" := desc.shortName(ds[0])],
                    methods := desc.toListString(MapMethods(mp, ds)));
      ResolveField(mp, className, ds, p1)
  }

  /** The translation of every child of one class element. */
  function StepOf(mp: M.Mappings, desc: Descriptions, e: Element): Element -> Result<Step, LoadError> {
    c => PatchStep(mp, desc, Attribute(e, "id"), ClassName(mp, e), c)
  }

  /**
   * The loop over the children after the first `n`, for any translation
   * `step`: the patches so far and whether it has broken off.
   */
  function PatchesUpTo(step: Element -> Result<Step, LoadError>, cs: seq<Element>, n: nat)
    : Result<(seq<PatchDescriptor>, bool), LoadError>
    requires n <= |cs|
  {
    if n == 0 then Success(([], false))
    else
      match PatchesUpTo(step, cs, n - 1)
      case Failure(e) => Failure(e)
      case Success(acc) =>
        if acc.1 then Success(acc)
        else
          match step(cs[n - 1])
          case Failure(e) => Failure(e)
          case Success(s) => Success((acc.0 + [s.patch], s.stop))
  }

  /** Specification of the `ClassPatchDescriptor` constructor. */
  function ClassPatchSpec(mp: M.Mappings, desc: Descriptions, e: Element): Result<ClassPatch, LoadError> {
    match PatchesUpTo(StepOf(mp, desc, e), e.children, |e.children|)
    case Failure(err) => Failure(err)
    case Success(acc) => Success(ClassPatch(ClassName(mp, e), acc.0))
  }

  // ---------------------------------------------------------------------------
  // The constructor, as the loops it is

  /** The `ClassPatchDescriptor` constructor. */
  method BuildClassPatch(mp: M.Mappings, desc: Descriptions, e: Element) returns (r: Result<ClassPatch, LoadError>)
    ensures r == ClassPatchSpec(mp, desc, e)
  {
    var id := Attribute(e, "id");
    var name := ClassName(mp, e);
    ghost var stepOf := StepOf(mp, desc, e);
    var patches: seq<PatchDescriptor> := [];
    var n := 0;
    while n < |e.children|
      invariant 0 <= n <= |e.children|
      invariant PatchesUpTo(stepOf, e.children, n) == Success((patches, false))
    {
      var step := PatchElement(mp, desc, id, name, e.children[n]);
      StepOfApplies(mp, desc, e, e.children[n]);
      if step.Failure? {
        PatchesFailStays(stepOf, e.children, n + 1, |e.children|);
        return Failure(step.error);
      }
      patches := patches + [step.value.patch];
      if step.value.stop {
        PatchesStopStays(stepOf, e.children, n + 1, |e.children|);
        break;
      }
      n := n + 1;
    }
    r := Success(ClassPatch(name, patches));
  }

  lemma {:induction false} StepOfApplies(mp: M.Mappings, desc: Descriptions, e: Element, c: Element)
    ensures StepOf(mp, desc, e)(c) == PatchStep(mp, desc, Attribute(e, "id"), ClassName(mp, e), c)
  {
  }

  /** One iteration of the constructor's loop, building `parameterList` with its nested loops when needed. */
  method PatchElement(mp: M.Mappings, desc: Descriptions, id: string, className: string, e: Element)
    returns (r: Result<Step, LoadError>)
    ensures r == PatchStep(mp, desc, id, className, e)
  {
    var p := NewPatchDescriptor(e);
    var ds := desc.fromListString(id, p.methods);
    if p.methods != "" {
      if |ds| == 0 {
        return Failure(NoMethodDescription);
      }
      p := p.(attributes := p.attributes["deobf" := desc.shortName(ds[0])], methods := desc.toListString(MapMethods(mp, ds)));
    }
    if "field" !in p.attributes || p.attributes["field"] == "" {
      return Success(Step(p, false));
    }
    var f0 := p.attributes["field"];
    var onThis := StartsWith(f0, "this.");
    var f1 := if onThis then f0[5..] else f0;
    var prefix := if onThis then "this." else "";
    var dot := IndexOf(f1, '.');
    if dot.None? {
      return Success(Step(Rename(mp, p, M.FieldDescription(className, f1), prefix, ""), false));
    }
    var head := f1[..dot.value];
    var after := f1[dot.value..];
    if !(head != "" && head[0] == '$' && !onThis) {
      return Success(Step(Rename(mp, p, M.FieldDescription(className, head), prefix, after), false));
    }
    var slots := BuildParameterList(mp, ds);
    if slots.Failure? {
      return Failure(slots.error);
    }
    var v := ParseInt(head[1..]);
    if v.None? {
      return Failure(NotANumber(head[1..]));
    }
    var i := ParameterIndex(v.value);
    if i >= |slots.value| {
      return Success(Step(p, true));
    }
    if i < 0 {
      return Failure(NegativeIndex(i));
    }
    if slots.value[i].None? {
      return Success(Step(p, true));
    }
    r := Success(Step(Rename(mp, p, M.FieldDescription(slots.value[i].value, after[1..]), head + ".", ""), false));
  }

  lemma {:induction false} PatchesFailStays(step: Element -> Result<Step, LoadError>, cs: seq<Element>, n: nat, m: nat)
    requires n <= m <= |cs| && PatchesUpTo(step, cs, n).Failure?
    ensures PatchesUpTo(step, cs, m) == PatchesUpTo(step, cs, n)
    decreases m
  {
    if m > n {
      PatchesFailStays(step, cs, n, m - 1);
    }
  }

  lemma {:induction false} PatchesStopStays(step: Element -> Result<Step, LoadError>, cs: seq<Element>, n: nat, m: nat)
    requires n <= m <= |cs| && PatchesUpTo(step, cs, n).Success? && PatchesUpTo(step, cs, n).value.1
    ensures PatchesUpTo(step, cs, m) == PatchesUpTo(step, cs, n)
    decreases m
  {
    if m > n {
      PatchesStopStays(step, cs, n, m - 1);
    }
  }

  // ---------------------------------------------------------------------------
  // Properties

  /**
   * The patches keep document order: the k-th is the translation of the k-th
   * child; without a break every child has one.
   */
  lemma {:induction false} PatchesInOrder(step: Element -> Result<Step, LoadError>, cs: seq<Element>, n: nat,
                                           ps: seq<PatchDescriptor>, stop: bool)
    requires n <= |cs| && PatchesUpTo(step, cs, n) == Success((ps, stop))
    ensures |ps| <= n && (!stop ==> |ps| == n)
    ensures forall k :: 0 <= k < |ps| ==> step(cs[k]).Success? && ps[k] == step(cs[k]).value.patch
  {
    if n > 0 {
      var prev := PatchesUpTo(step, cs, n - 1);
      assert prev.Success?;
      PatchesInOrder(step, cs, n - 1, prev.value.0, prev.value.1);
    }
  }

  lemma {:induction false} PatchStepKeepsTag(mp: M.Mappings, desc: Descriptions, id: string, className: string, e: Element)
    requires PatchStep(mp, desc, id, className, e).Success?
    ensures PatchStep(mp, desc, id, className, e).value.patch.patch == e.tag
  {
    var p0 := NewPatchDescriptor(e);
    var ds := desc.fromListString(id, p0.methods);
    if p0.methods == "" {
      ResolveFieldOnlyField(mp, className, ds, p0);
    } else {
      var p1 := p0.(attributes := p0.attributes["deobf" := desc.shortName(ds[0])],
                    methods := desc.toListString(MapMethods(mp, ds)));
      ResolveFieldOnlyField(mp, className, ds, p1);
    }
  }

  /**
   * A class patch holds one patch element per child, in document order and
   * with the child's tag as its operation name, up to the first break.
   */
  lemma {:induction false} ClassPatchInOrder(mp: M.Mappings, desc: Descriptions, e: Element)
    requires ClassPatchSpec(mp, desc, e).Success?
    ensures var cp := ClassPatchSpec(mp, desc, e).value;
      |cp.patches| <= |e.children|
      && forall k :: 0 <= k < |cp.patches| ==> cp.patches[k].patch == e.children[k].tag
  {
    var acc := PatchesUpTo(StepOf(mp, desc, e), e.children, |e.children|).value;
    PatchesInOrder(StepOf(mp, desc, e), e.children, |e.children|, acc.0, acc.1);
    forall k | 0 <= k < |acc.0| ensures acc.0[k].patch == e.children[k].tag {
      PatchStepKeepsTag(mp, desc, Attribute(e, "id"), ClassName(mp, e), e.children[k]);
    }
  }

  /**
   * A break at the k-th child drops every later child: the list ends with
   * the k-th element, as it stood before its `field` step.
   */
  lemma {:induction false} BreakDropsRest(step: Element -> Result<Step, LoadError>, cs: seq<Element>, k: nat, ps: seq<PatchDescriptor>)
    requires k < |cs| && PatchesUpTo(step, cs, k) == Success((ps, false))
    requires step(cs[k]).Success? && step(cs[k]).value.stop
    ensures PatchesUpTo(step, cs, |cs|) == Success((ps + [step(cs[k]).value.patch], true))
  {
    PatchesStopStays(step, cs, k + 1, |cs|);
  }

  /** Translating the `field` attribute touches nothing else: methods, tag and every other attribute are kept, and a break keeps the element as it was. */
  lemma {:induction false} ResolveFieldOnlyField(mp: M.Mappings, className: string, ds: seq<M.MethodDescription>, p: PatchDescriptor)
    requires ResolveField(mp, className, ds, p).Success?
    ensures var q := ResolveField(mp, className, ds, p).value.patch;
      q.methods == p.methods && q.patch == p.patch
      && (forall key :: key != "field" ==> (key in q.attributes <==> key in p.attributes))
      && (forall key :: key != "field" && key in p.attributes ==> q.attributes[key] == p.attributes[key])
    ensures ResolveField(mp, className, ds, p).value.stop ==> ResolveField(mp, className, ds, p).value.patch == p
  {
    if "field" in p.attributes && p.attributes["field"] != "" {
      var f0 := p.attributes["field"];
      var f1 := if StartsWith(f0, "this.") then f0[5..] else f0;
      if IndexOf(f1, '.').Some? {
        var d := IndexOf(f1, '.').value;
        var head := f1[..d];
        if head != "" && head[0] == '$' && !StartsWith(f0, "this.") {
          assert ResolveField(mp, className, ds, p) == ResolveParameterField(mp, ds, p, head, f1[d..]);
        }
      }
    }
  }

  /**
   * `$N.rest` when all listed methods agree: if every method long enough to
   * reach position N-1 has type `t` there, and at least one reaches it,
   * `rest` is looked up as a field of `t` and the attribute becomes
   * `$N.` followed by the mapped name.
   */
  lemma {:induction false} ParameterFieldAgreed(mp: M.Mappings, ds: seq<M.MethodDescription>, p: PatchDescriptor, head: string, after: string, v: int, t: string)
    requires |head| > 0 && |after| > 0
    requires ParseInt(head[1..]) == Some(v) && v >= 1
    requires ParameterSlots(mp, ds, |ds|).Success?
    requires exists k :: 0 <= k < |ds| && v - 1 < |Params(mp, ds, k)|
    requires forall k :: 0 <= k < |ds| && v - 1 < |Params(mp, ds, k)| ==> Params(mp, ds, k)[v - 1] == t
    ensures ResolveParameterField(mp, ds, p, head, after)
      == Success(Step(Rename(mp, p, M.FieldDescription(t, after[1..]), head + ".", ""), false))
  {
    var s := ParameterSlots(mp, ds, |ds|).value;
    ParameterSlotsMeaning(mp, ds, |ds|, s);
    var k :| 0 <= k < |ds| && v - 1 < |Params(mp, ds, k)|;
    MaxParamsBound(mp, ds, |ds|, k);
  }

  /**
   * `$N.rest` when two listed methods disagree at position N-1: the element
   * is kept unchanged and the loop breaks (or the slot computation has
   * already thrown).
   */
  lemma {:induction false} ParameterFieldDisagreed(mp: M.Mappings, ds: seq<M.MethodDescription>, p: PatchDescriptor, head: string, after: string, v: int, k1: nat, k2: nat)
    requires |head| > 0 && |after| > 0
    requires ParseInt(head[1..]) == Some(v) && v >= 1
    requires ParameterSlots(mp, ds, |ds|).Success?
    requires k1 < |ds| && k2 < |ds| && v - 1 < |Params(mp, ds, k1)| && v - 1 < |Params(mp, ds, k2)|
    requires Params(mp, ds, k1)[v - 1] != Params(mp, ds, k2)[v - 1]
    ensures ResolveParameterField(mp, ds, p, head, after) == Success(Step(p, true))
  {
    var s := ParameterSlots(mp, ds, |ds|).value;
    ParameterSlotsMeaning(mp, ds, |ds|, s);
    MaxParamsBound(mp, ds, |ds|, k1);
  }

  /**
   * Under the identity mapping the `field` attribute reads back unchanged:
   * prefix, mapped name and rest put together again give the original text.
   */
  lemma {:induction false} DefaultKeepsField(className: string, ds: seq<M.MethodDescription>, p: PatchDescriptor)
    requires ResolveField(M.Default(), className, ds, p).Success?
    ensures ResolveField(M.Default(), className, ds, p).value.patch == p
  {
    if "field" in p.attributes && p.attributes["field"] != "" {
      var f0 := p.attributes["field"];
      var onThis := StartsWith(f0, "this.");
      var f1 := if onThis then f0[5..] else f0;
      if IndexOf(f1, '.').None? {
        UndottedDefaultKeeps(className, ds, p);
      } else {
        DottedDefaultKeeps(className, ds, p);
      }
    }
  }

  lemma {:induction false} UndottedDefaultKeeps(className: string, ds: seq<M.MethodDescription>, p: PatchDescriptor)
    requires "field" in p.attributes && p.attributes["field"] != ""
    requires var f0 := p.attributes["field"];
      IndexOf(if StartsWith(f0, "this.") then f0[5..] else f0, '.').None?
    ensures ResolveField(M.Default(), className, ds, p).Success?
    ensures ResolveField(M.Default(), className, ds, p).value.patch == p
  {
    var f0 := p.attributes["field"];
    var onThis := StartsWith(f0, "this.");
    var f1 := if onThis then f0[5..] else f0;
    var prefix := if onThis then "this." else "";
    assert prefix + f1 + "" == f0;
    RenameDefaultKeeps(p, M.FieldDescription(className, f1), prefix, "");
  }

  lemma {:induction false} DottedDefaultKeeps(className: string, ds: seq<M.MethodDescription>, p: PatchDescriptor)
    requires "field" in p.attributes && p.attributes["field"] != ""
    requires var f0 := p.attributes["field"];
      IndexOf(if StartsWith(f0, "this.") then f0[5..] else f0, '.').Some?
    requires ResolveField(M.Default(), className, ds, p).Success?
    ensures ResolveField(M.Default(), className, ds, p).value.patch == p
  {
    var f0 := p.attributes["field"];
    var onThis := StartsWith(f0, "this.");
    var f1 := if onThis then f0[5..] else f0;
    var prefix := if onThis then "this." else "";
    var d := IndexOf(f1, '.').value;
    var head := f1[..d];
    var after := f1[d..];
    assert prefix + head + after == f0;
    if head != "" && head[0] == '$' && !onThis {
      ParameterFieldDefaultKeeps(ds, p, head, after);
    } else {
      RenameDefaultKeeps(p, M.FieldDescription(className, head), prefix, after);
    }
  }

  lemma {:induction false} ParameterFieldDefaultKeeps(ds: seq<M.MethodDescription>, p: PatchDescriptor, head: string, after: string)
    requires |head| > 0 && |after| > 0 && after[0] == '.'
    requires "field" in p.attributes && p.attributes["field"] == head + after
    requires ResolveParameterField(M.Default(), ds, p, head, after).Success?
    ensures ResolveParameterField(M.Default(), ds, p, head, after).value.patch == p
  {
    assert head + "." + after[1..] + "" == head + after;
    forall t ensures Rename(M.Default(), p, M.FieldDescription(t, after[1..]), head + ".", "") == p {
      RenameDefaultKeeps(p, M.FieldDescription(t, after[1..]), head + ".", "");
    }
  }

  lemma {:induction false} RenameDefaultKeeps(p: PatchDescriptor, fd: M.FieldDescription, prefix: string, after: string)
    requires "field" in p.attributes && p.attributes["field"] == prefix + fd.name + after
    ensures Rename(M.Default(), p, fd, prefix, after) == p
  {
    assert p.attributes["field" := prefix + fd.name + after] == p.attributes;
  }
}
