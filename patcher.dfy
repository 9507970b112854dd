/**
 * The `Patcher` object: the registry of class patches loaded from patch
 * documents, and `patch`, which runs the registered class patches of a class
 * once and caches the resulting bytes.
 *
 * The class pool, `toBytecode`, the XML and JSON parsers and the system
 * properties that gate a patch group are parameters.
 */
module PatcherEngine {
  import opened Wrappers
  import M = Mappings
  import opened Document
  import opened Descriptors
  import opened ClassPatches
  import DomUtil
  import Bytecode

  type Bytes = seq<Bytecode.Byte>

  /**
   * What a patcher works with: the environment of a run, the registry of
   * patch operations by name, `classPool.get` and `toBytecode` (None: they
   * throw).
   */
  datatype World<!C> = World(
    env: Env<C>,
    ops: map<string, Operation>,
    load: string -> Option<C>,
    toBytecode: C -> Option<Bytes>)

  // ---------------------------------------------------------------------------
  // The multimap of class patches

  /** `patches.get(name)`: the class patches registered under `name`, in registration order. */
  function Registered(patches: map<string, seq<ClassPatch>>, name: string): seq<ClassPatch> {
    if name in patches then patches[name] else []
  }

  /** `patches.put(cp.name, cp)`: appended under its own name, nothing else touched. */
  function Register(patches: map<string, seq<ClassPatch>>, cp: ClassPatch): (r: map<string, seq<ClassPatch>>)
    ensures Registered(r, cp.name) == Registered(patches, cp.name) + [cp]
    ensures forall n :: n != cp.name ==> Registered(r, n) == Registered(patches, n)
  {
    patches[cp.name := Registered(patches, cp.name) + [cp]]
  }

  /** Each name's list in `a` is a prefix of its list in `b`: registration only appends. */
  ghost predicate Extends(a: map<string, seq<ClassPatch>>, b: map<string, seq<ClassPatch>>) {
    forall n :: Registered(a, n) <= Registered(b, n)
  }

  // ---------------------------------------------------------------------------
  // patch

  /** The class threaded through the first `n` class patches, and those class patches with their updated attributes. */
  function RunAllUpTo<C>(w: World<C>, cps: seq<ClassPatch>, c: C, n: nat): (r: (C, seq<ClassPatch>))
    requires n <= |cps|
    ensures |r.1| == |cps|
    ensures forall k :: 0 <= k < |cps| ==> r.1[k].name == cps[k].name && |r.1[k].patches| == |cps[k].patches|
    ensures forall k :: n <= k < |cps| ==> r.1[k] == cps[k]
  {
    if n == 0 then (c, cps)
    else
      var prev := RunAllUpTo(w, cps, c, n - 1);
      var out := RunPatchesUpTo(RunOf(w.env), w.ops, cps[n - 1].patches, prev.0, |cps[n - 1].patches|);
      (out.state, prev.1[n - 1 := cps[n - 1].(patches := out.patches)])
  }

  lemma {:induction false} RunAllNext<C>(w: World<C>, cps: seq<ClassPatch>, c: C, n: nat)
    requires n < |cps|
    ensures var prev := RunAllUpTo(w, cps, c, n);
      var out := RunPatchesUpTo(RunOf(w.env), w.ops, cps[n].patches, prev.0, |cps[n].patches|);
      RunAllUpTo(w, cps, c, n + 1) == (out.state, prev.1[n := cps[n].(patches := out.patches)])
  {
  }

  /** The loop of `patch`: every class patch runs on the class in turn, and gets its updated attributes. */
  method RunAll<C>(w: World<C>, cps: seq<ClassPatch>, c: C) returns (state: C, updated: seq<ClassPatch>)
    ensures (state, updated) == RunAllUpTo(w, cps, c, |cps|)
  {
    state := c;
    updated := cps;
    var i := 0;
    while i < |cps|
      invariant 0 <= i <= |cps|
      invariant RunAllUpTo(w, cps, c, i) == (state, updated)
    {
      var out := RunPatches(w.env, w.ops, cps[i].patches, state);
      RunAllNext(w, cps, c, i);
      state := out.state;
      updated := updated[i := cps[i].(patches := out.patches)];
      i := i + 1;
    }
  }

  /** What `patch` returns and leaves behind: the bytes, the cache and the registry. */
  datatype PatchOutcome = PatchOutcome(bytes: Option<Bytes>, cache: map<string, Bytes>, patches: map<string, seq<ClassPatch>>)

  /**
   * Specification of `patch(className, originalBytes)`: a cached class is
   * returned as cached; a class without patches, or one the pool cannot
   * load, gives the original bytes; otherwise every registered class patch
   * runs in order (their attribute changes are kept) and the bytes are
   * cached, unless `toBytecode` fails, which gives the original bytes.
   */
  function PatchSpec<C>(w: World<C>, cache: map<string, Bytes>, patches: map<string, seq<ClassPatch>>,
                        className: string, original: Option<Bytes>): PatchOutcome
  {
    if className in cache then PatchOutcome(Some(cache[className]), cache, patches)
    else
      var cps := Registered(patches, className);
      if |cps| == 0 then PatchOutcome(original, cache, patches)
      else
        match w.load(className)
        case None => PatchOutcome(original, cache, patches)
        case Some(c) =>
          var run := RunAllUpTo(w, cps, c, |cps|);
          var patches' := patches[className := run.1];
          match w.toBytecode(run.0)
          case None => PatchOutcome(original, cache, patches')
          case Some(b) => PatchOutcome(Some(b), cache[className := b], patches')
  }

  // ---------------------------------------------------------------------------
  // Loading patch documents

  /** Why loading patches throws. */
  datatype LoadFailure =
    | ClassPatchFailed(id: string, cause: LoadError)   // "Failed to create class patch for <id>"
    | EmptyPatch                                     // `charAt(0)` of the empty string
    | UnknownFormat(patch: string)                   // neither '<', '[' nor '{'
    | MalformedXml(document: string)                 // the XML parser's IOException or SAXException
    | MalformedJson(jsonError: DomUtil.JsonError)

  /** Building the class patch of one class element, as the loading loops see it. */
  type Builder = Element -> Result<ClassPatch, LoadError>

  function BuildOf(mp: M.Mappings, desc: Descriptions): Builder {
    c => ClassPatchSpec(mp, desc, c)
  }

  /** The loop of `loadPatchGroup` over the class elements, after the first `n`; it stops at the first class patch that cannot be built. */
  function GroupUpTo(build: Builder, patches: map<string, seq<ClassPatch>>, cs: seq<Element>, n: nat)
    : (map<string, seq<ClassPatch>>, Option<LoadFailure>)
    requires n <= |cs|
  {
    if n == 0 then (patches, None)
    else
      var prev := GroupUpTo(build, patches, cs, n - 1);
      if prev.1.Some? then prev
      else
        match build(cs[n - 1])
        case Failure(err) => (prev.0, Some(ClassPatchFailed(Attribute(cs[n - 1], "id"), err)))
        case Success(cp) => (Register(prev.0, cp), None)
  }

  /** A group with a `requireProperty` that is not set is skipped. */
  predicate Gated(e: Element, property: string -> bool) {
    "requireProperty" in e.attrs && e.attrs["requireProperty"] != "" && !property(e.attrs["requireProperty"])
  }

  /** Specification of `loadPatchGroup`: the gate, the obfuscation pass, then one class patch per class element. */
  function LoadGroupSpec(obfuscate: string -> string, build: Builder, patches: map<string, seq<ClassPatch>>, e: Element, property: string -> bool)
    : (map<string, seq<ClassPatch>>, Option<LoadFailure>)
  {
    if Gated(e, property) then (patches, None)
    else
      var root := Obfuscate(e, obfuscate);
      GroupUpTo(build, patches, root.children, |root.children|)
  }

  /** Loading one patch group into a registry, as the document loop sees it. */
  type GroupLoader = (map<string, seq<ClassPatch>>, Element) -> (map<string, seq<ClassPatch>>, Option<LoadFailure>)

  function GroupOf(obfuscate: string -> string, build: Builder, property: string -> bool): GroupLoader {
    (patches, e) => LoadGroupSpec(obfuscate, build, patches, e, property)
  }

  lemma {:induction false} GroupOfApplies(obfuscate: string -> string, build: Builder, property: string -> bool, patches: map<string, seq<ClassPatch>>, e: Element)
    ensures GroupOf(obfuscate, build, property)(patches, e) == LoadGroupSpec(obfuscate, build, patches, e, property)
  {
  }

  /** `readPatchesFromXmlDocument`, after the first `n` patch groups; a failing group ends it. */
  function DocumentUpTo(group: GroupLoader, patches: map<string, seq<ClassPatch>>, groups: seq<Element>, n: nat)
    : (map<string, seq<ClassPatch>>, Option<LoadFailure>)
    requires n <= |groups|
  {
    if n == 0 then (patches, None)
    else
      var prev := DocumentUpTo(group, patches, groups, n - 1);
      if prev.1.Some? then prev
      else group(prev.0, groups[n - 1])
  }

  /** `readPatchesFromXmlString`: parse (None: the parser throws), then every child of the document element is a patch group. */
  function XmlSpec(obfuscate: string -> string, build: Builder, patches: map<string, seq<ClassPatch>>, text: string,
                   parseXml: string -> Option<Element>, property: string -> bool)
    : (map<string, seq<ClassPatch>>, Option<LoadFailure>)
  {
    match parseXml(text)
    case None => (patches, Some(MalformedXml(text)))
    case Some(doc) => DocumentUpTo(GroupOf(obfuscate, build, property), patches, doc.children, |doc.children|)
  }

  /** Specification of `loadPatches(String)`: the first character picks XML or JSON. */
  function LoadPatchesSpec(obfuscate: string -> string, build: Builder, patches: map<string, seq<ClassPatch>>, text: string,
                           parseXml: string -> Option<Element>, parseJson: string -> Option<DomUtil.Json>,
                           render: DomUtil.Json -> string, property: string -> bool)
    : (map<string, seq<ClassPatch>>, Option<LoadFailure>)
  {
    if |text| == 0 then (patches, Some(EmptyPatch))
    else if text[0] == '<' then XmlSpec(obfuscate, build, patches, text, parseXml, property)
    else if text[0] == '[' || text[0] == '{' then
      var t := DomUtil.PrePass(text);
      var doc := parseJson(t);
      if doc.Some? && doc.value.JObject? then
        XmlSpec(obfuscate, build, patches, DomUtil.MembersXml(render, doc.value.members), parseXml, property)
      else (patches, Some(MalformedJson(DomUtil.InvalidJson(t))))
    else (patches, Some(UnknownFormat(text)))
  }

  // ---------------------------------------------------------------------------
  // The patcher object

  class Patcher<C> {
    const world: World<C>
    const mappings: M.Mappings
    /** `new ClassPatchDescriptor(element)` under this patcher's mappings. */
    const build: Builder
    var patchedBytes: map<string, Bytes>
    var patches: map<string, seq<ClassPatch>>

    /** A patcher with an empty cache and no class patches. */
    constructor(world: World<C>, mappings: M.Mappings)
      ensures this.world == world && this.mappings == mappings
      ensures build == BuildOf(mappings, world.env.descriptions)
      ensures patchedBytes == map[] && patches == map[]
    {
      this.world := world;
      this.mappings := mappings;
      build := BuildOf(mappings, world.env.descriptions);
      patchedBytes := map[];
      patches := map[];
    }

    /** `willPatch`: some class patch is registered under the name. */
    function WillPatch(className: string): (r: bool)
      reads this
      ensures r <==> Registered(patches, className) != []
    {
      |Registered(patches, className)| > 0
    }

    /** `patch(className, originalBytes)`. */
    method Patch(className: string, original: Option<Bytes>) returns (r: Option<Bytes>)
      modifies this
      ensures PatchOutcome(r, patchedBytes, patches) == PatchSpec(world, old(patchedBytes), old(patches), className, original)
    {
      if className in patchedBytes {
        return Some(patchedBytes[className]);
      }
      var cps := Registered(patches, className);
      if |cps| == 0 {
        return original;
      }
      var loaded := world.load(className);
      if loaded.None? {
        return original;
      }
      var state, updated := RunAll(world, cps, loaded.value);
      patches := patches[className := updated];
      var bytes := world.toBytecode(state);
      if bytes.None? {
        return original;
      }
      patchedBytes := patchedBytes[className := bytes.value];
      r := bytes;
    }

    /** `loadPatchGroup`: the gate, the obfuscation pass, then the class elements. */
    method LoadPatchGroup(e: Element, property: string -> bool) returns (err: Option<LoadFailure>)
      modifies this`patches
      ensures (patches, err) == LoadGroupSpec(mappings.obfuscate, build, old(patches), e, property)
    {
      if "requireProperty" in e.attrs && e.attrs["requireProperty"] != "" && !property(e.attrs["requireProperty"]) {
        return None;
      }
      var root := ObfuscateTree(e, mappings.obfuscate);
      err := RegisterAll(root.children);
    }

    /** The loop of `loadPatchGroup`: the class patches built before a failing one stay registered. */
    method RegisterAll(cs: seq<Element>) returns (err: Option<LoadFailure>)
      modifies this`patches
      ensures (patches, err) == GroupUpTo(build, old(patches), cs, |cs|)
    {
      ghost var start := patches;
      var n := 0;
      while n < |cs|
        invariant 0 <= n <= |cs|
        invariant GroupUpTo(build, start, cs, n) == (patches, None)
      {
        var cp := build(cs[n]);
        GroupNext(build, start, cs, n);
        if cp.Failure? {
          err := Some(ClassPatchFailed(Attribute(cs[n], "id"), cp.error));
          GroupFailStays(build, start, cs, n + 1, |cs|);
          return;
        }
        patches := Register(patches, cp.value);
        n := n + 1;
      }
      err := None;
    }

    /** `readPatchesFromXmlDocument`: every child of the document element is a patch group. */
    method LoadDocument(doc: Element, property: string -> bool) returns (err: Option<LoadFailure>)
      modifies this`patches
      ensures (patches, err) == DocumentUpTo(GroupOf(mappings.obfuscate, build, property), old(patches), doc.children, |doc.children|)
    {
      ghost var start := patches;
      var n := 0;
      ghost var group := GroupOf(mappings.obfuscate, build, property);
      while n < |doc.children|
        invariant 0 <= n <= |doc.children|
        invariant DocumentUpTo(group, start, doc.children, n) == (patches, None)
      {
        GroupOfApplies(mappings.obfuscate, build, property, patches, doc.children[n]);
        err := LoadPatchGroup(doc.children[n], property);
        if err.Some? {
          DocumentFailStays(group, start, doc.children, n + 1, |doc.children|);
          return;
        }
        n := n + 1;
      }
      err := None;
    }

    /** `readPatchesFromXmlString`. */
    method LoadXml(text: string, parseXml: string -> Option<Element>, property: string -> bool) returns (err: Option<LoadFailure>)
      modifies this`patches
      ensures (patches, err) == XmlSpec(mappings.obfuscate, build, old(patches), text, parseXml, property)
    {
      var doc := parseXml(text);
      if doc.None? {
        return Some(MalformedXml(text));
      }
      err := LoadDocument(doc.value, property);
    }

    /** `loadPatches(String)`. */
    method LoadPatches(text: string, parseXml: string -> Option<Element>, parseJson: string -> Option<DomUtil.Json>,
                       render: DomUtil.Json -> string, property: string -> bool)
      returns (err: Option<LoadFailure>)
      modifies this`patches
      ensures (patches, err) == LoadPatchesSpec(mappings.obfuscate, build, old(patches), text, parseXml, parseJson, render, property)
    {
      if |text| == 0 {
        return Some(EmptyPatch);
      }
      if text[0] == '<' {
        err := LoadXml(text, parseXml, property);
      } else if text[0] == '[' || text[0] == '{' {
        var xml := DomUtil.MakePatchXmlFromJson(text, parseJson, render);
        if xml.Failure? {
          return Some(MalformedJson(xml.error));
        }
        err := LoadXml(xml.value, parseXml, property);
      } else {
        err := Some(UnknownFormat(text));
      }
    }
  }

  lemma {:induction false} GroupFailStays(build: Builder, patches: map<string, seq<ClassPatch>>, cs: seq<Element>, n: nat, m: nat)
    requires n <= m <= |cs| && GroupUpTo(build, patches, cs, n).1.Some?
    ensures GroupUpTo(build, patches, cs, m) == GroupUpTo(build, patches, cs, n)
    decreases m
  {
    if m > n {
      GroupFailStays(build, patches, cs, n, m - 1);
    }
  }

  /** One more class element after a run of successes: it registers its class patch, or its failure ends the group. */
  lemma {:induction false} GroupNext(build: Builder, patches: map<string, seq<ClassPatch>>, cs: seq<Element>, n: nat)
    requires n < |cs| && GroupUpTo(build, patches, cs, n).1.None?
    ensures build(cs[n]).Failure? ==>
      GroupUpTo(build, patches, cs, n + 1) == (GroupUpTo(build, patches, cs, n).0, Some(ClassPatchFailed(Attribute(cs[n], "id"), build(cs[n]).error)))
    ensures build(cs[n]).Success? ==>
      GroupUpTo(build, patches, cs, n + 1) == (Register(GroupUpTo(build, patches, cs, n).0, build(cs[n]).value), None)
  {
  }

  lemma {:induction false} DocumentFailStays(group: GroupLoader, patches: map<string, seq<ClassPatch>>, groups: seq<Element>, n: nat, m: nat)
    requires n <= m <= |groups| && DocumentUpTo(group, patches, groups, n).1.Some?
    ensures DocumentUpTo(group, patches, groups, m) == DocumentUpTo(group, patches, groups, n)
    decreases m
  {
    if m > n {
      DocumentFailStays(group, patches, groups, n, m - 1);
    }
  }

  // ---------------------------------------------------------------------------
  // Properties of the cache

  /** A cache hit returns the stored bytes and changes nothing, whatever is registered and whatever the pool holds. */
  lemma {:induction false} CacheHit<C>(w: World<C>, cache: map<string, Bytes>, patches: map<string, seq<ClassPatch>>, className: string, original: Option<Bytes>)
    requires className in cache
    ensures PatchSpec(w, cache, patches, className, original) == PatchOutcome(Some(cache[className]), cache, patches)
  {
  }

  /** A class no patch is registered for gets its original bytes back, and nothing changes. */
  lemma {:induction false} NothingToPatch<C>(w: World<C>, cache: map<string, Bytes>, patches: map<string, seq<ClassPatch>>, className: string, original: Option<Bytes>)
    requires className !in cache && Registered(patches, className) == []
    ensures PatchSpec(w, cache, patches, className, original) == PatchOutcome(original, cache, patches)
  {
  }

  /**
   * The cache is written once: entries already there are kept, the only
   * new entry is the patched class, and it is new exactly when bytes other
   * than the original-bytes fallback were produced and returned.
   */
  lemma {:induction false} CacheWriteOnce<C>(w: World<C>, cache: map<string, Bytes>, patches: map<string, seq<ClassPatch>>, className: string, original: Option<Bytes>)
    ensures var out := PatchSpec(w, cache, patches, className, original);
      (forall k :: k in cache ==> k in out.cache && out.cache[k] == cache[k])
      && (forall k :: k in out.cache && k != className ==> k in cache)
      && (className in out.cache ==> out.bytes == Some(out.cache[className]))
      && (className !in out.cache ==> out.bytes == original && out.cache == cache)
  {
  }

  /** Once `patch` has cached a class, calling it again returns the same bytes and changes nothing. */
  lemma {:induction false} SecondCallSameBytes<C>(w: World<C>, cache: map<string, Bytes>, patches: map<string, seq<ClassPatch>>,
                               className: string, original: Option<Bytes>, original2: Option<Bytes>)
    requires className in PatchSpec(w, cache, patches, className, original).cache
    ensures var first := PatchSpec(w, cache, patches, className, original);
      PatchSpec(w, first.cache, first.patches, className, original2) == first
  {
    var first := PatchSpec(w, cache, patches, className, original);
    CacheWriteOnce(w, cache, patches, className, original);
    CacheHit(w, first.cache, first.patches, className, original2);
  }

  /** `patch` never changes which class patches are registered: each name keeps as many, under the same name. */
  lemma {:induction false} PatchKeepsRegistry<C>(w: World<C>, cache: map<string, Bytes>, patches: map<string, seq<ClassPatch>>, className: string, original: Option<Bytes>)
    ensures var out := PatchSpec(w, cache, patches, className, original);
      forall n :: |Registered(out.patches, n)| == |Registered(patches, n)|
        && forall k :: 0 <= k < |Registered(patches, n)| ==>
          Registered(out.patches, n)[k].name == Registered(patches, n)[k].name
  {
  }

  /**
   * The class patches run in registration order, each on the class the
   * previous one left: with one class patch the class is that patch's
   * `runPatches` on the loaded class.
   */
  lemma {:induction false} RunAllThreads<C>(w: World<C>, cps: seq<ClassPatch>, c: C, n: nat)
    requires 0 < n <= |cps|
    ensures RunAllUpTo(w, cps, c, n).0
      == RunPatchesUpTo(RunOf(w.env), w.ops, cps[n - 1].patches, RunAllUpTo(w, cps, c, n - 1).0, |cps[n - 1].patches|).state
    ensures RunAllUpTo(w, cps, c, 1).0 == RunPatchesUpTo(RunOf(w.env), w.ops, cps[0].patches, c, |cps[0].patches|).state
  {
  }

  // ---------------------------------------------------------------------------
  // Properties of loading

  /** Building a group only appends: every list registered before is a prefix of the list after. */
  lemma {:induction false} GroupExtends(build: Builder, patches: map<string, seq<ClassPatch>>, cs: seq<Element>, n: nat)
    requires n <= |cs|
    ensures Extends(patches, GroupUpTo(build, patches, cs, n).0)
  {
    if n > 0 {
      GroupExtends(build, patches, cs, n - 1);
      var prev := GroupUpTo(build, patches, cs, n - 1);
      if prev.1.None? && build(cs[n - 1]).Success? {
        var cp := build(cs[n - 1]).value;
        forall x ensures Registered(patches, x) <= Registered(Register(prev.0, cp), x) {
          assert Registered(patches, x) <= Registered(prev.0, x);
          assert Registered(prev.0, x) <= Registered(Register(prev.0, cp), x);
        }
      }
    }
  }

  /** A group fails exactly when one of its class elements cannot be built into a class patch. */
  lemma {:induction false} GroupFailsIff(build: Builder, patches: map<string, seq<ClassPatch>>, cs: seq<Element>, n: nat)
    requires n <= |cs|
    ensures GroupUpTo(build, patches, cs, n).1.Some? <==> exists k :: 0 <= k < n && build(cs[k]).Failure?
  {
    if n > 0 {
      GroupFailsIff(build, patches, cs, n - 1);
    }
  }

  /** When a group loads, the class patch of every class element is registered under its name. */
  lemma {:induction false} GroupRegistersEach(build: Builder, patches: map<string, seq<ClassPatch>>, cs: seq<Element>, n: nat)
    requires n <= |cs| && GroupUpTo(build, patches, cs, n).1.None?
    ensures forall k :: 0 <= k < n ==>
      build(cs[k]).Success? && build(cs[k]).value in Registered(GroupUpTo(build, patches, cs, n).0, build(cs[k]).value.name)
  {
    if n > 0 {
      var prev := GroupUpTo(build, patches, cs, n - 1);
      assert prev.1.None? && build(cs[n - 1]).Success?;
      GroupRegistersEach(build, patches, cs, n - 1);
      var cp := build(cs[n - 1]).value;
      var next := Register(prev.0, cp);
      assert GroupUpTo(build, patches, cs, n).0 == next;
      forall k | 0 <= k < n - 1
        ensures build(cs[k]).value in Registered(next, build(cs[k]).value.name)
      {
        RegisterKeeps(prev.0, cp, build(cs[k]).value);
      }
      RegisterAdds(prev.0, cp);
    }
  }

  lemma {:induction false} RegisterKeeps(patches: map<string, seq<ClassPatch>>, cp: ClassPatch, x: ClassPatch)
    requires x in Registered(patches, x.name)
    ensures x in Registered(Register(patches, cp), x.name)
  {
    var a, b := Registered(patches, x.name), Registered(Register(patches, cp), x.name);
    var i :| 0 <= i < |a| && a[i] == x;
    assert b[i] == x;
  }

  lemma {:induction false} RegisterAdds(patches: map<string, seq<ClassPatch>>, cp: ClassPatch)
    ensures cp in Registered(Register(patches, cp), cp.name)
  {
    assert Registered(Register(patches, cp), cp.name)[|Registered(patches, cp.name)|] == cp;
  }

  /** A group whose `requireProperty` is not set registers nothing. */
  lemma {:induction false} GatedGroupSkipped(obfuscate: string -> string, build: Builder, patches: map<string, seq<ClassPatch>>, e: Element, property: string -> bool)
    requires Gated(e, property)
    ensures LoadGroupSpec(obfuscate, build, patches, e, property) == (patches, None)
  {
  }

  /** Loading one patch group only appends to the registry. */
  lemma {:induction false} LoadGroupExtends(obfuscate: string -> string, build: Builder, patches: map<string, seq<ClassPatch>>, e: Element, property: string -> bool)
    ensures Extends(patches, LoadGroupSpec(obfuscate, build, patches, e, property).0)
  {
    if !Gated(e, property) {
      var root := Obfuscate(e, obfuscate);
      GroupExtends(build, patches, root.children, |root.children|);
    }
  }

  /** Loading a whole document with a group loader that only appends only appends, so `willPatch` never turns false. */
  lemma {:induction false} DocumentExtends(group: GroupLoader, patches: map<string, seq<ClassPatch>>, groups: seq<Element>, n: nat)
    requires n <= |groups|
    requires forall p, e :: Extends(p, group(p, e).0)
    ensures Extends(patches, DocumentUpTo(group, patches, groups, n).0)
  {
    if n > 0 {
      DocumentExtends(group, patches, groups, n - 1);
      var prev := DocumentUpTo(group, patches, groups, n - 1);
      if prev.1.None? {
        var next := DocumentUpTo(group, patches, groups, n).0;
        assert Extends(prev.0, next);
        forall x ensures Registered(patches, x) <= Registered(next, x) {
          assert Registered(patches, x) <= Registered(prev.0, x);
          assert Registered(prev.0, x) <= Registered(next, x);
        }
      }
    }
  }

  /** Any `loadPatches` call only appends to the registry, and a patch in an unknown format changes nothing. */
  lemma {:induction false} LoadPatchesExtends(obfuscate: string -> string, build: Builder, patches: map<string, seq<ClassPatch>>, text: string,
                           parseXml: string -> Option<Element>, parseJson: string -> Option<DomUtil.Json>,
                           render: DomUtil.Json -> string, property: string -> bool)
    ensures Extends(patches, LoadPatchesSpec(obfuscate, build, patches, text, parseXml, parseJson, render, property).0)
    ensures |text| > 0 && text[0] != '<' && text[0] != '[' && text[0] != '{' ==>
      LoadPatchesSpec(obfuscate, build, patches, text, parseXml, parseJson, render, property) == (patches, Some(UnknownFormat(text)))
  {
    var group := GroupOf(obfuscate, build, property);
    forall p, e ensures Extends(p, group(p, e).0) {
      LoadGroupExtends(obfuscate, build, p, e, property);
    }
    forall xml ensures Extends(patches, XmlSpec(obfuscate, build, patches, xml, parseXml, property).0) {
      match parseXml(xml)
      case None =>
      case Some(doc) => DocumentExtends(group, patches, doc.children, |doc.children|);
    }
  }
}
