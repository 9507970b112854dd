/**
 * The two descriptor kinds of `Patcher.java`.
 *
 * A `PatchMethodDescriptor` (here `Operation`) is what the registry knows
 * about one `@Patch` method.  Its `run` decides which members of the target
 * class the method is invoked on.
 *
 * A `ClassPatchDescriptor` (here `ClassPatch`) is built from one class
 * element of a patch document.  It holds that class's patch elements, with
 * their method lists and `field` attributes translated through the mappings;
 * `runPatches` threads the class through them in order.
 *
 * The class being patched is a value of the type parameter `C`; javassist's
 * view of it and the invocation of a patch method are functions of `Env`.
 */
module Descriptors {
  import opened Wrappers
  import opened Text
  import M = Mappings
  import opened Document

  // ---------------------------------------------------------------------------
  // PatchMethodDescriptor

  /** What the registry reads off one `@Patch`-annotated method and its annotation. */
  datatype PatchMethod = PatchMethod(
    methodName: string,
    takesMap: bool,             // one of its parameters is a Map
    firstParameterIsClass: bool, // its first parameter is a CtClass
    annotatedName: string,
    annotatedRequired: string,
    emptyConstructor: bool)

  /** A patch operation: its name, required attributes (None: the method takes no attributes) and flags. */
  datatype Operation = Operation(name: string, requiredAttributes: Option<seq<string>>, isClassPatch: bool, emptyConstructor: bool)

  /** The `PatchMethodDescriptor` constructor. */
  function MakeOperation(m: PatchMethod): (op: Operation)
    ensures op.name == (if m.annotatedName == "" then m.methodName else m.annotatedName)
    ensures op.requiredAttributes.Some? <==> m.takesMap
    ensures op.requiredAttributes.Some? ==> forall k :: 0 <= k < |op.requiredAttributes.value| ==>
      var a := op.requiredAttributes.value[k];
      |a| > 0 && SepFree(a, ",") && Trim(GuavaTrim, a) == a
    ensures op.isClassPatch == m.firstParameterIsClass && op.emptyConstructor == m.emptyConstructor
  {
    TokensProps(m.annotatedRequired, ",");
    Operation(
      if m.annotatedName == "" then m.methodName else m.annotatedName,
      if m.takesMap then Some(Tokens(m.annotatedRequired, ",")) else None,
      m.firstParameterIsClass,
      m.emptyConstructor)
  }

  lemma {:induction false} NoCommaInSepFree(a: string)
    requires SepFree(a, ",")
    ensures forall k :: 0 <= k < |a| ==> a[k] != ','
  {
    forall k | 0 <= k < |a| ensures a[k] != ',' {
      var j: nat := k;
      assert !OccursAt(a, ",", j);
      assert a[j..j + 1] == [a[k]];
    }
  }

  lemma {:induction false} NonEmptyTrimmedFixed(parts: seq<string>)
    requires forall k :: 0 <= k < |parts| ==> |parts[k]| > 0 && Trim(GuavaTrim, parts[k]) == parts[k]
    ensures NonEmptyTrimmed(parts) == parts
  {
    if |parts| > 0 {
      NonEmptyTrimmedFixed(parts[1..]);
    }
  }

  /**
   * The required-attribute list reads back from its comma-joined form: writing
   * it into the annotation again yields the same list.
   */
  lemma {:induction false} RequiredAttributesReparse(s: string)
    requires |Tokens(s, ",")| > 0
    ensures Tokens(Join(Tokens(s, ","), ","), ",") == Tokens(s, ",")
  {
    var req := Tokens(s, ",");
    TokensProps(s, ",");
    forall k | 0 <= k < |req| ensures ',' !in req[k] {
      NoCommaInSepFree(req[k]);
    }
    SplitJoinChar(req, ',');
    NonEmptyTrimmedFixed(req);
  }

  // ---------------------------------------------------------------------------
  // Selection: which members `run` invokes the patch method on

  datatype Selection = MissingAttributes | AllMembers | WholeClass | Constructors | StaticInitializer | Listed

  predicate MissingRequired(op: Operation, attrs: map<string, string>) {
    op.requiredAttributes.Some? && |op.requiredAttributes.value| > 0
    && !(forall k :: 0 <= k < |op.requiredAttributes.value| ==> op.requiredAttributes.value[k] in attrs)
  }

  const All := "^all^"
  const Static := "^static^"

  /**
   * The order of the tests in `run`, each case stated with every earlier test
   * it has to fail.
   */
  function Select(op: Operation, methods: string, attrs: map<string, string>): (s: Selection)
    ensures s == MissingAttributes <==> MissingRequired(op, attrs)
    ensures s == AllMembers <==> !MissingRequired(op, attrs) && methods == All
    ensures s == WholeClass <==>
      !MissingRequired(op, attrs) && methods != All && (op.isClassPatch || (!op.emptyConstructor && methods == ""))
    ensures s == Constructors <==> !MissingRequired(op, attrs) && !op.isClassPatch && op.emptyConstructor && methods == ""
    ensures s == StaticInitializer <==> !MissingRequired(op, attrs) && !op.isClassPatch && methods == Static
    ensures s == Listed <==>
      !MissingRequired(op, attrs) && !op.isClassPatch && methods != "" && methods != All && methods != Static
  {
    if MissingRequired(op, attrs) then MissingAttributes
    else if methods == All then AllMembers
    else if op.isClassPatch || (!op.emptyConstructor && methods == "") then WholeClass
    else if methods == "" then Constructors
    else if methods == Static then StaticInitializer
    else Listed
  }

  // ---------------------------------------------------------------------------
  // The class under patch

  /** A member of the class: the i-th declared method or constructor, or the static initializer. */
  datatype Member = DeclaredMethod(index: nat) | DeclaredConstructor(index: nat) | ClassInitializer

  datatype Target = OnClass | OnMember(member: Member)

  /** One call of a patch method: the operation, what it is called on, and the attribute map if it takes one. */
  datatype Invocation = Invocation(operation: string, target: Target, attributes: Option<map<string, string>>)

  /** javassist's view of a class: its name, how many methods and constructors it declares, and whether it has a static initializer. */
  datatype ClassShape = ClassShape(name: string, methods: nat, constructors: nat, hasInitializer: bool)

  /** `MethodDescription.fromListString`, `toListString` and `getShortName`. */
  datatype Descriptions = Descriptions(
    fromListString: (string, string) -> seq<M.MethodDescription>,
    toListString: seq<Option<M.MethodDescription>> -> string,
    shortName: M.MethodDescription -> string)

  /**
   * The environment of a run: the shape of a class, the description helpers,
   * `MethodDescription.inClass` (None: the member is missing), and invoking a
   * patch method, which gives the class after its in-place edits and the
   * class the method returned, if it returned one.
   */
  datatype Env<!C> = Env(
    shape: C -> ClassShape,
    descriptions: Descriptions,
    inClass: (C, M.MethodDescription) -> Option<Member>,
    invoke: (Invocation, C) -> (C, Option<C>))

  function Arguments(op: Operation, attrs: map<string, string>): Option<map<string, string>> {
    if op.requiredAttributes.Some? then Some(attrs) else None
  }

  /** `^all^`: declared methods, then declared constructors, then the static initializer if there is one. */
  function AllTargets(s: ClassShape): (r: seq<Target>)
    ensures |r| == s.methods + s.constructors + (if s.hasInitializer then 1 else 0)
  {
    seq(s.methods, i requires 0 <= i < s.methods => OnMember(DeclaredMethod(i)))
    + ConstructorTargets(s)
    + (if s.hasInitializer then [OnMember(ClassInitializer)] else [])
  }

  function ConstructorTargets(s: ClassShape): (r: seq<Target>)
    ensures |r| == s.constructors
  {
    seq(s.constructors, i requires 0 <= i < s.constructors => OnMember(DeclaredConstructor(i)))
  }

  /** State and invocation log after invoking the patch method on the first `n` targets, one after another. */
  function InvokeUpTo<C>(env: Env<C>, name: string, targets: seq<Target>, args: Option<map<string, string>>, c: C, n: nat)
    : (r: (C, seq<Invocation>))
    requires n <= |targets|
    ensures |r.1| == n
    ensures forall k :: 0 <= k < n ==> r.1[k] == Invocation(name, targets[k], args)
  {
    if n == 0 then (c, [])
    else
      var prev := InvokeUpTo(env, name, targets, args, c, n - 1);
      var inv := Invocation(name, targets[n - 1], args);
      (env.invoke(inv, prev.0).0, prev.1 + [inv])
  }

  /** The same for the listed methods, each looked up in the class as it is when its turn comes; a missing one is skipped. */
  function InvokeListedUpTo<C>(env: Env<C>, name: string, ds: seq<M.MethodDescription>, args: Option<map<string, string>>, c: C, n: nat)
    : (r: (C, seq<Invocation>))
    requires n <= |ds|
    ensures |r.1| <= n
  {
    if n == 0 then (c, [])
    else
      var prev := InvokeListedUpTo(env, name, ds, args, c, n - 1);
      match env.inClass(prev.0, ds[n - 1])
      case None => prev
      case Some(m) =>
        var inv := Invocation(name, OnMember(m), args);
        (env.invoke(inv, prev.0).0, prev.1 + [inv])
  }

  /** A patch element: its attributes, its trimmed method list and its tag, the operation's name. */
  datatype PatchDescriptor = PatchDescriptor(attributes: map<string, string>, methods: string, patch: string)

  /** What `run` leaves behind: the class, the class it returns (only on the class path), the calls made, and the attributes. */
  datatype RunOutcome<C> = RunOutcome(state: C, result: Option<C>, log: seq<Invocation>, attributes: map<string, string>)

  /** Specification of `PatchMethodDescriptor.run`. */
  function RunSpec<C>(env: Env<C>, op: Operation, p: PatchDescriptor, c: C): RunOutcome<C> {
    var shape := env.shape(c);
    var args := Arguments(op, p.attributes);
    match Select(op, p.methods, p.attributes)
    case MissingAttributes => RunOutcome(c, None, [], p.attributes)
    case AllMembers =>
      var attrs := p.attributes["silent" := "true"];
      var ts := AllTargets(shape);
      var r := InvokeUpTo(env, op.name, ts, Arguments(op, attrs), c, |ts|);
      RunOutcome(r.0, None, r.1, attrs)
    case WholeClass =>
      var inv := Invocation(op.name, OnClass, args);
      var r := env.invoke(inv, c);
      RunOutcome(r.0, r.1, [inv], p.attributes)
    case Constructors =>
      var ts := ConstructorTargets(shape);
      var r := InvokeUpTo(env, op.name, ts, args, c, |ts|);
      RunOutcome(r.0, None, r.1, p.attributes)
    case StaticInitializer =>
      var ts := if shape.hasInitializer then [OnMember(ClassInitializer)] else [];
      var r := InvokeUpTo(env, op.name, ts, args, c, |ts|);
      RunOutcome(r.0, None, r.1, p.attributes)
    case Listed =>
      var ds := env.descriptions.fromListString(shape.name, p.methods);
      var r := InvokeListedUpTo(env, op.name, ds, args, c, |ds|);
      RunOutcome(r.0, None, r.1, p.attributes)
  }

  /** Invokes the patch method on each target in turn. */
  method InvokeEach<C>(env: Env<C>, name: string, targets: seq<Target>, args: Option<map<string, string>>, c: C)
    returns (state: C, log: seq<Invocation>)
    ensures (state, log) == InvokeUpTo(env, name, targets, args, c, |targets|)
  {
    state, log := c, [];
    var i := 0;
    while i < |targets|
      invariant 0 <= i <= |targets|
      invariant (state, log) == InvokeUpTo(env, name, targets, args, c, i)
    {
      var inv := Invocation(name, targets[i], args);
      state := env.invoke(inv, state).0;
      log := log + [inv];
      i := i + 1;
    }
  }

  /** The listed-methods loop: a description missing from the class is skipped (`continue`). */
  method InvokeListed<C>(env: Env<C>, name: string, ds: seq<M.MethodDescription>, args: Option<map<string, string>>, c: C)
    returns (state: C, log: seq<Invocation>)
    ensures (state, log) == InvokeListedUpTo(env, name, ds, args, c, |ds|)
  {
    state, log := c, [];
    var i := 0;
    while i < |ds|
      invariant 0 <= i <= |ds|
      invariant (state, log) == InvokeListedUpTo(env, name, ds, args, c, i)
    {
      var member := env.inClass(state, ds[i]);
      if member.Some? {
        var inv := Invocation(name, OnMember(member.value), args);
        state := env.invoke(inv, state).0;
        log := log + [inv];
      }
      i := i + 1;
    }
  }

  /** `PatchMethodDescriptor.run`. */
  method Run<C>(env: Env<C>, op: Operation, p: PatchDescriptor, c: C) returns (out: RunOutcome<C>)
    ensures out == RunSpec(env, op, p, c)
  {
    var shape := env.shape(c);
    var attrs := p.attributes;
    if MissingRequired(op, attrs) {
      return RunOutcome(c, None, [], attrs);
    }
    if p.methods == All {
      attrs := attrs["silent" := "true"];
      var ts := AllTargets(shape);
      var state, log := InvokeEach(env, op.name, ts, Arguments(op, attrs), c);
      out := RunOutcome(state, None, log, attrs);
    } else if op.isClassPatch || (!op.emptyConstructor && p.methods == "") {
      var inv := Invocation(op.name, OnClass, Arguments(op, attrs));
      var r := env.invoke(inv, c);
      out := RunOutcome(r.0, r.1, [inv], attrs);
    } else if p.methods == "" {
      var state, log := InvokeEach(env, op.name, ConstructorTargets(shape), Arguments(op, attrs), c);
      out := RunOutcome(state, None, log, attrs);
    } else if p.methods == Static {
      var ts := if shape.hasInitializer then [OnMember(ClassInitializer)] else [];
      var state, log := InvokeEach(env, op.name, ts, Arguments(op, attrs), c);
      out := RunOutcome(state, None, log, attrs);
    } else {
      var ds := env.descriptions.fromListString(shape.name, p.methods);
      var state, log := InvokeListed(env, op.name, ds, Arguments(op, attrs), c);
      out := RunOutcome(state, None, log, attrs);
    }
  }

  // ---------------------------------------------------------------------------
  // Properties of run

  /** Missing required attributes: nothing is invoked, nothing returned, nothing changed. */
  lemma {:induction false} RunMissingAttributes<C>(env: Env<C>, op: Operation, p: PatchDescriptor, c: C)
    requires MissingRequired(op, p.attributes)
    ensures var out := RunSpec(env, op, p, c);
      out.log == [] && out.result == None && out.state == c && out.attributes == p.attributes
  {
  }

  /** Only the class path returns a value, after a single invocation on the class. */
  lemma {:induction false} RunResultOnlyFromClass<C>(env: Env<C>, op: Operation, p: PatchDescriptor, c: C)
    ensures var out := RunSpec(env, op, p, c);
      out.result.Some? ==>
        Select(op, p.methods, p.attributes) == WholeClass && out.log == [Invocation(op.name, OnClass, Arguments(op, p.attributes))]
  {
  }

  /** The order of `^all^`: methods, then constructors, then the static initializer. */
  lemma {:induction false} AllTargetsOrder(s: ClassShape)
    ensures var ts := AllTargets(s);
      (forall i :: 0 <= i < s.methods ==> ts[i] == OnMember(DeclaredMethod(i)))
      && (forall i :: 0 <= i < s.constructors ==> ts[s.methods + i] == OnMember(DeclaredConstructor(i)))
      && (s.hasInitializer ==> ts[|ts| - 1] == OnMember(ClassInitializer))
  {
    var ts := AllTargets(s);
    forall i | 0 <= i < s.constructors ensures ts[s.methods + i] == OnMember(DeclaredConstructor(i)) {
      assert ts[s.methods + i] == ConstructorTargets(s)[i];
    }
  }

  /**
   * `^all^`: `silent` is written into the attributes, and the method is
   * invoked once on every declared method, then every declared constructor,
   * then the static initializer, with the updated attributes.
   */
  lemma {:induction false} RunAllMembers<C>(env: Env<C>, op: Operation, p: PatchDescriptor, c: C)
    requires Select(op, p.methods, p.attributes) == AllMembers
    ensures var out := RunSpec(env, op, p, c);
      out.attributes == p.attributes["silent" := "true"]
      && out.result.None?
      && |out.log| == |AllTargets(env.shape(c))|
      && (forall k :: 0 <= k < |out.log| ==>
            out.log[k] == Invocation(op.name, AllTargets(env.shape(c))[k], Arguments(op, out.attributes)))
  {
  }

  /** A listed method is invoked at most once per description, and never on the class itself. */
  lemma {:induction false} ListedNeverOnClass<C>(env: Env<C>, name: string, ds: seq<M.MethodDescription>,
                                                 args: Option<map<string, string>>, c: C, n: nat)
    requires n <= |ds|
    ensures forall k :: 0 <= k < |InvokeListedUpTo(env, name, ds, args, c, n).1| ==>
      && InvokeListedUpTo(env, name, ds, args, c, n).1[k].target.OnMember?
      && InvokeListedUpTo(env, name, ds, args, c, n).1[k].operation == name
      && InvokeListedUpTo(env, name, ds, args, c, n).1[k].attributes == args
  {
    if n > 0 {
      ListedNeverOnClass(env, name, ds, args, c, n - 1);
      var prev := InvokeListedUpTo(env, name, ds, args, c, n - 1);
      var r := InvokeListedUpTo(env, name, ds, args, c, n);
      if env.inClass(prev.0, ds[n - 1]).None? {
        forall k | 0 <= k < |r.1|
          ensures r.1[k].target.OnMember? && r.1[k].operation == name && r.1[k].attributes == args
        {
          assert r.1[k] == prev.1[k];
        }
      } else {
        var m := env.inClass(prev.0, ds[n - 1]).value;
        assert r.1 == prev.1 + [Invocation(name, OnMember(m), args)];
      }
    }
  }

  // ---------------------------------------------------------------------------
  // runPatches

  /** What `runPatches` leaves: the class, all calls made, the patch elements (with updated attributes), and whether it stopped early. */
  datatype PatchesOutcome<C> = PatchesOutcome(state: C, log: seq<Invocation>, patches: seq<PatchDescriptor>, stopped: bool)

  /** Running one patch element's operation on a class, as the loop over patch elements sees it. */
  type Runner<!C> = (Operation, PatchDescriptor, C) -> RunOutcome<C>

  function RunOf<C>(env: Env<C>): Runner<C> {
    (op, p, c) => RunSpec(env, op, p, c)
  }

  lemma {:induction false} RunOfApplies<C>(env: Env<C>, op: Operation, p: PatchDescriptor, c: C)
    ensures RunOf(env)(op, p, c) == RunSpec(env, op, p, c)
  {
  }

  /** `runPatches` after the first `n` patch elements. */
  function RunPatchesUpTo<C>(run: Runner<C>, ops: map<string, Operation>, ps: seq<PatchDescriptor>, c: C, n: nat)
    : (r: PatchesOutcome<C>)
    requires n <= |ps|
    ensures |r.patches| == |ps|
    ensures forall k :: n <= k < |ps| ==> r.patches[k] == ps[k]
  {
    if n == 0 then PatchesOutcome(c, [], ps, false)
    else
      var prev := RunPatchesUpTo(run, ops, ps, c, n - 1);
      var p := ps[n - 1];
      if prev.stopped then prev
      else if p.patch !in ops then prev.(stopped := true)
      else
        var out := run(ops[p.patch], p, prev.state);
        PatchesOutcome(
          if out.result.Some? then out.result.value else out.state,
          prev.log + out.log,
          prev.patches[n - 1 := p.(attributes := out.attributes)],
          false)
  }

  /** `ClassPatchDescriptor.runPatches`. */
  method RunPatches<C>(env: Env<C>, ops: map<string, Operation>, ps: seq<PatchDescriptor>, c: C)
    returns (r: PatchesOutcome<C>)
    ensures r == RunPatchesUpTo(RunOf(env), ops, ps, c, |ps|)
  {
    ghost var run := RunOf(env);
    var state := c;
    var log: seq<Invocation> := [];
    var patches := ps;
    var i := 0;
    while i < |ps|
      invariant 0 <= i <= |ps|
      invariant RunPatchesUpTo(run, ops, ps, c, i) == PatchesOutcome(state, log, patches, false)
    {
      var p := ps[i];
      if p.patch !in ops {
        RunPatchesUnknownNext(run, ops, ps, c, i);
        RunPatchesStopped(run, ops, ps, c, i + 1, |ps|);
        return PatchesOutcome(state, log, patches, true);
      }
      var out := Run(env, ops[p.patch], p, state);
      RunOfApplies(env, ops[p.patch], p, state);
      RunPatchesNext(run, ops, ps, c, i, state, log, patches, out);
      state := if out.result.Some? then out.result.value else out.state;
      log := log + out.log;
      patches := patches[i := p.(attributes := out.attributes)];
      i := i + 1;
    }
    r := PatchesOutcome(state, log, patches, false);
  }

  /** One more known patch element after a run that has not stopped. */
  lemma {:induction false} RunPatchesNext<C>(run: Runner<C>, ops: map<string, Operation>, ps: seq<PatchDescriptor>, c: C, n: nat,
                          state: C, log: seq<Invocation>, patches: seq<PatchDescriptor>, out: RunOutcome<C>)
    requires n < |ps| && RunPatchesUpTo(run, ops, ps, c, n) == PatchesOutcome(state, log, patches, false)
    requires ps[n].patch in ops && out == run(ops[ps[n].patch], ps[n], state)
    ensures RunPatchesUpTo(run, ops, ps, c, n + 1)
      == PatchesOutcome(if out.result.Some? then out.result.value else out.state, log + out.log,
                        patches[n := ps[n].(attributes := out.attributes)], false)
  {
  }

  /** Once stopped, the later patch elements change nothing. */
  lemma {:induction false} RunPatchesStopped<C>(run: Runner<C>, ops: map<string, Operation>, ps: seq<PatchDescriptor>, c: C, n: nat, m: nat)
    requires n <= m <= |ps|
    requires RunPatchesUpTo(run, ops, ps, c, n).stopped
    ensures RunPatchesUpTo(run, ops, ps, c, m) == RunPatchesUpTo(run, ops, ps, c, n)
    decreases m
  {
    if m > n {
      RunPatchesStopped(run, ops, ps, c, n, m - 1);
    }
  }

  /**
   * An unknown operation name ends the run: the class and the calls are those
   * of the patch elements before it, and no later element runs.
   */
  lemma {:induction false} RunPatchesUnknownStops<C>(run: Runner<C>, ops: map<string, Operation>, ps: seq<PatchDescriptor>, c: C, k: nat)
    requires k < |ps| && ps[k].patch !in ops
    requires !RunPatchesUpTo(run, ops, ps, c, k).stopped
    ensures RunPatchesUpTo(run, ops, ps, c, |ps|) == RunPatchesUpTo(run, ops, ps, c, k).(stopped := true)
  {
    RunPatchesUnknownNext(run, ops, ps, c, k);
    RunPatchesStopped(run, ops, ps, c, k + 1, |ps|);
  }

  lemma {:induction false} RunPatchesUnknownNext<C>(run: Runner<C>, ops: map<string, Operation>, ps: seq<PatchDescriptor>, c: C, n: nat)
    requires n < |ps| && ps[n].patch !in ops && !RunPatchesUpTo(run, ops, ps, c, n).stopped
    ensures RunPatchesUpTo(run, ops, ps, c, n + 1) == RunPatchesUpTo(run, ops, ps, c, n).(stopped := true)
  {
  }

  /** `runPatches` stops exactly when some patch element names an unknown operation. */
  lemma {:induction false} RunPatchesKnownPrefix<C>(run: Runner<C>, ops: map<string, Operation>, ps: seq<PatchDescriptor>, c: C, n: nat)
    requires n <= |ps|
    ensures RunPatchesUpTo(run, ops, ps, c, n).stopped <==> exists k :: 0 <= k < n && ps[k].patch !in ops
  {
    if n > 0 {
      RunPatchesKnownPrefix(run, ops, ps, c, n - 1);
    }
  }

  // ---------------------------------------------------------------------------
  // ClassPatchDescriptor: building the patch elements of one class

  /** Why building a class patch throws; `loadPatchGroup` turns each into a fatal error. */
  datatype LoadError =
    | NoMethodDescription              // `methodDescriptionList.get(0)` on an empty list
    | NotANumber(field: string)        // `Integer.valueOf` of the text after `$`
    | NegativeIndex(position: int)        // `parameterList.get` below zero
    | NullSlot(index: nat)             // comparing a parameter with a slot already set to null

  /** The method description whose parameters are compared: `unmap(map(m))`, or `m` when that is null. */
  function ForParameters(mp: M.Mappings, d: M.MethodDescription): M.MethodDescription {
    match mp.mapMethod(d)
    case None => d
    case Some(x) => mp.unmapMethod(x).GetOr(d)
  }

  /**
   * The inner loop over one method's parameters, after `n` of them: a new
   * index is appended, a disagreeing one set to null, and comparing with a
   * null slot throws.
   */
  function AddParameters(slots: seq<Option<string>>, ps: seq<string>, n: nat): (r: Result<seq<Option<string>>, LoadError>)
    requires n <= |ps|
  {
    if n == 0 then Success(slots)
    else
      match AddParameters(slots, ps, n - 1)
      case Failure(e) => Failure(e)
      case Success(s) =>
        var i := n - 1;
        if |s| <= i then Success(s + [Some(ps[i])])
        else if s[i].None? then Failure(NullSlot(i))
        else if s[i].value != ps[i] then Success(s[i := None])
        else Success(s)
  }

  function Params(mp: M.Mappings, ds: seq<M.MethodDescription>, k: nat): seq<string>
    requires k < |ds|
  {
    ForParameters(mp, ds[k]).parameters
  }

  /** The outer loop, after the first `n` methods. */
  function ParameterSlots(mp: M.Mappings, ds: seq<M.MethodDescription>, n: nat): Result<seq<Option<string>>, LoadError>
    requires n <= |ds|
  {
    if n == 0 then Success([])
    else
      match ParameterSlots(mp, ds, n - 1)
      case Failure(e) => Failure(e)
      case Success(s) => AddParameters(s, Params(mp, ds, n - 1), |Params(mp, ds, n - 1)|)
  }

  /** The nested loops that build `parameterList`. */
  method BuildParameterList(mp: M.Mappings, ds: seq<M.MethodDescription>) returns (r: Result<seq<Option<string>>, LoadError>)
    ensures r == ParameterSlots(mp, ds, |ds|)
  {
    var slots: seq<Option<string>> := [];
    var k := 0;
    while k < |ds|
      invariant 0 <= k <= |ds|
      invariant ParameterSlots(mp, ds, k) == Success(slots)
    {
      var ps := ForParameters(mp, ds[k]).parameters;
      ghost var before := slots;
      var i := 0;
      while i < |ps|
        invariant 0 <= i <= |ps|
        invariant AddParameters(before, ps, i) == Success(slots)
      {
        if |slots| <= i {
          slots := slots + [Some(ps[i])];
        } else if slots[i].None? {
          AddParametersFailStays(before, ps, i + 1, |ps|);
          ParameterSlotsFailStays(mp, ds, k + 1, |ds|);
          return Failure(NullSlot(i));
        } else if slots[i].value != ps[i] {
          slots := slots[i := None];
        }
        i := i + 1;
      }
      k := k + 1;
    }
    r := Success(slots);
  }

  lemma {:induction false} AddParametersFailStays(slots: seq<Option<string>>, ps: seq<string>, n: nat, m: nat)
    requires n <= m <= |ps| && AddParameters(slots, ps, n).Failure?
    ensures AddParameters(slots, ps, m) == AddParameters(slots, ps, n)
    decreases m
  {
    if m > n {
      AddParametersFailStays(slots, ps, n, m - 1);
    }
  }

  lemma {:induction false} ParameterSlotsFailStays(mp: M.Mappings, ds: seq<M.MethodDescription>, n: nat, m: nat)
    requires n <= m <= |ds| && ParameterSlots(mp, ds, n).Failure?
    ensures ParameterSlots(mp, ds, m) == ParameterSlots(mp, ds, n)
    decreases m
  {
    if m > n {
      ParameterSlotsFailStays(mp, ds, n, m - 1);
    }
  }

  /** The most parameters any of the first `n` methods has. */
  function MaxParams(mp: M.Mappings, ds: seq<M.MethodDescription>, n: nat): nat
    requires n <= |ds|
  {
    if n == 0 then 0
    else if |Params(mp, ds, n - 1)| > MaxParams(mp, ds, n - 1) then |Params(mp, ds, n - 1)|
    else MaxParams(mp, ds, n - 1)
  }

  /** Some method reaches every position below the maximum. */
  lemma {:induction false} MaxParamsReached(mp: M.Mappings, ds: seq<M.MethodDescription>, n: nat, i: nat)
    requires n <= |ds| && i < MaxParams(mp, ds, n)
    ensures exists k :: 0 <= k < n && i < |Params(mp, ds, k)|
  {
    if i >= MaxParams(mp, ds, n - 1) {
      assert i < |Params(mp, ds, n - 1)|;
    } else {
      MaxParamsReached(mp, ds, n - 1, i);
    }
  }

  /** No method has more parameters than the maximum. */
  lemma {:induction false} MaxParamsBound(mp: M.Mappings, ds: seq<M.MethodDescription>, n: nat, k: nat)
    requires k < n <= |ds|
    ensures |Params(mp, ds, k)| <= MaxParams(mp, ds, n)
  {
    if k < n - 1 {
      MaxParamsBound(mp, ds, n - 1, k);
    }
  }

  /**
   * Comparing one method's parameters with the slots: the list grows to the
   * longer of the two, a new position takes this method's type, a compared
   * position keeps its type only when this method agrees, and comparing
   * never meets a null slot on success.
   */
  lemma {:induction false} AddParametersMeaning(slots: seq<Option<string>>, ps: seq<string>, n: nat, r: seq<Option<string>>)
    requires n <= |ps| && AddParameters(slots, ps, n) == Success(r)
    ensures |r| == (if n > |slots| then n else |slots|)
    ensures forall i :: 0 <= i < |slots| && n <= i ==> r[i] == slots[i]
    ensures forall i :: 0 <= i < |slots| && i < n ==>
      slots[i].Some? && r[i] == (if slots[i].value == ps[i] then slots[i] else None)
    ensures forall i :: |slots| <= i < n ==> r[i] == Some(ps[i])
  {
    if n > 0 {
      var prev := AddParameters(slots, ps, n - 1);
      assert prev.Success?;
      AddParametersMeaning(slots, ps, n - 1, prev.value);
    }
  }

  /**
   * What `parameterList` means: it is as long as the longest parameter list;
   * a slot holds a type exactly when every method long enough to reach it
   * has that type there, and it is null exactly when two of them disagree.
   */
  lemma {:induction false} ParameterSlotsMeaning(mp: M.Mappings, ds: seq<M.MethodDescription>, n: nat, s: seq<Option<string>>)
    requires n <= |ds| && ParameterSlots(mp, ds, n) == Success(s)
    ensures |s| == MaxParams(mp, ds, n)
    ensures forall i :: 0 <= i < |s| && s[i].Some? ==>
      forall k :: 0 <= k < n && i < |Params(mp, ds, k)| ==> Params(mp, ds, k)[i] == s[i].value
    ensures forall i :: 0 <= i < |s| && s[i].None? ==>
      exists k1, k2 :: (0 <= k1 < n && 0 <= k2 < n && i < |Params(mp, ds, k1)| && i < |Params(mp, ds, k2)|
        && Params(mp, ds, k1)[i] != Params(mp, ds, k2)[i])
  {
    if n > 0 {
      var prev := ParameterSlots(mp, ds, n - 1);
      assert prev.Success?;
      var sp := prev.value;
      ParameterSlotsMeaning(mp, ds, n - 1, sp);
      var ps := Params(mp, ds, n - 1);
      AddParametersMeaning(sp, ps, |ps|, s);
      forall i | 0 <= i < |s| && s[i].Some?
        ensures forall k :: 0 <= k < n && i < |Params(mp, ds, k)| ==> Params(mp, ds, k)[i] == s[i].value
      {
        if i >= |sp| {
          forall k | 0 <= k < n - 1 ensures |Params(mp, ds, k)| <= i {
            MaxParamsBound(mp, ds, n - 1, k);
          }
        }
      }
      forall i | 0 <= i < |s| && s[i].None?
        ensures exists k1, k2 :: (0 <= k1 < n && 0 <= k2 < n && i < |Params(mp, ds, k1)| && i < |Params(mp, ds, k2)|
          && Params(mp, ds, k1)[i] != Params(mp, ds, k2)[i])
      {
        if i < |sp| && i < |ps| && sp[i].Some? {
          MaxParamsReached(mp, ds, n - 1, i);
          var k1 :| 0 <= k1 < n - 1 && i < |Params(mp, ds, k1)|;
          assert Params(mp, ds, k1)[i] != Params(mp, ds, n - 1)[i];
        }
      }
    }
  }
}
