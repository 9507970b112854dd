/**
 * The member-editing patches of `Patches.java` that change access flags or
 * add members: `setVolatile`, `unsetVolatile`, `setFinal`,
 * `setSynchronized`/`synchronize`, `unsetSynchronized`, `addInitializer`
 * and `addField`.  A class is a `ClassMembers` object whose field and method
 * lists the patches reassign; compiled code is an opaque string, and code
 * inserted after a member's body is recorded in an insertion log.
 */
module Modifiers {
  import opened Wrappers
  import opened Text

  /**
   * A bit position of a 32-bit modifier word.  A modifier word is modelled as
   * the set of its set bits: bit `b` stands for the mask `1 << b`, so `|`
   * becomes union, `& ~` difference and `(m & f) == f` membership.
   */
  type Bit = b: nat | b < 32

  type Flags = set<Bit>

  /** Access flags, as in sections 4.5 and 4.6 of the Java Virtual Machine Specification. */
  const PUBLIC: Bit := 0        // 0x0001
  const PRIVATE: Bit := 1       // 0x0002
  const PROTECTED: Bit := 2     // 0x0004
  const STATIC: Bit := 3        // 0x0008
  const FINAL: Bit := 4         // 0x0010
  const SYNCHRONIZED: Bit := 5  // 0x0020
  const VOLATILE: Bit := 6      // 0x0040

  /** `(m & flag) == flag`, the test the patches write out. */
  predicate Has(m: Flags, flag: Bit) {
    flag in m
  }

  /** `m | flag`: the flag is set and every other bit is kept. */
  function SetFlag(m: Flags, flag: Bit): (r: Flags)
    ensures Has(r, flag)
    ensures forall b :: b != flag ==> (b in r <==> b in m)
  {
    m + {flag}
  }

  /** `m & ~flag`: the flag is cleared and every other bit is kept. */
  function ClearFlag(m: Flags, flag: Bit): (r: Flags)
    ensures !Has(r, flag)
    ensures forall b :: b != flag ==> (b in r <==> b in m)
  {
    m - {flag}
  }

  /** javassist's `Modifier.setPublic`: public, neither private nor protected, the rest kept. */
  function SetPublic(m: Flags): (r: Flags)
    ensures Has(r, PUBLIC) && !Has(r, PRIVATE) && !Has(r, PROTECTED)
    ensures forall b :: b !in {PUBLIC, PRIVATE, PROTECTED} ==> (b in r <==> b in m)
  {
    (m - {PRIVATE, PROTECTED}) + {PUBLIC}
  }

  /** Setting a flag twice is setting it once. */
  lemma {:induction false} SetFlagIdempotent(m: Flags, flag: Bit)
    ensures SetFlag(SetFlag(m, flag), flag) == SetFlag(m, flag)
  {
  }

  /** Clearing a flag twice is clearing it once. */
  lemma {:induction false} ClearFlagIdempotent(m: Flags, flag: Bit)
    ensures ClearFlag(ClearFlag(m, flag), flag) == ClearFlag(m, flag)
  {
  }

  // ---------------------------------------------------------------------------
  // Members

  /** The names `CtClass.isPrimitive` is true for. */
  const PrimitiveTypes: set<string> :=
    {"boolean", "byte", "char", "short", "int", "long", "float", "double", "void"}

  datatype Field = Field(name: string, typeName: string, modifiers: Flags, initializer: Option<string>)

  predicate IsPrimitive(f: Field) {
    f.typeName in PrimitiveTypes
  }

  datatype Method = Method(name: string, descriptor: string, modifiers: Flags, body: string)

  /** Where `insertAfter` put a piece of code. */
  datatype Site = ClassInitializer | MethodNamed(name: string) | EveryConstructor

  datatype Insertion = Insertion(site: Site, code: string)

  /** `getDeclaredField(name)`: the first field called `name`, or NotFoundException (None). */
  function FirstNamed(fs: seq<Field>, name: string): (r: Option<nat>)
    ensures r.Some? ==> r.value < |fs| && fs[r.value].name == name
    ensures r.Some? ==> forall j :: 0 <= j < r.value ==> fs[j].name != name
    ensures r.None? ==> forall j :: 0 <= j < |fs| ==> fs[j].name != name
  {
    if |fs| == 0 then None
    else if fs[0].name == name then Some(0)
    else match FirstNamed(fs[1..], name)
      case None => None
      case Some(k) => Some(k + 1)
  }

  predicate HasMethodNamed(ms: seq<Method>, name: string) {
    exists j :: 0 <= j < |ms| && ms[j].name == name
  }

  // ---------------------------------------------------------------------------
  // setVolatile, unsetVolatile, setFinal

  datatype FieldEdit = SetVolatile | UnsetVolatile | SetFinal

  function FlagOf(e: FieldEdit): Bit {
    if e.SetFinal? then FINAL else VOLATILE
  }

  /** The edit sets or clears its own flag and keeps every other bit. */
  function EditFlags(e: FieldEdit, m: Flags): (r: Flags)
    ensures forall b :: b != FlagOf(e) ==> (b in r <==> b in m)
    ensures Has(r, FlagOf(e)) <==> !e.UnsetVolatile?
  {
    match e
    case SetVolatile => SetFlag(m, VOLATILE)
    case UnsetVolatile => ClearFlag(m, VOLATILE)
    case SetFinal => SetFlag(m, FINAL)
  }

  function Edited(f: Field, e: FieldEdit): Field {
    f.(modifiers := EditFlags(e, f.modifiers))
  }

  /** With no `field` attribute the edit reaches every primitive field. */
  function EditPrimitive(fs: seq<Field>, e: FieldEdit): seq<Field> {
    seq(|fs|, i requires 0 <= i < |fs| => if IsPrimitive(fs[i]) then Edited(fs[i], e) else fs[i])
  }

  /** The whole field list after the edit, or unchanged when the named field is missing. */
  function FieldEditSpec(fs: seq<Field>, e: FieldEdit, field: Option<string>): seq<Field> {
    match field
    case None => EditPrimitive(fs, e)
    case Some(n) =>
      match FirstNamed(fs, n)
      case None => fs
      case Some(k) => fs[k := Edited(fs[k], e)]
  }

  /** Applying the same flag edit twice leaves the fields as applying it once. */
  lemma {:induction false} FieldEditIdempotent(fs: seq<Field>, e: FieldEdit, field: Option<string>)
    ensures FieldEditSpec(FieldEditSpec(fs, e, field), e, field) == FieldEditSpec(fs, e, field)
  {
    var once := FieldEditSpec(fs, e, field);
    forall m: Flags ensures EditFlags(e, EditFlags(e, m)) == EditFlags(e, m) {
      if e.UnsetVolatile? {
        ClearFlagIdempotent(m, VOLATILE);
      } else {
        SetFlagIdempotent(m, FlagOf(e));
      }
    }
    match field
    case None =>
      assert FieldEditSpec(once, e, field) == once;
    case Some(n) =>
      match FirstNamed(fs, n)
      case None =>
      case Some(k) =>
        FirstNamedByNames(fs, once, n);
  }

  /** `getDeclaredField` looks at names only. */
  lemma {:induction false} FirstNamedByNames(fs: seq<Field>, gs: seq<Field>, name: string)
    requires |fs| == |gs| && forall j :: 0 <= j < |fs| ==> fs[j].name == gs[j].name
    ensures FirstNamed(fs, name) == FirstNamed(gs, name)
  {
  }

  /**
   * A flag edit changes one bit of the chosen fields and nothing else: names,
   * types, initializers and every other bit stay, and the fields it does not
   * choose are untouched.
   */
  lemma {:induction false} FieldEditOnlyTouchesFlag(fs: seq<Field>, e: FieldEdit, field: Option<string>, j: nat)
    requires j < |fs|
    ensures |FieldEditSpec(fs, e, field)| == |fs|
    ensures var g := FieldEditSpec(fs, e, field)[j];
      g.name == fs[j].name && g.typeName == fs[j].typeName && g.initializer == fs[j].initializer
      && g.modifiers - {FlagOf(e)} == fs[j].modifiers - {FlagOf(e)}
      && (g != fs[j] ==> (if field.None? then IsPrimitive(fs[j]) else FirstNamed(fs, field.value) == Some(j)))
  {
  }

  // ---------------------------------------------------------------------------
  // synchronize: the `_sync<i>` name search

  function SyncName(base: string, i: nat): string {
    base + "_sync" + NatToString(i)
  }

  lemma {:induction false} SyncNameInjective(base: string, i: nat, j: nat)
    requires SyncName(base, i) == SyncName(base, j)
    ensures i == j
  {
    var p := base + "_sync";
    assert SyncName(base, i)[|p|..] == NatToString(i);
    assert SyncName(base, j)[|p|..] == NatToString(j);
    NatToStringInjective(i, j);
  }

  /** The first `i` renamings are `i` distinct names. */
  lemma {:induction false} SyncNamesCount(base: string, i: nat)
    ensures |set j | 0 <= j < i :: SyncName(base, j)| == i
  {
    if i > 0 {
      var prev := set j | 0 <= j < i - 1 :: SyncName(base, j);
      SyncNamesCount(base, i - 1);
      assert (set j | 0 <= j < i :: SyncName(base, j)) == prev + {SyncName(base, i - 1)};
      if SyncName(base, i - 1) in prev {
        var j :| 0 <= j < i - 1 && SyncName(base, j) == SyncName(base, i - 1);
        SyncNameInjective(base, j, i - 1);
      }
    }
  }

  /** If the first `i` renamings are all taken, there are at least `i` names. */
  lemma {:induction false} TakenBound(names: set<string>, base: string, i: nat)
    requires forall j :: 0 <= j < i ==> SyncName(base, j) in names
    ensures i <= |names|
  {
    SyncNamesCount(base, i);
    var taken := set j | 0 <= j < i :: SyncName(base, j);
    SubsetCard(taken, names);
  }

  lemma {:induction false} SubsetCard<T>(a: set<T>, b: set<T>)
    requires a <= b
    ensures |a| <= |b|
    decreases |a|
  {
    if a != {} {
      var x :| x in a;
      SubsetCard(a - {x}, b - {x});
    }
  }

  /** The least `i` whose `_sync<i>` name is free: the index the search loop stops at. */
  function LeastFreeFrom(names: set<string>, base: string, i: nat): (r: nat)
    requires forall j :: 0 <= j < i ==> SyncName(base, j) in names
    ensures SyncName(base, r) !in names
    ensures forall j :: 0 <= j < r ==> SyncName(base, j) in names
    decreases |names| - i
  {
    TakenBound(names, base, i);
    if SyncName(base, i) !in names then i
    else
      TakenBound(names, base, i + 1);
      LeastFreeFrom(names, base, i + 1)
  }

  function LeastFree(names: set<string>, base: string): nat {
    LeastFreeFrom(names, base, 0)
  }

  /** The least free index is the only one that is free with every smaller one taken. */
  lemma {:induction false} LeastFreeUnique(names: set<string>, base: string, i: nat)
    requires SyncName(base, i) !in names
    requires forall j :: 0 <= j < i ==> SyncName(base, j) in names
    ensures i == LeastFree(names, base)
  {
  }

  function MethodNames(ms: seq<Method>): set<string> {
    set j | 0 <= j < |ms| :: ms[j].name
  }

  /**
   * `synchronize(method, field)` on the method at `k`.  Without a field the
   * method gets the synchronized flag (already set: a warning, and setting it
   * again changes nothing).  With a field it is renamed to the least free
   * `name_sync<i>`, and a copy under the old name, not synchronized, whose
   * body holds the field's monitor around a call to the renamed method, is
   * appended.
   */
  function SyncOne(ms: seq<Method>, k: nat, field: Option<string>): (r: seq<Method>)
    requires k < |ms|
    ensures |r| == |ms| + (if field.Some? then 1 else 0)
    ensures forall j :: 0 <= j < |ms| && j != k ==> r[j] == ms[j]
  {
    var m := ms[k];
    match field
    case None => ms[k := m.(modifiers := SetFlag(m.modifiers, SYNCHRONIZED))]
    case Some(f) =>
      var renamed := SyncName(m.name, LeastFree(MethodNames(ms), m.name));
      var replacement := Method(m.name, m.descriptor, ClearFlag(m.modifiers, SYNCHRONIZED),
        "synchronized(" + f + ") { return " + renamed + "($$); }");
      ms[k := m.(name := renamed)] + [replacement]
  }

  predicate IsStatic(m: Method) {
    Has(m.modifiers, STATIC)
  }

  /** The methods among the first `n` whose static-ness is `isStatic`. */
  function MatchCount(ms: seq<Method>, n: nat, isStatic: bool): (c: nat)
    requires n <= |ms|
    ensures c <= n
  {
    if n == 0 then 0
    else MatchCount(ms, n - 1, isStatic) + (if IsStatic(ms[n - 1]) == isStatic then 1 else 0)
  }

  /** The methods after `setSynchronized` has visited the first `n` declared methods. */
  function SyncUpTo(ms: seq<Method>, n: nat, isStatic: bool, field: Option<string>): (r: seq<Method>)
    requires n <= |ms|
    ensures |r| == |ms| + (if field.Some? then MatchCount(ms, n, isStatic) else 0)
    ensures forall j :: n <= j < |ms| ==> r[j] == ms[j]
  {
    if n == 0 then ms
    else
      var prev := SyncUpTo(ms, n - 1, isStatic, field);
      if IsStatic(ms[n - 1]) == isStatic then SyncOne(prev, n - 1, field) else prev
  }

  /** The visit of method `n`, in terms of the state after the first `n`. */
  lemma SyncNext(ms: seq<Method>, n: nat, isStatic: bool, field: Option<string>)
    requires n < |ms|
    ensures var prev := SyncUpTo(ms, n, isStatic, field);
      prev[n] == ms[n]
      && SyncUpTo(ms, n + 1, isStatic, field) == (if IsStatic(ms[n]) == isStatic then SyncOne(prev, n, field) else prev)
      && MatchCount(ms, n + 1, isStatic) == MatchCount(ms, n, isStatic) + (if IsStatic(ms[n]) == isStatic then 1 else 0)
  {
  }

  datatype SyncTarget = OnConstructor | OnMethod(index: nat) | OnClass(isStatic: bool)

  /**
   * Without a field, `setSynchronized` on a class sets the flag on exactly the
   * declared methods whose static-ness matches and changes nothing else.
   */
  lemma {:induction false} SyncWithoutField(ms: seq<Method>, n: nat, isStatic: bool, j: nat)
    requires n <= |ms| && j < |ms|
    ensures |SyncUpTo(ms, n, isStatic, None)| == |ms|
    ensures SyncUpTo(ms, n, isStatic, None)[j] ==
      if j < n && IsStatic(ms[j]) == isStatic then ms[j].(modifiers := SetFlag(ms[j].modifiers, SYNCHRONIZED))
      else ms[j]
  {
    if n > 0 {
      SyncWithoutField(ms, n - 1, isStatic, j);
    }
  }

  /**
   * With a field, every visited method whose static-ness matches is renamed to
   * its own name followed by `_sync` and a number, the others keep their
   * place and name, and one replacement per renamed method is appended.
   */
  lemma {:induction false} SyncWithField(ms: seq<Method>, n: nat, isStatic: bool, f: string, j: nat)
    requires n <= |ms| && j < |ms|
    ensures var r := SyncUpTo(ms, n, isStatic, Some(f));
      |r| == |ms| + MatchCount(ms, n, isStatic)
      && (if j < n && IsStatic(ms[j]) == isStatic
          then (exists i: nat :: r[j] == ms[j].(name := SyncName(ms[j].name, i)))
          else r[j] == ms[j])
  {
    if n > 0 {
      SyncWithField(ms, n - 1, isStatic, f, j);
      var prev := SyncUpTo(ms, n - 1, isStatic, Some(f));
      if j == n - 1 && IsStatic(ms[j]) == isStatic {
        var i := LeastFree(MethodNames(prev), prev[j].name);
        assert SyncUpTo(ms, n, isStatic, Some(f))[j] == ms[j].(name := SyncName(ms[j].name, i));
      }
    }
  }

  function SetSynchronizedSpec(ms: seq<Method>, target: SyncTarget, field: Option<string>): seq<Method>
    requires target.OnMethod? ==> target.index < |ms|
  {
    match target
    case OnConstructor => ms
    case OnMethod(k) => SyncOne(ms, k, field)
    case OnClass(isStatic) => SyncUpTo(ms, |ms|, isStatic, field)
  }

  // ---------------------------------------------------------------------------
  // addInitializer and addField code strings

  /** Java string concatenation of a possibly-null reference. */
  function JavaString(o: Option<string>): string {
    o.GetOr("null")
  }

  /** The expression `addInitializer` assigns: `code`, or `new fieldClass()` / `new fieldClass[arraySize]`. */
  function InitializerExpr(clazz: Option<string>, code: Option<string>, arraySize: Option<string>): string {
    match code
    case Some(c) => c
    case None => "new " + JavaString(clazz) + (match arraySize case None => "()" case Some(n) => "[" + n + "]")
  }

  /** `{ field = expr; }` */
  function AssignBlock(field: string, expr: string): string {
    "{ " + field + " = " + expr + "; }"
  }

  /** Reads the assigned expression back out of an assignment block for `field`. */
  function AssignedExpr(s: string, field: string): (r: Option<string>)
    ensures r.Some? ==> |r.value| + |field| + 8 == |s|
  {
    var pre := "{ " + field + " = ";
    if |s| >= |pre| + 3 && s[..|pre|] == pre && s[|s| - 3..] == "; }" then Some(s[|pre|..|s| - 3])
    else None
  }

  lemma {:induction false} AssignBlockRoundTrip(field: string, expr: string)
    ensures AssignedExpr(AssignBlock(field, expr), field) == Some(expr)
  {
    var pre := "{ " + field + " = ";
    var s := AssignBlock(field, expr);
    assert s == pre + expr + "; }";
    assert s[..|pre|] == pre;
    assert s[|s| - 3..] == "; }";
    assert s[|pre|..|s| - 3] == expr;
  }

  const RunConstructors := "runConstructors"
  const ConstructedGuard := "{ if(!this.isConstructed) { this.isConstructed = true; this.runConstructors(); } }"

  /** `"none".equalsIgnoreCase(s)` */
  predicate IsNone(s: string) {
    |s| == 4 && (s[0] == 'n' || s[0] == 'N') && (s[1] == 'o' || s[1] == 'O')
    && (s[2] == 'n' || s[2] == 'N') && (s[3] == 'e' || s[3] == 'E')
  }

  /** The field `addField` declares: public, static only when asked, initialised unless `none`. */
  function NewField(field: string, clazz: string, code: Option<string>, isStatic: bool): (f: Field)
    ensures f.name == field && f.typeName == clazz
    ensures Has(f.modifiers, PUBLIC) && !Has(f.modifiers, PRIVATE) && !Has(f.modifiers, PROTECTED)
    ensures Has(f.modifiers, STATIC) <==> isStatic
    ensures f.initializer.None? <==> code.Some? && IsNone(code.value)
    ensures code.None? ==> f.initializer == Some("new " + clazz + "();")
  {
    var init := code.GetOr("new " + clazz + "();");
    var base: Flags := if isStatic then SetFlag({}, STATIC) else {};
    Field(field, clazz, SetPublic(base), if IsNone(init) then None else Some(init))
  }

  /** A field added under a fresh name is the one `getDeclaredField` finds from then on. */
  lemma {:induction false} AddedFieldFound(fs: seq<Field>, f: Field)
    requires FirstNamed(fs, f.name).None?
    ensures FirstNamed(fs + [f], f.name) == Some(|fs|)
  {
    if |fs| > 0 {
      assert (fs + [f])[1..] == fs[1..] + [f];
      AddedFieldFound(fs[1..], f);
    }
  }

  // ---------------------------------------------------------------------------
  // The class whose members the patches edit

  class ClassMembers {
    var fields: seq<Field>
    var methods: seq<Method>
    var insertions: seq<Insertion>

    constructor(fields: seq<Field>, methods: seq<Method>)
      ensures this.fields == fields && this.methods == methods && insertions == []
    {
      this.fields := fields;
      this.methods := methods;
      insertions := [];
    }

    /** `setVolatile` / `unsetVolatile` / `setFinal`; a missing named field is NotFoundException. */
    method EditField(e: FieldEdit, field: Option<string>) returns (r: Result<(), string>)
      modifies this
      ensures fields == FieldEditSpec(old(fields), e, field)
      ensures methods == old(methods) && insertions == old(insertions)
      ensures r.Failure? <==> field.Some? && FirstNamed(old(fields), field.value).None?
    {
      match field
      case None =>
        var i := 0;
        while i < |fields|
          invariant |fields| == |old(fields)| && 0 <= i <= |fields|
          invariant forall j :: 0 <= j < i ==> fields[j] == EditPrimitive(old(fields), e)[j]
          invariant forall j :: i <= j < |fields| ==> fields[j] == old(fields)[j]
          invariant methods == old(methods) && insertions == old(insertions)
        {
          if fields[i].typeName in PrimitiveTypes {
            fields := fields[i := fields[i].(modifiers := EditFlags(e, fields[i].modifiers))];
          }
          i := i + 1;
        }
        r := Success(());
      case Some(n) =>
        var k := FirstNamed(fields, n);
        match k
        case None =>
          r := Failure("NotFoundException: " + n);
        case Some(j) =>
          fields := fields[j := Edited(fields[j], e)];
          r := Success(());
    }

    /** `unsetSynchronized` on the method at `k`. */
    method UnsetSynchronized(k: nat)
      requires k < |methods|
      modifies this
      ensures methods == old(methods)[k := old(methods)[k].(modifiers := ClearFlag(old(methods)[k].modifiers, SYNCHRONIZED))]
      ensures fields == old(fields) && insertions == old(insertions)
    {
      methods := methods[k := methods[k].(modifiers := ClearFlag(methods[k].modifiers, SYNCHRONIZED))];
    }

    /** The search loop: asks for `name_sync0`, `name_sync1`, ... until one is not declared. */
    method FreeSyncIndex(base: string) returns (i: nat)
      ensures SyncName(base, i) !in MethodNames(methods)
      ensures forall j :: 0 <= j < i ==> SyncName(base, j) in MethodNames(methods)
    {
      var names := MethodNames(methods);
      i := 0;
      while SyncName(base, i) in names
        invariant forall j :: 0 <= j < i ==> SyncName(base, j) in names
        decreases |names| - i
      {
        TakenBound(names, base, i + 1);
        i := i + 1;
      }
    }

    /** `synchronize` on the method at `k`; `warned` when it was already synchronized. */
    method Synchronize(k: nat, field: Option<string>) returns (warned: bool)
      requires k < |methods|
      modifies this`methods
      ensures methods == SyncOne(old(methods), k, field)
      ensures fields == old(fields) && insertions == old(insertions)
      ensures warned <==> field.None? && Has(old(methods)[k].modifiers, SYNCHRONIZED)
    {
      var m := methods[k];
      match field
      case None =>
        if Has(m.modifiers, SYNCHRONIZED) {
          warned := true;
          assert SetFlag(m.modifiers, SYNCHRONIZED) == m.modifiers;
          assert methods == methods[k := m.(modifiers := SetFlag(m.modifiers, SYNCHRONIZED))];
        } else {
          warned := false;
          methods := methods[k := m.(modifiers := SetFlag(m.modifiers, SYNCHRONIZED))];
        }
      case Some(f) =>
        warned := false;
        var i := FreeSyncIndex(m.name);
        LeastFreeUnique(MethodNames(methods), m.name, i);
        var renamed := SyncName(m.name, i);
        var replacement := Method(m.name, m.descriptor, ClearFlag(m.modifiers, SYNCHRONIZED),
          "synchronized(" + f + ") { return " + renamed + "($$); }");
        methods := methods[k := m.(name := renamed)] + [replacement];
    }

    /**
     * `setSynchronized`: nothing on a constructor, `synchronize` on a method,
     * and on a class `synchronize` on each declared method whose static-ness
     * matches the `static` attribute; `error` when that matched none.
     */
    method SetSynchronized(target: SyncTarget, field: Option<string>) returns (count: nat, error: bool)
      requires target.OnMethod? ==> target.index < |methods|
      modifies this`methods
      ensures methods == SetSynchronizedSpec(old(methods), target, field)
      ensures fields == old(fields) && insertions == old(insertions)
      ensures count == (if target.OnClass? then MatchCount(old(methods), |old(methods)|, target.isStatic) else 0)
      ensures error <==> target.OnClass? && count == 0
    {
      count := 0;
      error := false;
      match target
      case OnConstructor =>
      case OnMethod(k) =>
        var _ := Synchronize(k, field);
      case OnClass(isStatic) =>
        var n := |methods|;
        var i := 0;
        while i < n
          invariant 0 <= i <= n == |old(methods)|
          invariant methods == SyncUpTo(old(methods), i, isStatic, field)
          invariant count == MatchCount(old(methods), i, isStatic)
        {
          SyncNext(old(methods), i, isStatic, field);
          if Has(methods[i].modifiers, STATIC) == isStatic {
            var _ := Synchronize(i, field);
            count := count + 1;
          }
          i := i + 1;
        }
        error := count == 0;
    }

    /**
     * `addInitializer`: a static field's assignment goes after the class
     * initializer; an instance field's after `runConstructors`, which is
     * first created (with its `isConstructed` guard in every constructor)
     * when the class lacks it.  A missing field is NotFoundException.
     */
    method AddInitializer(field: string, clazz: Option<string>, code: Option<string>, arraySize: Option<string>)
      returns (r: Result<(), string>)
      modifies this
      ensures var block := AssignBlock(field, InitializerExpr(clazz, code, arraySize));
        match FirstNamed(old(fields), field)
        case None => r.Failure? && fields == old(fields) && methods == old(methods) && insertions == old(insertions)
        case Some(k) =>
          r.Success? &&
          if Has(old(fields)[k].modifiers, STATIC) then
            fields == old(fields) && methods == old(methods)
            && insertions == old(insertions) + [Insertion(ClassInitializer, block)]
          else if HasMethodNamed(old(methods), RunConstructors) then
            fields == old(fields) && methods == old(methods)
            && insertions == old(insertions) + [Insertion(MethodNamed(RunConstructors), block)]
          else
            methods == old(methods) + [Method(RunConstructors, "()V", {PUBLIC}, "{ }")]
            && fields == old(fields) + [Field("isConstructed", "boolean", {}, Some("false"))]
            && insertions == old(insertions) + [Insertion(EveryConstructor, ConstructedGuard),
                                                Insertion(MethodNamed(RunConstructors), block)]
    {
      var block := AssignBlock(field, InitializerExpr(clazz, code, arraySize));
      var k := FirstNamed(fields, field);
      if k.None? {
        return Failure("NotFoundException: " + field);
      }
      if Has(fields[k.value].modifiers, STATIC) {
        insertions := insertions + [Insertion(ClassInitializer, block)];
      } else {
        if !HasMethodNamed(methods, RunConstructors) {
          methods := methods + [Method(RunConstructors, "()V", {PUBLIC}, "{ }")];
          fields := fields + [Field("isConstructed", "boolean", {}, Some("false"))];
          insertions := insertions + [Insertion(EveryConstructor, ConstructedGuard)];
        }
        insertions := insertions + [Insertion(MethodNamed(RunConstructors), block)];
      }
      r := Success(());
    }

    /**
     * `addField`: an existing field of that name is left alone (a warning,
     * `added` false); an unknown type is NotFoundException; otherwise the new
     * field is appended.
     */
    method AddField(field: string, clazz: string, code: Option<string>, isStatic: bool, knownTypes: set<string>)
      returns (r: Result<bool, string>)
      modifies this
      ensures methods == old(methods) && insertions == old(insertions)
      ensures FirstNamed(old(fields), field).Some? ==> r == Success(false) && fields == old(fields)
      ensures FirstNamed(old(fields), field).None? && clazz !in knownTypes ==> r.Failure? && fields == old(fields)
      ensures FirstNamed(old(fields), field).None? && clazz in knownTypes ==>
        r == Success(true) && fields == old(fields) + [NewField(field, clazz, code, isStatic)]
    {
      if FirstNamed(fields, field).Some? {
        return Success(false);
      }
      if clazz !in knownTypes {
        return Failure("NotFoundException: " + clazz);
      }
      var init := if code.None? then "new " + clazz + "();" else code.value;
      var mods: Flags := {};
      if isStatic {
        mods := SetFlag(mods, STATIC);
      }
      mods := SetPublic(mods);
      fields := fields + [Field(field, clazz, mods, if IsNone(init) then None else Some(init))];
      r := Success(true);
    }
  }
}
