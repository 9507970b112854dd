/**
 * The `Patches` operations that walk a method's expressions with an
 * `ExprEditor`: the two-pass field-initializer correlation of
 * `replaceFieldInitializer`, the call selection shared by
 * `replaceMethodCall`, `lockMethodCall` and `synchronizeMethodCall`, the
 * field-access selection of `replaceFieldAccess`, and the parsing of their
 * attributes.  The editor's callbacks become a sequence of events in the
 * order javassist visits the expressions; the class pool's answers are
 * function parameters.  Rewriting an expression is recorded, not compiled.
 */
module ExprScan {
  import opened Wrappers
  import opened Text

  /** One expression visited by the editor, with what the callbacks read of it. */
  datatype Event =
    | NewExpr(className: string)
      /** `fieldName` is None where `getFieldName` fails on the access. */
    | FieldAccess(owner: string, fieldName: Option<string>, signature: string, isReader: bool, isWriter: bool, offset: nat)
    | MethodCall(owner: string, methodName: string, offset: nat)
    | NewArray
    | Cast
    | Instanceof
    | Handler
    | ConstructorCall

  // ---------------------------------------------------------------------------
  // classSignatureToName (section 4.3.2 of the Java Virtual Machine Specification)

  /** Every `from` replaced by `to`. */
  function ReplaceChar(s: string, from: char, to: char): (r: string)
    ensures |r| == |s|
    ensures forall k :: 0 <= k < |s| ==> r[k] == if s[k] == from then to else s[k]
  {
    seq(|s|, k requires 0 <= k < |s| => if s[k] == from then to else s[k])
  }

  /**
   * `classSignatureToName`: drops the first and last characters of a field
   * descriptor (`L` and `;`) and turns `/` into `.`.  A descriptor shorter
   * than two characters makes `substring` throw (None).
   */
  function ClassSignatureToName(signature: string): (r: Option<string>)
    ensures r.Some? <==> |signature| >= 2
    ensures r.Some? ==> |r.value| == |signature| - 2 && '/' !in r.value
  {
    if |signature| < 2 then None
    else Some(ReplaceChar(signature[1..|signature| - 1], '/', '.'))
  }

  /** The object-type descriptor `L<binary name>;` of a class name. */
  function NameToSignature(name: string): string {
    "L" + ReplaceChar(name, '.', '/') + ";"
  }

  /** `classSignatureToName` recovers a class name (one without `/`) from its descriptor. */
  lemma {:induction false} SignatureToNameRoundTrip(name: string)
    requires '/' !in name
    ensures ClassSignatureToName(NameToSignature(name)) == Some(name)
  {
    var sig := NameToSignature(name);
    assert sig[1..|sig| - 1] == ReplaceChar(name, '.', '/');
    var back := ClassSignatureToName(sig).value;
    forall k | 0 <= k < |name| ensures back[k] == name[k] {
      assert name[k] != '/' by { assert name[k] in name; }
    }
    assert back == name;
  }

  /** And an object-type descriptor (one without `.`) is recovered from the name it gives. */
  lemma {:induction false} NameToSignatureRoundTrip(signature: string)
    requires |signature| >= 2 && signature[0] == 'L' && signature[|signature| - 1] == ';' && '.' !in signature
    ensures NameToSignature(ClassSignatureToName(signature).value) == signature
  {
    var name := ClassSignatureToName(signature).value;
    var sig := NameToSignature(name);
    forall k | 0 <= k < |signature| ensures sig[k] == signature[k] {
      if 0 < k < |signature| - 1 {
        assert signature[k] != '.' by { assert signature[k] in signature; }
        assert sig[k] == ReplaceChar(name, '.', '/')[k - 1];
      }
    }
  }

  // ---------------------------------------------------------------------------
  // replaceFieldInitializer

  /**
   * The initializer put in place of a `new` expression: the `code`
   * attribute, or `$_ = new <fieldClass>();`; with neither the patch fails.
   */
  function InitializerCode(code: Option<string>, fieldClass: Option<string>): (r: Option<string>)
    ensures r.None? <==> code.None? && fieldClass.None?
    ensures code.Some? ==> r == code
    ensures code.None? && fieldClass.Some? ==> r == Some("$_ = new " + fieldClass.value + "();")
  {
    if code.Some? then code
    else if fieldClass.Some? then Some("$_ = new " + fieldClass.value + "();")
    else None
  }

  /** How the checks before the scan end: a warning, one of two exceptions, or the initializer to use. */
  datatype InitializerSetup =
    | NeedsMethods          // `classContainingField` on a class target: warn and return
    | FieldMissing          // `getDeclaredField` throws NotFoundException
    | CodeMissing           // "Must give code or class"
    | Ready(initializer: string)

  /**
   * The checks of `replaceFieldInitializer` before any method is
   * instrumented, in the source's order.  `fieldFound` says whether the
   * class searched (the target's class, or `classContainingField` from the
   * class pool) declares the field.
   */
  function Setup(onClass: bool, containingClass: Option<string>, fieldFound: bool,
                 code: Option<string>, fieldClass: Option<string>): (r: InitializerSetup)
    ensures r.NeedsMethods? <==> onClass && containingClass.Some?
    ensures r.FieldMissing? <==> !(onClass && containingClass.Some?) && !fieldFound
    ensures r.CodeMissing? <==> !(onClass && containingClass.Some?) && fieldFound && code.None? && fieldClass.None?
    ensures r.Ready? ==> InitializerCode(code, fieldClass) == Some(r.initializer)
  {
    if onClass && containingClass.Some? then NeedsMethods
    else if !fieldFound then FieldMissing
    else match InitializerCode(code, fieldClass)
      case None => CodeMissing
      case Some(c) => Ready(c)
  }

  /** How many `new` expressions are among the first `n` events. */
  function NewCount(events: seq<Event>, n: nat): (r: nat)
    requires n <= |events|
    ensures r <= n
  {
    if n == 0 then 0 else NewCount(events, n - 1) + (if events[n - 1].NewExpr? then 1 else 0)
  }

  /**
   * The state of the first pass's editor: whether a `new` of a subtype of
   * the field's type is pending (`lastNewExpr`), how many `new` expressions
   * were seen (`newPos`), and the positions recorded so far.
   */
  datatype ScanState = ScanState(pending: bool, newPos: nat, recorded: map<nat, string>)

  const Start := ScanState(false, 0, map[])

  /**
   * One callback of the first pass.  A `new` expression becomes the pending
   * candidate when its class is a subtype of the field's type; a field
   * access named `field` right after a candidate records the candidate's
   * position; every callback clears the candidate.  None where the callback
   * throws.
   */
  function Step(st: ScanState, e: Event, field: string, isSubtype: string -> bool): Option<ScanState> {
    match e
    case NewExpr(c) => Some(ScanState(isSubtype(c), st.newPos + 1, st.recorded))
    case FieldAccess(_, name, signature, _, _, _) =>
      if !st.pending then Some(st)
      else if name.None? then None
      else if name.value != field then Some(st.(pending := false))
      else
        (match ClassSignatureToName(signature)
         case None => None
         case Some(t) => Some(ScanState(false, st.newPos, st.recorded[st.newPos := t])))
    case _ => Some(st.(pending := false))
  }

  /** The first pass over the first `n` events. */
  function Scan(events: seq<Event>, n: nat, field: string, isSubtype: string -> bool): Option<ScanState>
    requires n <= |events|
  {
    if n == 0 then Some(Start)
    else
      match Scan(events, n - 1, field, isSubtype)
      case None => None
      case Some(st) => Step(st, events[n - 1], field, isSubtype)
  }

  /** The first pass's editor, with the fields it updates from one callback to the next. */
  class InitializerScanner {
    const field: string
    const isSubtype: string -> bool
    var lastNewExpr: bool
    var newPos: nat
    var newExprType: map<nat, string>

    function State(): ScanState
      reads this
    {
      ScanState(lastNewExpr, newPos, newExprType)
    }

    constructor (field: string, isSubtype: string -> bool)
      ensures this.field == field && this.isSubtype == isSubtype
      ensures State() == Start
    {
      this.field := field;
      this.isSubtype := isSubtype;
      lastNewExpr := false;
      newPos := 0;
      newExprType := map[];
    }

    /** Handles one expression; `ok` is false where the callback throws. */
    method Edit(e: Event) returns (ok: bool)
      modifies this
      ensures ok <==> Step(old(State()), e, field, isSubtype).Some?
      ensures ok ==> Step(old(State()), e, field, isSubtype) == Some(State())
    {
      ok := true;
      match e
      case NewExpr(c) =>
        lastNewExpr := false;
        newPos := newPos + 1;
        if isSubtype(c) {
          lastNewExpr := true;
        }
      case FieldAccess(_, name, signature, _, _, _) =>
        var myLastNewExpr := lastNewExpr;
        lastNewExpr := false;
        if myLastNewExpr {
          if name.None? {
            ok := false;
          } else if name.value == field {
            var t := ClassSignatureToName(signature);
            if t.None? {
              ok := false;
            } else {
              newExprType := newExprType[newPos := t.value];
            }
          }
        }
      case _ =>
        lastNewExpr := false;
    }
  }

  /** Once the pass has thrown it stays failed. */
  lemma {:induction false} ScanFailStays(events: seq<Event>, n: nat, m: nat, field: string, isSubtype: string -> bool)
    requires n <= m <= |events| && Scan(events, n, field, isSubtype).None?
    ensures Scan(events, m, field, isSubtype).None?
    decreases m
  {
    if m > n {
      ScanFailStays(events, n, m - 1, field, isSubtype);
    }
  }

  /** The first pass: the positions (counted from 1) of the `new` expressions it correlates with the field, and their types. */
  method FirstPass(events: seq<Event>, field: string, isSubtype: string -> bool) returns (r: Option<map<nat, string>>)
    ensures r.None? <==> Scan(events, |events|, field, isSubtype).None?
    ensures r.Some? ==> r.value == Scan(events, |events|, field, isSubtype).value.recorded
  {
    var scanner := new InitializerScanner(field, isSubtype);
    var i := 0;
    while i < |events|
      invariant 0 <= i <= |events|
      invariant scanner.field == field && scanner.isSubtype == isSubtype
      invariant Scan(events, i, field, isSubtype) == Some(scanner.State())
    {
      var ok := scanner.Edit(events[i]);
      if !ok {
        ScanFailStays(events, i + 1, |events|, field, isSubtype);
        return None;
      }
      i := i + 1;
    }
    r := Some(scanner.newExprType);
  }

  /**
   * The `i`-th event is a `new` of a subtype of the field's type, it is the
   * `k`-th `new`, and the very next event is an access to a field named
   * `field` (read or write, on any class).
   */
  predicate Correlated(events: seq<Event>, i: nat, k: nat, field: string, isSubtype: string -> bool) {
    && i + 1 < |events|
    && events[i].NewExpr? && isSubtype(events[i].className)
    && NewCount(events, i + 1) == k
    && events[i + 1].FieldAccess? && events[i + 1].fieldName == Some(field)
  }

  /**
   * What the first pass computes over a prefix: the count of `new`
   * expressions, a candidate pending exactly after a `new` of a subtype,
   * and the recorded positions exactly those of correlated `new`s.
   */
  lemma {:induction false} ScanMeaning(events: seq<Event>, n: nat, field: string, isSubtype: string -> bool)
    requires n <= |events| && Scan(events, n, field, isSubtype).Some?
    ensures var st := Scan(events, n, field, isSubtype).value;
      && st.newPos == NewCount(events, n)
      && (st.pending <==> n > 0 && events[n - 1].NewExpr? && isSubtype(events[n - 1].className))
      && (forall k :: k in st.recorded <==> exists i: nat :: i + 1 < n && Correlated(events, i, k, field, isSubtype))
  {
    if n > 0 {
      ScanMeaning(events, n - 1, field, isSubtype);
      var before := Scan(events, n - 1, field, isSubtype).value;
      var st := Scan(events, n, field, isSubtype).value;
      forall k ensures k in st.recorded <==> exists i: nat :: i + 1 < n && Correlated(events, i, k, field, isSubtype) {
        if k in st.recorded && k !in before.recorded {
          assert Correlated(events, n - 2, k, field, isSubtype);
        }
        if exists i: nat :: i + 1 < n && Correlated(events, i, k, field, isSubtype) {
          var i: nat :| i + 1 < n && Correlated(events, i, k, field, isSubtype);
          if i + 1 == n - 1 {
            assert k == before.newPos;
          }
        }
      }
    }
  }

  /** The positions the first pass records are those of correlated `new` expressions, and no others. */
  lemma {:induction false} FirstPassRecords(events: seq<Event>, field: string, isSubtype: string -> bool)
    requires Scan(events, |events|, field, isSubtype).Some?
    ensures forall k :: k in Scan(events, |events|, field, isSubtype).value.recorded <==> exists i: nat :: Correlated(events, i, k, field, isSubtype)
  {
    ScanMeaning(events, |events|, field, isSubtype);
  }

  /**
   * The first pass throws only on a field access right after a candidate
   * `new`: one whose name cannot be read, or one named `field` whose
   * descriptor is shorter than two characters.
   */
  lemma {:induction false} ScanFails(events: seq<Event>, n: nat, field: string, isSubtype: string -> bool)
    requires n <= |events|
    ensures Scan(events, n, field, isSubtype).None? <==>
      exists i: nat :: 0 < i < n && events[i - 1].NewExpr? && isSubtype(events[i - 1].className) && events[i].FieldAccess?
        && (events[i].fieldName.None? || (events[i].fieldName == Some(field) && |events[i].signature| < 2))
  {
    if n > 0 {
      ScanFails(events, n - 1, field, isSubtype);
      if Scan(events, n - 1, field, isSubtype).Some? {
        ScanMeaning(events, n - 1, field, isSubtype);
      }
    }
  }

  /** The positions among the first `n` events of the `new` expressions the second pass replaces. */
  function Sites(events: seq<Event>, n: nat, recorded: map<nat, string>): (r: seq<nat>)
    requires n <= |events|
  {
    if n == 0 then []
    else Sites(events, n - 1, recorded) + (if events[n - 1].NewExpr? && NewCount(events, n) in recorded then [n - 1] else [])
  }

  /** The second pass: counts `new` expressions again and replaces those at recorded positions. */
  method SecondPass(events: seq<Event>, recorded: map<nat, string>) returns (replaced: nat, sites: seq<nat>)
    ensures sites == Sites(events, |events|, recorded)
    ensures replaced == |sites|
  {
    var newPos := 0;
    replaced := 0;
    sites := [];
    var i := 0;
    while i < |events|
      invariant 0 <= i <= |events|
      invariant newPos == NewCount(events, i)
      invariant sites == Sites(events, i, recorded) && replaced == |sites|
    {
      if events[i].NewExpr? {
        newPos := newPos + 1;
        if newPos in recorded {
          sites := sites + [i];
          replaced := replaced + 1;
        }
      }
      i := i + 1;
    }
  }

  /** The recorded positions that fall among the first `c` `new` expressions. */
  function Upto(recorded: map<nat, string>, c: nat): set<nat> {
    set k | k in recorded && 1 <= k <= c
  }

  /** The second pass replaces one `new` per recorded position that names an existing `new`. */
  lemma {:induction false} SitesCount(events: seq<Event>, n: nat, recorded: map<nat, string>)
    requires n <= |events|
    ensures |Sites(events, n, recorded)| == |Upto(recorded, NewCount(events, n))|
  {
    if n > 0 {
      SitesCount(events, n - 1, recorded);
      var c := NewCount(events, n - 1);
      if events[n - 1].NewExpr? {
        if c + 1 in recorded {
          assert Upto(recorded, c + 1) == Upto(recorded, c) + {c + 1};
        } else {
          assert Upto(recorded, c + 1) == Upto(recorded, c);
        }
      }
    } else {
      assert Upto(recorded, 0) == {};
    }
  }

  /** A `new` expression's position among the `new`s is at least 1 and at most their total. */
  lemma {:induction false} NewCountMonotone(events: seq<Event>, i: nat, n: nat)
    requires i <= n <= |events|
    ensures NewCount(events, i) <= NewCount(events, n)
    decreases n
  {
    if i < n {
      NewCountMonotone(events, i, n - 1);
    }
  }

  /**
   * When both passes run over the same expressions, the second replaces
   * exactly as many `new` expressions as the first recorded.
   */
  lemma {:induction false} ReplacedEqualsRecorded(events: seq<Event>, field: string, isSubtype: string -> bool)
    requires Scan(events, |events|, field, isSubtype).Some?
    ensures var recorded := Scan(events, |events|, field, isSubtype).value.recorded;
      |Sites(events, |events|, recorded)| == |recorded.Keys|
  {
    var recorded := Scan(events, |events|, field, isSubtype).value.recorded;
    FirstPassRecords(events, field, isSubtype);
    SitesCount(events, |events|, recorded);
    var total := NewCount(events, |events|);
    forall k | k in recorded ensures 1 <= k <= total {
      var i: nat :| Correlated(events, i, k, field, isSubtype);
      NewCountMonotone(events, i + 1, |events|);
    }
    assert Upto(recorded, total) == recorded.Keys;
  }

  /** What one method contributes: None where the first pass throws, else how many initializers were replaced. */
  function BehaviourReplaced(events: seq<Event>, field: string, isSubtype: string -> bool): Option<nat> {
    match Scan(events, |events|, field, isSubtype)
    case None => None
    case Some(st) => Some(|Sites(events, |events|, st.recorded)|)
  }

  /** The replacements over the first `n` methods, or None once one of them throws. */
  function TotalReplaced(behaviours: seq<seq<Event>>, n: nat, field: string, isSubtype: string -> bool): Option<nat>
    requires n <= |behaviours|
  {
    if n == 0 then Some(0)
    else
      match TotalReplaced(behaviours, n - 1, field, isSubtype)
      case None => None
      case Some(t) =>
        match BehaviourReplaced(behaviours[n - 1], field, isSubtype)
        case None => None
        case Some(c) => Some(t + c)
  }

  /**
   * `replaceFieldInitializer`: the checks of `Setup`, then, over the methods
   * it instruments (the constructors and static initializer, or the one
   * target method), both passes per method; an error is reported exactly
   * when nothing was replaced and `silent` is absent.  None where the setup
   * or a pass throws.
   */
  method ReplaceFieldInitializer(onClass: bool, containingClass: Option<string>, fieldFound: bool,
                                 code: Option<string>, fieldClass: Option<string>,
                                 behaviours: seq<seq<Event>>, field: string, isSubtype: string -> bool, silent: bool)
    returns (setup: InitializerSetup, r: Option<nat>, error: bool)
    ensures setup == Setup(onClass, containingClass, fieldFound, code, fieldClass)
    ensures setup.NeedsMethods? ==> r == Some(0) && !error
    ensures setup.FieldMissing? || setup.CodeMissing? ==> r.None? && !error
    ensures setup.Ready? ==> r == TotalReplaced(behaviours, |behaviours|, field, isSubtype)
    ensures setup.Ready? ==> (error <==> r == Some(0) && !silent)
  {
    setup := Setup(onClass, containingClass, fieldFound, code, fieldClass);
    if !setup.Ready? {
      r := if setup.NeedsMethods? then Some(0) else None;
      error := false;
      return;
    }
    r, error := ScanBehaviours(behaviours, field, isSubtype, silent);
  }

  /** Both passes over every instrumented method, then the "nothing replaced" error. */
  method ScanBehaviours(behaviours: seq<seq<Event>>, field: string, isSubtype: string -> bool, silent: bool)
    returns (r: Option<nat>, error: bool)
    ensures r == TotalReplaced(behaviours, |behaviours|, field, isSubtype)
    ensures error <==> r == Some(0) && !silent
  {
    var replaced := 0;
    var b := 0;
    while b < |behaviours|
      invariant 0 <= b <= |behaviours|
      invariant TotalReplaced(behaviours, b, field, isSubtype) == Some(replaced)
    {
      var recorded := FirstPass(behaviours[b], field, isSubtype);
      TotalNext(behaviours, b, field, isSubtype, replaced);
      if recorded.None? {
        TotalFailStays(behaviours, b + 1, |behaviours|, field, isSubtype);
        return None, false;
      }
      var count, _ := SecondPass(behaviours[b], recorded.value);
      replaced := replaced + count;
      b := b + 1;
    }
    r := Some(replaced);
    error := replaced == 0 && !silent;
  }

  /** The total after method `b`, in terms of the total before it. */
  lemma TotalNext(behaviours: seq<seq<Event>>, b: nat, field: string, isSubtype: string -> bool, replaced: nat)
    requires b < |behaviours| && TotalReplaced(behaviours, b, field, isSubtype) == Some(replaced)
    ensures TotalReplaced(behaviours, b + 1, field, isSubtype)
      == match Scan(behaviours[b], |behaviours[b]|, field, isSubtype)
         case None => None
         case Some(st) => Some(replaced + |Sites(behaviours[b], |behaviours[b]|, st.recorded)|)
  {
  }

  /** Once a method's pass has thrown the whole patch has. */
  lemma {:induction false} TotalFailStays(behaviours: seq<seq<Event>>, n: nat, m: nat, field: string, isSubtype: string -> bool)
    requires n <= m <= |behaviours| && TotalReplaced(behaviours, n, field, isSubtype).None?
    ensures TotalReplaced(behaviours, m, field, isSubtype).None?
    decreases m
  {
    if m > n {
      TotalFailStays(behaviours, n, m - 1, field, isSubtype);
    }
  }

  // ---------------------------------------------------------------------------
  // Method-call selection: replaceMethodCall, lockMethodCall, synchronizeMethodCall

  /** The index of the first (or last) `c` in `s`. */
  function FindChar(s: string, c: char, last: bool): (r: Option<nat>)
    ensures r.Some? ==> r.value < |s| && s[r.value] == c
    ensures r.Some? && last ==> c !in s[r.value + 1..]
    ensures r.Some? && !last ==> c !in s[..r.value]
    ensures r.None? <==> c !in s
  {
    if last then FindLast(s, c) else FindFirst(s, c)
  }

  function FindFirst(s: string, c: char): (r: Option<nat>)
    ensures r.Some? ==> r.value < |s| && s[r.value] == c && c !in s[..r.value]
    ensures r.None? <==> c !in s
  {
    if |s| == 0 then None
    else if s[0] == c then Some(0)
    else
      match FindFirst(s[1..], c)
      case None => None
      case Some(i) =>
        assert s[..i + 1] == [s[0]] + s[1..][..i];
        Some(i + 1)
  }

  function FindLast(s: string, c: char): (r: Option<nat>)
    ensures r.Some? ==> r.value < |s| && s[r.value] == c && c !in s[r.value + 1..]
    ensures r.None? <==> c !in s
  {
    if |s| == 0 then None
    else if s[|s| - 1] == c then Some(|s| - 1)
    else
      assert s == s[..|s| - 1] + [s[|s| - 1]];
      match FindLast(s[..|s| - 1], c)
      case None => None
      case Some(i) =>
        assert s[i + 1..] == s[..|s| - 1][i + 1..] + [s[|s| - 1]];
        Some(i)
  }

  /** A `method` attribute split into the optional class name and the method name. */
  datatype Target = Target(className: Option<string>, name: string)

  /**
   * Splits `Class.method` at a dot (the last one for `replaceMethodCall`,
   * the first one for `lockMethodCall` and `synchronizeMethodCall`); a
   * missing attribute is the empty method name, which matches every method.
   */
  function SplitTarget(attribute: Option<string>, atLastDot: bool): (r: Target)
    ensures var m := attribute.GetOr("");
      && (r.className.None? <==> '.' !in m)
      && (r.className.None? ==> r.name == m)
      && (r.className.Some? ==> r.className.value + "." + r.name == m)
      && (r.className.Some? && atLastDot ==> '.' !in r.name)
      && (r.className.Some? && !atLastDot ==> '.' !in r.className.value)
  {
    var m := attribute.GetOr("");
    match FindChar(m, '.', atLastDot)
    case None => Target(None, m)
    case Some(d) =>
      assert m == m[..d] + "." + m[d + 1..];
      Target(Some(m[..d]), m[d + 1..])
  }

  /** `replaceMethodCall`'s target: split at the last dot, with class `self` meaning the declaring class. */
  function ReplaceCallTarget(attribute: Option<string>, declaringClass: string): (r: Target)
    ensures r.name == SplitTarget(attribute, true).name
    ensures SplitTarget(attribute, true).className == Some("self") ==> r.className == Some(declaringClass)
    ensures SplitTarget(attribute, true).className != Some("self") ==> r.className == SplitTarget(attribute, true).className
  {
    var t := SplitTarget(attribute, true);
    if t.className == Some("self") then t.(className := Some(declaringClass)) else t
  }

  /** The `index` attribute: `-1` when absent, None where `Integer.valueOf` throws. */
  function ParseIndex(index: Option<string>): (r: Option<int>)
    ensures index.None? ==> r == Some(-1)
    ensures index.Some? ==> r == ParseInt(index.value)
  {
    match index
    case Some(text) => ParseInt(text)
    case None =>
      ParseIntToString(-1);
      assert IntToString(-1) == "-1";
      ParseInt("-1")
  }

  /** `replaceMethodCall`'s default code, `$_ = $0.<newMethod>($$);` (Java prints a missing name as `null`). */
  function ReplaceCallCode(code: Option<string>, newMethod: Option<string>): (r: string)
    ensures code.Some? ==> r == code.value
    ensures code.None? ==> r == "$_ = $0." + newMethod.GetOr("null") + "($$);"
  {
    match code
    case Some(c) => c
    case None => "$_ = $0." + newMethod.GetOr("null") + "($$);"
  }

  /** A call on the target class (when given) to the target method (when not empty). */
  predicate CallMatches(e: Event, t: Target) {
    e.MethodCall? && (t.className.None? || e.owner == t.className.value) && (t.name == "" || e.methodName == t.name)
  }

  /** How many calls among the first `n` events match. */
  function CallCount(events: seq<Event>, n: nat, t: Target): (r: nat)
    requires n <= |events|
    ensures r <= n
  {
    if n == 0 then 0 else CallCount(events, n - 1, t) + (if CallMatches(events[n - 1], t) then 1 else 0)
  }

  /** The `j`-th event is a matching call and, unless the index is -1, the index-th matching one. */
  predicate Chosen(events: seq<Event>, j: nat, t: Target, index: int)
    requires j < |events|
  {
    CallMatches(events[j], t) && (index == -1 || CallCount(events, j, t) == index)
  }

  /**
   * The chosen calls among the first `n` events, in order, that pass the
   * `newMethod` lookup (`resolves`; always true for the lock operations).
   */
  function ChosenCalls(events: seq<Event>, n: nat, t: Target, index: int, resolves: Event -> bool): (r: seq<nat>)
    requires n <= |events|
    ensures forall i :: 0 <= i < |r| ==> r[i] < n && events[r[i]].MethodCall?
  {
    if n == 0 then []
    else
      ChosenCalls(events, n - 1, t, index, resolves)
        + (if Chosen(events, n - 1, t, index) && resolves(events[n - 1]) then [n - 1] else [])
  }

  /** What a call-rewriting patch did: the calls it acted on, and where it cut the code off with `removeAfter`. */
  datatype CallOutcome = CallOutcome(acted: seq<nat>, cut: Option<nat>)

  /**
   * Every chosen call is acted on; with `removeAfter` only the first one,
   * after which the code is cut at that call's offset and the scan stops.
   */
  function CallSpec(events: seq<Event>, t: Target, index: int, resolves: Event -> bool, removeAfter: bool): CallOutcome {
    var all := ChosenCalls(events, |events|, t, index, resolves);
    if removeAfter && |all| > 0 then CallOutcome([all[0]], Some(events[all[0]].offset))
    else CallOutcome(all, None)
  }

  /**
   * The editor of `replaceMethodCall` (and, with `resolves` always true and
   * no `removeAfter`, of `lockMethodCall` and `synchronizeMethodCall`): its
   * `currentIndex` advances on each matching call once an index is given,
   * before the `newMethod` lookup.
   */
  method SelectCalls(events: seq<Event>, t: Target, index: int, resolves: Event -> bool, removeAfter: bool)
    returns (out: CallOutcome)
    ensures out == CallSpec(events, t, index, resolves, removeAfter)
  {
    var currentIndex := 0;
    var acted: seq<nat> := [];
    var j := 0;
    while j < |events|
      invariant 0 <= j <= |events|
      invariant index != -1 ==> currentIndex == CallCount(events, j, t)
      invariant acted == ChosenCalls(events, j, t, index, resolves)
      invariant removeAfter ==> acted == []
    {
      var e := events[j];
      if e.MethodCall? && (t.className.None? || e.owner == t.className.value) && (t.name == "" || e.methodName == t.name) {
        var take := index == -1;
        if !take {
          take := currentIndex == index;
          currentIndex := currentIndex + 1;
        }
        if take && resolves(e) {
          acted := acted + [j];
          if removeAfter {
            ChosenCallsPrefix(events, j + 1, |events|, t, index, resolves);
            return CallOutcome([j], Some(e.offset));
          }
        }
      }
      j := j + 1;
    }
    assert j == |events|;
    out := CallOutcome(acted, None);
  }

  /** The calls chosen among a prefix are a prefix of those chosen among more events. */
  lemma {:induction false} ChosenCallsPrefix(events: seq<Event>, n: nat, m: nat, t: Target, index: int, resolves: Event -> bool)
    requires n <= m <= |events|
    ensures ChosenCalls(events, n, t, index, resolves) <= ChosenCalls(events, m, t, index, resolves)
    decreases m
  {
    if m > n {
      ChosenCallsPrefix(events, n, m - 1, t, index, resolves);
    }
  }

  /** A call is acted on exactly when it is chosen and passes the lookup. */
  lemma {:induction false} ChosenCallsMembers(events: seq<Event>, n: nat, t: Target, index: int, resolves: Event -> bool)
    requires n <= |events|
    ensures forall j: nat :: j in ChosenCalls(events, n, t, index, resolves) <==> j < n && Chosen(events, j, t, index) && resolves(events[j])
  {
    if n > 0 {
      ChosenCallsMembers(events, n - 1, t, index, resolves);
    }
  }

  /** With no index (-1) every matching call that passes the lookup is acted on. */
  lemma {:induction false} EveryMatchingCall(events: seq<Event>, t: Target, resolves: Event -> bool)
    ensures forall j: nat :: j in ChosenCalls(events, |events|, t, -1, resolves) <==> j < |events| && CallMatches(events[j], t) && resolves(events[j])
  {
    ChosenCallsMembers(events, |events|, t, -1, resolves);
  }

  /** An index below -1 never equals the counter, so no call is acted on. */
  lemma {:induction false} NoCallBelowMinusOne(events: seq<Event>, n: nat, t: Target, index: int, resolves: Event -> bool)
    requires n <= |events| && index < -1
    ensures ChosenCalls(events, n, t, index, resolves) == []
  {
    if n > 0 {
      NoCallBelowMinusOne(events, n - 1, t, index, resolves);
    }
  }

  /**
   * With an index `k >= 0` at most one call is chosen: the `k`-th matching
   * one, which exists exactly when more than `k` calls match.
   */
  lemma {:induction false} OnlyTheIndexedCall(events: seq<Event>, n: nat, t: Target, k: nat)
    requires n <= |events|
    ensures var chosen := ChosenCalls(events, n, t, k, _ => true);
      && |chosen| <= 1
      && (|chosen| == 1 <==> k < CallCount(events, n, t))
      && (|chosen| == 1 ==> CallCount(events, chosen[0], t) == k && CallMatches(events[chosen[0]], t))
  {
    if n > 0 {
      OnlyTheIndexedCall(events, n - 1, t, k);
    }
  }

  // ---------------------------------------------------------------------------
  // replaceFieldAccess

  /** A readable access to `field`, on `fieldClass` when one is given. */
  predicate AccessMatches(e: Event, field: string, fieldClass: Option<string>) {
    e.FieldAccess? && e.fieldName.Some? && (fieldClass.None? || e.owner == fieldClass.value) && e.fieldName.value == field
  }

  /** The matching accesses among the first `n` events, in order. */
  function MatchedAccesses(events: seq<Event>, n: nat, field: string, fieldClass: Option<string>): (r: seq<nat>)
    requires n <= |events|
    ensures ValidAccesses(events, r)
  {
    if n == 0 then []
    else MatchedAccesses(events, n - 1, field, fieldClass) + (if AccessMatches(events[n - 1], field, fieldClass) then [n - 1] else [])
  }

  /** The matched accesses are exactly the matching ones. */
  lemma {:induction false} MatchedAccessesMembers(events: seq<Event>, n: nat, field: string, fieldClass: Option<string>)
    requires n <= |events|
    ensures forall x: nat :: x in MatchedAccesses(events, n, field, fieldClass) <==> x < n && AccessMatches(events[x], field, fieldClass)
  {
    if n > 0 {
      MatchedAccessesMembers(events, n - 1, field, fieldClass);
    }
  }

  /** The code that replaces an access: `writeCode` for a write, `readCode` for a read, none otherwise. */
  function AccessCode(e: Event, readCode: Option<string>, writeCode: Option<string>): (r: Option<string>)
    requires e.FieldAccess?
    ensures r.Some? ==> (e.isWriter && r == writeCode) || (e.isReader && r == readCode)
    ensures r.None? ==> (!e.isWriter || writeCode.None?) && (!e.isReader || readCode.None?)
  {
    if e.isWriter && writeCode.Some? then writeCode
    else if e.isReader && readCode.Some? then readCode
    else None
  }

  /** One rewritten expression: its event and the code put in its place. */
  datatype Edit = Edit(event: nat, code: string)

  /** Positions of field accesses among the events. */
  predicate ValidAccesses(events: seq<Event>, accesses: seq<nat>) {
    forall i :: 0 <= i < |accesses| ==> accesses[i] < |events| && events[accesses[i]].FieldAccess?
  }

  /** The edits made to the given accesses, in order. */
  function AccessEdits(events: seq<Event>, accesses: seq<nat>, readCode: Option<string>, writeCode: Option<string>): (r: seq<Edit>)
    requires ValidAccesses(events, accesses)
  {
    if |accesses| == 0 then []
    else
      var a := accesses[|accesses| - 1];
      AccessEdits(events, accesses[..|accesses| - 1], readCode, writeCode) + CodeEdit(a, AccessCode(events[a], readCode, writeCode))
  }

  /** The edit for access `a`, when its kind has code. */
  function CodeEdit(a: nat, code: Option<string>): seq<Edit> {
    match code
    case None => []
    case Some(c) => [Edit(a, c)]
  }

  /** What `replaceFieldAccess` did: how many accesses it counted, what it rewrote, where it cut the code. */
  datatype AccessOutcome = AccessOutcome(replaced: nat, edits: seq<Edit>, cut: Option<nat>)

  function AccessSpec(events: seq<Event>, field: string, fieldClass: Option<string>,
                      readCode: Option<string>, writeCode: Option<string>, removeAfter: bool): AccessOutcome
  {
    var all := MatchedAccesses(events, |events|, field, fieldClass);
    if removeAfter && |all| > 0 then AccessOutcome(1, [], Some(events[all[0]].offset))
    else AccessOutcome(|all|, AccessEdits(events, all, readCode, writeCode), None)
  }

  /**
   * `replaceFieldAccess`: counts every matching access and rewrites it with
   * the code for its kind; with `removeAfter` the code is cut at the first
   * matching access instead and the scan stops.  Fails when neither
   * `readCode` nor `writeCode` is given.
   */
  method ReplaceFieldAccess(events: seq<Event>, field: string, fieldClass: Option<string>,
                            readCode: Option<string>, writeCode: Option<string>, removeAfter: bool)
    returns (r: Result<AccessOutcome, string>)
    ensures r.Failure? <==> readCode.None? && writeCode.None?
    ensures r.Success? ==> r.value == AccessSpec(events, field, fieldClass, readCode, writeCode, removeAfter)
  {
    if readCode.None? && writeCode.None? {
      return Failure("readCode or writeCode must be set");
    }
    var outcome := ScanAccesses(events, field, fieldClass, readCode, writeCode, removeAfter);
    r := Success(outcome);
  }

  /** The scan of `replaceFieldAccess` once the code to put in is known. */
  method ScanAccesses(events: seq<Event>, field: string, fieldClass: Option<string>,
                      readCode: Option<string>, writeCode: Option<string>, removeAfter: bool)
    returns (r: AccessOutcome)
    ensures r == AccessSpec(events, field, fieldClass, readCode, writeCode, removeAfter)
  {
    var replaced := 0;
    var edits: seq<Edit> := [];
    var j := 0;
    while j < |events|
      invariant 0 <= j <= |events|
      invariant replaced == |MatchedAccesses(events, j, field, fieldClass)|
      invariant edits == AccessEdits(events, MatchedAccesses(events, j, field, fieldClass), readCode, writeCode)
      invariant removeAfter ==> MatchedAccesses(events, j, field, fieldClass) == []
    {
      var e := events[j];
      AccessNext(events, j, field, fieldClass, readCode, writeCode);
      if AccessMatches(e, field, fieldClass) {
        replaced := replaced + 1;
        if removeAfter {
          AccessSpecCut(events, j, field, fieldClass, readCode, writeCode);
          return AccessOutcome(1, [], Some(e.offset));
        }
        var code := AccessCode(e, readCode, writeCode);
        if code.Some? {
          edits := edits + [Edit(j, code.value)];
        }
      }
      j := j + 1;
    }
    AccessSpecFull(events, field, fieldClass, readCode, writeCode, removeAfter);
    r := AccessOutcome(replaced, edits, None);
  }

  /** With `removeAfter`, the first match cuts the code there. */
  lemma AccessSpecCut(events: seq<Event>, j: nat, field: string, fieldClass: Option<string>,
                      readCode: Option<string>, writeCode: Option<string>)
    requires j < |events| && AccessMatches(events[j], field, fieldClass)
    requires MatchedAccesses(events, j, field, fieldClass) == []
    ensures AccessSpec(events, field, fieldClass, readCode, writeCode, true) == AccessOutcome(1, [], Some(events[j].offset))
  {
    MatchedAccessesPrefix(events, j + 1, |events|, field, fieldClass);
    assert MatchedAccesses(events, j + 1, field, fieldClass) == [j];
  }

  /** A scan that saw every event without a cut rewrites every match. */
  lemma AccessSpecFull(events: seq<Event>, field: string, fieldClass: Option<string>,
                       readCode: Option<string>, writeCode: Option<string>, removeAfter: bool)
    requires removeAfter ==> MatchedAccesses(events, |events|, field, fieldClass) == []
    ensures var all := MatchedAccesses(events, |events|, field, fieldClass);
      AccessSpec(events, field, fieldClass, readCode, writeCode, removeAfter)
      == AccessOutcome(|all|, AccessEdits(events, all, readCode, writeCode), None)
  {
  }

  /** The scan's state after event `j`, in terms of its state before it. */
  lemma AccessNext(events: seq<Event>, j: nat, field: string, fieldClass: Option<string>,
                   readCode: Option<string>, writeCode: Option<string>)
    requires j < |events|
    ensures var before, after := MatchedAccesses(events, j, field, fieldClass), MatchedAccesses(events, j + 1, field, fieldClass);
      AccessMatches(events[j], field, fieldClass) ==>
        |after| == |before| + 1
        && AccessEdits(events, after, readCode, writeCode)
           == AccessEdits(events, before, readCode, writeCode) + CodeEdit(j, AccessCode(events[j], readCode, writeCode))
    ensures !AccessMatches(events[j], field, fieldClass) ==> MatchedAccesses(events, j + 1, field, fieldClass) == MatchedAccesses(events, j, field, fieldClass)
  {
    var matched := MatchedAccesses(events, j, field, fieldClass);
    if AccessMatches(events[j], field, fieldClass) {
      AccessEditsSnoc(events, matched, j, readCode, writeCode);
    } else {
      assert matched + [] == matched;
    }
  }

  lemma {:induction false} AccessEditsSnoc(events: seq<Event>, accesses: seq<nat>, a: nat, readCode: Option<string>, writeCode: Option<string>)
    requires ValidAccesses(events, accesses)
    requires a < |events| && events[a].FieldAccess?
    ensures ValidAccesses(events, accesses + [a])
    ensures AccessEdits(events, accesses + [a], readCode, writeCode)
      == AccessEdits(events, accesses, readCode, writeCode) + CodeEdit(a, AccessCode(events[a], readCode, writeCode))
  {
    assert (accesses + [a])[..|accesses|] == accesses;
  }

  lemma {:induction false} MatchedAccessesPrefix(events: seq<Event>, n: nat, m: nat, field: string, fieldClass: Option<string>)
    requires n <= m <= |events|
    ensures MatchedAccesses(events, n, field, fieldClass) <= MatchedAccesses(events, m, field, fieldClass)
    decreases m
  {
    if m > n {
      MatchedAccessesPrefix(events, n, m - 1, field, fieldClass);
    }
  }

  /** The rewritten accesses are exactly the matching ones whose kind has code, each with that code. */
  lemma {:induction false} AccessEditsMembers(events: seq<Event>, accesses: seq<nat>, readCode: Option<string>, writeCode: Option<string>)
    requires ValidAccesses(events, accesses)
    ensures forall ed :: ed in AccessEdits(events, accesses, readCode, writeCode) <==> ed.event in accesses && AccessCode(events[ed.event], readCode, writeCode) == Some(ed.code)
  {
    if |accesses| > 0 {
      var init := accesses[..|accesses| - 1];
      AccessEditsMembers(events, init, readCode, writeCode);
      assert accesses == init + [accesses[|accesses| - 1]];
    }
  }

  /**
   * With `removeAfter` the code is cut exactly when some call is acted on,
   * at the offset of the earliest such call, and that call is the only one
   * counted.
   */
  lemma {:induction false} CutAtFirstCall(events: seq<Event>, t: Target, index: int, resolves: Event -> bool)
    ensures var out := CallSpec(events, t, index, resolves, true);
      && (out.cut.Some? <==> exists j: nat :: j < |events| && Chosen(events, j, t, index) && resolves(events[j]))
      && (out.cut.Some? ==>
            && |out.acted| == 1 && out.acted[0] < |events|
            && Chosen(events, out.acted[0], t, index) && resolves(events[out.acted[0]])
            && out.cut.value == events[out.acted[0]].offset
            && forall j: nat :: j < out.acted[0] ==> !(Chosen(events, j, t, index) && resolves(events[j])))
  {
    var all := ChosenCalls(events, |events|, t, index, resolves);
    ChosenCallsMembers(events, |events|, t, index, resolves);
    if |all| > 0 {
      var j0 := all[0];
      assert j0 in all;
      ChosenCallsPrefix(events, j0, |events|, t, index, resolves);
      ChosenCallsMembers(events, j0, t, index, resolves);
      var before := ChosenCalls(events, j0, t, index, resolves);
    }
  }

  /**
   * With `removeAfter` the code is cut exactly when some access matches, at
   * the offset of the earliest one, with one access counted and none rewritten.
   */
  lemma {:induction false} CutAtFirstAccess(events: seq<Event>, field: string, fieldClass: Option<string>,
                         readCode: Option<string>, writeCode: Option<string>)
    ensures var out := AccessSpec(events, field, fieldClass, readCode, writeCode, true);
      && (out.cut.Some? <==> exists j: nat :: j < |events| && AccessMatches(events[j], field, fieldClass))
      && (out.cut.None? ==> out == AccessOutcome(0, [], None))
      && (out.cut.Some? ==>
            && out.replaced == 1 && out.edits == []
            && exists j0: nat :: j0 < |events| && AccessMatches(events[j0], field, fieldClass)
                 && out.cut.value == events[j0].offset
                 && forall j: nat :: j < j0 ==> !AccessMatches(events[j], field, fieldClass))
  {
    var all := MatchedAccesses(events, |events|, field, fieldClass);
    MatchedAccessesMembers(events, |events|, field, fieldClass);
    if |all| > 0 {
      var j0 := all[0];
      assert j0 in all;
      MatchedAccessesPrefix(events, j0, |events|, field, fieldClass);
      MatchedAccessesMembers(events, j0, field, fieldClass);
      var before := MatchedAccesses(events, j0, field, fieldClass);
    }
  }

  /** Without `removeAfter` every matching access is counted and those whose kind has code are rewritten with it. */
  lemma {:induction false} EveryMatchingAccess(events: seq<Event>, field: string, fieldClass: Option<string>,
                            readCode: Option<string>, writeCode: Option<string>)
    ensures var out := AccessSpec(events, field, fieldClass, readCode, writeCode, false);
      && out.cut.None?
      && out.replaced == |MatchedAccesses(events, |events|, field, fieldClass)|
      && forall ed :: ed in out.edits <==>
           (ed.event < |events| && AccessMatches(events[ed.event], field, fieldClass)
            && AccessCode(events[ed.event], readCode, writeCode) == Some(ed.code))
  {
    var all := MatchedAccesses(events, |events|, field, fieldClass);
    MatchedAccessesMembers(events, |events|, field, fieldClass);
    AccessEditsMembers(events, all, readCode, writeCode);
  }
}
