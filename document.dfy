/**
 * The patch document as the patcher sees it after parsing, and the pass that
 * prepares a patch group before its class patches are built
 * (`obfuscateAttributesAndTextContent` in `Patcher.java`): every attribute
 * and every leaf text goes through the mapping's `obfuscate`, and an element
 * whose `id` lists several classes separated by two spaces is replaced by
 * one copy per class.
 */
module Document {
  import opened Text

  /**
   * An element: tag name, attributes, its own text and its element children.
   * Only element children are kept, as `DomUtil.children` returns them.
   */
  datatype Element = Element(tag: string, attrs: map<string, string>, text: string, children: seq<Element>)

  /** `getAttribute(key)`: the value, or the empty string when absent. */
  function Attribute(e: Element, key: string): string {
    if key in e.attrs then e.attrs[key] else ""
  }

  /** `getTextContent()`: the element's own text followed by that of its descendants. */
  function TextContent(e: Element): string
    decreases e, 1
  {
    e.text + ChildrenText(e.children)
  }

  function ChildrenText(cs: seq<Element>): string
    decreases cs, 0
  {
    if |cs| == 0 then "" else TextContent(cs[0]) + ChildrenText(cs[1..])
  }

  /** The separator of a multi-class `id`: two spaces. */
  const IdSeparator := "  "

  /** `idSplitter.split(id)`: the `id` split on two spaces, trimmed, empty pieces left out. */
  function IdTokens(e: Element): seq<string> {
    Tokens(Attribute(e, "id"), IdSeparator)
  }

  /** Every attribute value passed through `obfuscate`, the keys kept. */
  function ObfuscateAttrs(attrs: map<string, string>, obfuscate: string -> string): (r: map<string, string>)
    ensures r.Keys == attrs.Keys
    ensures forall k :: k in attrs ==> r[k] == obfuscate(attrs[k])
  {
    map k | k in attrs :: obfuscate(attrs[k])
  }

  /**
   * The first loop's work on one child: a child with children is processed
   * recursively, otherwise its text is obfuscated when non-empty; then its
   * attributes are obfuscated.
   */
  function ObfuscateChild(c: Element, obfuscate: string -> string): Element
    decreases c, 1
  {
    var inner :=
      if |c.children| > 0 then Obfuscate(c, obfuscate)
      else if |c.text| > 0 then c.(text := obfuscate(c.text))
      else c;
    inner.(attrs := ObfuscateAttrs(inner.attrs, obfuscate))
  }

  /**
   * `obfuscateAttributesAndTextContent(root)`: the children obfuscated, then
   * the multi-class ones expanded.  The root's own attributes and text are
   * left as they are.
   */
  function Obfuscate(root: Element, obfuscate: string -> string): Element
    decreases root, 0
  {
    root.(children := Expand(ObfuscateChildren(root.children, obfuscate)))
  }

  function ObfuscateChildren(cs: seq<Element>, obfuscate: string -> string): (r: seq<Element>)
    ensures |r| == |cs|
    decreases cs, 2
  {
    if |cs| == 0 then [] else [ObfuscateChild(cs[0], obfuscate)] + ObfuscateChildren(cs[1..], obfuscate)
  }

  /** One clone per token, the `id` set to the (Java-)trimmed token; a single-class child stays. */
  function ExpandOne(c: Element): (r: seq<Element>)
    ensures |IdTokens(c)| <= 1 ==> r == [c]
    ensures |IdTokens(c)| > 1 ==> |r| == |IdTokens(c)|
  {
    var ts := IdTokens(c);
    if |ts| > 1 then seq(|ts|, i requires 0 <= i < |ts| => c.(attrs := c.attrs["id" := Trim(JavaTrim, ts[i])]))
    else [c]
  }

  /** The second loop over the children. */
  function Expand(cs: seq<Element>): seq<Element> {
    if |cs| == 0 then [] else ExpandOne(cs[0]) + Expand(cs[1..])
  }

  // ---------------------------------------------------------------------------
  // The pass, written as the two loops of the source

  /** `obfuscateAttributesAndTextContent`, loop by loop. */
  method ObfuscateTree(root: Element, obfuscate: string -> string) returns (r: Element)
    ensures r == Obfuscate(root, obfuscate)
    decreases root, 0
  {
    var children := root.children;
    var i := 0;
    while i < |children|
      invariant 0 <= i <= |children| == |root.children|
      invariant children[..i] == ObfuscateChildren(root.children[..i], obfuscate)
      invariant children[i..] == root.children[i..]
    {
      var c := children[i];
      assert c == root.children[i];
      var d := ObfuscateOne(c, obfuscate);
      ObfuscatePrefixStep(root.children, i, obfuscate);
      children := children[i := d];
      i := i + 1;
    }
    assert root.children[..|root.children|] == root.children;
    assert children == ObfuscateChildren(root.children, obfuscate);
    var expanded := ExpandChildren(children);
    r := Element(root.tag, root.attrs, root.text, expanded);
  }

  /** The first loop's body for one child. */
  method ObfuscateOne(c: Element, obfuscate: string -> string) returns (d: Element)
    ensures d == ObfuscateChild(c, obfuscate)
    decreases c, 1
  {
    d := c;
    if |c.children| > 0 {
      d := ObfuscateTree(c, obfuscate);
    } else if |c.text| > 0 {
      d := c.(text := obfuscate(c.text));
    }
    d := d.(attrs := ObfuscateAttrs(d.attrs, obfuscate));
  }

  /** The second loop: each multi-class child replaced, in place, by its clones. */
  method ExpandChildren(children: seq<Element>) returns (expanded: seq<Element>)
    ensures expanded == Expand(children)
  {
    expanded := [];
    var i := 0;
    while i < |children|
      invariant 0 <= i <= |children|
      invariant expanded == Expand(children[..i])
    {
      var copies := CloneChild(children[i]);
      ExpandPrefixStep(children, i);
      expanded := expanded + copies;
      i := i + 1;
    }
    assert children[..|children|] == children;
  }

  /** The second loop's body: the clones inserted before a multi-class child, or the child kept. */
  method CloneChild(c: Element) returns (copies: seq<Element>)
    ensures copies == ExpandOne(c)
  {
    var ids := Tokens(Attribute(c, "id"), IdSeparator);
    if |ids| <= 1 {
      return [c];
    }
    copies := [];
    var j := 0;
    while j < |ids|
      invariant 0 <= j <= |ids| == |ExpandOne(c)|
      invariant copies == ExpandOne(c)[..j]
    {
      copies := copies + [c.(attrs := c.attrs["id" := Trim(JavaTrim, ids[j])])];
      assert ExpandOne(c)[..j + 1] == ExpandOne(c)[..j] + [ExpandOne(c)[j]];
      j := j + 1;
    }
  }

  lemma {:induction false} ObfuscatePrefixStep(cs: seq<Element>, i: nat, obfuscate: string -> string)
    requires i < |cs|
    ensures ObfuscateChildren(cs[..i + 1], obfuscate) == ObfuscateChildren(cs[..i], obfuscate) + [ObfuscateChild(cs[i], obfuscate)]
  {
    assert cs[..i + 1] == cs[..i] + [cs[i]];
    ObfuscateChildrenSnoc(cs[..i], cs[i], obfuscate);
  }

  lemma {:induction false} ObfuscateChildrenSnoc(cs: seq<Element>, c: Element, obfuscate: string -> string)
    ensures ObfuscateChildren(cs + [c], obfuscate) == ObfuscateChildren(cs, obfuscate) + [ObfuscateChild(c, obfuscate)]
  {
    if |cs| > 0 {
      assert (cs + [c])[1..] == cs[1..] + [c];
      ObfuscateChildrenSnoc(cs[1..], c, obfuscate);
    }
  }

  lemma {:induction false} ExpandPrefixStep(cs: seq<Element>, i: nat)
    requires i < |cs|
    ensures Expand(cs[..i + 1]) == Expand(cs[..i]) + ExpandOne(cs[i])
  {
    assert cs[..i + 1] == cs[..i] + [cs[i]];
    ExpandSnoc(cs[..i], cs[i]);
  }

  lemma {:induction false} ExpandSnoc(cs: seq<Element>, c: Element)
    ensures Expand(cs + [c]) == Expand(cs) + ExpandOne(c)
  {
    if |cs| == 0 {
      assert Expand([c]) == ExpandOne(c) + Expand([]);
    } else {
      assert (cs + [c])[1..] == cs[1..] + [c];
      ExpandSnoc(cs[1..], c);
    }
  }

  // ---------------------------------------------------------------------------
  // Properties of the id expansion

  /**
   * A multi-class child becomes, in token order, copies that differ from it
   * only in their `id`, each of which names one class.
   */
  lemma {:induction false} ExpandOneClones(c: Element, i: nat)
    requires |IdTokens(c)| > 1 && i < |IdTokens(c)|
    ensures var d := ExpandOne(c)[i];
      d.tag == c.tag && d.text == c.text && d.children == c.children
      && d.attrs.Keys == c.attrs.Keys + {"id"}
      && (forall k :: k in c.attrs && k != "id" ==> d.attrs[k] == c.attrs[k])
      && Attribute(d, "id") == Trim(JavaTrim, IdTokens(c)[i])
      && |IdTokens(d)| <= 1
  {
    var t := IdTokens(c)[i];
    var d := ExpandOne(c)[i];
    assert d == c.(attrs := c.attrs["id" := Trim(JavaTrim, t)]);
    assert SepFree(t, IdSeparator) by {
      TokensProps(Attribute(c, "id"), IdSeparator);
    }
    TrimmedTokenSingle(t);
  }

  /** A token trimmed again still names one class at most. */
  lemma {:induction false} TrimmedTokenSingle(t: string)
    requires SepFree(t, IdSeparator)
    ensures |Tokens(Trim(JavaTrim, t), IdSeparator)| <= 1
  {
    var lo, hi :| 0 <= lo <= hi <= |t| && Trim(JavaTrim, t) == t[lo..hi]
      && (forall j :: 0 <= j < lo ==> Trimmable(JavaTrim, t[j]))
      && (forall j :: hi <= j < |t| ==> Trimmable(JavaTrim, t[j]));
    SepFreeSlice(t, IdSeparator, lo, hi);
    TokensOfToken(Trim(JavaTrim, t), IdSeparator);
  }

  /** Children naming at most one class each are left exactly as they are. */
  lemma {:induction false} ExpandSingles(cs: seq<Element>)
    requires forall k :: 0 <= k < |cs| ==> |IdTokens(cs[k])| <= 1
    ensures Expand(cs) == cs
  {
    if |cs| > 0 {
      ExpandSingles(cs[1..]);
    }
  }

  /** The expansion is final: expanding its result again changes nothing. */
  lemma {:induction false} ExpandIdempotent(cs: seq<Element>)
    ensures Expand(Expand(cs)) == Expand(cs)
  {
    if |cs| > 0 {
      var head := ExpandOne(cs[0]);
      forall k | 0 <= k < |head| ensures |IdTokens(head[k])| <= 1 {
        if |IdTokens(cs[0])| > 1 {
          ExpandOneClones(cs[0], k);
        }
      }
      ExpandSingles(head);
      ExpandAppend(head, Expand(cs[1..]));
      ExpandIdempotent(cs[1..]);
    }
  }

  lemma {:induction false} ExpandAppend(a: seq<Element>, b: seq<Element>)
    ensures Expand(a + b) == Expand(a) + Expand(b)
  {
    if |a| > 0 {
      assert (a + b)[1..] == a[1..] + b;
      ExpandAppend(a[1..], b);
    } else {
      assert a + b == b;
    }
  }

  /** Expansion never drops a child: one or more elements come out per child. */
  lemma {:induction false} ExpandLength(cs: seq<Element>)
    ensures |Expand(cs)| >= |cs|
    ensures |Expand(cs)| == |cs| <==> forall k :: 0 <= k < |cs| ==> |IdTokens(cs[k])| <= 1
  {
    if |cs| > 0 {
      ExpandLength(cs[1..]);
      if |IdTokens(cs[0])| <= 1 {
        forall k | 1 <= k < |cs| ensures cs[k] == cs[1..][k - 1] { }
      }
    }
  }

  // ---------------------------------------------------------------------------
  // The pass under the identity mapping

  /** No element below `e` names more than one class. */
  predicate SingleIds(e: Element)
    decreases e, 1
  {
    forall k :: 0 <= k < |e.children| ==> |IdTokens(e.children[k])| <= 1 && SingleIds(e.children[k])
  }

  /**
   * With `DefaultMappings`, whose `obfuscate` returns its argument, the pass
   * leaves a document without multi-class ids unchanged.
   */
  lemma {:induction false} ObfuscateIdentity(root: Element, obfuscate: string -> string)
    requires forall s :: obfuscate(s) == s
    requires SingleIds(root)
    ensures Obfuscate(root, obfuscate) == root
    decreases root, 0
  {
    ObfuscateChildrenIdentity(root.children, obfuscate);
    ExpandSingles(root.children);
  }

  lemma {:induction false} ObfuscateChildrenIdentity(cs: seq<Element>, obfuscate: string -> string)
    requires forall s :: obfuscate(s) == s
    requires forall k :: 0 <= k < |cs| ==> SingleIds(cs[k])
    ensures ObfuscateChildren(cs, obfuscate) == cs
    decreases cs, 1
  {
    if |cs| > 0 {
      var c := cs[0];
      var inner :=
        if |c.children| > 0 then Obfuscate(c, obfuscate)
        else if |c.text| > 0 then c.(text := obfuscate(c.text))
        else c;
      if |c.children| > 0 {
        ObfuscateIdentity(c, obfuscate);
      }
      assert inner == c;
      assert ObfuscateAttrs(c.attrs, obfuscate) == c.attrs;
      ObfuscateChildrenIdentity(cs[1..], obfuscate);
    }
  }
}
