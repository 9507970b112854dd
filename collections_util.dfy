/**
 * `CollectionsUtil`: rendering a map as text and building a map from a flat
 * key/value list.  A Java `HashMap` has no defined iteration order, so
 * `mapToString` takes its entries in the order they are iterated, as a
 * sequence; `null` elements of `listToMap`'s argument are `None`.
 */
module CollectionsUtil {
  import opened Wrappers
  import opened Text

  /** One entry rendered as `key:value`. */
  function EntryText(entry: (string, string)): string {
    entry.0 + ":" + entry.1
  }

  function EntryTexts(entries: seq<(string, string)>): (r: seq<string>)
    ensures |r| == |entries| && forall k :: 0 <= k < |entries| ==> r[k] == EntryText(entries[k])
  {
    seq(|entries|, k requires 0 <= k < |entries| => EntryText(entries[k]))
  }

  /**
   * `mapToString`: the empty map gives the empty string; otherwise the
   * entries, in iteration order, as `key:value` joined by single commas.
   */
  method MapToString(entries: seq<(string, string)>) returns (r: string)
    ensures r == Join(EntryTexts(entries), ",")
    ensures r == "" <==> |entries| == 0
  {
    if |entries| == 0 {
      return "";
    }
    r := "";
    var notFirst := false;
    var i := 0;
    while i < |entries|
      invariant 0 <= i <= |entries|
      invariant notFirst <==> i > 0
      invariant i > 0 ==> r == Join(EntryTexts(entries[..i]), ",")
      invariant i == 0 ==> r == ""
      invariant i > 0 ==> |r| > 0
    {
      if notFirst {
        r := r + ",";
      }
      r := r + EntryText(entries[i]);
      notFirst := true;
      JoinSnoc(EntryTexts(entries[..i]), EntryText(entries[i]), ",");
      assert EntryTexts(entries[..i + 1]) == EntryTexts(entries[..i]) + [EntryText(entries[i])];
      i := i + 1;
    }
    assert entries[..i] == entries;
  }

  lemma {:induction false} JoinSnoc(parts: seq<string>, last: string, sep: string)
    ensures Join(parts + [last], sep) == if |parts| == 0 then last else Join(parts, sep) + sep + last
  {
    if |parts| > 1 {
      assert (parts + [last])[1..] == parts[1..] + [last];
      JoinSnoc(parts[1..], last, sep);
    } else if |parts| == 1 {
      assert (parts + [last])[1..] == [last];
    }
  }

  /**
   * When no key or value contains a comma, the rendering splits back on
   * commas into exactly one `key:value` piece per entry: the entries are
   * separated by single commas, with none leading or trailing.
   */
  lemma {:induction false} MapToStringSplits(entries: seq<(string, string)>)
    requires |entries| > 0
    requires forall k :: 0 <= k < |entries| ==> ',' !in entries[k].0 && ',' !in entries[k].1
    ensures Split(Join(EntryTexts(entries), ","), ",") == EntryTexts(entries)
  {
    var parts := EntryTexts(entries);
    forall k | 0 <= k < |parts| ensures ',' !in parts[k] {
      assert parts[k] == entries[k].0 + ":" + entries[k].1;
    }
    SplitJoinChar(parts, ',');
  }

  // ---------------------------------------------------------------------------
  // listToMap

  /** What `listToMap`'s loop holds after some prefix: the pending key (or none) and the map so far. */
  datatype PairingState<T> = PairingState(key: Option<T>, pairs: map<T, Option<T>>)

  function PairUp<T>(objects: seq<Option<T>>): PairingState<T>
  {
    if |objects| == 0 then PairingState(None, map[])
    else
      var st := PairUp(objects[..|objects| - 1]);
      var x := objects[|objects| - 1];
      if st.key.None? then PairingState(x, st.pairs)
      else PairingState(None, st.pairs[st.key.value := x])
  }

  /**
   * `listToMap`: consecutive objects are paired as key then value; a `null`
   * in key position is skipped, a trailing key without a value is dropped,
   * and a later duplicate key overwrites the earlier value.
   */
  method ListToMap<T>(objects: seq<Option<T>>) returns (m: map<T, Option<T>>)
    ensures m == PairUp(objects).pairs
  {
    m := map[];
    var key: Option<T> := None;
    var i := 0;
    while i < |objects|
      invariant 0 <= i <= |objects|
      invariant PairUp(objects[..i]) == PairingState(key, m)
    {
      var x := objects[i];
      assert objects[..i + 1][..i] == objects[..i];
      if key.None? {
        key := x;
      } else {
        m := m[key.value := x];
        key := None;
      }
      i := i + 1;
    }
    assert objects[..i] == objects;
  }

  /** Flattening key/value pairs into the argument list of `listToMap`. */
  function Flatten<T>(pairs: seq<(T, Option<T>)>): (r: seq<Option<T>>)
    ensures |r| == 2 * |pairs|
  {
    if |pairs| == 0 then [] else Flatten(pairs[..|pairs| - 1]) + [Some(pairs[|pairs| - 1].0), pairs[|pairs| - 1].1]
  }

  /** Putting the pairs into a map in order, later keys overwriting earlier ones. */
  function PutAll<T>(pairs: seq<(T, Option<T>)>): map<T, Option<T>> {
    if |pairs| == 0 then map[] else PutAll(pairs[..|pairs| - 1])[pairs[|pairs| - 1].0 := pairs[|pairs| - 1].1]
  }

  /** A list of key/value pairs becomes the map that puts them in order, and no key is left pending. */
  lemma {:induction false} PairUpFlatten<T>(pairs: seq<(T, Option<T>)>)
    ensures PairUp(Flatten(pairs)) == PairingState(None, PutAll(pairs))
  {
    if |pairs| > 0 {
      var init := pairs[..|pairs| - 1];
      var (k, v) := pairs[|pairs| - 1];
      PairUpFlatten(init);
      var f := Flatten(pairs);
      assert f == Flatten(init) + [Some(k), v];
      assert f[..|f| - 1] == Flatten(init) + [Some(k)];
      assert (Flatten(init) + [Some(k)])[..|Flatten(init)|] == Flatten(init);
    }
  }

  /** Once no key is pending, a `null` in key position is passed over and the next object becomes the key. */
  lemma {:induction false} PairUpSkipsNullKey<T>(objects: seq<Option<T>>)
    requires PairUp(objects).key.None?
    ensures PairUp(objects + [None]) == PairUp(objects)
  {
    assert (objects + [None])[..|objects|] == objects;
  }

  /** An unpaired trailing key adds nothing to the map. */
  lemma {:induction false} PairUpTrailingKeyIgnored<T>(objects: seq<Option<T>>, x: T)
    requires PairUp(objects).key.None?
    ensures PairUp(objects + [Some(x)]).pairs == PairUp(objects).pairs
  {
    assert (objects + [Some(x)])[..|objects|] == objects;
  }

  /** A later pair with a key already present replaces its value. */
  lemma {:induction false} PairUpLaterKeyOverwrites<T>(objects: seq<Option<T>>, k: T, v: Option<T>)
    requires PairUp(objects).key.None?
    ensures PairUp(objects + [Some(k), v]) == PairingState(None, PairUp(objects).pairs[k := v])
  {
    var xs := objects + [Some(k), v];
    assert xs[..|xs| - 1] == objects + [Some(k)];
    assert (objects + [Some(k)])[..|objects|] == objects;
  }
}
