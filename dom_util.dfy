/**
 * `DomUtil`: the text conversions behind patch documents -- the XML and JSON
 * string escapers, the JSON-to-XML converter, the triple-quote pre-pass of
 * `makePatchXmlFromJson`, and `elementList`.  A parsed JSON document is the
 * `Json` datatype below; org.json's parser and its rendering of arrays and
 * objects back to text are parameters.
 */
module DomUtil {
  import opened Wrappers
  import opened Text

  // ---------------------------------------------------------------------------
  // escapeStringForXml: the predefined entities of section 4.6 of XML 1.0

  function XmlEscapeChar(c: char): string {
    match c
    case '&' => "&amp;"
    case '<' => "&lt;"
    case '>' => "&gt;"
    case '"' => "&quot;"
    case '\'' => "&apos;"
    case _ => [c]
  }

  /** The escaped text; it never contains a raw `<`, `>`, `"` or `'`. */
  function XmlEscaped(s: string): (r: string)
  {
    if |s| == 0 then "" else XmlEscapeChar(s[0]) + XmlEscaped(s[1..])
  }

  lemma {:induction false} XmlEscapedAppend(a: string, b: string)
    ensures XmlEscaped(a + b) == XmlEscaped(a) + XmlEscaped(b)
  {
    if |a| > 0 {
      assert (a + b)[0] == a[0] && (a + b)[1..] == a[1..] + b;
      XmlEscapedAppend(a[1..], b);
    } else {
      assert a + b == b;
    }
  }

  /** The escaped text never contains a raw `<`, `>`, `"` or `'`. */
  lemma {:induction false} XmlEscapedNoMarkup(s: string)
    ensures '<' !in XmlEscaped(s) && '>' !in XmlEscaped(s) && '"' !in XmlEscaped(s) && '\'' !in XmlEscaped(s)
  {
    if |s| > 0 {
      XmlEscapedNoMarkup(s[1..]);
      var e := XmlEscapeChar(s[0]);
      assert '<' !in e && '>' !in e && '"' !in e && '\'' !in e;
      assert XmlEscaped(s) == e + XmlEscaped(s[1..]);
    }
  }

  /** `escapeStringForXml`: one pass over the characters, appending each one's escape. */
  method EscapeStringForXml(s: string) returns (r: string)
    ensures r == XmlEscaped(s)
  {
    r := "";
    var i := 0;
    while i < |s|
      invariant 0 <= i <= |s|
      invariant r == XmlEscaped(s[..i])
    {
      var c := s[i];
      var e: string;
      if c == '&' {
        e := "&amp;";
      } else if c == '<' {
        e := "&lt;";
      } else if c == '>' {
        e := "&gt;";
      } else if c == '"' {
        e := "&quot;";
      } else if c == '\'' {
        e := "&apos;";
      } else {
        e := [c];
      }
      assert e == XmlEscapeChar(c);
      r := r + e;
      XmlEscapedSnoc(s, i);
      i := i + 1;
    }
    assert s[..i] == s;
  }

  lemma {:induction false} XmlEscapedSnoc(s: string, i: nat)
    requires i < |s|
    ensures XmlEscaped(s[..i + 1]) == XmlEscaped(s[..i]) + XmlEscapeChar(s[i])
  {
    XmlEscapedAppend(s[..i], [s[i]]);
    assert s[..i + 1] == s[..i] + [s[i]];
    assert XmlEscaped([s[i]]) == XmlEscapeChar(s[i]) + XmlEscaped([]);
  }

  predicate XmlSpecial(c: char) {
    c == '&' || c == '<' || c == '>' || c == '"' || c == '\''
  }

  /** Text containing none of the five special characters is left as it is. */
  lemma {:induction false} XmlEscapedIdentity(s: string)
    requires forall k :: 0 <= k < |s| ==> !XmlSpecial(s[k])
    ensures XmlEscaped(s) == s
  {
    if |s| > 0 {
      XmlEscapedIdentity(s[1..]);
      assert s == [s[0]] + s[1..];
    }
  }

  /** Decoding of the five predefined entities, the inverse of the escaper. */
  function XmlUnescape(s: string): string
    decreases |s|
  {
    if |s| == 0 then ""
    else if "&amp;" <= s then "&" + XmlUnescape(s[5..])
    else if "&lt;" <= s then "<" + XmlUnescape(s[4..])
    else if "&gt;" <= s then ">" + XmlUnescape(s[4..])
    else if "&quot;" <= s then "\"" + XmlUnescape(s[6..])
    else if "&apos;" <= s then "'" + XmlUnescape(s[6..])
    else [s[0]] + XmlUnescape(s[1..])
  }

  lemma {:induction false} XmlUnescapeChar(c: char, rest: string)
    ensures XmlUnescape(XmlEscapeChar(c) + rest) == [c] + XmlUnescape(rest)
  {
    var t := XmlEscapeChar(c) + rest;
    if c == '&' {
      assert "&amp;" <= t && t[5..] == rest;
    } else if c == '<' {
      assert t[1] == 'l';
      assert !("&amp;" <= t) && "&lt;" <= t && t[4..] == rest;
    } else if c == '>' {
      assert t[1] == 'g';
      assert !("&amp;" <= t) && !("&lt;" <= t) && "&gt;" <= t && t[4..] == rest;
    } else if c == '"' {
      assert t[1] == 'q';
      assert !("&amp;" <= t) && !("&lt;" <= t) && !("&gt;" <= t) && "&quot;" <= t && t[6..] == rest;
    } else if c == '\'' {
      assert t[1] == 'a' && t[2] == 'p';
      assert !("&amp;" <= t) && !("&lt;" <= t) && !("&gt;" <= t) && !("&quot;" <= t) && "&apos;" <= t && t[6..] == rest;
    } else {
      assert t[0] == c && t[1..] == rest;
      assert !("&amp;" <= t) && !("&lt;" <= t) && !("&gt;" <= t) && !("&quot;" <= t) && !("&apos;" <= t);
    }
  }

  lemma XmlUnescapeEscapedCons(a: string, b: string)
    requires |a| > 0
    ensures XmlUnescape(XmlEscaped(a) + b) == [a[0]] + XmlUnescape(XmlEscaped(a[1..]) + b)
  {
    var rest := XmlEscaped(a[1..]) + b;
    assert XmlEscaped(a) + b == XmlEscapeChar(a[0]) + rest;
    XmlUnescapeChar(a[0], rest);
  }

  /** Unescaping escaped text followed by anything gives the original text, followed by the rest unescaped. */
  lemma {:induction false} XmlUnescapeAppend(a: string, b: string)
    ensures XmlUnescape(XmlEscaped(a) + b) == a + XmlUnescape(b)
  {
    if |a| > 0 {
      XmlUnescapeEscapedCons(a, b);
      XmlUnescapeAppend(a[1..], b);
      assert a == [a[0]] + a[1..];
    } else {
      assert XmlEscaped(a) + b == b;
    }
  }

  /** Unescaping the escaped text gives the original back. */
  lemma {:induction false} XmlRoundTrip(s: string)
    ensures XmlUnescape(XmlEscaped(s)) == s
  {
    XmlUnescapeAppend(s, "");
    assert XmlEscaped(s) + "" == XmlEscaped(s);
  }

  // ---------------------------------------------------------------------------
  // escapeStringForJson: string literals as in section 7 of RFC 8259

  const Backspace: char := '\U{8}'
  const FormFeed: char := '\U{C}'

  /** A lower-case hexadecimal digit. */
  function HexDigit(n: nat): (c: char)
    requires n < 16
    ensures HexValue(c) == Some(n)
  {
    if n < 10 then ('0' as int + n) as char else ('a' as int + n - 10) as char
  }

  function HexValue(c: char): (r: Option<nat>)
    ensures r.Some? ==> r.value < 16
  {
    if '0' <= c <= '9' then Some(c as int - '0' as int)
    else if 'a' <= c <= 'f' then Some(c as int - 'a' as int + 10)
    else if 'A' <= c <= 'F' then Some(c as int - 'A' as int + 10)
    else None
  }

  /** `Integer.toHexString` of a non-negative value: lower case, no leading zeros. */
  function HexString(n: nat): (r: string)
    ensures 1 <= |r|
    decreases n
  {
    if n < 16 then [HexDigit(n)] else HexString(n / 16) + [HexDigit(n % 16)]
  }

  /** The `\u` escape of a control character: `"000" + toHexString(c)`, last four characters. */
  function ControlEscape(c: char): string {
    var t := "000" + HexString(c as int);
    "\\u" + t[|t| - 4..]
  }

  /** The `\u` escape of a character below 0x20 carries exactly four hex digits, the first two zero. */
  lemma {:induction false} ControlEscapeDigits(c: char)
    requires c < ' '
    ensures ControlEscape(c) == "\\u00" + [HexDigit(c as int / 16), HexDigit(c as int % 16)]
  {
    var n := c as int;
    var lo := HexDigit(n % 16);
    var t := "000" + HexString(n);
    if n < 16 {
      assert n / 16 == 0 && n % 16 == n;
      assert HexString(n) == [lo];
      assert t == ['0', '0', '0', lo];
      assert t[|t| - 4..] == t;
    } else {
      assert n / 16 == 1;
      assert HexString(1) == ['1'];
      assert HexString(n) == ['1', lo];
      assert t == ['0', '0', '0', '1', lo];
      assert t[|t| - 4..] == ['0', '0', '1', lo];
    }
    assert HexDigit(0) == '0' && HexDigit(1) == '1';
  }

  /** One character's escape. */
  function JsonEscapeChar(c: char): string
  {
    if c == '\\' || c == '"' || c == '/' then ['\\', c]
    else if c == Backspace then "\\b"
    else if c == '\t' then "\\t"
    else if c == '\n' then "\\n"
    else if c == FormFeed then "\\f"
    else if c == '\r' then "\\r"
    else if c < ' ' then ControlEscape(c)
    else [c]
  }

  /** The text between the quotes. */
  function JsonBody(s: string): string
  {
    if |s| == 0 then ""
    else
JsonEscapeChar(s[0]) + JsonBody(s[1..])
  }

  /** No escape contains a raw control character. */
  lemma {:induction false} JsonEscapeCharNoControl(c: char)
    ensures forall k :: 0 <= k < |JsonEscapeChar(c)| ==> JsonEscapeChar(c)[k] >= ' '
  {
    if c < ' ' && c != Backspace && c != '\t' && c != '\n' && c != FormFeed && c != '\r' {
      ControlEscapeDigits(c);
    }
  }

  /** The escaped body holds no raw control character. */
  lemma {:induction false} JsonBodyNoControl(s: string)
    ensures forall k :: 0 <= k < |JsonBody(s)| ==> JsonBody(s)[k] >= ' '
  {
    if |s| > 0 {
      JsonEscapeCharNoControl(s[0]);
      JsonBodyNoControl(s[1..]);
      var e, rest := JsonEscapeChar(s[0]), JsonBody(s[1..]);
      assert JsonBody(s) == e + rest;
      forall k | 0 <= k < |e + rest| ensures (e + rest)[k] >= ' ' {
        if k >= |e| { assert (e + rest)[k] == rest[k - |e|]; }
      }
    }
  }

  /** `escapeStringForJson`: `null` and the empty string both give `""`. */
  function JsonEscaped(s: Option<string>): string {
    if s.None? || |s.value| == 0 then "\"\"" else "\"" + JsonBody(s.value) + "\""
  }

  lemma {:induction false} JsonBodyAppend(a: string, b: string)
    ensures JsonBody(a + b) == JsonBody(a) + JsonBody(b)
  {
    if |a| > 0 {
      assert (a + b)[0] == a[0] && (a + b)[1..] == a[1..] + b;
      JsonBodyAppend(a[1..], b);
    } else {
      assert a + b == b;
    }
  }

  lemma {:induction false} JsonBodySnoc(s: string, i: nat)
    requires i < |s|
    ensures JsonBody(s[..i + 1]) == JsonBody(s[..i]) + JsonEscapeChar(s[i])
  {
    JsonBodyAppend(s[..i], [s[i]]);
    assert s[..i + 1] == s[..i] + [s[i]];
    assert JsonBody([s[i]]) == JsonEscapeChar(s[i]) + JsonBody([]);
  }

  lemma {:induction false} AppendAssoc(a: string, b: string, c: string)
    ensures (a + b) + c == a + (b + c)
  {
  }

  /** `escapeStringForJson`: the switch over each character, appending its escape. */
  method EscapeStringForJson(s: Option<string>) returns (r: string)
    ensures r == JsonEscaped(s)
  {
    if s.None? || |s.value| == 0 {
      return "\"\"";
    }
    var str := s.value;
    r := "\"";
    ghost var body := "";
    var i := 0;
    while i < |str|
      invariant 0 <= i <= |str|
      invariant body == JsonBody(str[..i])
      invariant r == "\"" + body
    {
      var c := str[i];
      var e: string;
      if c == '\\' || c == '"' || c == '/' {
        e := ['\\', c];
      } else if c == Backspace {
        e := "\\b";
      } else if c == '\t' {
        e := "\\t";
      } else if c == '\n' {
        e := "\\n";
      } else if c == FormFeed {
        e := "\\f";
      } else if c == '\r' {
        e := "\\r";
      } else if c < ' ' {
        var t := "000" + HexString(c as int);
        e := "\\u" + t[|t| - 4..];
      } else {
        e := [c];
      }
      assert e == JsonEscapeChar(c);
      JsonBodySnoc(str, i);
      AppendAssoc("\"", body, e);
      r := r + e;
      body := body + e;
      i := i + 1;
    }
    assert str[..i] == str;
    r := r + "\"";
  }

  function Prepend(c: char, rest: Option<string>): Option<string> {
    match rest
    case Some(t) => Some([c] + t)
    case None => None
  }

  function Hex4(t: string): (r: Option<nat>)
    requires |t| == 4
    ensures r.Some? ==> r.value < 0x10000
  {
    match (HexValue(t[0]), HexValue(t[1]), HexValue(t[2]), HexValue(t[3]))
    case (Some(a), Some(b), Some(c), Some(d)) => Some(a * 4096 + b * 256 + c * 16 + d)
    case _ => None
  }

  /**
   * Decoding the characters between the quotes of a JSON string literal:
   * a raw quote or control character is rejected, and every escape of
   * RFC 8259 is decoded (a lone surrogate escape is rejected).
   */
  function JsonUnescape(s: string): Option<string>
    decreases |s|
  {
    if |s| == 0 then Some("")
    else if s[0] == '"' || s[0] < ' ' then None
    else if s[0] != '\\' then Prepend(s[0], JsonUnescape(s[1..]))
    else if |s| < 2 then None
    else
      var e := s[1];
      if e == '"' || e == '\\' || e == '/' then Prepend(e, JsonUnescape(s[2..]))
      else if e == 'b' then Prepend(Backspace, JsonUnescape(s[2..]))
      else if e == 't' then Prepend('\t', JsonUnescape(s[2..]))
      else if e == 'n' then Prepend('\n', JsonUnescape(s[2..]))
      else if e == 'f' then Prepend(FormFeed, JsonUnescape(s[2..]))
      else if e == 'r' then Prepend('\r', JsonUnescape(s[2..]))
      else if e == 'u' && |s| >= 6 then
        match Hex4(s[2..6])
        case Some(v) =>
          if v < 0xD800 || 0xE000 <= v then Prepend(v as char, JsonUnescape(s[6..])) else None
        case None => None
      else None
  }

  /** Reading a JSON string literal back: the quotes, then the decoded body. */
  function JsonUnquote(t: string): Option<string> {
    if |t| >= 2 && t[0] == '"' && t[|t| - 1] == '"' then JsonUnescape(t[1..|t| - 1]) else None
  }

  lemma {:induction false} JsonUnescapeChar(c: char, rest: string)
    ensures JsonUnescape(JsonEscapeChar(c) + rest) == Prepend(c, JsonUnescape(rest))
  {
    var e := JsonEscapeChar(c);
    var t := e + rest;
    assert t[..|e|] == e && t[|e|..] == rest;
    if c < ' ' && c != Backspace && c != '\t' && c != '\n' && c != FormFeed && c != '\r' {
      ControlEscapeDigits(c);
      var n := c as int;
      assert t[2..6] == ['0', '0', HexDigit(n / 16), HexDigit(n % 16)];
      assert Hex4(t[2..6]) == Some(n);
      assert (n as char) == c;
    } else if !(c == '\\' || c == '"' || c == '/') && c >= ' ' {
      assert t[0] == c && t[1..] == rest;
    } else {
      assert t[2..] == rest;
    }
  }

  /** Decoding the escaped body gives the original characters back. */
  lemma {:induction false} JsonBodyRoundTrip(s: string)
    ensures JsonUnescape(JsonBody(s)) == Some(s)
  {
    if |s| > 0 {
      JsonBodyRoundTrip(s[1..]);
      JsonUnescapeChar(s[0], JsonBody(s[1..]));
      assert s == [s[0]] + s[1..];
    }
  }

  /**
   * The escaper always yields a JSON string literal that reads back as its
   * input, `null` reading back as the empty string.
   */
  lemma {:induction false} JsonRoundTrip(s: Option<string>)
    ensures JsonUnquote(JsonEscaped(s)) == Some(s.GetOr(""))
  {
    var body := s.GetOr("");
    var t := "\"" + JsonBody(body) + "\"";
    assert t[1..|t| - 1] == JsonBody(body);
    JsonBodyRoundTrip(body);
    if s.None? || |s.value| == 0 {
      assert JsonBody(body) == "";
    }
  }

  // ---------------------------------------------------------------------------
  // toString: JSON to patch XML

  datatype Member = Member(key: string, value: Json)

  /** A JSON value; a scalar (string, number, boolean, null) is held as its `toString` text. */
  datatype Json =
    | JObject(members: seq<Member>)
    | JArray(items: seq<Json>)
    | JScalar(text: string)

  /** `value.toString()`: a scalar's text, or org.json's rendering of an array or object. */
  function Str(render: Json -> string, v: Json): string {
    if v.JScalar? then v.text else render(v)
  }

  /** The value of the attribute emitted for a non-object member: `true` for the empty string. */
  function AttributeValue(render: Json -> string, v: Json): string {
    if v == JScalar("") then "true" else XmlEscaped(Str(render, v))
  }

  function Attributes(render: Json -> string, members: seq<Member>): string {
    if |members| == 0 then ""
    else
      var m := members[0];
      (if m.value.JObject? then "" else " " + m.key + "=\"" + AttributeValue(render, m.value) + "\"")
      + Attributes(render, members[1..])
  }

  /** The text of a `target` member: an array's entries escaped and joined by newlines. */
  function TargetText(render: Json -> string, v: Json): string {
    if v.JArray? then JoinedEscaped(render, v.items) else XmlEscaped(Str(render, v))
  }

  function JoinedEscaped(render: Json -> string, items: seq<Json>): string {
    if |items| == 0 then ""
    else if |items| == 1 then XmlEscaped(Str(render, items[0]))
    else XmlEscaped(Str(render, items[0])) + "\n" + JoinedEscaped(render, items[1..])
  }

  /** `toString(object, tagName)`; `tag` is `None` for a `null` tag name. */
  function ToXml(render: Json -> string, j: Json, tag: Option<string>): string
    decreases j
  {
    match j
    case JObject(members) =>
      (if tag.Some? then "<" + tag.value + Attributes(render, members) + ">" else "")
      + MembersXml(render, members)
      + (if tag.Some? then "</" + tag.value + ">" else "")
    case JArray(items) => ItemsXml(render, items, tag.GetOr("array"))
    case JScalar(text) =>
      var s := XmlEscaped(text);
      if tag.None? then "\"" + s + "\""
      else if |s| == 0 then "<" + tag.value + "/>"
      else "<" + tag.value + ">" + s + "</" + tag.value + ">"
  }

  /** The children of an object, member by member. */
  function MembersXml(render: Json -> string, members: seq<Member>): string
    decreases members
  {
    if |members| == 0 then ""
    else MemberXml(render, members[0]) + MembersXml(render, members[1..])
  }

  function MemberXml(render: Json -> string, m: Member): string
    decreases m
  {
    if m.key == "target" then TargetText(render, m.value)
    else
      match m.value
      case JArray(items) => KeyedItemsXml(render, m.key, items)
      case JObject(_) => ToXml(render, m.value, Some(m.key))
      case JScalar(_) => ""
  }

  /** An array under key `k`: one `k` element per entry, a nested array wrapped in `<k>…</k>`. */
  function KeyedItemsXml(render: Json -> string, key: string, items: seq<Json>): string
    decreases items
  {
    if |items| == 0 then ""
    else
      (if items[0].JArray? then "<" + key + ">" + ToXml(render, items[0], None) + "</" + key + ">"
       else ToXml(render, items[0], Some(key)))
      + KeyedItemsXml(render, key, items[1..])
  }

  /** A top-level or nested array: each entry under the given tag. */
  function ItemsXml(render: Json -> string, items: seq<Json>, tag: string): string
    decreases items
  {
    if |items| == 0 then ""
    else ToXml(render, items[0], Some(tag)) + ItemsXml(render, items[1..], tag)
  }

  /**
   * Every attribute value stays inside its quotes and reads back as the
   * member's text, or as `true` for an empty string.
   */
  lemma {:induction false} AttributeValueDecodes(render: Json -> string, v: Json)
    ensures '"' !in AttributeValue(render, v) && '<' !in AttributeValue(render, v)
    ensures XmlUnescape(AttributeValue(render, v)) == if v == JScalar("") then "true" else Str(render, v)
  {
    if v == JScalar("") {
      assert XmlUnescape("true") == "true" by {
        assert XmlEscaped("true") == "true";
        XmlRoundTrip("true");
      }
    } else {
      XmlEscapedNoMarkup(Str(render, v));
      XmlRoundTrip(Str(render, v));
    }
  }

  /** A tagged object emits one attribute per member whose value is not an object, in member order. */
  lemma {:induction false} AttributesPerMember(render: Json -> string, members: seq<Member>)
    ensures Attributes(render, members) == ConcatAttributes(render, members)
  {
    if |members| > 0 {
      AttributesPerMember(render, members[1..]);
      ConcatAttributesCons(render, members);
    }
  }

  /** The attributes of the non-object members, built by filtering first. */
  function ConcatAttributes(render: Json -> string, members: seq<Member>): string {
    ConcatAll(AttributeTexts(render, NonObjectMembers(members)))
  }

  /** One ` key="value"` attribute per member. */
  function AttributeTexts(render: Json -> string, attrs: seq<Member>): (r: seq<string>)
    ensures |r| == |attrs|
  {
    if |attrs| == 0 then []
    else [" " + attrs[0].key + "=\"" + AttributeValue(render, attrs[0].value) + "\""] + AttributeTexts(render, attrs[1..])
  }

  function NonObjectMembers(members: seq<Member>): (r: seq<Member>)
    ensures forall k :: 0 <= k < |r| ==> r[k] in members && !r[k].value.JObject?
  {
    if |members| == 0 then []
    else (if members[0].value.JObject? then [] else [members[0]]) + NonObjectMembers(members[1..])
  }

  function ConcatAll(parts: seq<string>): string {
    if |parts| == 0 then "" else parts[0] + ConcatAll(parts[1..])
  }

  lemma {:induction false} ConcatAttributesCons(render: Json -> string, members: seq<Member>)
    requires |members| > 0
    ensures ConcatAttributes(render, members)
      == (if members[0].value.JObject? then "" else " " + members[0].key + "=\"" + AttributeValue(render, members[0].value) + "\"")
         + ConcatAttributes(render, members[1..])
  {
    var m := members[0];
    var rest := NonObjectMembers(members[1..]);
    if !m.value.JObject? {
      var attrs := [m] + rest;
      assert NonObjectMembers(members) == attrs;
      assert attrs[0] == m && attrs[1..] == rest;
      var texts := AttributeTexts(render, attrs);
      assert texts[1..] == AttributeTexts(render, rest);
    } else {
      assert NonObjectMembers(members) == rest;
    }
  }

  /** The text of a `target` array reads back as its entries' texts joined by newlines. */
  lemma {:induction false} TargetTextDecodes(render: Json -> string, items: seq<Json>)
    requires |items| > 0
    ensures XmlUnescape(JoinedEscaped(render, items)) == Join(Texts(render, items), "\n")
  {
    if |items| == 1 {
      XmlRoundTrip(Str(render, items[0]));
    } else {
      var head, tail := Str(render, items[0]), JoinedEscaped(render, items[1..]);
      TargetTextDecodes(render, items[1..]);
      JoinedEscapedCons(render, items);
      XmlUnescapeAppend(head, "\n" + tail);
      XmlUnescapeNewline(tail);
      TextsCons(render, items);
    }
  }

  lemma JoinedEscapedCons(render: Json -> string, items: seq<Json>)
    requires |items| > 1
    ensures JoinedEscaped(render, items) == XmlEscaped(Str(render, items[0])) + ("\n" + JoinedEscaped(render, items[1..]))
  {
  }

  lemma XmlUnescapeNewline(t: string)
    ensures XmlUnescape("\n" + t) == "\n" + XmlUnescape(t)
  {
    var u := "\n" + t;
    assert u[0] == '\n' && u[1..] == t;
  }

  lemma TextsCons(render: Json -> string, items: seq<Json>)
    requires |items| > 1
    ensures Join(Texts(render, items), "\n") == Str(render, items[0]) + "\n" + Join(Texts(render, items[1..]), "\n")
  {
    var texts := Texts(render, items);
    assert Texts(render, items[1..]) == texts[1..];
  }

  function Texts(render: Json -> string, items: seq<Json>): (r: seq<string>)
    ensures |r| == |items| && forall k :: 0 <= k < |items| ==> r[k] == Str(render, items[k])
  {
    seq(|items|, k requires 0 <= k < |items| => Str(render, items[k]))
  }

  /**
   * A tagged scalar is the self-closing `<tag/>` exactly when its text is
   * empty; otherwise it is `<tag>…</tag>` around text that reads back as the
   * scalar.  An untagged scalar is quoted.
   */
  lemma {:induction false} ScalarXml(render: Json -> string, text: string, tag: string)
    ensures ToXml(render, JScalar(text), Some(tag)) == "<" + tag + "/>" <==> text == ""
    ensures text != "" ==> exists e :: ToXml(render, JScalar(text), Some(tag)) == "<" + tag + ">" + e + "</" + tag + ">" && XmlUnescape(e) == text
    ensures ToXml(render, JScalar(text), None) == "\"" + XmlEscaped(text) + "\""
  {
    var e := XmlEscaped(text);
    XmlRoundTrip(text);
    if text != "" {
      assert |e| > 0;
      var x := "<" + tag + ">" + e + "</" + tag + ">";
      assert |x| > |"<" + tag + "/>"|;
    }
  }

  // ---------------------------------------------------------------------------
  // makePatchXmlFromJson

  /** The delimiter of a multi-line string in a JSON patch document. */
  const TripleQuote: string := "\"\"\""

  /** Three quotes start at `i`. */
  predicate TripleAt(s: string, i: nat) {
    i + 3 <= |s| && s[i] == '"' && s[i + 1] == '"' && s[i + 2] == '"'
  }

  /** The first `"""` at or after `from`. */
  function FindTriple(s: string, from: nat): (r: Option<nat>)
    decreases |s| - from
    ensures r.Some? ==> from <= r.value && r.value + 3 <= |s| && TripleAt(s, r.value)
  {
    if from + 3 > |s| then None
    else if TripleAt(s, from) then Some(from)
    else FindTriple(s, from + 1)
  }

  /**
   * The pre-pass from position `p` on, after the output `acc` so far: each
   * non-greedy `"""…"""` region (the delimiters included, newlines
   * allowed inside) becomes `literal` of its contents, and text outside the
   * regions is copied.
   */
  function Rewrite(s: string, p: nat, acc: string, literal: string -> string): string
    requires p <= |s|
    decreases |s| - p
  {
    var open := FindTriple(s, p);
    if open.None? then acc + s[p..]
    else
      var close := FindTriple(s, open.value + 3);
      if close.None? then acc + s[p..]
      else Rewrite(s, close.value + 3, acc + s[p..open.value] + literal(s[open.value + 3..close.value]), literal)
  }

  /** What a region becomes: the JSON string literal of its contents. */
  function Literal(x: string): string {
    JsonEscaped(Some(x))
  }

  /** The document after the pre-pass. */
  function PrePass(s: string): string {
    Rewrite(s, 0, "", Literal)
  }

  /** The `Matcher.find`/`appendReplacement`/`appendTail` loop of `makePatchXmlFromJson`. */
  method ReplaceTripleQuoted(json: string) returns (r: string)
    ensures r == PrePass(json)
  {
    r := "";
    var p := 0;
    while true
      invariant p <= |json|
      invariant Rewrite(json, p, r, Literal) == PrePass(json)
      decreases |json| - p
    {
      var open := FindTriple(json, p);
      if open.None? {
        r := r + json[p..];
        return;
      }
      var i := open.value;
      var close := FindTriple(json, i + 3);
      if close.None? {
        r := r + json[p..];
        return;
      }
      var j := close.value;
      var literal := EscapeStringForJson(Some(json[i + 3..j]));
      assert literal == Literal(json[i + 3..j]);
      RewriteStep(json, p, r, i, j, Literal);
      r := r + json[p..i] + literal;
      p := j + 3;
    }
  }

  /** One region of the pre-pass: the text before it and its literal go to the output. */
  lemma {:induction false} RewriteStep(s: string, p: nat, acc: string, i: nat, j: nat, literal: string -> string)
    requires p <= |s|
    requires FindTriple(s, p) == Some(i) && FindTriple(s, i + 3) == Some(j)
    ensures j + 3 <= |s|
    ensures Rewrite(s, p, acc, literal) == Rewrite(s, j + 3, acc + s[p..i] + literal(s[i + 3..j]), literal)
  {
  }

  /** A document without `"""` passes through the pre-pass unchanged. */
  lemma {:induction false} RewriteIdentity(s: string)
    requires forall i: nat :: !TripleAt(s, i)
    ensures PrePass(s) == s
  {
    FindTripleNone(s, 0);
    assert "" + s[0..] == s;
    assert Rewrite(s, 0, "", Literal) == "" + s[0..];
  }

  /**
   * A single quote-free region after quote-free text becomes that text
   * followed by a JSON string literal that reads back as the region.
   */
  lemma {:induction false} RewriteOneRegion(a: string, b: string)
    requires '"' !in a && '"' !in b
    ensures PrePass(a + TripleQuote + b + TripleQuote) == a + JsonEscaped(Some(b))
    ensures JsonUnquote(JsonEscaped(Some(b))) == Some(b)
  {
    RewriteOneRegionWith(a, b, Literal);
    JsonRoundTrip(Some(b));
  }

  lemma {:induction false} RewriteOneRegionWith(a: string, b: string, literal: string -> string)
    requires '"' !in a && '"' !in b
    ensures Rewrite(a + TripleQuote + b + TripleQuote, 0, "", literal) == a + literal(b)
  {
    var s := a + TripleQuote + b + TripleQuote;
    var i, j := |a|, |a| + 3 + |b|;
    assert TripleAt(s, i);
    assert TripleAt(s, j);
    forall k: nat | k < i ensures !TripleAt(s, k) {
      assert s[k] == a[k];
      assert a[k] in a;
    }
    forall k: nat | i + 3 <= k < j ensures !TripleAt(s, k) {
      assert s[k] == b[k - i - 3];
      assert b[k - i - 3] in b;
    }
    FindTripleFirst(s, 0, i);
    FindTripleFirst(s, i + 3, j);
    FindTripleNone(s, j + 3);
    RewriteStep(s, 0, "", i, j, literal);
    assert s[0..i] == a && s[i + 3..j] == b && s[j + 3..] == "";
    assert "" + a + literal(b) + "" == a + literal(b);
  }

  /** `FindTriple` finds nothing only when there is no occurrence at or after `from`. */
  lemma {:induction false} FindTripleNone(s: string, from: nat)
    requires forall i: nat :: from <= i ==> !TripleAt(s, i)
    ensures FindTriple(s, from).None?
    decreases |s| - from
  {
    if from + 3 <= |s| {
      FindTripleNone(s, from + 1);
    }
  }

  /** `FindTriple` reports an occurrence when there is none before it. */
  lemma {:induction false} FindTripleFirst(s: string, from: nat, i: nat)
    requires from <= i && TripleAt(s, i)
    requires forall k: nat :: from <= k < i ==> !TripleAt(s, k)
    ensures FindTriple(s, from) == Some(i)
    decreases i - from
  {
    if from < i {
      FindTripleFirst(s, from + 1, i);
    }
  }

  datatype JsonError = InvalidJson(json: string)

  /**
   * `makePatchXmlFromJson`: the pre-pass, then org.json's parser (`parse`);
   * a document that is not a JSON object is reported with the rewritten text.
   */
  method MakePatchXmlFromJson(json: string, parse: string -> Option<Json>, render: Json -> string)
    returns (r: Result<string, JsonError>)
    ensures var t := PrePass(json);
      match parse(t)
      case Some(JObject(members)) => r == Success(MembersXml(render, members))
      case _ => r == Failure(InvalidJson(t))
  {
    var t := ReplaceTripleQuoted(json);
    var doc := parse(t);
    if doc.Some? && doc.value.JObject? {
      var xml := ToXml(render, doc.value, None);
      var body := MembersXml(render, doc.value.members);
      assert xml == "" + body + "";
      assert "" + body + "" == body;
      r := Success(xml);
    } else {
      r := Failure(InvalidJson(t));
    }
  }

  // ---------------------------------------------------------------------------
  // elementList

  /** A DOM node: an element, or a node of any other kind (text, comment, …). */
  datatype Node<E> = ElementNode(element: E) | OtherNode

  function Elements<E>(nodes: seq<Node<E>>): seq<E> {
    if |nodes| == 0 then []
    else (if nodes[0].ElementNode? then [nodes[0].element] else []) + Elements(nodes[1..])
  }

  lemma {:induction false} ElementsAppend<E>(a: seq<Node<E>>, b: seq<Node<E>>)
    ensures Elements(a + b) == Elements(a) + Elements(b)
  {
    if |a| > 0 {
      assert (a + b)[0] == a[0] && (a + b)[1..] == a[1..] + b;
      ElementsAppend(a[1..], b);
    } else {
      assert a + b == b;
    }
  }

  /** `elementList`: the element nodes, in order. */
  method ElementList<E>(nodes: seq<Node<E>>) returns (elements: seq<E>)
    ensures elements == Elements(nodes)
  {
    elements := [];
    var i := 0;
    while i < |nodes|
      invariant 0 <= i <= |nodes|
      invariant elements == Elements(nodes[..i])
    {
      ElementsAppend(nodes[..i], [nodes[i]]);
      assert nodes[..i + 1] == nodes[..i] + [nodes[i]];
      if nodes[i].ElementNode? {
        elements := elements + [nodes[i].element];
      }
      i := i + 1;
    }
    assert nodes[..i] == nodes;
  }

  /**
   * An element is kept exactly when it appears as an element node; the list
   * keeps every node only when all of them are elements.
   */
  lemma {:induction false} ElementsKeepsExactlyElements<E>(nodes: seq<Node<E>>, e: E)
    ensures e in Elements(nodes) <==> ElementNode(e) in nodes
    ensures |Elements(nodes)| <= |nodes|
    ensures |Elements(nodes)| == |nodes| <==> forall k :: 0 <= k < |nodes| ==> nodes[k].ElementNode?
  {
    if |nodes| > 0 {
      ElementsKeepsExactlyElements(nodes[1..], e);
      assert nodes == [nodes[0]] + nodes[1..];
      if |Elements(nodes)| == |nodes| {
        assert nodes[0].ElementNode?;
        forall k | 0 <= k < |nodes| ensures nodes[k].ElementNode? {
          if k > 0 { assert nodes[k] == nodes[1..][k - 1]; }
        }
      }
      if forall k :: 0 <= k < |nodes| ==> nodes[k].ElementNode? {
        assert forall k :: 0 <= k < |nodes| - 1 ==> nodes[1..][k] == nodes[k + 1];
      }
    }
  }
}
