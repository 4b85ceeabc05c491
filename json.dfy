/** `JSON.stringify` for the flat metadata objects the audit trail stores: an object whose
    values are strings or booleans, keys in insertion order. String escaping follows
    ECMAScript's QuoteJSONString: the short escapes \b \t \n \f \r \" \\, every other
    control character as \u00xx with lower-case hex digits, every other character unchanged.
    A string here is a sequence of Unicode scalar values, not of UTF-16 code units, so a
    lone surrogate, which QuoteJSONString writes as \udxxx, cannot occur.
    The decoder below reads back what the serializer writes. */
module Json {
  import opened Schema

  datatype MetaValue = MetaText(text: string) | MetaFlag(flag: bool)

  /** A metadata object: its properties in insertion order. */
  type Metadata = seq<(string, MetaValue)>

  const hexDigits: string := "0123456789abcdef"
  const Backspace: char := 8 as char
  const FormFeed: char := 12 as char

  function EscapeChar(c: char): (r: string)
    ensures |r| >= 1 && r[0] != '"'
    ensures (r[0] == '\\') <==> (c == '"' || c == '\\' || c < ' ')
  {
    if c == '"' then "\\\""
    else if c == '\\' then "\\\\"
    else if c == Backspace then "\\b"
    else if c == '\t' then "\\t"
    else if c == '\n' then "\\n"
    else if c == FormFeed then "\\f"
    else if c == '\r' then "\\r"
    else if c < ' ' then "\\u00" + [hexDigits[(c as int) / 16], hexDigits[(c as int) % 16]]
    else [c]
  }

  /** The characters between the quotes of a JSON string literal. */
  function Escape(s: string): (r: string)
    ensures |r| >= |s|
  {
    if s == [] then [] else EscapeChar(s[0]) + Escape(s[1..])
  }

  function Quote(s: string): string
  {
    "\"" + Escape(s) + "\""
  }

  function SerializeValue(v: MetaValue): string
  {
    match v
    case MetaText(t) => Quote(t)
    case MetaFlag(b) => if b then "true" else "false"
  }

  function SerializeMember(p: (string, MetaValue)): string
  {
    Quote(p.0) + ":" + SerializeValue(p.1)
  }

  /** The members after the first, each behind its comma. */
  function SerializeRest(m: Metadata): string
  {
    if m == [] then "" else "," + SerializeMember(m[0]) + SerializeRest(m[1..])
  }

  /** `JSON.stringify(metadata)`. */
  function Serialize(m: Metadata): (r: string)
    ensures |r| >= 2 && r[0] == '{' && r[|r| - 1] == '}'
  {
    if m == [] then "{}" else "{" + SerializeMember(m[0]) + SerializeRest(m[1..]) + "}"
  }

  // ---------------------------------------------------------------------------
  // Decoding, the partner of serialization

  function HexValue(c: char): (r: Option<nat>)
    ensures r.Some? ==> r.value < 16
  {
    if '0' <= c <= '9' then Some((c as int) - ('0' as int))
    else if 'a' <= c <= 'f' then Some((c as int) - ('a' as int) + 10)
    else if 'A' <= c <= 'F' then Some((c as int) - ('A' as int) + 10)
    else None
  }

  /** Decodes \uXXXX from four hex digits, refusing surrogate code points. */
  function UnicodeEscape(d: string): Option<char>
    requires |d| == 4
  {
    match (HexValue(d[0]), HexValue(d[1]), HexValue(d[2]), HexValue(d[3]))
    case (Some(a), Some(b), Some(c), Some(e)) =>
      var n := ((a * 16 + b) * 16 + c) * 16 + e;
      assert n < 0x10000 by {
        assert a * 16 + b < 0x100;
        assert (a * 16 + b) * 16 + c < 0x1000;
      }
      if n < 0xD800 || 0xE000 <= n then Some(n as char) else None
    case _ => None
  }

  /** The character at the front of a string-literal body and the number of characters its
      encoding takes, or None for a quote, a raw control character or a malformed escape. */
  function DecodeChar(s: string): (r: Option<(char, nat)>)
    requires s != []
    ensures s[0] == '"' ==> r.None?
    ensures r.Some? ==> 1 <= r.value.1 <= |s|
  {
    if s[0] == '"' || s[0] < ' ' then None
    else if s[0] != '\\' then Some((s[0], 1))
    else if |s| < 2 then None
    else if s[1] == 'u' then
      if |s| < 6 then None
      else match UnicodeEscape(s[2..6])
        case None => None
        case Some(c) => Some((c, 6))
    else
      var c :=
        if s[1] == '"' then Some('"')
        else if s[1] == '\\' then Some('\\')
        else if s[1] == '/' then Some('/')
        else if s[1] == 'b' then Some(Backspace)
        else if s[1] == 't' then Some('\t')
        else if s[1] == 'n' then Some('\n')
        else if s[1] == 'f' then Some(FormFeed)
        else if s[1] == 'r' then Some('\r')
        else None;
      if c.None? then None else Some((c.value, 2))
  }

  function Prepend(c: char, r: Option<string>): Option<string>
  {
    if r.Some? then Some([c] + r.value) else None
  }

  /** The string a whole JSON string-literal body stands for, or None if it is malformed. */
  function Unescape(s: string): (r: Option<string>)
    decreases |s|
  {
    if s == [] then Some([])
    else match DecodeChar(s)
      case None => None
      case Some((c, n)) => Prepend(c, Unescape(s[n..]))
  }

  /** Reads a string-literal body up to its closing quote: the string it stands for and the
      text after the quote. */
  function ScanString(s: string): (r: Option<(string, string)>)
    ensures r.Some? ==> |r.value.1| < |s|
    decreases |s|
  {
    if s == [] then None
    else if s[0] == '"' then Some(([], s[1..]))
    else match DecodeChar(s)
      case None => None
      case Some((c, n)) =>
        match ScanString(s[n..])
        case None => None
        case Some((t, rest)) => Some(([c] + t, rest))
  }

  /** A property value at the front of `s`, and the text after it. */
  function ParseValue(s: string): (r: Option<(MetaValue, string)>)
    ensures r.Some? ==> |r.value.1| < |s|
  {
    if s != [] && s[0] == '"' then
      match ScanString(s[1..])
      case None => None
      case Some((t, rest)) => Some((MetaText(t), rest))
    else if |s| >= 4 && s[..4] == "true" then Some((MetaFlag(true), s[4..]))
    else if |s| >= 5 && s[..5] == "false" then Some((MetaFlag(false), s[5..]))
    else None
  }

  /** A `"key":value` member at the front of `s`, and the text after it. */
  function ParseMember(s: string): (r: Option<((string, MetaValue), string)>)
    ensures r.Some? ==> |r.value.1| < |s|
  {
    if s == [] || s[0] != '"' then None
    else match ScanString(s[1..])
      case None => None
      case Some((key, rest)) =>
        if rest == [] || rest[0] != ':' then None
        else match ParseValue(rest[1..])
          case None => None
          case Some((v, after)) => Some(((key, v), after))
  }

  /** The `,member` sequence at the front of `s`, and the text after it. */
  function ParseRest(s: string): (r: Option<(Metadata, string)>)
    decreases |s|
  {
    if s == [] || s[0] != ',' then Some(([], s))
    else match ParseMember(s[1..])
      case None => None
      case Some((p, rest)) =>
        match ParseRest(rest)
        case None => None
        case Some((ms, after)) => Some(([p] + ms, after))
  }

  /** `JSON.parse` for a metadata object in the form `JSON.stringify` writes it. */
  function ParseObject(s: string): Option<Metadata>
  {
    if s == "{}" then Some([])
    else if s == [] || s[0] != '{' then None
    else match ParseMember(s[1..])
      case None => None
      case Some((p, rest)) =>
        match ParseRest(rest)
        case None => None
        case Some((ms, after)) => if after == "}" then Some([p] + ms) else None
  }

  // ---------------------------------------------------------------------------
  // Round trips

  lemma HexDigitValue(n: nat)
    requires n < 16
    ensures HexValue(hexDigits[n]) == Some(n)
  {
  }

  /** A control character without a short escape comes back from its \u00xx form. */
  lemma DecodeControl(c: char, t: string)
    requires c < ' ' && c !in {Backspace, '\t', '\n', FormFeed, '\r'}
    ensures DecodeChar(EscapeChar(c) + t) == Some((c, |EscapeChar(c)|))
  {
    var e := EscapeChar(c) + t;
    var n := c as int;
    HexDigitValue(n / 16);
    HexDigitValue(n % 16);
    assert e[2..6] == ['0', '0', hexDigits[n / 16], hexDigits[n % 16]];
    assert UnicodeEscape(e[2..6]) == Some(c);
  }

  /** A two-character escape comes back as the character it stands for. */
  lemma DecodeShort(c: char, t: string)
    requires c in {'"', '\\', Backspace, '\t', '\n', FormFeed, '\r'}
    ensures DecodeChar(EscapeChar(c) + t) == Some((c, |EscapeChar(c)|))
  {
    var e := EscapeChar(c) + t;
    assert e[0] == '\\' && e[1] != 'u';
  }

  /** Decoding one escaped character in front of any text gives that character back and
      consumes exactly its escape. */
  lemma DecodeEscaped(c: char, t: string)
    ensures DecodeChar(EscapeChar(c) + t) == Some((c, |EscapeChar(c)|))
  {
    if c in {'"', '\\', Backspace, '\t', '\n', FormFeed, '\r'} {
      DecodeShort(c, t);
    } else if c < ' ' {
      DecodeControl(c, t);
    } else {
      assert (EscapeChar(c) + t)[0] == c;
    }
  }

  /** Escaping loses nothing: the escaped text decodes to the original string. */
  lemma {:induction false} EscapeRoundTrip(s: string)
    ensures Unescape(Escape(s)) == Some(s)
  {
    if s != [] {
      var e := EscapeChar(s[0]);
      var t := Escape(s[1..]);
      EscapeRoundTrip(s[1..]);
      DecodeEscaped(s[0], t);
      assert (e + t)[|e|..] == t;
      assert [s[0]] + s[1..] == s;
    }
  }

  lemma ScanStep(s: string, c: char, n: nat, t: string, rest: string)
    requires s != [] && s[0] != '"' && DecodeChar(s) == Some((c, n))
    requires n <= |s| && ScanString(s[n..]) == Some((t, rest))
    ensures ScanString(s) == Some(([c] + t, rest))
  {
  }

  /** Where the text behind an escaped first character starts. */
  lemma EscapedShape(e: string, more: string, after: string)
    requires e != []
    ensures var s := e + more + "\"" + after;
      && s[0] == e[0] && |e| <= |s| && s[|e|..] == more + "\"" + after
  {
    ConcatAssoc3(e, more, "\"", after);
  }

  /** The closing quote of a quoted string is the first unescaped quote: reading a quoted
      body stops there, whatever follows. */
  lemma {:induction false} ScanQuoted(s: string, after: string)
    ensures ScanString(Escape(s) + "\"" + after) == Some((s, after))
  {
    if s == [] {
      var whole := Escape(s) + "\"" + after;
      assert whole == "\"" + after;
      assert whole[0] == '"' && whole[1..] == after;
    } else {
      var e := EscapeChar(s[0]);
      var t := Escape(s[1..]) + "\"" + after;
      var whole := Escape(s) + "\"" + after;
      assert whole == e + Escape(s[1..]) + "\"" + after;
      EscapedShape(e, Escape(s[1..]), after);
      ScanQuoted(s[1..], after);
      DecodeEscaped(s[0], t);
      assert DecodeChar(whole) == DecodeChar(e + t) by {
        assert whole == e + t;
      }
      ScanStep(whole, s[0], |e|, s[1..], after);
      assert [s[0]] + s[1..] == s;
    }
  }

  /** Reading a quoted value, whatever its body `q` is. */
  lemma ParseTextStep(q: string, t: string, after: string)
    requires ScanString(q + "\"" + after) == Some((t, after))
    ensures ParseValue("\"" + q + "\"" + after) == Some((MetaText(t), after))
  {
    var s := "\"" + q + "\"" + after;
    assert s[0] == '"';
    assert s[1..] == q + "\"" + after;
  }

  lemma TextRoundTrip(t: string, after: string)
    ensures ParseValue(SerializeValue(MetaText(t)) + after) == Some((MetaText(t), after))
  {
    ScanQuoted(t, after);
    ParseTextStep(Escape(t), t, after);
  }

  lemma FlagRoundTrip(b: bool, after: string)
    ensures ParseValue(SerializeValue(MetaFlag(b)) + after) == Some((MetaFlag(b), after))
  {
    var s := SerializeValue(MetaFlag(b)) + after;
    if b {
      assert s[0] == 't' && s[..4] == "true" && s[4..] == after;
    } else {
      assert s[0] == 'f' && s[..5] == "false" && s[5..] == after;
    }
  }

  lemma ValueRoundTrip(v: MetaValue, after: string)
    ensures ParseValue(SerializeValue(v) + after) == Some((v, after))
  {
    match v
    case MetaText(t) => TextRoundTrip(t, after);
    case MetaFlag(b) => FlagRoundTrip(b, after);
  }

  lemma ParseMemberStep(s: string, key: string, rest: string, v: MetaValue, after: string)
    requires s != [] && s[0] == '"' && ScanString(s[1..]) == Some((key, rest))
    requires rest != [] && rest[0] == ':' && ParseValue(rest[1..]) == Some((v, after))
    ensures ParseMember(s) == Some(((key, v), after))
  {
  }

  /** Where a member's text splits, whatever the key's body `q` and the value's text are. */
  lemma MemberShape(q: string, val: string, after: string)
    ensures var s := "\"" + q + "\"" + ":" + val + after; var rest := ":" + val + after;
      && s != [] && s[0] == '"' && s[1..] == q + "\"" + rest
      && rest != [] && rest[0] == ':' && rest[1..] == val + after
  {
    var s := "\"" + q + "\"" + ":" + val + after;
    assert s == "\"" + (q + "\"" + (":" + val + after));
  }

  lemma MemberRoundTrip(p: (string, MetaValue), after: string)
    ensures ParseMember(SerializeMember(p) + after) == Some((p, after))
  {
    var val := SerializeValue(p.1);
    var rest := ":" + val + after;
    MemberShape(Escape(p.0), val, after);
    ScanQuoted(p.0, rest);
    ValueRoundTrip(p.1, after);
    ParseMemberStep(SerializeMember(p) + after, p.0, rest, p.1, after);
  }

  lemma ConcatAssoc3(a: string, b: string, c: string, d: string)
    ensures a + b + c + d == a + (b + (c + d))
  {
  }

  lemma ParseRestStep(s: string, p: (string, MetaValue), tail: string, ms: Metadata, after: string)
    requires s != [] && s[0] == ','
    requires ParseMember(s[1..]) == Some((p, tail)) && ParseRest(tail) == Some((ms, after))
    ensures ParseRest(s) == Some(([p] + ms, after))
  {
  }

  lemma {:induction false} RestRoundTrip(m: Metadata, after: string)
    requires after == [] || after[0] != ','
    ensures ParseRest(SerializeRest(m) + after) == Some((m, after))
  {
    if m == [] {
      assert SerializeRest(m) + after == after;
    } else {
      var member := SerializeMember(m[0]);
      var tail := SerializeRest(m[1..]) + after;
      var s := SerializeRest(m) + after;
      assert s == "," + (member + tail) by {
        ConcatAssoc3(",", member, SerializeRest(m[1..]), after);
      }
      assert s[1..] == member + tail;
      MemberRoundTrip(m[0], tail);
      RestRoundTrip(m[1..], after);
      ParseRestStep(s, m[0], tail, m[1..], after);
      assert [m[0]] + m[1..] == m;
    }
  }

  lemma ParseObjectStep(s: string, p: (string, MetaValue), tail: string, ms: Metadata)
    requires |s| >= 2 && s[0] == '{' && s[1] == '"'
    requires ParseMember(s[1..]) == Some((p, tail)) && ParseRest(tail) == Some((ms, "}"))
    ensures ParseObject(s) == Some([p] + ms)
  {
    assert s != "{}" by { assert s[1] != "{}"[1]; }
  }

  lemma SerializeNonEmpty(m: Metadata)
    requires m != []
    ensures var s := Serialize(m);
      |s| >= 2 && s[0] == '{' && s[1] == '"' && s[1..] == SerializeMember(m[0]) + (SerializeRest(m[1..]) + "}")
  {
    var member := SerializeMember(m[0]);
    assert member[0] == '"';
    ConcatAssoc3("{", member, SerializeRest(m[1..]), "}");
  }

  /** Parsing what `JSON.stringify` wrote gives the metadata back, members in order. */
  lemma SerializeRoundTrip(m: Metadata)
    ensures ParseObject(Serialize(m)) == Some(m)
  {
    if m != [] {
      var tail := SerializeRest(m[1..]) + "}";
      SerializeNonEmpty(m);
      MemberRoundTrip(m[0], tail);
      RestRoundTrip(m[1..], "}");
      ParseObjectStep(Serialize(m), m[0], tail, m[1..]);
      assert [m[0]] + m[1..] == m;
    }
  }
}
