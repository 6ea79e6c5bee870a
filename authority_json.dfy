/** The `authorities` claim: the granted authorities written by Jackson as
    a compact JSON array of `{"authority": name}` objects at login, and
    read back into SimpleGrantedAuthority names on every request. */
module AuthorityJson {
  import opened Common

  /** Jackson writes hex digits of \u escapes in upper case. */
  function HexDigit(d: nat): (c: char)
    requires d < 16
    ensures '0' <= c <= 'F'
  {
    "0123456789ABCDEF"[d]
  }

  /** A hex digit of either case. */
  function HexValue(c: char): (v: Option<nat>)
    ensures v.Some? ==> v.value < 16
  {
    if '0' <= c <= '9' then Some(c as nat - '0' as nat)
    else if 'A' <= c <= 'F' then Some(c as nat - 'A' as nat + 10)
    else if 'a' <= c <= 'f' then Some(c as nat - 'a' as nat + 10)
    else None
  }

  lemma HexDigitValue(d: nat)
    requires d < 16
    ensures HexValue(HexDigit(d)) == Some(d)
  {
  }

  /** The value of four hex digits. */
  function HexQuad(h: string): (v: Option<nat>)
    requires |h| == 4
    ensures v.Some? ==> v.value < 0x10000
  {
    match (HexValue(h[0]), HexValue(h[1]), HexValue(h[2]), HexValue(h[3]))
    case (Some(a), Some(b), Some(c), Some(d)) => Some(((a * 16 + b) * 16 + c) * 16 + d)
    case _ => None
  }

  /** How Jackson writes one character inside a string literal: the quote,
      the backslash and the control characters are escaped, everything
      else is written as it is. */
  function EscapeChar(c: char): (e: string)
    ensures 1 <= |e|
    ensures forall i | 0 <= i < |e| :: e[i] >= ' '
  {
    if c == '"' then ['\\', '"']
    else if c == '\\' then ['\\', '\\']
    else if c == '\n' then ['\\', 'n']
    else if c == '\r' then ['\\', 'r']
    else if c == '\t' then ['\\', 't']
    else if c == '\U{0008}' then ['\\', 'b']
    else if c == '\U{000C}' then ['\\', 'f']
    else if c < ' ' then ['\\', 'u', '0', '0', HexDigit(c as nat / 16), HexDigit(c as nat % 16)]
    else [c]
  }

  /** The text between the quotes: never shorter than the name, and free
      of raw control characters, as a JSON string literal must be. */
  function Escape(s: string): (e: string)
    ensures |s| <= |e|
    ensures forall i | 0 <= i < |e| :: e[i] >= ' '
  {
    if s == [] then [] else EscapeChar(s[0]) + Escape(s[1..])
  }

  /** `{"authority":"<name>"}` */
  function EncodeAuthority(name: string): string {
    "{\"authority\":\"" + Escape(name) + "\"}"
  }

  /** The elements of a non-empty array and its closing bracket. */
  function EncodeElements(names: seq<string>): (text: string)
    requires names != []
    ensures |text| >= 2 && text[0] == '{' && text[|text| - 1] == ']'
  {
    EncodeAuthority(names[0]) + (if |names| == 1 then "]" else "," + EncodeElements(names[1..]))
  }

  /** ObjectMapper.writeValueAsString(roles) at login. */
  function Encode(names: seq<string>): (text: string)
    ensures |text| >= 2 && text[0] == '[' && text[|text| - 1] == ']'
  {
    "[" + (if names == [] then "]" else EncodeElements(names))
  }

  /** Puts `c` in front of the text read so far. */
  function Prepend(c: char, read: Option<(string, string)>): Option<(string, string)> {
    match read
    case None => None
    case Some((t, rest)) => Some(([c] + t, rest))
  }

  /** The character an escape sequence stands for, given the text after
      the backslash, and how many characters the sequence takes. An escape
      naming half of a surrogate pair is not decoded. */
  function DecodeEscape(e: string): (r: Option<(char, nat)>)
    ensures r.Some? ==> 1 <= r.value.1 <= |e|
  {
    if e == [] then None
    else if e[0] == '"' || e[0] == '\\' || e[0] == '/' then Some((e[0], 1))
    else if e[0] == 'n' then Some(('\n', 1))
    else if e[0] == 'r' then Some(('\r', 1))
    else if e[0] == 't' then Some(('\t', 1))
    else if e[0] == 'b' then Some(('\U{0008}', 1))
    else if e[0] == 'f' then Some(('\U{000C}', 1))
    else if e[0] == 'u' && |e| >= 5 then
      match HexQuad(e[1..5])
      case None => None
      case Some(v) => if 0xD800 <= v < 0xE000 then None else Some((v as char, 5))
    else None
  }

  /** Reads the rest of a string literal whose opening quote has been
      consumed: the decoded text and what follows the closing quote. A raw
      control character or an unknown escape is an error. */
  function ReadStringBody(s: string): (r: Option<(string, string)>)
    ensures r.Some? ==> |r.value.1| < |s|
    decreases |s|
  {
    if s == [] then None
    else if s[0] == '"' then Some(([], s[1..]))
    else if s[0] == '\\' then
      match DecodeEscape(s[1..])
      case None => None
      case Some((c, n)) => Prepend(c, ReadStringBody(s[1 + n..]))
    else if s[0] < ' ' then None
    else Prepend(s[0], ReadStringBody(s[1..]))
  }

  const AuthorityOpen: string := "{\"authority\":\""

  /** Reads one `{"authority":"<name>"}` object. */
  function ReadAuthority(s: string): (r: Option<(string, string)>)
    ensures r.Some? ==> |r.value.1| < |s|
  {
    if !StartsWith(s, AuthorityOpen) then None
    else match ReadStringBody(s[|AuthorityOpen|..])
      case None => None
      case Some((name, rest)) =>
        if rest != [] && rest[0] == '}' then Some((name, rest[1..])) else None
  }

  /** Reads the elements of a non-empty array up to its closing bracket. */
  function ReadElements(s: string): (r: Option<(seq<string>, string)>)
    ensures r.Some? ==> r.value.0 != [] && |r.value.1| < |s|
    decreases |s|
  {
    match ReadAuthority(s)
    case None => None
    case Some((name, rest)) =>
      if rest != [] && rest[0] == ']' then Some(([name], rest[1..]))
      else if rest != [] && rest[0] == ',' then
        match ReadElements(rest[1..])
        case None => None
        case Some((names, rest')) => Some(([name] + names, rest'))
      else None
  }

  /** The names of an array of `{"authority": name}` objects, in array
      order; None when the text is not such an array. */
  function ReadArray(text: string): (r: Option<seq<string>>)
    ensures r.Some? ==> |text| >= 2 && text[0] == '['
  {
    if |text| < 2 || text[0] != '[' then None
    else if text[1] == ']' then (if |text| == 2 then Some([]) else None)
    else match ReadElements(text[1..])
      case Some((names, rest)) => if rest == [] then Some(names) else None
      case None => None
  }

  /** ObjectMapper.readValue(text, SimpleGrantedAuthority[].class) with the
      creator mixin, as the authority names in array order. Each name goes
      to `new SimpleGrantedAuthority(name)`, whose hasText assertion throws
      for a name without text; None is the exception either step throws. */
  function Decode(text: string): (r: Option<seq<string>>)
    ensures r.Some? ==> |text| >= 2 && text[0] == '['
    ensures r.Some? <==> ReadArray(text).Some? && AllHaveText(ReadArray(text).value)
    ensures r.Some? ==> r == ReadArray(text) && AllHaveText(r.value)
  {
    match ReadArray(text)
    case None => None
    case Some(names) => if AllHaveText(names) then Some(names) else None
  }

  /** A control character without a short escape is read back from its
      \u00XX form. */
  lemma ReadUnicodeEscape(c: char, tail: string)
    requires c < ' ' && c != '\n' && c != '\r' && c != '\t' && c != '\U{0008}' && c != '\U{000C}'
    ensures ReadStringBody(EscapeChar(c) + tail) == Prepend(c, ReadStringBody(tail))
  {
    var hi, lo := c as nat / 16, c as nat % 16;
    var esc := EscapeChar(c);
    assert esc == ['\\', 'u', '0', '0', HexDigit(hi), HexDigit(lo)];
    var s := esc + tail;
    var e := s[1..];
    assert e == esc[1..] + tail;
    assert e[1..5] == esc[2..6];
    HexDigitValue(0);
    HexDigitValue(hi);
    HexDigitValue(lo);
    assert HexQuad(e[1..5]) == Some(c as nat);
    assert DecodeEscape(e) == Some((c, 5));
    assert s[6..] == tail;
  }

  /** A character with a two-character escape is read back from it. */
  lemma ReadShortEscape(c: char, tail: string)
    requires c == '"' || c == '\\' || c == '\n' || c == '\r' || c == '\t' || c == '\U{0008}' || c == '\U{000C}'
    ensures ReadStringBody(EscapeChar(c) + tail) == Prepend(c, ReadStringBody(tail))
  {
    var s := EscapeChar(c) + tail;
    assert |EscapeChar(c)| == 2 && s[0] == '\\';
    assert s[1..][0] == EscapeChar(c)[1];
    assert DecodeEscape(s[1..]) == Some((c, 1));
    assert s[2..] == tail;
  }

  /** One escaped character is read back as itself. */
  lemma ReadEscapedChar(c: char, tail: string)
    ensures ReadStringBody(EscapeChar(c) + tail) == Prepend(c, ReadStringBody(tail))
  {
    if c == '"' || c == '\\' || c == '\n' || c == '\r' || c == '\t' || c == '\U{0008}' || c == '\U{000C}' {
      ReadShortEscape(c, tail);
    } else if c < ' ' {
      ReadUnicodeEscape(c, tail);
    } else {
      var s := EscapeChar(c) + tail;
      assert s[0] == c && s[1..] == tail;
    }
  }

  /** An escaped string followed by the closing quote is read back exactly,
      leaving what follows. */
  lemma {:induction false} ReadEscapedString(x: string, rest: string)
    ensures ReadStringBody(Escape(x) + "\"" + rest) == Some((x, rest))
  {
    if x == [] {
      assert Escape(x) + "\"" + rest == ['"'] + rest;
    } else {
      var tail := Escape(x[1..]) + "\"" + rest;
      assert Escape(x) + "\"" + rest == EscapeChar(x[0]) + tail;
      ReadEscapedChar(x[0], tail);
      ReadEscapedString(x[1..], rest);
      assert [x[0]] + x[1..] == x;
    }
  }

  lemma ReadEncodedAuthority(name: string, rest: string)
    ensures ReadAuthority(EncodeAuthority(name) + rest) == Some((name, rest))
  {
    var s := EncodeAuthority(name) + rest;
    assert s == AuthorityOpen + (Escape(name) + "\"" + ("}" + rest));
    assert StartsWith(s, AuthorityOpen);
    assert s[|AuthorityOpen|..] == Escape(name) + "\"" + ("}" + rest);
    ReadEscapedString(name, "}" + rest);
  }

  /** The last element and the closing bracket. */
  lemma ReadLastElement(name: string, rest: string)
    ensures ReadElements(EncodeElements([name]) + rest) == Some(([name], rest))
  {
    var after := "]" + rest;
    assert EncodeElements([name]) + rest == EncodeAuthority(name) + after;
    ReadEncodedAuthority(name, after);
    assert after[0] == ']' && after[1..] == rest;
  }

  /** An element followed by a comma hands the rest of the array on. */
  lemma ReadNextElement(names: seq<string>, rest: string)
    requires |names| >= 2
    ensures ReadElements(EncodeElements(names) + rest)
         == PrependName(names[0], ReadElements(EncodeElements(names[1..]) + rest))
  {
    var more := EncodeElements(names[1..]) + rest;
    var after := "," + more;
    assert EncodeElements(names) + rest == EncodeAuthority(names[0]) + after;
    ReadEncodedAuthority(names[0], after);
    assert after[0] == ',' && after[1..] == more;
  }

  /** Puts `name` in front of the names read so far. */
  function PrependName(name: string, read: Option<(seq<string>, string)>): Option<(seq<string>, string)> {
    match read
    case None => None
    case Some((names, rest)) => Some(([name] + names, rest))
  }

  lemma {:induction false} ReadEncodedElements(names: seq<string>, rest: string)
    requires names != []
    ensures ReadElements(EncodeElements(names) + rest) == Some((names, rest))
    decreases |names|
  {
    if |names| == 1 {
      ReadLastElement(names[0], rest);
      assert [names[0]] == names;
    } else {
      ReadNextElement(names, rest);
      ReadEncodedElements(names[1..], rest);
      assert [names[0]] + names[1..] == names;
    }
  }

  /** The array written at login is read back as the same names in the
      same order. */
  lemma ReadArrayEncode(names: seq<string>)
    ensures ReadArray(Encode(names)) == Some(names)
  {
    if names != [] {
      var text := Encode(names);
      assert text[1..] == EncodeElements(names) + "";
      ReadEncodedElements(names, "");
    }
  }

  /** The authority round trip: the names written at login are read back
      as the same names in the same order, unless one of them has no text,
      which SimpleGrantedAuthority refuses. */
  lemma DecodeEncode(names: seq<string>)
    ensures AllHaveText(names) ==> Decode(Encode(names)) == Some(names)
    ensures !AllHaveText(names) ==> Decode(Encode(names)).None?
  {
    ReadArrayEncode(names);
  }

  /** Different role lists never share a claim text. */
  lemma EncodeInjective(a: seq<string>, b: seq<string>)
    requires Encode(a) == Encode(b)
    ensures a == b
  {
    ReadArrayEncode(a);
    ReadArrayEncode(b);
  }
}
