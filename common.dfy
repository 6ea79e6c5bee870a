/** Values shared by the security filters, the mappers and the controller:
    nullable references, the authenticated identity, JSON bodies, and the
    two java.lang.String operations the filters rely on. */
module Common {

  /** A Java reference that may be null. */
  datatype Option<+T> = None | Some(value: T)

  /** The authentication stored in the security context for one request:
      a UsernamePasswordAuthenticationToken with its principal name, its
      credentials and its granted authority names, in order. */
  datatype Identity = Identity(name: Option<string>, credentials: Option<string>, authorities: seq<string>)

  /** A value in a JSON response body, as a HashMap<String, ?> holds it
      before Jackson writes it out. */
  datatype JsonValue = JNull | JString(text: string) | JInt(number: int)

  type JsonObject = map<string, JsonValue>

  /** A nullable Java string as it appears in a JSON body. */
  function StringOrNull(s: Option<string>): (v: JsonValue)
    ensures s.None? <==> v.JNull?
    ensures s.Some? ==> v == JString(s.value)
  {
    match s
    case None => JNull
    case Some(t) => JString(t)
  }

  /** String.startsWith */
  predicate StartsWith(s: string, prefix: string) {
    |prefix| <= |s| && s[..|prefix|] == prefix
  }

  /** `p` starts at index `i` of `s`. */
  predicate OccursAt(p: string, s: string, i: nat) {
    i + |p| <= |s| && s[i..i + |p|] == p
  }

  /** Dropping the first character shifts every occurrence one place left. */
  lemma OccursAtShift(p: string, s: string, i: nat)
    requires s != []
    ensures OccursAt(p, s[1..], i) <==> OccursAt(p, s, i + 1)
  {
    if i + |p| <= |s[1..]| {
      assert s[1..][i..i + |p|] == s[i + 1..i + 1 + |p|];
    }
  }

  /** `p` occurs somewhere in `s` (String.contains). */
  predicate Occurs(p: string, s: string) {
    exists i: nat | i <= |s| :: OccursAt(p, s, i)
  }

  /** String.replace(p, ""): every occurrence of `p`, scanning left to
      right without overlap, is removed. An empty `p` leaves `s` as it is. */
  function RemoveAll(s: string, p: string): (r: string)
    ensures |r| <= |s|
    ensures p == [] ==> r == s
    decreases |s|
  {
    if p == [] || |s| < |p| then s
    else if s[..|p|] == p then RemoveAll(s[|p|..], p)
    else [s[0]] + RemoveAll(s[1..], p)
  }

  /** Where `p` does not start, the first character is kept. */
  lemma RemoveAllSkip(s: string, p: string)
    requires p != [] && |p| <= |s| && !OccursAt(p, s, 0)
    ensures RemoveAll(s, p) == [s[0]] + RemoveAll(s[1..], p)
  {
    assert s[0..0 + |p|] == s[..|p|];
  }

  /** Removing `p` from a string in which it does not occur changes nothing. */
  lemma {:induction false} RemoveAllWithoutOccurrence(s: string, p: string)
    requires !Occurs(p, s)
    ensures RemoveAll(s, p) == s
    decreases |s|
  {
    if p == [] || |s| < |p| {
    } else {
      assert !OccursAt(p, s, 0);
      assert s[..|p|] != p by { assert s[0..0 + |p|] == s[..|p|]; }
      assert !Occurs(p, s[1..]) by {
        forall i: nat ensures !OccursAt(p, s[1..], i) {
          assert !OccursAt(p, s, i + 1);
          if i + |p| <= |s[1..]| {
            assert s[1..][i..i + |p|] == s[i + 1..i + 1 + |p|];
          }
        }
      }
      RemoveAllWithoutOccurrence(s[1..], p);
    }
  }

  /** A leading `p` is removed, and the rest is scanned on its own. */
  lemma RemoveAllLeading(p: string, t: string)
    requires p != []
    ensures RemoveAll(p + t, p) == RemoveAll(t, p)
  {
    assert (p + t)[..|p|] == p;
    assert (p + t)[|p|..] == t;
  }

  /** Stripping the prefix from `p + t` gives `t` back whenever `p` does
      not occur inside `t`. */
  lemma PrefixStripRoundTrip(p: string, t: string)
    requires p != [] && !Occurs(p, t)
    ensures StartsWith(p + t, p)
    ensures RemoveAll(p + t, p) == t
  {
    assert (p + t)[..|p|] == p;
    RemoveAllLeading(p, t);
    RemoveAllWithoutOccurrence(t, p);
  }

  /** Character.isWhitespace: the space separators other than the
      no-break spaces (U+00A0, U+2007, U+202F), the line and paragraph
      separators, and the controls tab to carriage return and U+001C to
      U+001F. */
  predicate IsJavaWhitespace(c: char) {
    || '\t' <= c <= '\r'
    || '\U{001C}' <= c <= ' '
    || c == '\U{1680}'
    || ('\U{2000}' <= c <= '\U{200A}' && c != '\U{2007}')
    || c == '\U{2028}' || c == '\U{2029}' || c == '\U{205F}' || c == '\U{3000}'
  }

  /** StringUtils.hasText, which SimpleGrantedAuthority's constructor
      asserts of every authority name: some character is not whitespace. */
  function HasText(s: string): (b: bool)
    ensures b ==> s != []
    ensures (exists i | 0 <= i < |s| :: s[i] > ' ' && s[i] < '\U{00A0}') ==> b
  {
    exists i | 0 <= i < |s| :: !IsJavaWhitespace(s[i])
  }

  /** Every name in the list passes hasText. */
  predicate AllHaveText(names: seq<string>) {
    forall k | 0 <= k < |names| :: HasText(names[k])
  }
}
