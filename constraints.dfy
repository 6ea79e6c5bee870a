/** The Jakarta Bean Validation constraints that annotate the user record
    and the two request payloads, on nullable strings. */
module Constraints {
  import opened Common

  /** @NotEmpty: not null and at least one character. */
  predicate NotEmpty(s: Option<string>) {
    s.Some? && |s.value| > 0
  }

  /** @NotBlank: not null, and something is left after String.trim(),
      which strips every character up to and including the space. */
  function NotBlank(s: Option<string>): (b: bool)
    ensures b ==> NotEmpty(s)
    ensures s.Some? && (forall i | 0 <= i < |s.value| :: s.value[i] == ' ') ==> !b
  {
    s.Some? && exists i | 0 <= i < |s.value| :: s.value[i] > ' '
  }

  /** String.length(): the number of UTF-16 code units, one for a
      character of the Basic Multilingual Plane and two (a surrogate pair)
      for any other. */
  function Utf16Length(s: string): (n: nat)
    ensures |s| <= n <= 2 * |s|
    ensures (forall i | 0 <= i < |s| :: s[i] as int < 0x10000) ==> n == |s|
    ensures (forall i | 0 <= i < |s| :: s[i] as int >= 0x10000) ==> n == 2 * |s|
  {
    if s == [] then 0
    else (if s[0] as int < 0x10000 then 1 else 2) + Utf16Length(s[1..])
  }

  /** @Size(min, max): null is valid, otherwise the length Java reports
      lies in range. */
  function SizeWithin(s: Option<string>, min: nat, max: nat): (b: bool)
    ensures b && s.Some? ==> |s.value| <= max && min <= 2 * |s.value|
    ensures s.Some? && min <= |s.value| && 2 * |s.value| <= max ==> b
  {
    s.None? || min <= Utf16Length(s.value) <= max
  }

  /** @Email: null and the empty string are valid; otherwise the address
      format, whose rule belongs to the validator library, decides. */
  predicate EmailField(s: Option<string>, isEmail: string -> bool) {
    s.None? || |s.value| == 0 || isEmail(s.value)
  }

  /** The username rule shared by the entity and both payloads:
      @NotBlank @Size(min = 4, max = 12). */
  function ValidUsername(s: Option<string>): (b: bool)
    ensures b ==> s.Some? && 2 <= |s.value| <= 12
    ensures b ==> exists i | 0 <= i < |s.value| :: s.value[i] != ' '
  {
    NotBlank(s) && SizeWithin(s, 4, 12)
  }

  /** Four spaces have the right length but are blank. */
  lemma BlankUsernameRejected()
    ensures !ValidUsername(Some("    "))
    ensures ValidUsername(Some("johnd"))
  {
    assert "johnd"[0] > ' ';
  }

  /** A character outside the Basic Multilingual Plane counts twice: seven
      of them are fourteen code units, too long, while two are four, long
      enough. */
  lemma SupplementaryCharactersCountTwice()
    ensures !ValidUsername(Some(seq(7, _ => '\U{1F600}')))
    ensures ValidUsername(Some(seq(2, _ => '\U{1F600}')))
  {
    var seven := seq(7, _ => '\U{1F600}');
    assert Utf16Length(seven) == 14;
    var two := seq(2, _ => '\U{1F600}');
    assert Utf16Length(two) == 4;
    assert two[0] > ' ';
  }
}
