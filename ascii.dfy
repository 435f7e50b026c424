/** The GLib ASCII helpers the server relies on: case folding, prefix test and hex digits. */
module Ascii {

  /** `g_ascii_tolower`: only 'A'..'Z' are folded. */
  function LowerChar(c: char): char
  {
    if 'A' <= c <= 'Z' then (c as int - 'A' as int + 'a' as int) as char else c
  }

  /** `g_ascii_toupper`: only 'a'..'z' are folded. */
  function UpperChar(c: char): char
  {
    if 'a' <= c <= 'z' then (c as int - 'a' as int + 'A' as int) as char else c
  }

  function ToLower(s: string): string
  {
    seq(|s|, i requires 0 <= i < |s| => LowerChar(s[i]))
  }

  function ToUpper(s: string): string
  {
    seq(|s|, i requires 0 <= i < |s| => UpperChar(s[i]))
  }

  /** `g_ascii_strcasecmp(a, b) == 0`. */
  predicate EqualsIgnoreCase(a: string, b: string)
  {
    ToLower(a) == ToLower(b)
  }

  /** Some entry of `src` is `avoid`, ignoring ASCII case. */
  predicate Mentions(src: seq<string>, avoid: string)
  {
    exists i :: 0 <= i < |src| && EqualsIgnoreCase(avoid, src[i])
  }

  /** The comparison is the character-by-character one of `g_ascii_strcasecmp`:
      equal lengths and equal characters once folded. */
  lemma EqualsIgnoreCaseIff(a: string, b: string)
    ensures EqualsIgnoreCase(a, b) <==>
      |a| == |b| && forall i :: 0 <= i < |a| ==> LowerChar(a[i]) == LowerChar(b[i])
  {
    if |a| == |b| && forall i :: 0 <= i < |a| ==> LowerChar(a[i]) == LowerChar(b[i]) {
      assert forall i :: 0 <= i < |a| ==> ToLower(a)[i] == ToLower(b)[i];
    }
    if EqualsIgnoreCase(a, b) {
      assert |ToLower(a)| == |a|;
      assert forall i :: 0 <= i < |a| ==> ToLower(a)[i] == LowerChar(a[i]);
    }
  }

  /** `g_str_has_prefix(s, p)`. */
  predicate HasPrefix(s: string, p: string)
  {
    |p| <= |s| && s[..|p|] == p
  }

  /** `g_ascii_isxdigit`. */
  predicate IsHexDigit(c: char)
  {
    '0' <= c <= '9' || 'a' <= c <= 'f' || 'A' <= c <= 'F'
  }

  /** The value of one hex digit, either case, as `g_ascii_strtoull(_, _, 16)` reads it. */
  function HexDigitValue(c: char): (v: nat)
    requires IsHexDigit(c)
    ensures v < 16
  {
    if '0' <= c <= '9' then c as int - '0' as int
    else if 'a' <= c <= 'f' then c as int - 'a' as int + 10
    else c as int - 'A' as int + 10
  }

  /** The digit `%X` prints for a value below 16. */
  function UpperHexDigit(v: nat): (c: char)
    requires v < 16
    ensures IsHexDigit(c) && HexDigitValue(c) == v
    ensures UpperChar(c) == c
  {
    if v < 10 then ('0' as int + v) as char else ('A' as int + v - 10) as char
  }

  /** Printing the value of a hex digit gives back the digit, in upper case. */
  lemma UpperHexDigitOfValue(c: char)
    requires IsHexDigit(c)
    ensures UpperHexDigit(HexDigitValue(c)) == UpperChar(c)
  {
  }

  /** `metautils_str_ishexa(s, len)`: exactly `len` characters, all hex digits. */
  predicate IsHexa(s: string, len: nat)
  {
    |s| == len && forall i :: 0 <= i < |s| ==> IsHexDigit(s[i])
  }
}
