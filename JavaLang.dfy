/**
 * The few `java.lang` and `java.util` behaviours the identity pipeline depends on:
 * bytes, the two notions of a "blank" string (`String.isBlank` and Bean Validation's
 * trim-based `@NotBlank`), `String.length()` in UTF-16 code units, and
 * `Collectors.joining`.
 */
module JavaLang {

  /** A Java `byte`, read as its unsigned value. */
  newtype byte = x: int | 0 <= x < 256

  /** `Character.isWhitespace`: the ASCII controls TAB..CR and FS..US, SPACE, and the
      Unicode space, line and paragraph separators except the non-breaking ones. */
  predicate IsWhitespace(c: char) {
    var n := c as int;
    || 0x09 <= n <= 0x0D
    || 0x1C <= n <= 0x20
    || n == 0x1680
    || 0x2000 <= n <= 0x2006
    || 0x2008 <= n <= 0x200A
    || n == 0x2028 || n == 0x2029
    || n == 0x205F || n == 0x3000
  }

  /** `String.isBlank`: empty, or whitespace only. */
  predicate IsBlank(s: string) {
    forall i :: 0 <= i < |s| ==> IsWhitespace(s[i])
  }

  /** `s.trim().length() == 0`: every character is at most U+0020 (the test behind
      Bean Validation's `@NotBlank`). */
  predicate IsTrimmedEmpty(s: string) {
    forall i :: 0 <= i < |s| ==> s[i] as int <= 0x20
  }

  /** `String.length()`: a character outside the Basic Multilingual Plane takes two
      UTF-16 code units. */
  function Utf16Length(s: string): (n: nat)
    ensures |s| <= n <= 2 * |s|
    ensures (forall i :: 0 <= i < |s| ==> s[i] as int < 0x10000) ==> n == |s|
  {
    if |s| == 0 then 0
    else (if s[0] as int < 0x10000 then 1 else 2) + Utf16Length(s[1..])
  }

  /** `Collectors.joining(sep)`: the parts in order, separated by `sep`. */
  function Join(parts: seq<string>, sep: string): string
  {
    if |parts| == 0 then ""
    else if |parts| == 1 then parts[0]
    else parts[0] + sep + Join(parts[1..], sep)
  }

  /** Joining two non-empty runs puts exactly one separator between them. */
  lemma {:induction false} JoinAppend(a: seq<string>, b: seq<string>, sep: string)
    requires |a| > 0 && |b| > 0
    ensures Join(a + b, sep) == Join(a, sep) + sep + Join(b, sep)
  {
    if |a| == 1 {
      assert (a + b)[1..] == b;
    } else {
      assert (a + b)[1..] == a[1..] + b;
      JoinAppend(a[1..], b, sep);
    }
  }

  /** The joined text has the parts' lengths plus one separator between each pair:
      no leading and no trailing separator. */
  lemma {:induction false} JoinLength(parts: seq<string>, sep: string)
    requires |parts| > 0
    ensures |Join(parts, sep)| == TotalLength(parts) + (|parts| - 1) * |sep|
  {
    if |parts| > 1 {
      JoinLength(parts[1..], sep);
    }
  }

  function TotalLength(parts: seq<string>): nat
  {
    if |parts| == 0 then 0 else |parts[0]| + TotalLength(parts[1..])
  }

  /** Joined text starts with the first part and ends with the last. */
  lemma {:induction false} JoinBounds(parts: seq<string>, sep: string)
    requires |parts| > 0
    ensures parts[0] <= Join(parts, sep)
    ensures |parts[|parts| - 1]| <= |Join(parts, sep)|
    ensures Join(parts, sep)[|Join(parts, sep)| - |parts[|parts| - 1]|..] == parts[|parts| - 1]
  {
    if |parts| > 1 {
      JoinBounds(parts[1..], sep);
      var rest := Join(parts[1..], sep);
      assert Join(parts, sep) == (parts[0] + sep) + rest;
    }
  }
}
