/**
 * Values of the .NET runtime that the CSV pipeline relies on: nullable
 * strings, the fixed-width integers its DTOs bind to, and the string
 * operations it calls (IsNullOrWhiteSpace, ToLowerInvariant, ordinal
 * ignore-case comparison, string.Join).
 */
module Common {

  datatype Option<+T> = None | Some(value: T)

  /** A C# `int`: the binder only ever produces values in this range. */
  newtype Int32 = x: int | -0x8000_0000 <= x < 0x8000_0000

  /** A C# `byte` (bedrooms, bathrooms, car spaces). */
  newtype Byte = x: int | 0 <= x < 0x100

  /** A `DateTime`; only copied, never computed on. */
  datatype DateTime = DateTime(ticks: int)

  /** The default `DateTime` (DateTime.MinValue). */
  const MinDateTime := DateTime(0)

  /** A `decimal` (latitude, longitude); only copied, never computed on. */
  datatype Decimal = Decimal(mantissa: int, scale: nat)

  /** char.IsWhiteSpace: the Unicode space separators plus the ASCII controls 9-13, U+0085, U+2028, U+2029. */
  predicate IsWhiteSpace(c: char) {
    var n := c as int;
    n == 0x20 || (0x09 <= n <= 0x0D) || n == 0x85 || n == 0xA0 || n == 0x1680 ||
    (0x2000 <= n <= 0x200A) || n == 0x2028 || n == 0x2029 || n == 0x202F ||
    n == 0x205F || n == 0x3000
  }

  /** string.IsNullOrWhiteSpace. */
  predicate IsNullOrWhiteSpace(s: Option<string>) {
    s.None? || forall i | 0 <= i < |s.value| :: IsWhiteSpace(s.value[i])
  }

  /** char.ToLowerInvariant, for the ASCII letters. */
  function ToLowerChar(c: char): char {
    if 'A' <= c <= 'Z' then (c as int + 32) as char else c
  }

  /** char.ToUpperInvariant, for the ASCII letters. */
  function ToUpperChar(c: char): char {
    if 'a' <= c <= 'z' then (c as int - 32) as char else c
  }

  /** string.ToLowerInvariant. */
  function ToLower(s: string): (r: string)
    ensures |r| == |s|
    ensures forall i | 0 <= i < |s| :: r[i] == ToLowerChar(s[i])
  {
    if s == [] then [] else [ToLowerChar(s[0])] + ToLower(s[1..])
  }

  /** string.ToUpperInvariant. */
  function ToUpper(s: string): (r: string)
    ensures |r| == |s|
    ensures forall i | 0 <= i < |s| :: r[i] == ToUpperChar(s[i])
  {
    if s == [] then [] else [ToUpperChar(s[0])] + ToUpper(s[1..])
  }

  /** A string that ToLowerInvariant leaves as it is. */
  predicate IsLowerCase(s: string) {
    forall i | 0 <= i < |s| :: !('A' <= s[i] <= 'Z')
  }

  /** StringComparer.OrdinalIgnoreCase equality: both sides upper-cased, compared code unit by code unit. */
  predicate EqualsOrdinalIgnoreCase(a: string, b: string) {
    |a| == |b| && forall i | 0 <= i < |a| :: ToUpperChar(a[i]) == ToUpperChar(b[i])
  }

  lemma LowerCaseIsFixed(s: string)
    requires IsLowerCase(s)
    ensures ToLower(s) == s
  {
  }

  /** string.Join(separator, parts). */
  function JoinWith(separator: string, parts: seq<string>): string {
    if |parts| == 0 then ""
    else if |parts| == 1 then parts[0]
    else parts[0] + separator + JoinWith(separator, parts[1..])
  }

  /** Wrapping in the same prefix and suffix keeps texts apart. */
  lemma WrapInjective(prefix: string, x: string, y: string, suffix: string)
    ensures prefix + x + suffix == prefix + y + suffix <==> x == y
  {
    if prefix + x + suffix == prefix + y + suffix {
      assert x == (prefix + x + suffix)[|prefix|..|prefix| + |x|];
    }
  }

  /** `needle` occurs somewhere inside `haystack`. */
  predicate Contains(haystack: string, needle: string) {
    exists i | 0 <= i <= |haystack| - |needle| :: OccursAt(haystack, needle, i)
  }

  predicate OccursAt(haystack: string, needle: string, i: int) {
    0 <= i <= |haystack| - |needle| && haystack[i..i + |needle|] == needle
  }

  lemma ContainsMiddle(a: string, b: string, c: string)
    ensures Contains(a + b + c, b)
  {
    assert (a + b + c)[|a|..|a| + |b|] == b;
    assert OccursAt(a + b + c, b, |a|);
  }

  /** The argument exceptions the entry points throw before building a result. */
  datatype Exception = ArgumentException(message: string) | ArgumentNullException(paramName: string)

  /** A call either returns a value or throws before building one. */
  datatype Outcome<T> = Returned(value: T) | Threw(exception: Exception)
}
