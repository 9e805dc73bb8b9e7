/** Option/Result wrappers for the error paths of the C code. */
module Wrappers {

  datatype Option<+T> = None | Some(value: T) {
    function GetOr(default: T): T {
      match this
      case Some(v) => v
      case None => default
    }
  }

  datatype Result<+R, +E> = Success(value: R) | Failure(error: E)
}

/**
 * C string helpers in the C locale: characters are compared as ASCII, and
 * every string handed to the modelled code is NUL-free (a JSON string or a
 * configuration value), so the terminator sits just past its last character.
 */
module CStrings {
  import opened Wrappers

  /** An ASCII character: one byte in the C locale. */
  type AsciiChar = c: char | c as int < 128

  /**
   * A NUL-terminated string of single-byte characters, seen without its
   * terminator. Every character is below 128, so a character is one byte
   * and `strlen`, `strnlen` and `snprintf` count exactly `|s|`.
   */
  type CString = s: seq<AsciiChar> | '\0' !in s

  /** isdigit() in the C locale. */
  predicate IsDigit(c: char) {
    '0' <= c <= '9'
  }

  /** isxdigit() in the C locale. */
  predicate IsHexDigit(c: char) {
    IsDigit(c) || 'a' <= c <= 'f' || 'A' <= c <= 'F'
  }

  /** isspace() in the C locale. */
  predicate IsSpace(c: char) {
    c == ' ' || c == '\t' || c == '\n' || c == '\r' || c == '\U{0B}' || c == '\U{0C}'
  }

  /** tolower() in the C locale: only 'A'..'Z' change. */
  function ToLower(c: char): (r: char)
    ensures 'A' <= c <= 'Z' ==> 'a' <= r <= 'z' && r as int == c as int + 32
    ensures !('A' <= c <= 'Z') ==> r == c
  {
    if 'A' <= c <= 'Z' then (c as int + 32) as char else c
  }

  /** strcasecmp(a, b) == 0. */
  predicate EqualIgnoreCase(a: string, b: string) {
    |a| == |b| && forall i :: 0 <= i < |a| ==> ToLower(a[i]) == ToLower(b[i])
  }

  /**
   * strncasecmp(s, prefix, strlen(prefix)) == 0: a string shorter than the
   * prefix fails, because its terminator meets a character of the prefix.
   */
  predicate HasPrefixIgnoreCase(s: string, prefix: string) {
    |prefix| <= |s| && EqualIgnoreCase(s[..|prefix|], prefix)
  }

  function Min(a: nat, b: nat): nat {
    if a <= b then a else b
  }

  /** strnlen(s, maxlen). */
  function StrNLen(s: CString, maxlen: nat): (n: nat)
    ensures n <= maxlen && n <= |s|
    ensures n < maxlen <==> |s| < maxlen
  {
    Min(|s|, maxlen)
  }

  /**
   * The field check of the RPC handlers: `strnlen(s, sizeof(buf)) == sizeof(buf)`
   * rejects, so a string fits exactly when it leaves room for its terminator.
   */
  predicate FitsIn(s: CString, capacity: nat) {
    StrNLen(s, capacity) != capacity
  }

  /** strncmp(a, b, n) == 0. */
  predicate StrNEqual(a: CString, b: CString, n: nat) {
    a[..Min(|a|, n)] == b[..Min(|b|, n)]
  }

  /** snprintf(buf, size, "%s", s): keeps at most size - 1 characters. */
  function Truncate(s: CString, size: nat): (r: CString)
    requires size >= 1
    ensures |r| < size && r <= s
    ensures |r| == Min(|s|, size - 1)
    ensures |s| < size ==> r == s
  {
    s[..Min(|s|, size - 1)]
  }

  /** strchr(s + from, c): the first index at or after `from` holding c. */
  function IndexOf(s: string, c: char, from: nat): (r: Option<nat>)
    decreases |s| - from
    ensures r.Some? ==> from <= r.value < |s| && s[r.value] == c
    ensures r.Some? ==> forall k :: from <= k < r.value ==> s[k] != c
    ensures r.None? ==> forall k :: from <= k < |s| ==> s[k] != c
  {
    if from >= |s| then None
    else if s[from] == c then Some(from)
    else IndexOf(s, c, from + 1)
  }

  /** The first index at or after `from` whose character is a decimal digit. */
  function FirstDigit(s: string, from: nat): (r: Option<nat>)
    decreases |s| - from
    ensures r.Some? ==> from <= r.value < |s| && IsDigit(s[r.value])
    ensures r.Some? ==> forall k :: from <= k < r.value ==> !IsDigit(s[k])
    ensures r.None? ==> forall k :: from <= k < |s| ==> !IsDigit(s[k])
  {
    if from >= |s| then None
    else if IsDigit(s[from]) then Some(from)
    else FirstDigit(s, from + 1)
  }

  /** Value of a string of decimal digits, most significant first. */
  function DecimalValue(ds: string): nat
    requires forall i :: 0 <= i < |ds| ==> IsDigit(ds[i])
  {
    if ds == [] then 0
    else 10 * DecimalValue(ds[..|ds| - 1]) + DigitValue(ds[|ds| - 1])
  }

  /** Value of one decimal digit. */
  function DigitValue(c: char): (v: nat)
    requires IsDigit(c)
    ensures v < 10
  {
    c as int - '0' as int
  }

  /** Value of one hexadecimal digit. */
  function HexDigitValue(c: char): (v: nat)
    requires IsHexDigit(c)
    ensures v < 16
  {
    if IsDigit(c) then DigitValue(c)
    else if 'a' <= c <= 'f' then c as int - 'a' as int + 10
    else c as int - 'A' as int + 10
  }

  /** Value of a string of hexadecimal digits, most significant first. */
  function HexValue(ds: string): nat
    requires forall i :: 0 <= i < |ds| ==> IsHexDigit(ds[i])
  {
    if ds == [] then 0
    else 16 * HexValue(ds[..|ds| - 1]) + HexDigitValue(ds[|ds| - 1])
  }

  /** Marks where strchr stops: nothing before `a`'s end matches, so the search runs into `b`. */
  lemma {:induction false} IndexOfConcat(a: string, b: string, c: char, from: nat)
    requires from <= |a|
    requires forall k :: from <= k < |a| ==> a[k] != c
    ensures IndexOf(a + b, c, from) ==
            (match IndexOf(b, c, 0)
             case None => None
             case Some(j) => Some(|a| + j))
    decreases |a| - from
  {
    if from < |a| {
      IndexOfConcat(a, b, c, from + 1);
    } else {
      IndexOfShift(a, b, c, 0);
    }
  }

  /** Searching `a + b` from inside `b` is searching `b`, shifted by |a|. */
  lemma {:induction false} IndexOfShift(a: string, b: string, c: char, j: nat)
    requires j <= |b|
    ensures IndexOf(a + b, c, |a| + j) ==
            (match IndexOf(b, c, j)
             case None => None
             case Some(k) => Some(|a| + k))
    decreases |b| - j
  {
    if j < |b| {
      assert (a + b)[|a| + j] == b[j];
      IndexOfShift(a, b, c, j + 1);
    }
  }
}
