/**
 * `spdk_nvmf_validate_nqn`: the NVMe Qualified Name check of the target
 * configuration (section 7.9 of the NVMe Base Specification 1.4 gives the
 * "nqn.yyyy-mm." form). Only the length, the prefix and the date code are
 * checked; the month is not range-checked and nothing after the date code is
 * looked at.
 */
module NqnFormat {
  import opened Wrappers
  import opened CStrings
  import opened NvmePaths

  /** Why a name is refused, in the order the checks run. */
  datatype NqnError = TooLong | BadPrefix | BadDateCode

  /** `s[k]` on a C string: the terminator reads as NUL. */
  function CharAt(s: CString, k: nat): (c: char)
    ensures k < |s| ==> c == s[k]
    ensures k >= |s| ==> c == '\0'
  {
    if k < |s| then s[k] else '\0'
  }

  /** The "yyyy-mm." test on characters 4 to 11, evaluated left to right. */
  predicate DateCodeAt(s: CString) {
    && IsDigit(CharAt(s, 4)) && IsDigit(CharAt(s, 5)) && IsDigit(CharAt(s, 6)) && IsDigit(CharAt(s, 7))
    && CharAt(s, 8) == '-' && IsDigit(CharAt(s, 9)) && IsDigit(CharAt(s, 10)) && CharAt(s, 11) == '.'
  }

  /**
   * The accepted names, stated on the characters themselves: at most
   * `NqnMaxLen` and at least 12 characters, "nqn." in any case, four
   * digits, '-', two digits, '.'.
   */
  predicate WellFormedNqn(s: string) {
    && 12 <= |s| <= NqnMaxLen
    && EqualIgnoreCase(s[..4], "nqn.")
    && IsDigit(s[4]) && IsDigit(s[5]) && IsDigit(s[6]) && IsDigit(s[7])
    && s[8] == '-' && IsDigit(s[9]) && IsDigit(s[10]) && s[11] == '.'
  }

  /** `spdk_nvmf_validate_nqn`: `None` is 0, `Some(e)` is -1 for reason `e`. */
  function ValidateNqn(nqn: CString): (r: Option<NqnError>)
    ensures r.None? <==> WellFormedNqn(nqn)
    ensures r == Some(TooLong) <==> |nqn| > NqnMaxLen
    ensures r == Some(BadPrefix) <==> |nqn| <= NqnMaxLen && !HasPrefixIgnoreCase(nqn, "nqn.")
    ensures r == Some(BadDateCode) ==> |nqn| <= NqnMaxLen && HasPrefixIgnoreCase(nqn, "nqn.")
  {
    if |nqn| > NqnMaxLen then Some(TooLong)
    else if !HasPrefixIgnoreCase(nqn, "nqn.") then Some(BadPrefix)
    else if !DateCodeAt(nqn) then (ShortNameFailsDateCode(nqn); Some(BadDateCode))
    else None
  }

  /** A name of fewer than 12 characters meets its terminator inside the date code. */
  lemma ShortNameFailsDateCode(s: CString)
    ensures DateCodeAt(s) ==> |s| >= 12
  {
    if |s| < 12 {
      assert CharAt(s, |s|) == '\0';
    }
  }

  /** The prefix is compared without regard to case: names differing only in the case of their first four characters decide alike. */
  lemma {:induction false} PrefixIgnoresCase(s: CString, t: CString)
    requires 4 <= |s| == |t| && EqualIgnoreCase(s[..4], t[..4]) && s[4..] == t[4..]
    ensures ValidateNqn(s) == ValidateNqn(t)
  {
    assert forall k :: 4 <= k < |s| ==> s[k] == s[4..][k - 4] == t[4..][k - 4] == t[k];
    assert EqualIgnoreCase(s[..4], "nqn.") == EqualIgnoreCase(t[..4], "nqn.");
  }

  /** The date code in the example of the standard's form passes. */
  lemma AcceptedExample()
    ensures ValidateNqn("nqn.2014-08.org.x").None?
  {
  }

  /** A letter inside the year fails the date code. */
  lemma LetterInYearRejected()
    ensures ValidateNqn("nqn.20a4-08.x") == Some(BadDateCode)
  {
    assert !IsDigit("nqn.20a4-08.x"[6]);
  }

  /** The month is not range-checked. */
  lemma MonthUnchecked()
    ensures ValidateNqn("nqn.2014-99.x").None?
  {
  }

  /** A name cut off after the month fails on its terminator. */
  lemma TruncatedDateRejected()
    ensures ValidateNqn("nqn.2014-08") == Some(BadDateCode)
  {
    assert CharAt("nqn.2014-08", 11) == '\0';
  }
}
