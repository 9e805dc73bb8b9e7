/**
 * `spdk_nvmf_parse_nvme`: the `[Nvme]` section of the target configuration.
 * Unless `ClaimAllDevices Yes`, every `BDF` line must carry an address that
 * `sscanf("%x:%x:%x.%x")` reads in full and a device name; the whitelist
 * keeps the lines in configuration order, and at least one line is needed.
 */
module NvmeConf {
  import opened Wrappers
  import opened CStrings
  import opened ConfSection

  /** `unsigned int` holds values below 2^32; `%x` stores a negated value wrapped into that range. */
  const UintRange: nat := 0x1_0000_0000

  /** PCI domain, bus, device, function. */
  datatype Bdf = Bdf(domain: nat, bus: nat, dev: nat, func: nat)

  /** `struct nvme_bdf_whitelist`: an address and the device name cut to the name buffer. */
  datatype WhitelistEntry = WhitelistEntry(bdf: Bdf, name: CString)

  /** The first index at or after `i` that is not white space. */
  function SkipSpace(s: string, i: nat): (j: nat)
    requires i <= |s|
    ensures i <= j <= |s| && (j == |s| || !IsSpace(s[j]))
    decreases |s| - i
  {
    if i < |s| && IsSpace(s[i]) then SkipSpace(s, i + 1) else i
  }

  /** A converted value and the index just after its text. */
  datatype Scanned = Scanned(value: nat, next: nat)

  /** The hex digits from `i` on, accumulated onto `acc` until the first other character. */
  function HexDigits(s: string, i: nat, acc: nat): (r: Scanned)
    requires i <= |s|
    ensures i <= r.next <= |s|
    decreases |s| - i
  {
    if i < |s| && IsHexDigit(s[i]) then HexDigits(s, i + 1, 16 * acc + HexDigitValue(s[i]))
    else Scanned(acc, i)
  }

  /**
   * One `%x` conversion at `i`: white space, an optional sign, an optional
   * "0x" or "0X" before a hex digit, then at least one hex digit. Values
   * beyond `unsigned int` are not modelled.
   */
  function ScanHex(s: CString, i: nat): (r: Option<Scanned>)
    ensures r.Some? ==> i < r.value.next <= |s|
  {
    if i > |s| then None
    else
      var j := SkipSpace(s, i);
      var signed := j < |s| && (s[j] == '-' || s[j] == '+');
      var k := if signed then j + 1 else j;
      var m := if k + 2 < |s| && s[k] == '0' && (s[k + 1] == 'x' || s[k + 1] == 'X') && IsHexDigit(s[k + 2])
               then k + 2 else k;
      if m == |s| || !IsHexDigit(s[m]) then None
      else
        var d := HexDigits(s, m, 0);
        Some(Scanned(if signed && s[j] == '-' then (UintRange - d.value % UintRange) % UintRange else d.value, d.next))
  }

  /** `c` follows a `%x` field without extending it. */
  predicate EndsHexField(c: char) {
    !IsHexDigit(c) && c != 'x' && c != 'X'
  }

  /** A reader of one numeric field: a value and where its text ends. */
  type FieldScanner = (CString, nat) -> Option<Scanned>

  /**
   * `sscanf` on a format of conversions read by `scan`, with the literal
   * characters `seps` between them: the values converted, provided the
   * input matches the whole format. What follows the last conversion is
   * not looked at.
   */
  function ScanFormat(s: CString, scan: FieldScanner, i: nat, seps: string): (r: Option<seq<nat>>)
    ensures r.Some? ==> |r.value| == |seps| + 1
    decreases |seps|
  {
    match scan(s, i)
    case None => None
    case Some(d) =>
      if seps == [] then Some([d.value])
      else if d.next >= |s| || s[d.next] != seps[0] then None
      else match ScanFormat(s, scan, d.next + 1, seps[1..])
        case None => None
        case Some(rest) => Some([d.value] + rest)
  }

  /** `sscanf(val, "%x:%x:%x.%x", ...) == 4`. */
  function ScanBdf(s: CString): (r: Option<Bdf>)
  {
    match ScanFormat(s, ScanHex, 0, [':', ':', '.'])
    case None => None
    case Some(v) => Some(Bdf(v[0], v[1], v[2], v[3]))
  }

  /**
   * An address is read exactly when the whole format matches; it starts
   * with a hex field, which is the domain, followed by ':'.
   */
  lemma ScanBdfDomain(s: CString)
    ensures ScanBdf(s).Some? <==> ScanFormat(s, ScanHex, 0, [':', ':', '.']).Some?
    ensures ScanBdf(s).Some? ==>
      && ScanHex(s, 0).Some? && ScanBdf(s).value.domain == ScanHex(s, 0).value.value
      && ScanHex(s, 0).value.next < |s| && s[ScanHex(s, 0).value.next] == ':'
  {
  }

  /** Over a run of hex digits from `i0` to `j`, accumulating from `i` ends at `j` with the run's value. */
  lemma {:induction false} HexDigitsValue(s: string, i0: nat, i: nat, j: nat)
    requires i0 <= i <= j <= |s|
    requires forall k :: i0 <= k < j ==> IsHexDigit(s[k])
    requires j == |s| || !IsHexDigit(s[j])
    ensures HexDigits(s, i, HexValue(s[i0..i])) == Scanned(HexValue(s[i0..j]), j)
    decreases j - i
  {
    if i < j {
      assert s[i0..i + 1][..i - i0] == s[i0..i];
      HexDigitsValue(s, i0, i + 1, j);
    }
  }

  /** `s[i..j]` is the nonempty hex field `t`, followed by the end or a character that ends it. */
  predicate FieldAt(s: string, i: nat, j: nat, t: string) {
    && t != [] && (forall k :: 0 <= k < |t| ==> IsHexDigit(t[k]))
    && j == i + |t| <= |s| && s[i..j] == t
    && (j == |s| || EndsHexField(s[j]))
  }

  /** A field of hex digits at `i` reads as its value and ends at `j`. */
  lemma ScanHexAt(s: CString, i: nat, j: nat, t: string)
    requires FieldAt(s, i, j, t)
    ensures ScanHex(s, i) == Some(Scanned(HexValue(t), j))
  {
    assert s[i] == t[0];
    assert |t| > 1 ==> s[i + 1] == t[1];
    assert SkipSpace(s, i) == i;
    assert s[i..i] == [];
    assert forall k :: i <= k < j ==> s[k] == t[k - i];
    HexDigitsValue(s, i, i, j);
  }

  /** A conversion followed by the next literal of the format continues with the rest of the format. */
  lemma ScanFormatStep(s: CString, scan: FieldScanner, i: nat, c: char, more: string, v: nat, n: nat, rest: seq<nat>)
    requires scan(s, i) == Some(Scanned(v, n)) && n < |s| && s[n] == c
    requires ScanFormat(s, scan, n + 1, more) == Some(rest)
    ensures ScanFormat(s, scan, i, [c] + more) == Some([v] + rest)
  {
    assert ([c] + more)[1..] == more;
  }

  /** Where the four fields and their separators sit in `t1:t2:t3.t4` followed by `tail`. */
  lemma BdfLayout(t1: string, t2: string, t3: string, t4: string, tail: string)
    ensures var s := t1 + ":" + t2 + ":" + t3 + "." + t4 + tail;
      var n1 := |t1|;
      var n2 := n1 + 1 + |t2|;
      var n3 := n2 + 1 + |t3|;
      var n4 := n3 + 1 + |t4|;
      && |s| == n4 + |tail|
      && s[0..n1] == t1 && s[n1] == ':'
      && s[n1 + 1..n2] == t2 && s[n2] == ':'
      && s[n2 + 1..n3] == t3 && s[n3] == '.'
      && s[n3 + 1..n4] == t4 && s[n4..] == tail
  {
    var s := t1 + ":" + t2 + ":" + t3 + "." + t4 + tail;
    var n1 := |t1|;
    var n2 := n1 + 1 + |t2|;
    var n3 := n2 + 1 + |t3|;
    var n4 := n3 + 1 + |t4|;
    assert s == (t1 + ":" + t2 + ":" + t3 + "." + t4) + tail;
    assert s[..n4] == t1 + ":" + t2 + ":" + t3 + "." + t4;
    assert s[..n3] == t1 + ":" + t2 + ":" + t3;
    assert s[..n2] == t1 + ":" + t2;
    assert s[..n1] == t1;
  }

  /** An address printed as four hex fields reads back as those four values, whatever follows it. */
  lemma BdfRoundTrip(s: CString, t1: CString, t2: CString, t3: CString, t4: CString, tail: CString)
    requires t1 != [] && forall k :: 0 <= k < |t1| ==> IsHexDigit(t1[k])
    requires t2 != [] && forall k :: 0 <= k < |t2| ==> IsHexDigit(t2[k])
    requires t3 != [] && forall k :: 0 <= k < |t3| ==> IsHexDigit(t3[k])
    requires t4 != [] && forall k :: 0 <= k < |t4| ==> IsHexDigit(t4[k])
    requires tail == [] || EndsHexField(tail[0])
    requires s == t1 + ":" + t2 + ":" + t3 + "." + t4 + tail
    ensures ScanBdf(s) == Some(Bdf(HexValue(t1), HexValue(t2), HexValue(t3), HexValue(t4)))
  {
    PrintedFields(t1, t2, t3, t4, tail);
    BdfFieldsAt(s, t1, t2, t3, t4, |t1|, |t1| + 1 + |t2|, |t1| + |t2| + |t3| + 2, |t1| + |t2| + |t3| + |t4| + 3);
  }

  /** The four printed fields sit in the string as `BdfFieldsAt` needs them. */
  lemma PrintedFields(t1: CString, t2: CString, t3: CString, t4: CString, tail: CString)
    requires t1 != [] && forall k :: 0 <= k < |t1| ==> IsHexDigit(t1[k])
    requires t2 != [] && forall k :: 0 <= k < |t2| ==> IsHexDigit(t2[k])
    requires t3 != [] && forall k :: 0 <= k < |t3| ==> IsHexDigit(t3[k])
    requires t4 != [] && forall k :: 0 <= k < |t4| ==> IsHexDigit(t4[k])
    requires tail == [] || EndsHexField(tail[0])
    ensures var s := t1 + ":" + t2 + ":" + t3 + "." + t4 + tail;
      var n1 := |t1|;
      var n2 := n1 + 1 + |t2|;
      var n3 := n2 + 1 + |t3|;
      var n4 := n3 + 1 + |t4|;
      && FieldAt(s, 0, n1, t1) && n1 < |s| && s[n1] == ':'
      && FieldAt(s, n1 + 1, n2, t2) && n2 < |s| && s[n2] == ':'
      && FieldAt(s, n2 + 1, n3, t3) && n3 < |s| && s[n3] == '.'
      && FieldAt(s, n3 + 1, n4, t4)
  {
    var s := t1 + ":" + t2 + ":" + t3 + "." + t4 + tail;
    BdfLayout(t1, t2, t3, t4, tail);
    var n4 := |t1| + |t2| + |t3| + |t4| + 3;
    assert n4 < |s| ==> s[n4] == tail[0] by {
      assert n4 < |s| ==> s[n4] == s[n4..][0];
    }
    assert EndsHexField(':') && EndsHexField('.');
  }

  /** A string laid out as four hex fields with ':', ':' and '.' between them reads as their values. */
  lemma BdfFieldsAt(s: CString, t1: string, t2: string, t3: string, t4: string, n1: nat, n2: nat, n3: nat, n4: nat)
    requires FieldAt(s, 0, n1, t1) && n1 < |s| && s[n1] == ':'
    requires FieldAt(s, n1 + 1, n2, t2) && n2 < |s| && s[n2] == ':'
    requires FieldAt(s, n2 + 1, n3, t3) && n3 < |s| && s[n3] == '.'
    requires FieldAt(s, n3 + 1, n4, t4)
    ensures ScanBdf(s) == Some(Bdf(HexValue(t1), HexValue(t2), HexValue(t3), HexValue(t4)))
  {
    Displays(HexValue(t1), HexValue(t2), HexValue(t3), HexValue(t4));
    Displays(':', ':', ':', '.');
    LastFields(s, t2, t3, t4, n1, n2, n3, n4);
    HexFieldThen(s, 0, n1, t1, ':', [':', '.'], [':', ':', '.'],
                 [HexValue(t2), HexValue(t3), HexValue(t4)], [HexValue(t1), HexValue(t2), HexValue(t3), HexValue(t4)]);
    BdfOfValues(s, HexValue(t1), HexValue(t2), HexValue(t3), HexValue(t4));
  }

  /** The bus, device and function fields: the format after the first ':'. */
  lemma LastFields(s: CString, t2: string, t3: string, t4: string, n1: nat, n2: nat, n3: nat, n4: nat)
    requires FieldAt(s, n1 + 1, n2, t2) && n2 < |s| && s[n2] == ':'
    requires FieldAt(s, n2 + 1, n3, t3) && n3 < |s| && s[n3] == '.'
    requires FieldAt(s, n3 + 1, n4, t4)
    ensures ScanFormat(s, ScanHex, n1 + 1, [':', '.']) == Some([HexValue(t2), HexValue(t3), HexValue(t4)])
  {
    assert [':'] + ['.'] == [':', '.'];
    assert [HexValue(t2)] + [HexValue(t3), HexValue(t4)] == [HexValue(t2), HexValue(t3), HexValue(t4)];
    FunctionField(s, t3, t4, n2, n3, n4);
    HexFieldThen(s, n1 + 1, n2, t2, ':', ['.'], [':', '.'],
                 [HexValue(t3), HexValue(t4)], [HexValue(t2), HexValue(t3), HexValue(t4)]);
  }

  /** The device and function fields: the format after the second ':'. */
  lemma FunctionField(s: CString, t3: string, t4: string, n2: nat, n3: nat, n4: nat)
    requires FieldAt(s, n2 + 1, n3, t3) && n3 < |s| && s[n3] == '.'
    requires FieldAt(s, n3 + 1, n4, t4)
    ensures ScanFormat(s, ScanHex, n2 + 1, ['.']) == Some([HexValue(t3), HexValue(t4)])
  {
    assert ['.'] + [] == ['.'] && [HexValue(t3)] + [HexValue(t4)] == [HexValue(t3), HexValue(t4)];
    LastHexField(s, n3 + 1, n4, t4);
    HexFieldThen(s, n2 + 1, n3, t3, '.', [], ['.'], [HexValue(t4)], [HexValue(t3), HexValue(t4)]);
  }

  /** Four values converted by the whole format make the address. */
  lemma BdfOfValues(s: CString, v1: nat, v2: nat, v3: nat, v4: nat)
    requires ScanFormat(s, ScanHex, 0, [':', ':', '.']) == Some([v1, v2, v3, v4])
    ensures ScanBdf(s) == Some(Bdf(v1, v2, v3, v4))
  {
  }

  /** Displays built one element at a time. */
  lemma Displays<T>(a: T, b: T, c: T, d: T)
    ensures [c] + [d] == [c, d] && [b] + [c, d] == [b, c, d] && [a] + [b, c, d] == [a, b, c, d]
  {
  }

  /** The last conversion of a format. */
  lemma LastHexField(s: CString, i: nat, n: nat, t: string)
    requires FieldAt(s, i, n, t)
    ensures ScanFormat(s, ScanHex, i, []) == Some([HexValue(t)])
  {
    ScanHexAt(s, i, n, t);
  }

  /** A conversion, then the literal `c`, then the rest of the format. */
  lemma HexFieldThen(s: CString, i: nat, n: nat, t: string, c: char, more: string, seps: string, rest: seq<nat>, vals: seq<nat>)
    requires FieldAt(s, i, n, t) && n < |s| && s[n] == c
    requires ScanFormat(s, ScanHex, n + 1, more) == Some(rest)
    requires seps == [c] + more && vals == [HexValue(t)] + rest
    ensures ScanFormat(s, ScanHex, i, seps) == Some(vals)
  {
    ScanHexAt(s, i, n, t);
    ScanFormatStep(s, ScanHex, i, c, more, HexValue(t), n, rest);
  }

  /** The usual form of a PCI address. */
  lemma BdfExample()
    ensures ScanBdf("0000:01:00.0") == Some(Bdf(0, 1, 0, 0))
  {
    HexLiterals();
    assert "0000" + ":" == "0000:";
    assert "0000:" + "01" == "0000:01";
    assert "0000:01" + ":" == "0000:01:";
    assert "0000:01:" + "00" == "0000:01:00";
    assert "0000:01:00" + "." == "0000:01:00.";
    assert "0000:01:00." + "0" == "0000:01:00.0";
    assert "0000:01:00.0" + "" == "0000:01:00.0";
    BdfRoundTrip("0000:01:00.0", "0000", "01", "00", "0", "");
  }

  /** One more digit on the right multiplies by sixteen and adds it. */
  lemma HexValueSnoc(a: string, c: char)
    requires (forall k :: 0 <= k < |a| ==> IsHexDigit(a[k])) && IsHexDigit(c)
    ensures HexValue(a + [c]) == 16 * HexValue(a) + HexDigitValue(c)
  {
    assert (a + [c])[..|a|] == a;
  }

  lemma HexLiterals()
    ensures HexValue("0") == 0 && HexValue("00") == 0 && HexValue("0000") == 0 && HexValue("01") == 1
  {
    assert HexValue("0") == 0 by {
      HexValueSnoc("", '0');
      assert "" + ['0'] == "0";
    }
    assert HexValue("00") == 0 by {
      HexValueSnoc("0", '0');
      assert "0" + ['0'] == "00";
    }
    assert HexValue("000") == 0 by {
      HexValueSnoc("00", '0');
      assert "00" + ['0'] == "000";
    }
    assert HexValue("0000") == 0 by {
      HexValueSnoc("000", '0');
      assert "000" + ['0'] == "0000";
    }
    assert HexValue("01") == 1 by {
      HexValueSnoc("0", '1');
      assert "0" + ['1'] == "01";
    }
  }

  /** Where the three fields and their separators sit in `t1:t2:t3`. */
  lemma ShortLayout(t1: string, t2: string, t3: string)
    ensures var s := t1 + ":" + t2 + ":" + t3;
      var n1 := |t1|;
      var n2 := n1 + 1 + |t2|;
      && |s| == n2 + 1 + |t3|
      && s[0..n1] == t1 && s[n1] == ':'
      && s[n1 + 1..n2] == t2 && s[n2] == ':'
      && s[n2 + 1..|s|] == t3
  {
    var s := t1 + ":" + t2 + ":" + t3;
    assert s == (t1 + ":" + t2 + ":") + t3;
    assert s[..|t1| + 1 + |t2|] == t1 + ":" + t2;
    assert s[..|t1|] == t1;
  }

  /** An address without its function field does not give four conversions. */
  lemma MissingFunctionRejected(t1: CString, t2: CString, t3: CString)
    requires t1 != [] && forall k :: 0 <= k < |t1| ==> IsHexDigit(t1[k])
    requires t2 != [] && forall k :: 0 <= k < |t2| ==> IsHexDigit(t2[k])
    requires t3 != [] && forall k :: 0 <= k < |t3| ==> IsHexDigit(t3[k])
    ensures ScanBdf(t1 + ":" + t2 + ":" + t3).None?
  {
    var s: CString := t1 + ":" + t2 + ":" + t3;
    ShortLayout(t1, t2, t3);
    var n1 := |t1|;
    var n2 := n1 + 1 + |t2|;
    assert EndsHexField(':');
    assert FieldAt(s, 0, n1, t1) && FieldAt(s, n1 + 1, n2, t2) && FieldAt(s, n2 + 1, |s|, t3);
    ShortFields(s, t1, t2, t3, n1, n2);
  }

  /** Three fields, the last one running to the end, fail before the '.' of the format. */
  lemma ShortFields(s: CString, t1: string, t2: string, t3: string, n1: nat, n2: nat)
    requires FieldAt(s, 0, n1, t1) && n1 < |s| && s[n1] == ':'
    requires FieldAt(s, n1 + 1, n2, t2) && n2 < |s| && s[n2] == ':'
    requires FieldAt(s, n2 + 1, |s|, t3)
    ensures ScanBdf(s).None?
  {
    Displays(':', ':', ':', '.');
    ShortTail(s, t2, t3, n1, n2);
    HexFieldThenNone(s, 0, n1, t1, ':', [':', '.'], [':', ':', '.']);
  }

  lemma ShortTail(s: CString, t2: string, t3: string, n1: nat, n2: nat)
    requires FieldAt(s, n1 + 1, n2, t2) && n2 < |s| && s[n2] == ':'
    requires FieldAt(s, n2 + 1, |s|, t3)
    ensures ScanFormat(s, ScanHex, n1 + 1, [':', '.']).None?
  {
    Displays(':', ':', ':', '.');
    FieldAtEnd(s, n2 + 1, t3, '.');
    HexFieldThenNone(s, n1 + 1, n2, t2, ':', ['.'], [':', '.']);
  }

  /** A conversion that runs to the end of the input leaves the next literal unmatched. */
  lemma FieldAtEnd(s: CString, i: nat, t: string, c: char)
    requires FieldAt(s, i, |s|, t)
    ensures ScanFormat(s, ScanHex, i, [c]).None?
  {
    ScanHexAt(s, i, |s|, t);
  }

  /** A conversion and its literal, then a failure later in the format, fail the whole format. */
  lemma HexFieldThenNone(s: CString, i: nat, n: nat, t: string, c: char, more: string, seps: string)
    requires FieldAt(s, i, n, t) && n < |s| && s[n] == c
    requires ScanFormat(s, ScanHex, n + 1, more).None?
    requires seps == [c] + more
    ensures ScanFormat(s, ScanHex, i, seps).None?
  {
    ScanHexAt(s, i, n, t);
    assert seps[1..] == more;
  }

  /** The values of the `[Nvme]` section's keys. */
  datatype NvmeSection = NvmeSection(
    claimAllDevices: Option<CString>, unbindFromKernel: Option<CString>, bdf: seq<seq<CString>>)

  /** What `spdk_nvmf_init_nvme` receives. */
  datatype NvmeSetup = NvmeSetup(whitelist: seq<WhitelistEntry>, claimAll: bool, unbindFromKernel: bool)

  /** Why the section is refused; the function returns -1 for each. */
  datatype NvmeError = NoNvmeSection | BadBdf(line: nat) | NoDeviceName(line: nat) | NoBdfLines

  /** `!strcmp(val, "Yes")` on a present value: exact and case-sensitive. */
  predicate IsYes(v: Option<CString>) {
    v == Some("Yes")
  }

  /** The address reader the whitelist loop applies; the section parser uses `ScanBdf`. */
  type BdfReader = CString -> Option<Bdf>

  /** The whitelist built from BDF line `i` on, up to the first line without values. */
  function WhitelistFrom(lines: seq<seq<CString>>, read: BdfReader, nameSize: nat, i: nat): (r: Result<seq<WhitelistEntry>, NvmeError>)
    requires nameSize >= 1
    ensures r.Failure? ==> (r.error.BadBdf? || r.error.NoDeviceName?) && i <= r.error.line < |lines|
    ensures r.Success? && r.value == [] <==> NmVal(lines, i, 0).None?
    decreases |lines| - i
  {
    if NmVal(lines, i, 0).None? then Success([])
    else match read(lines[i][0])
      case None => Failure(BadBdf(i))
      case Some(b) =>
        if NmVal(lines, i, 1).None? then Failure(NoDeviceName(i))
        else match WhitelistFrom(lines, read, nameSize, i + 1)
          case Failure(e) => Failure(e)
          case Success(rest) => Success([WhitelistEntry(b, Truncate(lines[i][1], nameSize))] + rest)
  }

  /** `w` followed by the whitelist `r`, keeping a failure. */
  function Prepend(w: seq<WhitelistEntry>, r: Result<seq<WhitelistEntry>, NvmeError>): Result<seq<WhitelistEntry>, NvmeError> {
    match r
    case Failure(e) => Failure(e)
    case Success(rest) => Success(w + rest)
  }

  /**
   * `spdk_nvmf_parse_nvme` up to `spdk_nvmf_init_nvme`; `nameSize` is
   * MAX_NVME_NAME_LENGTH.
   */
  function NvmeResult(sec: Option<NvmeSection>, nameSize: nat): (r: Result<NvmeSetup, NvmeError>)
    requires nameSize >= 1
    ensures sec.None? <==> r == Failure(NoNvmeSection)
    ensures r.Success? ==> (r.value.claimAll <==> IsYes(sec.value.claimAllDevices))
    ensures r.Success? ==> r.value.unbindFromKernel == IsYes(sec.value.unbindFromKernel)
    ensures r.Success? ==> (r.value.whitelist == [] <==> r.value.claimAll)
    ensures sec.Some? && IsYes(sec.value.claimAllDevices) ==> r.Success?
    ensures sec.Some? && !IsYes(sec.value.claimAllDevices) ==>
              (r == Failure(NoBdfLines) <==> NmVal(sec.value.bdf, 0, 0).None?)
    ensures r.Success? && !r.value.claimAll ==>
              WhitelistFrom(sec.value.bdf, ScanBdf, nameSize, 0) == Success(r.value.whitelist)
    ensures r.Failure? && r.error != NoNvmeSection && r.error != NoBdfLines ==>
              WhitelistFrom(sec.value.bdf, ScanBdf, nameSize, 0) == Failure(r.error)
  {
    match sec
    case None => Failure(NoNvmeSection)
    case Some(s) =>
      var claimAll := IsYes(s.claimAllDevices);
      var unbind := IsYes(s.unbindFromKernel);
      if claimAll then Success(NvmeSetup([], true, unbind))
      else match WhitelistFrom(s.bdf, ScanBdf, nameSize, 0)
        case Failure(e) => Failure(e)
        case Success(w) => if w == [] then Failure(NoBdfLines) else Success(NvmeSetup(w, false, unbind))
  }

  /** `spdk_nvmf_parse_nvme`: the whitelist grows by one entry per BDF line. */
  method ParseNvme(sec: Option<NvmeSection>, nameSize: nat) returns (r: Result<NvmeSetup, NvmeError>)
    requires nameSize >= 1
    ensures r == NvmeResult(sec, nameSize)
  {
    if sec.None? {
      return Failure(NoNvmeSection);
    }
    var claimAll := IsYes(sec.value.claimAllDevices);
    var unbind := IsYes(sec.value.unbindFromKernel);
    if claimAll {
      return Success(NvmeSetup([], true, unbind));
    }
    var whitelist := BuildWhitelist(sec.value.bdf, nameSize);
    if whitelist.Failure? {
      return Failure(whitelist.error);
    }
    if whitelist.value == [] {
      return Failure(NoBdfLines);
    }
    return Success(NvmeSetup(whitelist.value, false, unbind));
  }

  /** The BDF loop: one entry per line until a line has no value, or the first bad line. */
  method BuildWhitelist(lines: seq<seq<CString>>, nameSize: nat) returns (r: Result<seq<WhitelistEntry>, NvmeError>)
    requires nameSize >= 1
    ensures r == WhitelistFrom(lines, ScanBdf, nameSize, 0)
  {
    var whitelist: seq<WhitelistEntry> := [];
    var i := 0;
    PrependEmpty(WhitelistFrom(lines, ScanBdf, nameSize, 0));
    while NmVal(lines, i, 0).Some?
      invariant i <= |lines|
      invariant WhitelistFrom(lines, ScanBdf, nameSize, 0) == Prepend(whitelist, WhitelistFrom(lines, ScanBdf, nameSize, i))
      decreases |lines| - i
    {
      var bdf := ScanBdf(lines[i][0]);
      if bdf.None? {
        return Failure(BadBdf(i));
      }
      var name := NmVal(lines, i, 1);
      if name.None? {
        return Failure(NoDeviceName(i));
      }
      var e := WhitelistEntry(bdf.value, Truncate(name.value, nameSize));
      PrependStep(whitelist, e, WhitelistFrom(lines, ScanBdf, nameSize, i + 1));
      whitelist := whitelist + [e];
      i := i + 1;
    }
    assert whitelist + [] == whitelist;
    return Success(whitelist);
  }

  lemma PrependEmpty(r: Result<seq<WhitelistEntry>, NvmeError>)
    ensures Prepend([], r) == r
  {
    if r.Success? {
      assert [] + r.value == r.value;
    }
  }

  lemma PrependStep(w: seq<WhitelistEntry>, e: WhitelistEntry, r: Result<seq<WhitelistEntry>, NvmeError>)
    ensures Prepend(w, Prepend([e], r)) == Prepend(w + [e], r)
  {
    if r.Success? {
      assert w + ([e] + r.value) == (w + [e]) + r.value;
    }
  }

  /** Entry `e` comes from BDF line `j`: the address the reader gives and the name cut to the buffer. */
  predicate EntryOfLine(lines: seq<seq<CString>>, read: BdfReader, nameSize: nat, j: nat, e: WhitelistEntry)
    requires nameSize >= 1
  {
    && j < |lines| && |lines[j]| >= 2
    && read(lines[j][0]) == Some(e.bdf)
    && e.name == Truncate(lines[j][1], nameSize)
  }

  /**
   * A whitelist built from line `i` holds one entry per line from `i`, in
   * order, and stops at the first line without values.
   */
  lemma {:induction false} WhitelistInOrder(lines: seq<seq<CString>>, read: BdfReader, nameSize: nat, i: nat)
    requires nameSize >= 1
    requires WhitelistFrom(lines, read, nameSize, i).Success?
    ensures var w := WhitelistFrom(lines, read, nameSize, i).value;
      && NmVal(lines, i + |w|, 0).None?
      && forall k :: 0 <= k < |w| ==> EntryOfLine(lines, read, nameSize, i + k, w[k])
    decreases |lines| - i
  {
    var w := WhitelistFrom(lines, read, nameSize, i).value;
    if NmVal(lines, i, 0).None? {
      assert w == [] && i + |w| == i;
    } else {
      WhitelistInOrder(lines, read, nameSize, i + 1);
      var rest := WhitelistFrom(lines, read, nameSize, i + 1).value;
      var b := read(lines[i][0]).value;
      assert NmVal(lines, i, 1).Some?;
      assert w == [WhitelistEntry(b, Truncate(lines[i][1], nameSize))] + rest;
      assert i + |w| == i + 1 + |rest|;
      forall k | 0 <= k < |w|
        ensures EntryOfLine(lines, read, nameSize, i + k, w[k])
      {
        if k > 0 {
          assert w[k] == rest[k - 1] && i + k == i + 1 + (k - 1);
          assert EntryOfLine(lines, read, nameSize, i + 1 + (k - 1), rest[k - 1]);
        }
      }
    }
  }

  /** A refused line is the first bad one: every line before it was read and named. */
  lemma {:induction false} FirstBadLine(lines: seq<seq<CString>>, read: BdfReader, nameSize: nat, i: nat)
    requires nameSize >= 1
    requires WhitelistFrom(lines, read, nameSize, i).Failure?
    ensures var e := WhitelistFrom(lines, read, nameSize, i).error;
      && (e.BadBdf? || e.NoDeviceName?)
      && i <= e.line < |lines| && lines[e.line] != []
      && (e.BadBdf? ==> read(lines[e.line][0]).None?)
      && (e.NoDeviceName? ==> read(lines[e.line][0]).Some? && |lines[e.line]| == 1)
      && forall k :: i <= k < e.line ==> |lines[k]| >= 2 && read(lines[k][0]).Some?
    decreases |lines| - i
  {
    if NmVal(lines, i, 0).Some? && read(lines[i][0]).Some? && NmVal(lines, i, 1).Some? {
      FirstBadLine(lines, read, nameSize, i + 1);
    }
  }

  /** "Yes" is compared exactly: "yes" does not claim all devices. */
  lemma YesIsCaseSensitive()
    ensures !IsYes(Some("yes"))
  {
    assert "yes"[0] != "Yes"[0];
  }
}
