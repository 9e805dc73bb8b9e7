/**
 * `spdk_nvmf_parse_subsystem`: one `[SubsystemN]` section of the target
 * configuration. The NQN is validated, the subsystem is created, then each
 * `Mapping PortX HostY` line is checked and added in order, and finally the
 * NVMe controller is claimed. Any failure after creation deletes the
 * subsystem again. The section API and the object constructors are inputs:
 * the section's values as `seq`s and the constructors' success as booleans.
 */
module SubsystemConf {
  import opened Wrappers
  import opened CStrings
  import opened NqnFormat
  import opened ConfSection

  /** The longest run of decimal digits starting at `from`. */
  function DigitRun(s: string, from: nat): (r: string)
    requires from <= |s|
    ensures from + |r| <= |s| && s[from..from + |r|] == r
    ensures forall i :: 0 <= i < |r| ==> IsDigit(r[i])
    ensures from + |r| == |s| || !IsDigit(s[from + |r|])
    decreases |s| - from
  {
    if from < |s| && IsDigit(s[from]) then [s[from]] + DigitRun(s, from + 1) else []
  }

  /**
   * `sscanf(name, "%*[^0-9]%d", &id) == 1`: one or more non-digits are
   * skipped, a sign among them, and the digits that follow are the id.
   * Ids beyond the range of `int` are not modelled.
   */
  function ScanId(name: CString): (r: Option<nat>)
  {
    if name == [] || IsDigit(name[0]) then None
    else match FirstDigit(name, 0)
      case None => None
      case Some(d) => Some(DecimalValue(DigitRun(name, d)))
  }

  /**
   * An id is read exactly when the name starts with a non-digit and holds
   * a digit somewhere; the id is the value of the first run of digits.
   */
  lemma ScanIdExactly(name: CString)
    ensures ScanId(name).Some? <==>
              name != [] && !IsDigit(name[0]) && exists k :: 0 <= k < |name| && IsDigit(name[k])
    ensures ScanId(name).Some? ==>
              exists j :: 0 < j < |name| && ScanId(name) == Some(DecimalValue(DigitRun(name, j)))
                          && IsDigit(name[j]) && forall k :: 0 <= k < j ==> !IsDigit(name[k])
  {
    if name != [] && !IsDigit(name[0]) {
      match FirstDigit(name, 0)
      case None =>
      case Some(d) =>
        assert d != 0;
    }
  }

  /** A mapping name: `prefix` in any case, then an id `ScanId` reads. */
  function MappingId(name: CString, prefix: string): (r: Option<nat>)
    ensures r.Some? ==> HasPrefixIgnoreCase(name, prefix)
  {
    if !HasPrefixIgnoreCase(name, prefix) then None else ScanId(name)
  }

  /** A port id and a host id, as `spdk_nvmf_subsystem_add_map` receives them. */
  datatype MapEntry = MapEntry(port: nat, host: nat)

  /** The checks on one `Mapping` line: both names present and valid, both ids at least 1. */
  function CheckEntry(line: seq<CString>): (r: Option<MapEntry>)
    ensures r.Some? ==> |line| >= 2 && r.value.port >= 1 && r.value.host >= 1
    ensures r.Some? <==>
              && |line| >= 2
              && MappingId(line[0], "Port").Some? && MappingId(line[0], "Port").value >= 1
              && MappingId(line[1], "Host").Some? && MappingId(line[1], "Host").value >= 1
    ensures r.Some? ==>
              && HasPrefixIgnoreCase(line[0], "Port") && HasPrefixIgnoreCase(line[1], "Host")
              && r.value == MapEntry(MappingId(line[0], "Port").value, MappingId(line[1], "Host").value)
  {
    if |line| < 2 then None
    else match (MappingId(line[0], "Port"), MappingId(line[1], "Host"))
      case (Some(p), Some(h)) => if p < 1 || h < 1 then None else Some(MapEntry(p, h))
      case _ => None
  }

  /** The mapping loop after `n` rounds: still going, ended by a missing line, or ended by a failure. */
  datatype MapLoop = Going(maps: seq<MapEntry>) | Ended(maps: seq<MapEntry>) | Broken(maps: seq<MapEntry>)

  /** The line checker the loop applies; the section parser uses `CheckEntry`. */
  type LineCheck = seq<CString> -> Option<MapEntry>

  /**
   * The first `n` rounds of the mapping loop. `addMapOk(i)`: the i-th
   * `spdk_nvmf_subsystem_add_map` succeeds.
   */
  function MapRounds(lines: seq<seq<CString>>, check: LineCheck, addMapOk: nat -> bool, n: nat): (r: MapLoop)
    ensures |r.maps| <= n
  {
    if n == 0 then Going([]) else MapStep(MapRounds(lines, check, addMapOk, n - 1), lines, check, addMapOk, n - 1)
  }

  /** Round `i` of the mapping loop. */
  function MapStep(prev: MapLoop, lines: seq<seq<CString>>, check: LineCheck, addMapOk: nat -> bool, i: nat): (r: MapLoop)
    ensures |r.maps| <= |prev.maps| + 1
  {
    if !prev.Going? then prev
    else if NmVal(lines, i, 0).None? then Ended(prev.maps)
    else match check(lines[i])
      case None => Broken(prev.maps)
      case Some(e) => if !addMapOk(i) then Broken(prev.maps) else Going(prev.maps + [e])
  }

  datatype SubsystemSection = SubsystemSection(
    nqn: Option<CString>, mapping: seq<seq<CString>>, controller: Option<CString>)

  /**
   * How the section ends: -1 before the subsystem exists, -1 after
   * deleting it (with the maps added up to then), or 0 with the
   * subsystem configured.
   */
  datatype SubsystemOutcome =
    | NotCreated
    | Deleted(maps: seq<MapEntry>)
    | Configured(maps: seq<MapEntry>, controller: CString)

  /**
   * The whole section. `createOk`, `claimOk`, `addCtrlrOk`: whether
   * `nvmf_create_subsystem`, `spdk_nvmf_ctrlr_claim`,
   * `nvmf_subsystem_add_ctrlr` succeed; `maxMaps` is
   * MAX_PER_SUBSYSTEM_ACCESS_MAP.
   */
  function SubsystemResult(sec: SubsystemSection, createOk: bool, maxMaps: nat, addMapOk: nat -> bool,
                           claimOk: bool, addCtrlrOk: bool): (r: SubsystemOutcome)
    ensures r.NotCreated? <==> sec.nqn.None? || ValidateNqn(sec.nqn.value).Some? || !createOk
    ensures r.Configured? ==> sec.controller == Some(r.controller) && claimOk && addCtrlrOk
    ensures !r.NotCreated? ==> |r.maps| <= maxMaps
  {
    if sec.nqn.None? || ValidateNqn(sec.nqn.value).Some? || !createOk then NotCreated
    else if NmVal(sec.mapping, 0, 0).None? then Deleted([])
    else match MapRounds(sec.mapping, CheckEntry, addMapOk, maxMaps)
      case Broken(m) => Deleted(m)
      case Going(m) => Finish(sec, m, claimOk, addCtrlrOk)
      case Ended(m) => Finish(sec, m, claimOk, addCtrlrOk)
  }

  /** After the mapping loop: the controller line, the claim, adding the controller. */
  function Finish(sec: SubsystemSection, maps: seq<MapEntry>, claimOk: bool, addCtrlrOk: bool): (r: SubsystemOutcome)
    ensures r.Configured? <==> sec.controller.Some? && claimOk && addCtrlrOk
    ensures !r.NotCreated? && r.maps == maps
  {
    if sec.controller.None? || !claimOk || !addCtrlrOk then Deleted(maps)
    else Configured(maps, sec.controller.value)
  }

  /** `spdk_nvmf_parse_subsystem`. */
  method ParseSubsystem(sec: SubsystemSection, createOk: bool, maxMaps: nat, addMapOk: nat -> bool,
                        claimOk: bool, addCtrlrOk: bool) returns (out: SubsystemOutcome)
    ensures out == SubsystemResult(sec, createOk, maxMaps, addMapOk, claimOk, addCtrlrOk)
  {
    if sec.nqn.None? {
      return NotCreated;
    }
    if ValidateNqn(sec.nqn.value).Some? || !createOk {
      return NotCreated;
    }
    if NmVal(sec.mapping, 0, 0).None? {
      return Deleted([]);
    }
    var rounds := MapLines(sec.mapping, maxMaps, addMapOk);
    if rounds.Broken? {
      return Deleted(rounds.maps);
    }
    out := Finish(sec, rounds.maps, claimOk, addCtrlrOk);
  }

  /** The mapping loop: at most `maxMaps` lines, stopping at the first missing line or failure. */
  method MapLines(lines: seq<seq<CString>>, maxMaps: nat, addMapOk: nat -> bool) returns (r: MapLoop)
    ensures r == MapRounds(lines, CheckEntry, addMapOk, maxMaps)
  {
    var maps: seq<MapEntry> := [];
    var i := 0;
    while i < maxMaps
      invariant i <= maxMaps
      invariant MapRounds(lines, CheckEntry, addMapOk, i) == Going(maps)
    {
      var portName := NmVal(lines, i, 0);
      if portName.None? {
        MapRoundsSettled(lines, CheckEntry, addMapOk, i + 1, maxMaps);
        return Ended(maps);
      }
      var entry := CheckEntry(lines[i]);
      if entry.None? || !addMapOk(i) {
        MapRoundsSettled(lines, CheckEntry, addMapOk, i + 1, maxMaps);
        return Broken(maps);
      }
      maps := maps + [entry.value];
      i := i + 1;
    }
    return Going(maps);
  }

  /** Once the loop has ended or broken, later rounds change nothing. */
  lemma {:induction false} MapRoundsSettled(lines: seq<seq<CString>>, check: LineCheck, addMapOk: nat -> bool,
                                            k: nat, n: nat)
    requires k <= n
    requires !MapRounds(lines, check, addMapOk, k).Going?
    ensures MapRounds(lines, check, addMapOk, n) == MapRounds(lines, check, addMapOk, k)
    decreases n - k
  {
    if k < n {
      MapRoundsSettled(lines, check, addMapOk, k, n - 1);
    }
  }

  /**
   * What the mapping loop added: entry k comes from line k, in order, and
   * every line before a failure or the end passed the checks.
   */
  lemma {:induction false} MapRoundsEntries(lines: seq<seq<CString>>, check: LineCheck, addMapOk: nat -> bool, n: nat)
    ensures var r := MapRounds(lines, check, addMapOk, n);
      && (r.Going? ==> |r.maps| == n)
      && (r.Ended? ==> NmVal(lines, |r.maps|, 0).None?)
      && (r.Broken? ==> NmVal(lines, |r.maps|, 0).Some? &&
                        (check(lines[|r.maps|]).None? || !addMapOk(|r.maps|)))
      && forall k :: 0 <= k < |r.maps| ==> k < |lines| && check(lines[k]) == Some(r.maps[k]) && addMapOk(k)
  {
    if n > 0 {
      MapRoundsEntries(lines, check, addMapOk, n - 1);
      var prev := MapRounds(lines, check, addMapOk, n - 1);
      if prev.Going? && NmVal(lines, n - 1, 0).Some? {
        var r := MapRounds(lines, check, addMapOk, n);
        if r.Going? {
          assert r.maps == prev.maps + [check(lines[n - 1]).value];
        }
      }
    }
  }

  /** Lines that all pass keep the loop going, one map per line. */
  lemma {:induction false} GoodPrefix(lines: seq<seq<CString>>, check: LineCheck, addMapOk: nat -> bool, n: nat)
    requires forall k :: 0 <= k < n ==> k < |lines| && lines[k] != [] && check(lines[k]).Some? && addMapOk(k)
    ensures MapRounds(lines, check, addMapOk, n).Going? && |MapRounds(lines, check, addMapOk, n).maps| == n
  {
    if n > 0 {
      GoodPrefix(lines, check, addMapOk, n - 1);
      assert addMapOk(n - 1);
      assert NmVal(lines, n - 1, 0).Some?;
    }
  }

  /**
   * A configured subsystem has one map per mapping line, in order, each
   * with ids of at least 1, up to the first missing line or the limit.
   */
  lemma ConfiguredMaps(sec: SubsystemSection, createOk: bool, maxMaps: nat, addMapOk: nat -> bool,
                       claimOk: bool, addCtrlrOk: bool, out: SubsystemOutcome)
    requires out == SubsystemResult(sec, createOk, maxMaps, addMapOk, claimOk, addCtrlrOk) && out.Configured?
    ensures sec.nqn.Some? && ValidateNqn(sec.nqn.value).None?
    ensures |out.maps| == maxMaps || NmVal(sec.mapping, |out.maps|, 0).None?
    ensures |out.maps| <= |sec.mapping|
    ensures forall k :: 0 <= k < |out.maps| ==>
              CheckEntry(sec.mapping[k]) == Some(out.maps[k]) && out.maps[k].port >= 1 && out.maps[k].host >= 1
  {
    ConfiguredByLoop(sec, createOk, maxMaps, addMapOk, claimOk, addCtrlrOk, out);
    MapRoundsEntries(sec.mapping, CheckEntry, addMapOk, maxMaps);
    if out.maps != [] {
      MapEntryAt(sec.mapping, CheckEntry, addMapOk, maxMaps, |out.maps| - 1);
    }
    ChecksHeld(sec.mapping, addMapOk, maxMaps, out.maps);
  }

  /** A configured subsystem passed the NQN check and kept the maps of a loop that did not break. */
  lemma ConfiguredByLoop(sec: SubsystemSection, createOk: bool, maxMaps: nat, addMapOk: nat -> bool,
                         claimOk: bool, addCtrlrOk: bool, out: SubsystemOutcome)
    requires out == SubsystemResult(sec, createOk, maxMaps, addMapOk, claimOk, addCtrlrOk) && out.Configured?
    ensures sec.nqn.Some? && ValidateNqn(sec.nqn.value).None? && createOk
    ensures !MapRounds(sec.mapping, CheckEntry, addMapOk, maxMaps).Broken?
    ensures out.maps == MapRounds(sec.mapping, CheckEntry, addMapOk, maxMaps).maps
  {
  }

  /** Every map of the loop is the checked entry of its line. */
  lemma {:induction false} ChecksHeld(lines: seq<seq<CString>>, addMapOk: nat -> bool, n: nat, maps: seq<MapEntry>)
    requires maps == MapRounds(lines, CheckEntry, addMapOk, n).maps
    ensures |maps| <= |lines|
    ensures forall k :: 0 <= k < |maps| ==>
              CheckEntry(lines[k]) == Some(maps[k]) && maps[k].port >= 1 && maps[k].host >= 1
  {
    if maps != [] {
      CheckHeldAt(lines, addMapOk, n, maps, |maps| - 1);
    }
    forall k | 0 <= k < |maps|
      ensures CheckEntry(lines[k]) == Some(maps[k]) && maps[k].port >= 1 && maps[k].host >= 1
    {
      CheckHeldAt(lines, addMapOk, n, maps, k);
    }
  }

  /** Map `k` of the loop is the checked entry of line `k`. */
  lemma {:induction false} CheckHeldAt(lines: seq<seq<CString>>, addMapOk: nat -> bool, n: nat, maps: seq<MapEntry>, k: nat)
    requires maps == MapRounds(lines, CheckEntry, addMapOk, n).maps && k < |maps|
    ensures k < |lines| && CheckEntry(lines[k]) == Some(maps[k]) && maps[k].port >= 1 && maps[k].host >= 1
  {
    MapEntryAt(lines, CheckEntry, addMapOk, n, k);
    EntryIdsPositive(lines[k], maps[k]);
  }

  /** An accepted line's ids are at least 1. */
  lemma EntryIdsPositive(line: seq<CString>, e: MapEntry)
    requires CheckEntry(line) == Some(e)
    ensures e.port >= 1 && e.host >= 1
  {
  }

  /** Map `k` of the loop comes from line `k`. */
  lemma MapEntryAt(lines: seq<seq<CString>>, check: LineCheck, addMapOk: nat -> bool, n: nat, k: nat)
    requires k < |MapRounds(lines, check, addMapOk, n).maps|
    ensures k < |lines| && check(lines[k]) == Some(MapRounds(lines, check, addMapOk, n).maps[k]) && addMapOk(k)
  {
    MapRoundsEntries(lines, check, addMapOk, n);
  }

  /** A bad mapping line deletes the subsystem, keeping only the maps of the lines before it. */
  lemma BadLineDeletes(sec: SubsystemSection, createOk: bool, maxMaps: nat, addMapOk: nat -> bool,
                       claimOk: bool, addCtrlrOk: bool, bad: nat)
    requires sec.nqn.Some? && ValidateNqn(sec.nqn.value).None? && createOk
    requires bad < maxMaps && bad < |sec.mapping| && sec.mapping[bad] != [] && CheckEntry(sec.mapping[bad]).None?
    requires forall k :: 0 <= k < bad ==> k < |sec.mapping| && sec.mapping[k] != [] &&
                                          CheckEntry(sec.mapping[k]).Some? && addMapOk(k)
    ensures var r := SubsystemResult(sec, createOk, maxMaps, addMapOk, claimOk, addCtrlrOk);
      && r.Deleted? && |r.maps| == bad
      && forall k :: 0 <= k < bad ==> CheckEntry(sec.mapping[k]) == Some(r.maps[k])
  {
    BadLineBreaks(sec.mapping, CheckEntry, addMapOk, maxMaps, bad);
    if bad > 0 {
      assert addMapOk(0);
    }
    assert NmVal(sec.mapping, 0, 0).Some?;
  }

  /** The loop over lines that pass up to a bad one breaks there, with one map per passed line. */
  lemma BadLineBreaks(lines: seq<seq<CString>>, check: LineCheck, addMapOk: nat -> bool, maxMaps: nat, bad: nat)
    requires bad < maxMaps && bad < |lines| && lines[bad] != [] && check(lines[bad]).None?
    requires forall k :: 0 <= k < bad ==> k < |lines| && lines[k] != [] && check(lines[k]).Some? && addMapOk(k)
    ensures var r := MapRounds(lines, check, addMapOk, maxMaps);
      && r.Broken? && |r.maps| == bad
      && forall k :: 0 <= k < bad ==> check(lines[k]) == Some(r.maps[k])
  {
    GoodPrefix(lines, check, addMapOk, bad);
    MapRoundsEntries(lines, check, addMapOk, bad);
    var prev := MapRounds(lines, check, addMapOk, bad);
    assert MapRounds(lines, check, addMapOk, bad + 1) == Broken(prev.maps);
    MapRoundsSettled(lines, check, addMapOk, bad + 1, maxMaps);
  }

  /**
   * A name made of the prefix, other non-digits, a run of digits and a
   * tail not starting with a digit reads back the value of that run.
   */
  lemma MappingIdOfParts(pre: CString, digits: CString, tail: CString, prefix: string)
    requires HasPrefixIgnoreCase(pre, prefix) && pre != []
    requires forall k :: 0 <= k < |pre| ==> !IsDigit(pre[k])
    requires digits != [] && forall k :: 0 <= k < |digits| ==> IsDigit(digits[k])
    requires tail == [] || !IsDigit(tail[0])
    ensures MappingId(pre + digits + tail, prefix) == Some(DecimalValue(digits))
  {
    var s := pre + digits + tail;
    var n := |pre| + |digits|;
    PrefixKept(pre, digits + tail, prefix);
    assert s == pre + (digits + tail);
    assert forall k :: 0 <= k < |pre| ==> s[k] == pre[k];
    assert s[|pre|..n] == digits;
    assert n == |s| || s[n] == tail[0];
    ScanIdAt(s, |pre|, digits);
  }

  /** A prefix matched in any case stays matched whatever is appended. */
  lemma PrefixKept(a: string, b: string, prefix: string)
    requires HasPrefixIgnoreCase(a, prefix)
    ensures HasPrefixIgnoreCase(a + b, prefix)
  {
    assert (a + b)[..|prefix|] == a[..|prefix|];
  }

  /** Non-digits up to `j > 0`, then the digit run `digits`, read as the run's value. */
  lemma ScanIdAt(s: CString, j: nat, digits: string)
    requires 0 < j && j + |digits| <= |s| && forall k :: 0 <= k < j ==> !IsDigit(s[k])
    requires digits != [] && forall k :: 0 <= k < |digits| ==> IsDigit(digits[k])
    requires s[j..j + |digits|] == digits && (j + |digits| == |s| || !IsDigit(s[j + |digits|]))
    ensures ScanId(s) == Some(DecimalValue(digits))
  {
    assert s[j] == digits[0];
    FirstDigitAt(s, j);
    DigitRunIs(s, j, digits);
  }

  /** The first digit of `s` is at `j` when `j` holds one and nothing before it does. */
  lemma FirstDigitAt(s: string, j: nat)
    requires j < |s| && IsDigit(s[j]) && forall k :: 0 <= k < j ==> !IsDigit(s[k])
    ensures FirstDigit(s, 0) == Some(j)
  {
  }

  /** The digit run at `from` is `t` when `t` is all digits and is followed by the end or a non-digit. */
  lemma DigitRunIs(s: string, from: nat, t: string)
    requires from + |t| <= |s| && s[from..from + |t|] == t
    requires forall k :: 0 <= k < |t| ==> IsDigit(t[k])
    requires from + |t| == |s| || !IsDigit(s[from + |t|])
    ensures DigitRun(s, from) == t
  {
    var r := DigitRun(s, from);
    assert forall k :: 0 <= k < |r| ==> s[from + k] == r[k];
    assert forall k :: 0 <= k < |t| ==> s[from + k] == t[k];
  }

  /** "Port5" reads as 5. */
  lemma PortFiveExample()
    ensures MappingId("Port5", "Port") == Some(5)
  {
    MappingIdOfParts("Port", "5", "", "Port");
    assert "Port" + "5" + "" == "Port5";
  }

  /** A minus sign is skipped with the other non-digits: "Port-3" reads as 3, not -3. */
  lemma SignSkippedExample()
    ensures MappingId("Port-3", "Port") == Some(3)
  {
    MappingIdOfParts("Port-", "3", "", "Port");
    assert "Port-" + "3" + "" == "Port-3";
  }

  /** An id of 0 is refused by the entry check. */
  lemma ZeroIdRejected()
    ensures CheckEntry(["Port0", "Host1"]).None?
  {
    MappingIdOfParts("Port", "0", "", "Port");
    assert "Port" + "0" + "" == "Port0";
  }

  /** A name with no digit at all has no id. */
  lemma NoDigitNoId(name: CString, prefix: string)
    requires forall k :: 0 <= k < |name| ==> !IsDigit(name[k])
    ensures MappingId(name, prefix).None?
  {
  }
}
