/**
 * Transport identity and host identity of an NVMe path, as the bdev_nvme RPC
 * handlers fill them from request strings, with the fixed buffer sizes they
 * are copied into.
 */
module NvmePaths {
  import opened Wrappers
  import opened CStrings

  /** SPDK_NVMF_TRADDR_MAX_LEN + 1: `trid.traddr`, `opts.src_addr`, `hostid.hostaddr`. */
  const TraddrCapacity: nat := 257
  /** SPDK_NVMF_TRSVCID_MAX_LEN + 1: `trid.trsvcid`, `opts.src_svcid`, `hostid.hostsvcid`. */
  const TrsvcidCapacity: nat := 33
  /** SPDK_NVMF_NQN_MAX_LEN: qualified names are compared over this many characters. */
  const NqnMaxLen: nat := 223
  /** SPDK_NVMF_NQN_MAX_LEN + 1: `trid.subnqn` and `opts.hostnqn`. */
  const NqnCapacity: nat := NqnMaxLen + 1

  /** The negated errno values the handlers answer with. */
  datatype Errno = EINVAL | EALREADY | ENODEV

  function ErrnoCode(e: Errno): (code: int)
    ensures code < 0
  {
    match e
    case EINVAL => -22
    case EALREADY => -114
    case ENODEV => -19
  }

  /**
   * `struct spdk_nvme_transport_id` as far as these handlers touch it.
   * `trstring` is the transport type accepted by the transport-id parsers;
   * `adrfam` keeps the request text, which the foreign parser converts.
   * The zero-initialised structure has empty strings and priority 0.
   */
  datatype TransportId = TransportId(
    trstring: CString,
    adrfam: Option<CString>,
    traddr: CString,
    trsvcid: CString,
    subnqn: CString,
    priority: int)

  /**
   * The JSON-RPC response a handler sends: an error with its code, the
   * boolean result, or nothing yet (a completion callback answers later).
   */
  datatype RpcReply = ErrorResponse(code: int) | BoolResponse(value: bool) | Pending

  /** `struct spdk_nvme_host_id`: the host side of a path. */
  datatype HostId = HostId(hostaddr: CString, hostsvcid: CString)

  /** An optional request string passes its capacity check when absent or short enough. */
  predicate OptionalFits(s: Option<CString>, capacity: nat) {
    s.None? || FitsIn(s.value, capacity)
  }

  /** The optional-field copy `if (req.f) memcpy(trid.f, req.f, len + 1)` onto a zeroed buffer. */
  function OrEmpty(s: Option<CString>): (r: CString)
    ensures s.Some? ==> r == s.value
    ensures s.None? ==> r == ""
  {
    match s
    case Some(v) => v
    case None => ""
  }

  /** A capacity-checked field is accepted exactly when it is shorter than its buffer. */
  lemma FitsMeansShorter(s: CString, capacity: nat)
    ensures FitsIn(s, capacity) <==> |s| < capacity
  {
  }

  /**
   * `strncmp` over a whole buffer: two strings that both fit in it are equal
   * under strncmp exactly when they are equal.
   */
  lemma {:induction false} StrNEqualFitting(a: CString, b: CString, capacity: nat)
    requires |a| < capacity && |b| < capacity
    ensures StrNEqual(a, b, capacity) <==> a == b
  {
    assert a[..Min(|a|, capacity)] == a;
    assert b[..Min(|b|, capacity)] == b;
  }
}
