/**
 * Admission of `bdev_nvme_attach_controller`: the ordered early-exit checks
 * that decide, before any controller is created, whether a request is
 * rejected (and with which errno) or handed to `bdev_nvme_create` with a
 * transport id, driver options, bdev options and the multipath flag.
 */
module AttachController {
  import opened Wrappers
  import opened CStrings
  import opened NvmePaths

  /** UINT16_MAX + 1: the largest accepted `num_io_queues`. */
  const MaxIoQueues: nat := 65536

  /** The protection-information check flags SPDK_NVME_IO_FLAGS_PRCHK_REFTAG and _GUARD. */
  datatype PiFlags = PiFlags(reftag: bool, guard: bool) {
    /** `prchk_flags != 0`. */
    predicate Any() {
      reftag || guard
    }
  }

  /** The fields of `struct spdk_nvme_ctrlr_opts` the handler reads or fills. */
  datatype DriverOpts = DriverOpts(
    hostnqn: CString,
    srcAddr: CString,
    srcSvcid: CString,
    numIoQueues: nat)

  /** The fields of `struct nvme_ctrlr_opts` the handler reads or fills. */
  datatype BdevOpts = BdevOpts(prchkFlags: PiFlags, fromDiscoveryService: bool)

  /**
   * A decoded request. Absent optional strings are `None`. `drvOpts` and
   * `bdevOpts` are the library defaults with the decoded option fields
   * (num_io_queues, prchk_reftag, prchk_guard, ...) already written in, as
   * the JSON decoder leaves them.
   */
  datatype AttachRequest = AttachRequest(
    name: CString,
    trtype: CString,
    traddr: CString,
    adrfam: Option<CString>,
    trsvcid: Option<CString>,
    priority: Option<int>,
    subnqn: Option<CString>,
    hostnqn: Option<CString>,
    hostaddr: Option<CString>,
    hostsvcid: Option<CString>,
    multipath: Option<CString>,
    drvOpts: DriverOpts,
    bdevOpts: BdevOpts)

  /** What `nvme_ctrlr_get_by_name` finds under the requested name. */
  datatype ExistingCtrlr = ExistingCtrlr(trid: TransportId, drvOpts: DriverOpts, prchkFlags: PiFlags)

  /** The existing controller's strings came out of the same fixed buffers. */
  predicate StoredInBuffers(ex: ExistingCtrlr) {
    && |ex.trid.traddr| < TraddrCapacity
    && |ex.trid.trsvcid| < TrsvcidCapacity
    && |ex.trid.subnqn| < NqnCapacity
    && |ex.drvOpts.hostnqn| < NqnCapacity
    && |ex.drvOpts.srcAddr| < TraddrCapacity
    && |ex.drvOpts.srcSvcid| < TrsvcidCapacity
  }

  datatype Admission =
    | Reject(error: Errno)
    | Proceed(trid: TransportId, drvOpts: DriverOpts, bdevOpts: BdevOpts, multipath: bool)

  /** All request strings that are copied into fixed buffers fit them. */
  predicate FieldsFit(req: AttachRequest) {
    && FitsIn(req.traddr, TraddrCapacity)
    && OptionalFits(req.trsvcid, TrsvcidCapacity)
    && OptionalFits(req.subnqn, NqnCapacity)
    && OptionalFits(req.hostaddr, TraddrCapacity)
    && OptionalFits(req.hostsvcid, TrsvcidCapacity)
  }

  /**
   * Building the transport id and the host part of the driver options, in
   * the handler's order. `trstringOk` and `adrfamOk` are the verdicts of the
   * foreign transport-id parsers. hostnqn is not checked: snprintf truncates it.
   */
  function ParseFields(req: AttachRequest, trstringOk: CString -> bool, adrfamOk: CString -> bool)
    : (r: Result<(TransportId, DriverOpts), Errno>)
    ensures r.Failure? ==> r.error == EINVAL
    ensures r.Success? <==> trstringOk(req.trtype) && FieldsFit(req) &&
                            (req.adrfam.Some? ==> adrfamOk(req.adrfam.value))
  {
    if !trstringOk(req.trtype) then Failure(EINVAL)
    else if !FitsIn(req.traddr, TraddrCapacity) then Failure(EINVAL)
    else if req.adrfam.Some? && !adrfamOk(req.adrfam.value) then Failure(EINVAL)
    else if !OptionalFits(req.trsvcid, TrsvcidCapacity) then Failure(EINVAL)
    else if !OptionalFits(req.subnqn, NqnCapacity) then Failure(EINVAL)
    else if !OptionalFits(req.hostaddr, TraddrCapacity) then Failure(EINVAL)
    else if !OptionalFits(req.hostsvcid, TrsvcidCapacity) then Failure(EINVAL)
    else
      var trid := TransportId(req.trtype, req.adrfam, req.traddr, OrEmpty(req.trsvcid),
                              OrEmpty(req.subnqn), req.priority.GetOr(0));
      var o := req.drvOpts;
      var drv := o.(hostnqn := if req.hostnqn.Some? then Truncate(req.hostnqn.value, NqnCapacity) else o.hostnqn,
                    srcAddr := req.hostaddr.GetOr(o.srcAddr),
                    srcSvcid := req.hostsvcid.GetOr(o.srcSvcid));
      Success((trid, drv))
  }

  /** The four-field duplicate-path test: traddr, trsvcid, hostaddr and hostsvcid under strncmp. */
  predicate SameNetworkPath(trid: TransportId, drv: DriverOpts, ex: ExistingCtrlr) {
    && StrNEqual(trid.traddr, ex.trid.traddr, TraddrCapacity)
    && StrNEqual(trid.trsvcid, ex.trid.trsvcid, TrsvcidCapacity)
    && StrNEqual(drv.srcAddr, ex.drvOpts.srcAddr, TraddrCapacity)
    && StrNEqual(drv.srcSvcid, ex.drvOpts.srcSvcid, TrsvcidCapacity)
  }

  /** The queue-count bound and the multipath flag, common to both branches. */
  function Finish(mode: Option<CString>, trid: TransportId, drv: DriverOpts, bdev: BdevOpts): (r: Admission)
    ensures r.Proceed? <==> 1 <= drv.numIoQueues <= MaxIoQueues
    ensures r.Reject? ==> r.error == EINVAL
    ensures r.Proceed? ==>
      && r.trid == trid && r.drvOpts == drv
      && r.bdevOpts.prchkFlags == bdev.prchkFlags && !r.bdevOpts.fromDiscoveryService
      && (r.multipath <==> mode.Some? && EqualIgnoreCase(mode.value, "multipath"))
  {
    if drv.numIoQueues == 0 || drv.numIoQueues > MaxIoQueues then Reject(EINVAL)
    else Proceed(trid, drv, bdev.(fromDiscoveryService := false),
                 mode.Some? && EqualIgnoreCase(mode.value, "multipath"))
  }

  /**
   * The whole admission. `existing` is the controller already registered
   * under `req.name`, if any.
   */
  function Admit(req: AttachRequest, existing: Option<ExistingCtrlr>,
                 trstringOk: CString -> bool, adrfamOk: CString -> bool): (r: Admission)
    ensures r.Reject? ==> r.error == EINVAL || r.error == EALREADY
    ensures r.Reject? && r.error == EALREADY ==> existing.Some?
    ensures r.Proceed? ==> 1 <= r.drvOpts.numIoQueues <= MaxIoQueues && !r.bdevOpts.fromDiscoveryService
  {
    match ParseFields(req, trstringOk, adrfamOk)
    case Failure(e) => Reject(e)
    case Success((trid, drv)) =>
      if existing.None? then Finish(req.multipath, trid, drv, req.bdevOpts)
      else
        var ex := existing.value;
        // an absent mode on an existing name adds a failover path
        var mode: CString := req.multipath.GetOr("failover");
        if EqualIgnoreCase(mode, "disable") then Reject(EALREADY)
        else if !EqualIgnoreCase(mode, "failover") && !EqualIgnoreCase(mode, "multipath") then Reject(EINVAL)
        else if SameNetworkPath(trid, drv, ex) then Reject(EALREADY)
        else if !StrNEqual(trid.subnqn, ex.trid.subnqn, NqnMaxLen) then Reject(EINVAL)
        else if !StrNEqual(drv.hostnqn, ex.drvOpts.hostnqn, NqnMaxLen) then Reject(EINVAL)
        else if req.bdevOpts.prchkFlags.Any() then Reject(EINVAL)
        else Finish(Some(mode), trid, drv, req.bdevOpts.(prchkFlags := ex.prchkFlags))
  }

  /** A string copied into a fixed buffer that does not fit rejects the request with EINVAL. */
  lemma OversizedFieldRejected(req: AttachRequest, existing: Option<ExistingCtrlr>,
                               trstringOk: CString -> bool, adrfamOk: CString -> bool)
    requires !FieldsFit(req)
    ensures Admit(req, existing, trstringOk, adrfamOk) == Reject(EINVAL)
  {
  }

  /**
   * What an admitted request carries: every buffer-copied field fit, the
   * transport id holds the request's strings, the queue count is in
   * [1, 65536], the multipath flag is "mode is multipath", and an extra
   * path runs with the existing controller's PI flags.
   */
  lemma AdmittedRequest(req: AttachRequest, existing: Option<ExistingCtrlr>,
                        trstringOk: CString -> bool, adrfamOk: CString -> bool)
    requires Admit(req, existing, trstringOk, adrfamOk).Proceed?
    ensures var r := Admit(req, existing, trstringOk, adrfamOk);
      && FieldsFit(req) && trstringOk(req.trtype)
      && r.trid == TransportId(req.trtype, req.adrfam, req.traddr, OrEmpty(req.trsvcid),
                               OrEmpty(req.subnqn), req.priority.GetOr(0))
      && (req.hostnqn.Some? ==> r.drvOpts.hostnqn <= req.hostnqn.value &&
                                |r.drvOpts.hostnqn| == Min(|req.hostnqn.value|, NqnMaxLen))
      && (req.hostnqn.None? ==> r.drvOpts.hostnqn == req.drvOpts.hostnqn)
      && r.drvOpts.srcAddr == req.hostaddr.GetOr(req.drvOpts.srcAddr)
      && r.drvOpts.srcSvcid == req.hostsvcid.GetOr(req.drvOpts.srcSvcid)
      && 1 <= r.drvOpts.numIoQueues <= MaxIoQueues
      && (r.multipath <==> req.multipath.Some? && EqualIgnoreCase(req.multipath.value, "multipath"))
      && !r.bdevOpts.fromDiscoveryService
      && (existing.None? ==> r.bdevOpts.prchkFlags == req.bdevOpts.prchkFlags)
      && (existing.Some? ==> !req.bdevOpts.prchkFlags.Any() &&
                             r.bdevOpts.prchkFlags == existing.value.prchkFlags &&
                             !SameNetworkPath(r.trid, r.drvOpts, existing.value))
  {
  }

  /** On an existing name an absent multipath mode behaves exactly like "failover". */
  lemma AbsentModeIsFailover(req: AttachRequest, existing: Option<ExistingCtrlr>,
                             trstringOk: CString -> bool, adrfamOk: CString -> bool)
    ensures Admit(req.(multipath := None), existing, trstringOk, adrfamOk) ==
            Admit(req.(multipath := Some("failover")), existing, trstringOk, adrfamOk)
  {
  }

  /** "disable", in any letter case, on an existing name fails with EALREADY. */
  lemma DisabledMultipathRejected(req: AttachRequest, existing: Option<ExistingCtrlr>,
                                  trstringOk: CString -> bool, adrfamOk: CString -> bool)
    requires ParseFields(req, trstringOk, adrfamOk).Success? && existing.Some?
    requires req.multipath.Some? && EqualIgnoreCase(req.multipath.value, "disable")
    ensures Admit(req, existing, trstringOk, adrfamOk) == Reject(EALREADY)
  {
  }

  /** A mode other than disable, failover or multipath on an existing name fails with EINVAL. */
  lemma UnknownMultipathRejected(req: AttachRequest, existing: Option<ExistingCtrlr>,
                                 trstringOk: CString -> bool, adrfamOk: CString -> bool)
    requires ParseFields(req, trstringOk, adrfamOk).Success? && existing.Some?
    requires req.multipath.Some?
    requires !EqualIgnoreCase(req.multipath.value, "disable")
    requires !EqualIgnoreCase(req.multipath.value, "failover")
    requires !EqualIgnoreCase(req.multipath.value, "multipath")
    ensures Admit(req, existing, trstringOk, adrfamOk) == Reject(EINVAL)
  {
  }

  /** The mode accepted for an extra path: absent, failover or multipath. */
  predicate PathModeOk(mode: Option<CString>) {
    mode.None? || EqualIgnoreCase(mode.value, "failover") || EqualIgnoreCase(mode.value, "multipath")
  }

  /**
   * Exactly the same network path (traddr, trsvcid, hostaddr, hostsvcid)
   * under an existing name fails with EALREADY; this test comes before the
   * subnqn and hostnqn tests, so it wins even when those differ.
   */
  lemma DuplicatePathRejected(req: AttachRequest, ex: ExistingCtrlr,
                              trstringOk: CString -> bool, adrfamOk: CString -> bool)
    requires ParseFields(req, trstringOk, adrfamOk).Success? && StoredInBuffers(ex)
    requires PathModeOk(req.multipath)
    requires req.traddr == ex.trid.traddr && OrEmpty(req.trsvcid) == ex.trid.trsvcid
    requires req.hostaddr.GetOr(req.drvOpts.srcAddr) == ex.drvOpts.srcAddr
    requires req.hostsvcid.GetOr(req.drvOpts.srcSvcid) == ex.drvOpts.srcSvcid
    ensures Admit(req, Some(ex), trstringOk, adrfamOk) == Reject(EALREADY)
  {
    var (trid, drv) := ParseFields(req, trstringOk, adrfamOk).value;
    StrNEqualFitting(trid.traddr, ex.trid.traddr, TraddrCapacity);
    StrNEqualFitting(trid.trsvcid, ex.trid.trsvcid, TrsvcidCapacity);
    StrNEqualFitting(drv.srcAddr, ex.drvOpts.srcAddr, TraddrCapacity);
    StrNEqualFitting(drv.srcSvcid, ex.drvOpts.srcSvcid, TrsvcidCapacity);
    assert SameNetworkPath(trid, drv, ex);
    ModeNotDisable(req.multipath);
  }

  /**
   * A new path under an existing name must name the same subsystem: a subnqn
   * that differs within the first SPDK_NVMF_NQN_MAX_LEN characters fails with EINVAL.
   */
  lemma SubnqnMismatchRejected(req: AttachRequest, ex: ExistingCtrlr,
                               trstringOk: CString -> bool, adrfamOk: CString -> bool)
    requires ParseFields(req, trstringOk, adrfamOk).Success?
    requires PathModeOk(req.multipath)
    requires !SameNetworkPath(ParseFields(req, trstringOk, adrfamOk).value.0,
                              ParseFields(req, trstringOk, adrfamOk).value.1, ex)
    requires !StrNEqual(OrEmpty(req.subnqn), ex.trid.subnqn, NqnMaxLen)
    ensures Admit(req, Some(ex), trstringOk, adrfamOk) == Reject(EINVAL)
  {
    ModeNotDisable(req.multipath);
  }

  /** Likewise a hostnqn differing within the first SPDK_NVMF_NQN_MAX_LEN characters fails with EINVAL. */
  lemma HostnqnMismatchRejected(req: AttachRequest, ex: ExistingCtrlr,
                                trstringOk: CString -> bool, adrfamOk: CString -> bool)
    requires ParseFields(req, trstringOk, adrfamOk).Success?
    requires PathModeOk(req.multipath)
    requires !SameNetworkPath(ParseFields(req, trstringOk, adrfamOk).value.0,
                              ParseFields(req, trstringOk, adrfamOk).value.1, ex)
    requires !StrNEqual(ParseFields(req, trstringOk, adrfamOk).value.1.hostnqn,
                        ex.drvOpts.hostnqn, NqnMaxLen)
    ensures Admit(req, Some(ex), trstringOk, adrfamOk) == Reject(EINVAL)
  {
    ModeNotDisable(req.multipath);
  }

  /** PI flags given for an extra path (different path, same subsystem and host) fail with EINVAL. */
  lemma PiFlagsOnExtraPathRejected(req: AttachRequest, ex: ExistingCtrlr,
                                   trstringOk: CString -> bool, adrfamOk: CString -> bool)
    requires ParseFields(req, trstringOk, adrfamOk).Success?
    requires PathModeOk(req.multipath)
    requires !SameNetworkPath(ParseFields(req, trstringOk, adrfamOk).value.0,
                              ParseFields(req, trstringOk, adrfamOk).value.1, ex)
    requires StrNEqual(OrEmpty(req.subnqn), ex.trid.subnqn, NqnMaxLen)
    requires StrNEqual(ParseFields(req, trstringOk, adrfamOk).value.1.hostnqn,
                       ex.drvOpts.hostnqn, NqnMaxLen)
    requires req.bdevOpts.prchkFlags.Any()
    ensures Admit(req, Some(ex), trstringOk, adrfamOk) == Reject(EINVAL)
  {
    ModeNotDisable(req.multipath);
  }

  /**
   * strncmp over SPDK_NVMF_NQN_MAX_LEN characters reaches every character a
   * 224-byte NQN field can hold, so on stored names it is plain equality.
   */
  lemma NqnComparisonIsEquality(a: CString, b: CString)
    requires |a| < NqnCapacity && |b| < NqnCapacity
    ensures StrNEqual(a, b, NqnMaxLen) <==> a == b
  {
    assert a[..Min(|a|, NqnMaxLen)] == a;
    assert b[..Min(|b|, NqnMaxLen)] == b;
  }

  /**
   * The strncmp bounds are the buffer sizes, so for strings that fit their
   * buffers the duplicate-path test is plain equality of the four fields.
   */
  lemma SameNetworkPathExact(trid: TransportId, drv: DriverOpts, ex: ExistingCtrlr)
    requires StoredInBuffers(ex)
    requires |trid.traddr| < TraddrCapacity && |trid.trsvcid| < TrsvcidCapacity
    requires |drv.srcAddr| < TraddrCapacity && |drv.srcSvcid| < TrsvcidCapacity
    ensures SameNetworkPath(trid, drv, ex) <==>
      && trid.traddr == ex.trid.traddr && trid.trsvcid == ex.trid.trsvcid
      && drv.srcAddr == ex.drvOpts.srcAddr && drv.srcSvcid == ex.drvOpts.srcSvcid
  {
    StrNEqualFitting(trid.traddr, ex.trid.traddr, TraddrCapacity);
    StrNEqualFitting(trid.trsvcid, ex.trid.trsvcid, TrsvcidCapacity);
    StrNEqualFitting(drv.srcAddr, ex.drvOpts.srcAddr, TraddrCapacity);
    StrNEqualFitting(drv.srcSvcid, ex.drvOpts.srcSvcid, TrsvcidCapacity);
  }

  /** Without a controller of that name nothing fails with EALREADY, whatever the mode string. */
  lemma NewNameNeverAlready(req: AttachRequest, trstringOk: CString -> bool, adrfamOk: CString -> bool)
    ensures Admit(req, None, trstringOk, adrfamOk) != Reject(EALREADY)
  {
  }

  /** For a new name with valid fields only the queue count can still reject. */
  lemma NewNameQueueBound(req: AttachRequest, trstringOk: CString -> bool, adrfamOk: CString -> bool)
    requires ParseFields(req, trstringOk, adrfamOk).Success?
    ensures Admit(req, None, trstringOk, adrfamOk).Proceed? <==>
            1 <= req.drvOpts.numIoQueues <= MaxIoQueues
    ensures !Admit(req, None, trstringOk, adrfamOk).Proceed? ==>
            Admit(req, None, trstringOk, adrfamOk) == Reject(EINVAL)
  {
  }

  /** The accepted path modes are not "disable" in any letter case. */
  lemma ModeNotDisable(mode: Option<CString>)
    requires PathModeOk(mode)
    ensures var m: CString := mode.GetOr("failover");
      !EqualIgnoreCase(m, "disable") &&
      (EqualIgnoreCase(m, "failover") || EqualIgnoreCase(m, "multipath"))
  {
  }
}
