/**
 * `bdev_nvme_detach_controller`: the optional path filter is built from the
 * request with the same buffer checks as attach, then handed to
 * `bdev_nvme_delete`, whose return code is a parameter.
 */
module DetachController {
  import opened Wrappers
  import opened CStrings
  import opened NvmePaths

  datatype DetachRequest = DetachRequest(
    name: CString,
    trtype: Option<CString>,
    traddr: Option<CString>,
    adrfam: Option<CString>,
    trsvcid: Option<CString>,
    subnqn: Option<CString>,
    hostaddr: Option<CString>,
    hostsvcid: Option<CString>)

  /** `struct nvme_path_id`, zero-initialised and then filled from the present fields. */
  datatype PathId = PathId(trid: TransportId, hostid: HostId)

  predicate FieldsFit(req: DetachRequest) {
    && OptionalFits(req.traddr, TraddrCapacity)
    && OptionalFits(req.trsvcid, TrsvcidCapacity)
    && OptionalFits(req.subnqn, NqnCapacity)
    && OptionalFits(req.hostaddr, TraddrCapacity)
    && OptionalFits(req.hostsvcid, TrsvcidCapacity)
  }

  /**
   * The path filter, checked in the handler's order; an absent field stays
   * empty. `trstringOk` and `adrfamOk` are the foreign transport-id parsers.
   */
  function ParsePath(req: DetachRequest, trstringOk: CString -> bool, adrfamOk: CString -> bool)
    : (r: Result<PathId, Errno>)
    ensures r.Failure? ==> r.error == EINVAL
    ensures r.Success? <==> FieldsFit(req) &&
                            (req.trtype.Some? ==> trstringOk(req.trtype.value)) &&
                            (req.adrfam.Some? ==> adrfamOk(req.adrfam.value))
    ensures r.Success? ==>
      && r.value.trid.trstring == OrEmpty(req.trtype)
      && r.value.trid.traddr == OrEmpty(req.traddr)
      && r.value.trid.trsvcid == OrEmpty(req.trsvcid)
      && r.value.trid.subnqn == OrEmpty(req.subnqn)
      && r.value.hostid == HostId(OrEmpty(req.hostaddr), OrEmpty(req.hostsvcid))
  {
    if req.trtype.Some? && !trstringOk(req.trtype.value) then Failure(EINVAL)
    else if !OptionalFits(req.traddr, TraddrCapacity) then Failure(EINVAL)
    else if req.adrfam.Some? && !adrfamOk(req.adrfam.value) then Failure(EINVAL)
    else if !OptionalFits(req.trsvcid, TrsvcidCapacity) then Failure(EINVAL)
    else if !OptionalFits(req.subnqn, NqnCapacity) then Failure(EINVAL)
    else if !OptionalFits(req.hostaddr, TraddrCapacity) then Failure(EINVAL)
    else if !OptionalFits(req.hostsvcid, TrsvcidCapacity) then Failure(EINVAL)
    else
      Success(PathId(TransportId(OrEmpty(req.trtype), req.adrfam, OrEmpty(req.traddr),
                                 OrEmpty(req.trsvcid), OrEmpty(req.subnqn), 0),
                     HostId(OrEmpty(req.hostaddr), OrEmpty(req.hostsvcid))))
  }

  /**
   * The response: a filter error, else the code `bdev_nvme_delete` returned
   * for the filter (`deleteRc`), else `true`. Detach always answers at once.
   */
  function DetachReply(req: DetachRequest, trstringOk: CString -> bool, adrfamOk: CString -> bool,
                       deleteRc: int): (r: RpcReply)
    ensures !r.Pending?
    ensures r == BoolResponse(true) <==> ParsePath(req, trstringOk, adrfamOk).Success? && deleteRc == 0
    ensures !FieldsFit(req) ==> r == ErrorResponse(ErrnoCode(EINVAL))
  {
    match ParsePath(req, trstringOk, adrfamOk)
    case Failure(e) => ErrorResponse(ErrnoCode(e))
    case Success(_) => if deleteRc != 0 then ErrorResponse(deleteRc) else BoolResponse(true)
  }
}

/**
 * `bdev_nvme_start_discovery`: the discovery controller's transport id and
 * host NQN are built with the same checks, then `bdev_nvme_start_discovery`
 * (its return code a parameter) is started; with `wait_for_attach` the
 * answer is deferred to the completion callback.
 */
module StartDiscovery {
  import opened Wrappers
  import opened CStrings
  import opened NvmePaths

  /** `defaultHostnqn` is the host NQN of the default controller options. */
  datatype DiscoveryRequest = DiscoveryRequest(
    name: CString,
    trtype: CString,
    traddr: CString,
    adrfam: Option<CString>,
    trsvcid: Option<CString>,
    hostnqn: Option<CString>,
    waitForAttach: bool,
    defaultHostnqn: CString)

  predicate FieldsFit(req: DiscoveryRequest) {
    FitsIn(req.traddr, TraddrCapacity) && OptionalFits(req.trsvcid, TrsvcidCapacity)
  }

  /** The transport id and host NQN handed to the discovery service. */
  function DiscoveryTarget(req: DiscoveryRequest, trstringOk: CString -> bool, adrfamOk: CString -> bool)
    : (r: Result<(TransportId, CString), Errno>)
    ensures r.Failure? ==> r.error == EINVAL
    ensures r.Success? <==> trstringOk(req.trtype) && FieldsFit(req) &&
                            (req.adrfam.Some? ==> adrfamOk(req.adrfam.value))
    ensures r.Success? ==>
      && r.value.0.traddr == req.traddr && r.value.0.trsvcid == OrEmpty(req.trsvcid)
      && r.value.0.subnqn == ""
      && |r.value.1| < NqnCapacity
      && r.value.1 <= (if req.hostnqn.Some? then req.hostnqn.value else req.defaultHostnqn)
      && |r.value.1| == Min(|if req.hostnqn.Some? then req.hostnqn.value else req.defaultHostnqn|, NqnMaxLen)
  {
    if !trstringOk(req.trtype) then Failure(EINVAL)
    else if !FitsIn(req.traddr, TraddrCapacity) then Failure(EINVAL)
    else if req.adrfam.Some? && !adrfamOk(req.adrfam.value) then Failure(EINVAL)
    else if !OptionalFits(req.trsvcid, TrsvcidCapacity) then Failure(EINVAL)
    else
      var trid := TransportId(req.trtype, req.adrfam, req.traddr, OrEmpty(req.trsvcid), "", 0);
      var hostnqn := Truncate(if req.hostnqn.Some? then req.hostnqn.value else req.defaultHostnqn,
                              NqnCapacity);
      Success((trid, hostnqn))
  }

  /** The response sent by the handler itself, given the start routine's code. */
  function DiscoveryReply(req: DiscoveryRequest, trstringOk: CString -> bool, adrfamOk: CString -> bool,
                          startRc: int): (r: RpcReply)
    ensures r.Pending? <==> DiscoveryTarget(req, trstringOk, adrfamOk).Success? && startRc == 0 &&
                            req.waitForAttach
    ensures r.BoolResponse? ==> r.value
    ensures r.ErrorResponse? ==> r.code != 0
  {
    match DiscoveryTarget(req, trstringOk, adrfamOk)
    case Failure(e) => ErrorResponse(ErrnoCode(e))
    case Success(_) =>
      if startRc != 0 then ErrorResponse(startRc)
      else if !req.waitForAttach then BoolResponse(true)
      else Pending
  }

  /** `rpc_bdev_nvme_start_discovery_done`: the deferred answer. */
  function DiscoveryDone(): (r: RpcReply)
    ensures r == BoolResponse(true)
  {
    BoolResponse(true)
  }

  /**
   * Every request is answered exactly once with success or failure: either
   * the handler answers, or it leaves the answer pending and the callback
   * sends `true`.
   */
  lemma DiscoveryAnsweredOnce(req: DiscoveryRequest, trstringOk: CString -> bool,
                              adrfamOk: CString -> bool, startRc: int)
    ensures var r := DiscoveryReply(req, trstringOk, adrfamOk, startRc);
      var answer := if r.Pending? then DiscoveryDone() else r;
      !answer.Pending? &&
      (answer == BoolResponse(true) <==> DiscoveryTarget(req, trstringOk, adrfamOk).Success? && startRc == 0)
  {
  }
}

/** The buffer-length rule shared by attach, detach and start_discovery. */
module SharedFieldChecks {
  import opened Wrappers
  import opened CStrings
  import opened NvmePaths
  import AttachController
  import DetachController
  import StartDiscovery

  /**
   * One traddr and trsvcid pair: if either does not leave room for its
   * terminator, all three handlers reject with EINVAL; attach and discovery
   * otherwise copy the same strings into the transport id.
   */
  lemma SameLengthRule(a: AttachController.AttachRequest, d: DetachController.DetachRequest,
                       s: StartDiscovery.DiscoveryRequest,
                       trstringOk: CString -> bool, adrfamOk: CString -> bool, deleteRc: int, startRc: int)
    requires d.traddr == Some(a.traddr) && s.traddr == a.traddr
    requires d.trsvcid == a.trsvcid && s.trsvcid == a.trsvcid
    requires !FitsIn(a.traddr, TraddrCapacity) || !OptionalFits(a.trsvcid, TrsvcidCapacity)
    ensures AttachController.Admit(a, None, trstringOk, adrfamOk) == AttachController.Reject(EINVAL)
    ensures DetachController.DetachReply(d, trstringOk, adrfamOk, deleteRc) == ErrorResponse(ErrnoCode(EINVAL))
    ensures StartDiscovery.DiscoveryReply(s, trstringOk, adrfamOk, startRc) == ErrorResponse(ErrnoCode(EINVAL))
  {
  }
}
