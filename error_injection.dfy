/**
 * The string-to-enum decoders of the bdev_nvme RPCs and the answers of
 * `bdev_nvme_add_error_injection` / `bdev_nvme_remove_error_injection`:
 * ENODEV for an unknown controller, a direct call for admin commands, and a
 * per-channel fan-out for I/O commands in which a channel without an I/O
 * qpair is skipped and reports success.
 */
module ErrorInjection {
  import opened Wrappers
  import opened NvmePaths

  /** `enum error_injection_cmd_type`. */
  datatype CmdType = AdminCmd | IoCmd

  function CmdTypeName(t: CmdType): string {
    match t
    case AdminCmd => "admin"
    case IoCmd => "io"
  }

  /** `rpc_error_injection_decode_cmd_type`: exactly "admin" or "io", else EINVAL. */
  function DecodeCmdType(s: string): (r: Result<CmdType, Errno>)
    ensures r.Failure? ==> r.error == EINVAL
    ensures r.Success? <==> s == "admin" || s == "io"
  {
    if s == "admin" then Success(AdminCmd)
    else if s == "io" then Success(IoCmd)
    else Failure(EINVAL)
  }

  /** The decoder inverts the names, and accepts no other string. */
  lemma CmdTypeRoundTrip(t: CmdType, s: string)
    ensures DecodeCmdType(CmdTypeName(t)) == Success(t)
    ensures DecodeCmdType(s).Success? ==> CmdTypeName(DecodeCmdType(s).value) == s
  {
  }

  /** `enum spdk_bdev_timeout_action`. */
  datatype TimeoutAction = ActionNone | ActionAbort | ActionReset

  function TimeoutActionName(a: TimeoutAction): string {
    match a
    case ActionNone => "none"
    case ActionAbort => "abort"
    case ActionReset => "reset"
  }

  /** `rpc_decode_action_on_timeout`: exactly "none", "abort" or "reset", else EINVAL. */
  function DecodeActionOnTimeout(s: string): (r: Result<TimeoutAction, Errno>)
    ensures r.Failure? ==> r.error == EINVAL
    ensures r.Success? <==> s == "none" || s == "abort" || s == "reset"
  {
    if s == "none" then Success(ActionNone)
    else if s == "abort" then Success(ActionAbort)
    else if s == "reset" then Success(ActionReset)
    else Failure(EINVAL)
  }

  lemma TimeoutActionRoundTrip(a: TimeoutAction, s: string)
    ensures DecodeActionOnTimeout(TimeoutActionName(a)) == Success(a)
    ensures DecodeActionOnTimeout(s).Success? ==> TimeoutActionName(DecodeActionOnTimeout(s).value) == s
  {
  }

  /**
   * One controller channel as the per-channel callbacks see it.
   * `injectRc` is what `spdk_nvme_qpair_add_cmd_error_injection` would
   * return on that channel's qpair.
   */
  datatype Channel = Channel(hasQpair: bool, injectRc: int)

  /** What a per-channel callback does: whether it called into the qpair, and the status it continues with. */
  datatype ChannelStep = ChannelStep(called: bool, status: int)

  /** `rpc_add_error_injection_per_channel`: a channel without a qpair is a no-op with status 0. */
  function AddPerChannel(ch: Channel): (r: ChannelStep)
    ensures r.called <==> ch.hasQpair
    ensures r.status == (if ch.hasQpair then ch.injectRc else 0)
  {
    if ch.hasQpair then ChannelStep(true, ch.injectRc) else ChannelStep(false, 0)
  }

  /** `rpc_remove_error_injection_per_channel`: removal on a qpair, if any, and status 0 always. */
  function RemovePerChannel(ch: Channel): (r: ChannelStep)
    ensures r.called <==> ch.hasQpair
    ensures r.status == 0
  {
    ChannelStep(ch.hasQpair, 0)
  }

  /**
   * The status the fan-out completes with, under the contract of
   * `spdk_for_each_channel_continue`: iteration stops at the first nonzero
   * status, which becomes the completion status; if every channel continues
   * with 0 the completion status is 0.
   */
  function FanOutStatus(steps: seq<ChannelStep>): (status: int)
    ensures status == 0 <==> forall i :: 0 <= i < |steps| ==> steps[i].status == 0
  {
    if steps == [] then 0
    else if steps[0].status != 0 then steps[0].status
    else FanOutStatus(steps[1..])
  }

  /**
   * The callbacks the I/O add fan-out runs, in channel order: the iteration
   * goes on while each callback continues with 0 and stops after the first
   * nonzero status, so later channels are never visited.
   */
  function AddSteps(chs: seq<Channel>): (r: seq<ChannelStep>)
    ensures |r| <= |chs|
    ensures forall i :: 0 <= i < |r| ==> r[i] == AddPerChannel(chs[i])
    ensures forall i :: 0 <= i < |r| - 1 ==> r[i].status == 0
    ensures |r| < |chs| ==> r != [] && r[|r| - 1].status != 0
  {
    if chs == [] then []
    else
      var st := AddPerChannel(chs[0]);
      if st.status != 0 then [st] else [st] + AddSteps(chs[1..])
  }

  /** The callbacks the I/O remove fan-out runs: every channel, since each continues with 0. */
  function RemoveSteps(chs: seq<Channel>): (r: seq<ChannelStep>)
    ensures |r| == |chs| && forall i :: 0 <= i < |chs| ==> r[i] == RemovePerChannel(chs[i])
  {
    if chs == [] then [] else [RemovePerChannel(chs[0])] + RemoveSteps(chs[1..])
  }

  /** The completion callbacks: a nonzero status is the error code, 0 answers `true`. */
  function FanOutDone(status: int): (r: RpcReply)
    ensures r == BoolResponse(true) <==> status == 0
    ensures r.ErrorResponse? ==> r.code == status
    ensures !r.Pending?
  {
    if status != 0 then ErrorResponse(status) else BoolResponse(true)
  }

  /**
   * The handler's own answer. `found` is whether a controller has the name,
   * `adminRc` what the admin-queue call returns. I/O commands are answered
   * by the fan-out's completion. The admin failure code is `-rc`, as written.
   */
  function AddErrorInjectionReply(found: bool, cmd: CmdType, adminRc: int): (r: RpcReply)
    ensures !found ==> r == ErrorResponse(ErrnoCode(ENODEV))
    ensures found && cmd == IoCmd ==> r == Pending
    ensures found && cmd == AdminCmd ==> (r == BoolResponse(true) <==> adminRc == 0)
    ensures found && cmd == AdminCmd && adminRc != 0 ==> r == ErrorResponse(-adminRc)
  {
    if !found then ErrorResponse(ErrnoCode(ENODEV))
    else if cmd == IoCmd then Pending
    else if adminRc != 0 then ErrorResponse(-adminRc)
    else BoolResponse(true)
  }

  /** Removal on the admin queue cannot fail, so it always answers `true` for a known controller. */
  function RemoveErrorInjectionReply(found: bool, cmd: CmdType): (r: RpcReply)
    ensures !found ==> r == ErrorResponse(ErrnoCode(ENODEV))
    ensures found && cmd == IoCmd ==> r == Pending
    ensures found && cmd == AdminCmd ==> r == BoolResponse(true)
  {
    if !found then ErrorResponse(ErrnoCode(ENODEV))
    else if cmd == IoCmd then Pending
    else BoolResponse(true)
  }

  /** The first channel, if any, that has a qpair and whose injection fails. */
  function FirstFailing(chs: seq<Channel>): (r: Option<nat>)
    ensures r.Some? ==> r.value < |chs| && chs[r.value].hasQpair && chs[r.value].injectRc != 0
    ensures r.Some? ==> forall k :: 0 <= k < r.value ==> !chs[k].hasQpair || chs[k].injectRc == 0
    ensures r.None? ==> forall k :: 0 <= k < |chs| ==> !chs[k].hasQpair || chs[k].injectRc == 0
  {
    if chs == [] then None
    else if chs[0].hasQpair && chs[0].injectRc != 0 then Some(0)
    else match FirstFailing(chs[1..])
      case None => None
      case Some(j) => Some(j + 1)
  }

  /**
   * Adding over the channels fails exactly with the code of the first
   * channel that has a qpair and fails; channels without a qpair never
   * cause a failure.
   */
  lemma {:induction false} AddFanOutStatus(chs: seq<Channel>)
    ensures FanOutStatus(AddSteps(chs)) ==
            (match FirstFailing(chs) case None => 0 case Some(j) => chs[j].injectRc)
  {
    if chs != [] {
      var st := AddPerChannel(chs[0]);
      if st.status == 0 {
        AddFanOutStatus(chs[1..]);
        AddStepsCons(chs, st);
        FirstFailingCons(chs);
      }
    }
  }

  /** The fan-out visits channels up to and including the first failing one, or all of them. */
  lemma {:induction false} AddStepsVisit(chs: seq<Channel>)
    ensures |AddSteps(chs)| == (match FirstFailing(chs) case None => |chs| case Some(j) => j + 1)
  {
    if chs != [] {
      var st := AddPerChannel(chs[0]);
      if st.status == 0 {
        AddStepsVisit(chs[1..]);
        AddStepsCons(chs, st);
        FirstFailingCons(chs);
      }
    }
  }

  /** A first channel that continues with 0 is followed by the steps of the rest. */
  lemma AddStepsCons(chs: seq<Channel>, st: ChannelStep)
    requires chs != [] && st == AddPerChannel(chs[0]) && st.status == 0
    ensures AddSteps(chs) == [st] + AddSteps(chs[1..])
    ensures FanOutStatus(AddSteps(chs)) == FanOutStatus(AddSteps(chs[1..]))
  {
    assert ([st] + AddSteps(chs[1..]))[1..] == AddSteps(chs[1..]);
  }

  /** Past a first channel that does not fail, the first failure is found one later. */
  lemma FirstFailingCons(chs: seq<Channel>)
    requires chs != [] && AddPerChannel(chs[0]).status == 0
    ensures FirstFailing(chs) == (match FirstFailing(chs[1..]) case None => None case Some(j) => Some(j + 1))
    ensures FirstFailing(chs[1..]).Some? ==> chs[FirstFailing(chs[1..]).value + 1] == chs[1..][FirstFailing(chs[1..]).value]
  {
  }

  /** Channels that all lack a qpair make the I/O add a successful no-op that visits every channel. */
  lemma {:induction false} AddWithoutQpairsSucceeds(chs: seq<Channel>)
    requires forall k :: 0 <= k < |chs| ==> !chs[k].hasQpair
    ensures FanOutDone(FanOutStatus(AddSteps(chs))) == BoolResponse(true)
    ensures |AddSteps(chs)| == |chs| && forall k :: 0 <= k < |chs| ==> !AddSteps(chs)[k].called
  {
    AddFanOutStatus(chs);
    AddStepsVisit(chs);
  }

  /** Removing over the channels always completes with `true`. */
  lemma {:induction false} RemoveFanOutSucceeds(chs: seq<Channel>)
    ensures FanOutStatus(RemoveSteps(chs)) == 0
    ensures FanOutDone(FanOutStatus(RemoveSteps(chs))) == BoolResponse(true)
  {
    if chs != [] {
      RemoveFanOutSucceeds(chs[1..]);
      assert RemoveSteps(chs)[1..] == RemoveSteps(chs[1..]);
    }
  }
}
