/** `nvme_ctrlr_get_state_str`: the state reported for a controller by `bdev_nvme_get_controllers`. */
module ControllerState {

  /**
   * The controller fields the classification reads; `failed` is what
   * `spdk_nvme_ctrlr_is_failed` answers, `reconnectIsDelayed` the counter
   * compared with zero.
   */
  datatype CtrlrFlags = CtrlrFlags(destruct: bool, failed: bool, resetting: bool, reconnectIsDelayed: nat)

  /** The five state names, as reported ("deleting", "failed", ...). */
  predicate IsStateName(s: string) {
    s == "deleting" || s == "failed" || s == "resetting" || s == "reconnect_is_delayed" || s == "enabled"
  }

  /**
   * Priority deleting > failed > resetting > reconnect_is_delayed > enabled:
   * each name is reported exactly when its flag is set and no flag of higher
   * priority is.
   */
  function StateStr(f: CtrlrFlags): (s: string)
    ensures IsStateName(s)
    ensures s == "deleting" <==> f.destruct
    ensures s == "failed" <==> !f.destruct && f.failed
    ensures s == "resetting" <==> !f.destruct && !f.failed && f.resetting
    ensures s == "reconnect_is_delayed" <==> !f.destruct && !f.failed && !f.resetting && f.reconnectIsDelayed > 0
    ensures s == "enabled" <==> !f.destruct && !f.failed && !f.resetting && f.reconnectIsDelayed == 0
  {
    if f.destruct then "deleting"
    else if f.failed then "failed"
    else if f.resetting then "resetting"
    else if f.reconnectIsDelayed > 0 then "reconnect_is_delayed"
    else "enabled"
  }

  /**
   * Flags below the highest one set do not matter: a controller being
   * deleted reports "deleting" whatever else holds, a failed one "failed"
   * whether or not it is also resetting or waiting to reconnect.
   */
  lemma StateStrIgnoresLowerFlags(f: CtrlrFlags, g: CtrlrFlags)
    requires f.destruct == g.destruct
    requires !f.destruct ==> f.failed == g.failed
    requires !f.destruct && !f.failed ==> f.resetting == g.resetting
    requires !f.destruct && !f.failed && !f.resetting ==> (f.reconnectIsDelayed > 0 <==> g.reconnectIsDelayed > 0)
    ensures StateStr(f) == StateStr(g)
  {
  }
}
