# SPDK NVMe control plane and NVMe-oF target configuration, modelled in Dafny

This project models two pieces of SPDK's sequential decision logic and proves
properties of them.

**The bdev_nvme JSON-RPC handlers** (`module/bdev/nvme/bdev_nvme_rpc.c`):

- `bdev_nvme_attach_controller` admission. This is the ordered chain of
  early-exit checks that builds a transport id, driver options and bdev
  options from a request. It either rejects with an errno or hands the
  request to `bdev_nvme_create` together with its multipath flag. It covers:
  - the buffer-length checks;
  - the multipath mode rules for a name that already exists;
  - the four-field duplicate-path test;
  - the subnqn and hostnqn tests;
  - the protection-information (PI) flag rule;
  - the `num_io_queues` bound.
- The same field checks in `bdev_nvme_detach_controller` and
  `bdev_nvme_start_discovery`, and the replies those handlers send.
- `nvme_ctrlr_get_state_str`: the state name of a controller.
- `bdev_nvme_apply_firmware`, modelled as a class over the record
  `firmware_update_info`.
  - The start opens every bdev of the controller and records each descriptor
    with its thread. It picks a descriptor, reads the image and submits the
    first Firmware Image Download.
  - Each download completion advances `p`, `offset`, `size_remaining` and
    `transfer`, then submits the next download or, once nothing remains, the
    Firmware Commit (slot 0, replace and enable).
  - The commit completion requests a controller reset.
  - Every end sends one reply and runs `apply_firmware_cleanup`. Cleanup
    drains the descriptor list and closes each descriptor directly or by a
    message to its opening thread.
  - The proofs cover the record's invariant across every step, and that the
    downloads carry the image bytes exactly, in order, in chunks of at most
    4096 bytes at dword offsets (`cdw11 = offset >> 2`, section 5.12 of the
    NVMe Base Specification 1.4).
- `bdev_nvme_add_error_injection` and `bdev_nvme_remove_error_injection`:
  - the answer for an unknown controller and for admin commands;
  - the per-channel fan-out for I/O commands, in which a channel without an
    I/O qpair is a no-op that reports success;
  - the `cmd_type` and `action_on_timeout` string decoders.

**The NVMe-oF target configuration parser** (`lib/nvmf/conf.c`):

- `spdk_nvmf_validate_nqn`: length, "nqn." prefix, and the "yyyy-mm." date
  code (section 7.9 of the NVMe Base Specification 1.4).
- `spdk_nvmf_parse_addr`: the split of a listen address into host and port.
  It handles a bracketed IPv6 host, the default port 4420 and the '@'
  terminator of the port.
- `spdk_nvmf_parse_subsystem`:
  - NQN validation and subsystem creation;
  - the loop over `Mapping PortN HostN` lines with its name and id checks;
  - the controller claim;
  - deleting the subsystem on a later failure.
- `spdk_nvmf_parse_nvme`: the `[Nvme]` section.
  - `ClaimAllDevices` and `UnbindFromKernel` are compared exactly with "Yes".
  - The BDF whitelist is built by reading each line with
    `sscanf("%x:%x:%x.%x")`.
  - The device names are cut to the name buffer.

The section API (`spdk_conf_*`) is given as a sequence of lines. Each line is
a sequence of values.

Calls into code that is not part of this model are parameters. Their verdicts
are booleans, functions or return codes. These calls are:

- the transport-id parsers;
- `bdev_nvme_create`, `bdev_nvme_delete`, `bdev_nvme_start_discovery`;
- `spdk_bdev_open_ext`, `spdk_bdev_get_io_channel`, the admin passthru
  submission and `spdk_nvme_ctrlr_reset`;
- `nvmf_create_subsystem`, `spdk_nvmf_subsystem_add_map`,
  `spdk_nvmf_ctrlr_claim`, `nvmf_subsystem_add_ctrlr`.

The image file enters as its `st_size` and the bytes `read` returns. The
current thread enters as an explicit argument.

Modules:

| module | file | models |
|---|---|---|
| Wrappers, CStrings | cstrings.dfy | C strings and the libc string functions the code relies on |
| NvmePaths | nvme_paths.dfy | buffer capacities, errno codes, transport id, RPC replies |
| AttachController | attach_controller.dfy | attach admission |
| DetachController, StartDiscovery, SharedFieldChecks | path_requests.dfy | detach, start_discovery, the shared length rule |
| ControllerState | controller_state.dfy | controller state string |
| ErrorInjection | error_injection.dfy | error-injection replies and decoders |
| FirmwarePlan | firmware_plan.dfy | the download/commit plan of an image |
| FirmwareUpdate, FirmwareStart | firmware_update.dfy | the firmware state machine and what its start decides |
| NqnFormat | nqn_format.dfy | NQN validation |
| ListenAddr | listen_addr.dfy | listen address parsing |
| ConfSection | conf_section.dfy | the configuration section API (`spdk_conf_section_get_nmval`) |
| SubsystemConf | subsystem_conf.dfy | subsystem section and mapping loop |
| NvmeConf | nvme_conf.dfy | `[Nvme]` section and BDF whitelist |

Behaviours of the code that the model keeps as written:

- The descriptor lookup of apply_firmware always picks the first bdev of the
  controller. Every descriptor entry is recorded under the requested bdev.
  The reply "No descriptor were found." therefore never happens
  (`FirmwareStart.SelectedIsFirstOnController`).
- A size-0 image passes the multiple-of-4 test. It sends one zero-length
  download and then the commit (`FirmwarePlan.Plan`,
  `FirmwareStart.EmptyImageAccepted`).
- `firm_ctx->size` is `st_size` truncated to `unsigned int`. The
  multiple-of-4 test reads `st_size` itself; truncation keeps that test's
  verdict (`FirmwareUpdate.TruncationKeepsAlignment`). The read must deliver
  the truncated size.
- Error messages are formatted into a 1024-byte buffer and are cut to 1023
  characters.
- An `add_error_injection` admin failure replies with `-rc`, the negation of
  what the admin call returned.
- `start_discovery` leaves the subnqn of the discovery transport id empty.
- In `parse_addr` an '@' ahead of the port separator makes the port length
  negative, and the address is refused.
  - The IPv4 `q == p` guard can never decide, because the character at `p`
    is ':' (`ListenAddr.EmptyPortGuardUnreachable`).
  - The '@' is searched for from the start of the address, not from the
    separator.
- `sscanf("%*[^0-9]%d")` skips a minus sign together with the other
  non-digits, so "Port-3" reads as id 3.
- `ClaimAllDevices` is compared case-sensitively with `strcmp`.

## Model

| member | source | states |
|---|---|---|
| AttachController.ParseFields | module/bdev/nvme/bdev_nvme_rpc.c:341-429 | building the transport id and host options fails only with EINVAL. It succeeds exactly when the trtype parses, a given adrfam parses, and traddr, trsvcid, subnqn, hostaddr and hostsvcid each leave room for their terminator |
| AttachController.Finish | module/bdev/nvme/bdev_nvme_rpc.c:507-521 | the common tail admits exactly when 1 <= num_io_queues <= 65536 and otherwise answers EINVAL. An admitted request keeps the transport id and driver options, keeps the PI flags it is given, clears `from_discovery_service`, and is multipath exactly when the mode is "multipath" in any case |
| AttachController.Admit | module/bdev/nvme/bdev_nvme_rpc.c:311-535 | the whole admission. A rejection is EINVAL or EALREADY, and EALREADY is only ever answered when a controller of that name exists. An admitted request has 1 <= num_io_queues <= 65536 and `from_discovery_service` cleared |
| AttachController.OversizedFieldRejected | module/bdev/nvme/bdev_nvme_rpc.c:355-429 | a field that does not fit its buffer rejects the request with EINVAL, whatever else holds, so no controller is created |
| AttachController.AdmittedRequest | module/bdev/nvme/bdev_nvme_rpc.c:504-521 | an admitted request had fitting fields and a valid trtype. Its transport id holds the request's strings, and host address and service come from the request or the defaults. The queue count is in 1..65536 and the multipath flag means "mode is multipath" in any case. `from_discovery_service` is cleared. A new controller keeps the request's PI flags; an extra path carries none of its own, inherits the existing controller's flags and is not a duplicate path |
| AttachController.AbsentModeIsFailover | module/bdev/nvme/bdev_nvme_rpc.c:434-445 | on every input, a missing multipath mode decides exactly as "failover" does |
| AttachController.DisabledMultipathRejected | module/bdev/nvme/bdev_nvme_rpc.c:448-453 | mode "disable", in any letter case, on an existing name fails with EALREADY |
| AttachController.UnknownMultipathRejected | module/bdev/nvme/bdev_nvme_rpc.c:454-462 | a mode other than disable, failover or multipath on an existing name fails with EINVAL |
| AttachController.DuplicatePathRejected | module/bdev/nvme/bdev_nvme_rpc.c:464-477 | equal traddr, trsvcid, hostaddr and hostsvcid on an existing name fail with EALREADY, even if subnqn or hostnqn differ, because this test runs first |
| AttachController.SameNetworkPathExact | module/bdev/nvme/bdev_nvme_rpc.c:468-471 | because each strncmp bound is its buffer's size, the duplicate-path test on stored strings holds if and only if traddr, trsvcid, hostaddr and hostsvcid are all equal |
| AttachController.SubnqnMismatchRejected | module/bdev/nvme/bdev_nvme_rpc.c:479-486 | a new path whose subnqn differs within SPDK_NVMF_NQN_MAX_LEN characters fails with EINVAL |
| AttachController.HostnqnMismatchRejected | module/bdev/nvme/bdev_nvme_rpc.c:489-494 | a new path whose hostnqn differs within SPDK_NVMF_NQN_MAX_LEN characters fails with EINVAL |
| AttachController.PiFlagsOnExtraPathRejected | module/bdev/nvme/bdev_nvme_rpc.c:497-502 | PI flags given for an otherwise acceptable extra path fail with EINVAL |
| AttachController.NqnComparisonIsEquality | module/bdev/nvme/bdev_nvme_rpc.c:479-494 | strncmp over SPDK_NVMF_NQN_MAX_LEN = 223 characters reaches every character a 224-byte NQN field holds, so on stored subnqn and hostnqn values it is plain equality, in both directions |
| AttachController.NewNameNeverAlready | module/bdev/nvme/bdev_nvme_rpc.c:431-504 | without a controller of that name no request fails with EALREADY, whatever its mode string |
| AttachController.NewNameQueueBound | module/bdev/nvme/bdev_nvme_rpc.c:511-516 | for a new name with valid fields, admission happens if and only if 1 <= num_io_queues <= 65536; otherwise the answer is EINVAL |
| NvmePaths.FitsMeansShorter | module/bdev/nvme/bdev_nvme_rpc.c:355-361 | the `strnlen(s, maxlen) == maxlen` rejection accepts exactly the strings shorter than the buffer |
| NvmePaths.StrNEqualFitting | module/bdev/nvme/bdev_nvme_rpc.c:468-471 | strncmp over a whole buffer is string equality for strings that fit it, in both directions |
| CStrings.IndexOf | lib/nvmf/conf.c:98 | `strchr` finds the first position at or after the start holding the character, or reports that none does |
| CStrings.Truncate | module/bdev/nvme/bdev_nvme_rpc.c:405-406 | `snprintf("%s")` into a buffer keeps a prefix of min(length, size - 1) characters, and the whole string when it fits |
| DetachController.ParsePath | module/bdev/nvme/bdev_nvme_rpc.c:710-792 | the path filter fails only with EINVAL. It succeeds exactly when a given trtype and adrfam parse and every present field fits its buffer. It then holds each present field, and absent fields are empty |
| DetachController.DetachReply | module/bdev/nvme/bdev_nvme_rpc.c:794-801 | detach answers at once. It answers `true` if and only if the filter is valid and `bdev_nvme_delete` returned 0, and EINVAL for any oversized field |
| StartDiscovery.DiscoveryTarget | module/bdev/nvme/bdev_nvme_rpc.c:1681-1730 | the discovery transport id fails only with EINVAL, and succeeds exactly under the trtype, traddr, adrfam and trsvcid checks. It carries the traddr and trsvcid and an empty subnqn. The host NQN is a prefix of the request's or the default one, cut to at most 223 characters so that it fits the 224-byte field with its terminator |
| StartDiscovery.DiscoveryReply | module/bdev/nvme/bdev_nvme_rpc.c:1732-1741 | the answer is deferred if and only if the target is valid, the start returned 0 and `wait_for_attach` is set. A direct success is `true` and a direct error has a nonzero code |
| StartDiscovery.DiscoveryAnsweredOnce | module/bdev/nvme/bdev_nvme_rpc.c:1646-1741 | every discovery request gets exactly one final answer, from the handler or from the callback. It is `true` if and only if the target is valid and the start returned 0 |
| SharedFieldChecks.SameLengthRule | module/bdev/nvme/bdev_nvme_rpc.c:728-758 | one traddr/trsvcid pair that does not fit makes attach, detach and start_discovery all fail with EINVAL |
| ControllerState.StateStr | module/bdev/nvme/bdev_nvme_rpc.c:541-554 | the state is one of five names. Each is reported if and only if its flag is set and no flag of higher priority is; the priority is deleting > failed > resetting > reconnect_is_delayed > enabled |
| ControllerState.StateStrIgnoresLowerFlags | module/bdev/nvme/bdev_nvme_rpc.c:541-554 | flags below the highest one set never change the state reported |
| ErrorInjection.DecodeCmdType | module/bdev/nvme/bdev_nvme_rpc.c:1833-1848 | `cmd_type` decodes exactly "admin" and "io"; every other string is -EINVAL |
| ErrorInjection.CmdTypeRoundTrip | module/bdev/nvme/bdev_nvme_rpc.c:1838-1845 | decoding a command type's name gives the type back, and every accepted string is the name of what it decodes to |
| ErrorInjection.DecodeActionOnTimeout | module/bdev/nvme/bdev_nvme_rpc.c:59-76 | `action_on_timeout` decodes exactly "none", "abort" and "reset"; every other string is -EINVAL |
| ErrorInjection.TimeoutActionRoundTrip | module/bdev/nvme/bdev_nvme_rpc.c:64-73 | decoding an action's name gives the action back, and every accepted string is the name of what it decodes to |
| ErrorInjection.AddPerChannel | module/bdev/nvme/bdev_nvme_rpc.c:1882-1899 | a channel calls into its qpair if and only if it has one. Without one it continues with status 0; with one it continues with the injection's return code |
| ErrorInjection.RemovePerChannel | module/bdev/nvme/bdev_nvme_rpc.c:1999-2013 | removal calls into the qpair if and only if there is one, and always continues with 0 |
| ErrorInjection.FanOutStatus | module/bdev/nvme/bdev_nvme_rpc.c:1935-1938 | the fan-out completes with status 0 if and only if every callback that ran continued with 0 |
| ErrorInjection.AddSteps | module/bdev/nvme/bdev_nvme_rpc.c:1882-1938 | the add fan-out runs the per-channel callback on the channels in order, never past the first nonzero status; it stops early only after a callback that failed |
| ErrorInjection.RemoveSteps | module/bdev/nvme/bdev_nvme_rpc.c:1999-2049 | the remove fan-out runs the per-channel callback on every channel, in order |
| ErrorInjection.FanOutDone | module/bdev/nvme/bdev_nvme_rpc.c:1866-1880 | the completion answers `true` if and only if the status is 0, and otherwise answers with the status as its code |
| ErrorInjection.AddErrorInjectionReply | module/bdev/nvme/bdev_nvme_rpc.c:1927-1951 | an unknown controller is -ENODEV and I/O commands are left to the fan-out. An admin command answers `true` if and only if the admin call returned 0, and `-rc` otherwise |
| ErrorInjection.RemoveErrorInjectionReply | module/bdev/nvme/bdev_nvme_rpc.c:2038-2054 | an unknown controller is -ENODEV, I/O commands are left to the fan-out, and an admin command always answers `true` |
| ErrorInjection.FirstFailing | module/bdev/nvme/bdev_nvme_rpc.c:1892-1898 | reference definition: the first channel that has a qpair and whose injection fails; no earlier channel does both |
| ErrorInjection.AddFanOutStatus | module/bdev/nvme/bdev_nvme_rpc.c:1892-1898 | the I/O add completes with the code of the first channel that has a qpair and fails, and with 0 if there is none. Channels without a qpair never cause a failure |
| ErrorInjection.AddStepsVisit | module/bdev/nvme/bdev_nvme_rpc.c:1892-1898 | the add fan-out visits every channel up to and including the first one that has a qpair and fails, or all channels when none does |
| ErrorInjection.AddWithoutQpairsSucceeds | module/bdev/nvme/bdev_nvme_rpc.c:1882-1898 | when no channel has a qpair, the I/O add visits every channel, touches no qpair and answers `true` |
| ErrorInjection.RemoveFanOutSucceeds | module/bdev/nvme/bdev_nvme_rpc.c:2008-2012 | the I/O remove always completes with status 0 and answers `true` |
| FirmwarePlan.Chunks | module/bdev/nvme/bdev_nvme_rpc.c:957-963 | a run is sent in no downloads if and only if it is empty |
| FirmwarePlan.ChunksShape | module/bdev/nvme/bdev_nvme_rpc.c:934-963 | every download holds 1 to 4096 bytes and all but the last are full. Each starts where the previous one ended; the first starts at the run's start and the last ends at its end |
| FirmwarePlan.ChunksCount | module/bdev/nvme/bdev_nvme_rpc.c:957-963 | a run of `len` bytes takes ceil(len / 4096) downloads |
| FirmwarePlan.Plan | module/bdev/nvme/bdev_nvme_rpc.c:1112-1128 | a size-0 image sends a single zero-length download; a larger image is split into chunks from offset 0 |
| FirmwarePlan.DownloadCommand | module/bdev/nvme/bdev_nvme_rpc.c:958-963 | a download carries its byte count, `cdw11 = offset / 4` and exactly as many image bytes |
| FirmwarePlan.DownloadCommands | module/bdev/nvme/bdev_nvme_rpc.c:958-963 | one download per chunk, in chunk order |
| FirmwarePlan.ChunksInside | module/bdev/nvme/bdev_nvme_rpc.c:934-936 | every download of a run lies inside that run |
| FirmwarePlan.ChunksAligned | module/bdev/nvme/bdev_nvme_rpc.c:934-936 | every download of a run from an aligned offset starts at a multiple of 4096 |
| FirmwarePlan.ChunksCarryImage | module/bdev/nvme/bdev_nvme_rpc.c:934-963 | the downloads of a run carry exactly the image bytes of that run, in order |
| FirmwarePlan.PayloadBasics | module/bdev/nvme/bdev_nvme_rpc.c:958-963 | commands without a download carry no bytes, and a lone download carries exactly its data |
| FirmwarePlan.PlanTransfersImage | module/bdev/nvme/bdev_nvme_rpc.c:1112-1128 | for an image whose size is a multiple of 4, the plan's downloads carry exactly the image. Each starts at a dword offset with `cdw11 * 4` equal to it and moves at most 4096 bytes |
| FirmwarePlan.PlanLength | module/bdev/nvme/bdev_nvme_rpc.c:1112-1114 | an image takes ceil(size / 4096) downloads, and an empty one takes one |
| FirmwarePlan.PlanLastChunk | module/bdev/nvme/bdev_nvme_rpc.c:938-957 | the plan of a non-empty image is its full chunks followed by the final, possibly short, chunk |
| FirmwarePlan.ChunksSplit | module/bdev/nvme/bdev_nvme_rpc.c:934-936 | splitting a run at a multiple of 4096 splits its downloads |
| FirmwareUpdate.Msg | module/bdev/nvme/bdev_nvme_rpc.c:1017-1019 | a formatted message is a prefix of the text, shorter than the 1024-byte buffer, and is the whole text when that fits |
| FirmwareUpdate.FindBdev | module/bdev/nvme/bdev_nvme_rpc.c:1017-1020 | reference definition: the first bdev with the name, or none when no bdev has it |
| FirmwareUpdate.ScanOpen | module/bdev/nvme/bdev_nvme_rpc.c:1029-1052 | the opening loop over the first n bdevs records at most n entries, each a bdev among them on the controller, recorded under the requested bdev and the current thread |
| FirmwareUpdate.Select | module/bdev/nvme/bdev_nvme_rpc.c:1017-1068 | an unknown bdev fails with no descriptor opened; a selection found the bdev and its controller; every message fits the buffer; every recorded descriptor is one of the bdevs, opened on the current thread |
| FirmwareUpdate.OnController | module/bdev/nvme/bdev_nvme_rpc.c:1029-1033 | reference definition: the bdevs of a controller in list order |
| FirmwareUpdate.FirstDescriptorFor | module/bdev/nvme/bdev_nvme_rpc.c:1057-1063 | a descriptor is found if and only if some entry is recorded under the bdev |
| FirmwareUpdate.CloseAction | module/bdev/nvme/bdev_nvme_rpc.c:876-881 | a descriptor is closed by a message exactly when its thread is recorded and is not the current one, and the message goes to that thread; otherwise it is closed directly |
| FirmwareUpdate.CloseActions | module/bdev/nvme/bdev_nvme_rpc.c:874-883 | each entry of the list is closed exactly once, in list order |
| FirmwareUpdate.Load | module/bdev/nvme/bdev_nvme_rpc.c:1070-1128 | a loaded image has a size below 2^32 that is a multiple of 4, and that many bytes |
| FirmwareUpdate.Start | module/bdev/nvme/bdev_nvme_rpc.c:1017-1131 | success and failure alike keep the descriptor list of the selection for cleanup; a failure message fits the buffer, and a started image has a size below 2^32, a multiple of 4, with that many bytes |
| FirmwareUpdate.FirmwareUpdate.constructor | module/bdev/nvme/bdev_nvme_rpc.c:995-1003 | the record starts zeroed, with an empty descriptor list |
| FirmwareUpdate.FirmwareUpdate.Cleanup | module/bdev/nvme/bdev_nvme_rpc.c:852-885 | cleanup releases the image and the channel, empties the list, closes each listed descriptor once, and leaves the submissions and replies unchanged |
| FirmwareUpdate.FirmwareUpdate.CloseAll | module/bdev/nvme/bdev_nvme_rpc.c:874-883 | the draining loop empties the list and performs exactly the close of each former entry, in order |
| FirmwareUpdate.FirmwareUpdate.Fail | module/bdev/nvme/bdev_nvme_rpc.c:1136-1138 | the error exit sends exactly one internal-error reply with the message and then cleans up |
| FirmwareUpdate.FirmwareUpdate.OpenDescriptors | module/bdev/nvme/bdev_nvme_rpc.c:1029-1052 | the opening loop records one entry per opened bdev of the controller, stopping at the first refused open |
| FirmwareUpdate.FirmwareUpdate.FindDescriptor | module/bdev/nvme/bdev_nvme_rpc.c:1057-1063 | the lookup loop returns the descriptor of the first entry recorded under the bdev |
| FirmwareUpdate.FirmwareUpdate.Apply | module/bdev/nvme/bdev_nvme_rpc.c:980-1139 | the handler keeps the record's invariant. A failed start sends one error reply, submits nothing and closes every opened descriptor. A successful one has submitted exactly the first download of the plan, with offset 0, remaining = size and transfer = min(size, 4096) |
| FirmwareUpdate.FirmwareUpdate.SelectDescriptor | module/bdev/nvme/bdev_nvme_rpc.c:1017-1068 | bdev lookup, controller lookup, the opening loop and the descriptor lookup, each with its failure message |
| FirmwareUpdate.FirmwareUpdate.LoadAndSubmit | module/bdev/nvme/bdev_nvme_rpc.c:1070-1139 | once a descriptor is chosen: a failed load sends exactly one error reply, submits nothing and closes the descriptors opened before it; a successful one leaves the first download in flight from offset 0, with the invariant kept |
| FirmwareUpdate.FirmwareUpdate.LoadImage | module/bdev/nvme/bdev_nvme_rpc.c:1070-1128 | channel, file and submit checks in order. On success the first download is in flight; on failure nothing is submitted |
| FirmwareUpdate.FirmwareUpdate.FirstDownload | module/bdev/nvme/bdev_nvme_rpc.c:1112-1128 | the record starts at offset 0 with remaining = size and transfer = min(size, 4096). When accepted, the first download is submitted with cdw11 0 |
| FirmwareUpdate.FirmwareUpdate.DownloadComplete | module/bdev/nvme/bdev_nvme_rpc.c:916-972 | a failed completion sends one error and cleans up without a further command. A success advances offset and cursor by the transfer, keeps offset + remaining = size, and submits the commit exactly when nothing remains, otherwise the next download of min(remaining, 4096) bytes at `offset >> 2`. The submissions stay the plan's prefix |
| FirmwareUpdate.FirmwareUpdate.SubmitCommit | module/bdev/nvme/bdev_nvme_rpc.c:938-955 | with nothing left, the whole plan and then the commit (slot 0, replace and enable) have been submitted, or a refused commit replies and cleans up |
| FirmwareUpdate.FirmwareUpdate.SubmitNext | module/bdev/nvme/bdev_nvme_rpc.c:956-970 | with bytes left, the next download of the plan is submitted, or a refused one replies and cleans up |
| FirmwareUpdate.FirmwareUpdate.CommitComplete | module/bdev/nvme/bdev_nvme_rpc.c:888-913 | a failed commit replies with an error. Otherwise a reset is requested and its outcome is the reply. Exactly one reply and a cleanup follow in every case |
| FirmwareUpdate.TruncationKeepsAlignment | module/bdev/nvme/bdev_nvme_rpc.c:1089-1090 | the multiple-of-4 verdict on `st_size` is the same as on the truncated `unsigned int` size |
| FirmwareUpdate.NextChunkPrefix | module/bdev/nvme/bdev_nvme_rpc.c:934-963 | after a full transfer the plan submitted so far grows by exactly that download |
| FirmwareUpdate.CommittedPlan | module/bdev/nvme/bdev_nvme_rpc.c:938-948 | when the last transfer completes, the submitted downloads are the whole plan |
| FirmwareUpdate.EmptyPlan | module/bdev/nvme/bdev_nvme_rpc.c:1112-1128 | the plan of an empty image is its one zero-length download |
| FirmwareUpdate.ScanOpenStopped | module/bdev/nvme/bdev_nvme_rpc.c:1040-1044 | after a refused open the opening loop's result no longer changes |
| FirmwareStart.ScanOpenRecords | module/bdev/nvme/bdev_nvme_rpc.c:1029-1052 | without a refused open, the list holds one descriptor per bdev of the controller in list order, each recorded under the requested bdev and the current thread |
| FirmwareStart.SelectedIsFirstOnController | module/bdev/nvme/bdev_nvme_rpc.c:1046-1068 | the update runs on the descriptor of the first bdev of the controller, every bdev of which was opened; "No descriptor were found." is never the reply |
| FirmwareStart.FirstDescriptorExample | module/bdev/nvme/bdev_nvme_rpc.c:1050-1063 | with two bdevs on one controller and the second requested, the update runs on the first one's descriptor |
| FirmwareStart.MisalignedImageRejected | module/bdev/nvme/bdev_nvme_rpc.c:1089-1094 | an image whose size is not a multiple of 4 is refused with its message before any download |
| FirmwareStart.StartedExactly | module/bdev/nvme/bdev_nvme_rpc.c:1017-1131 | a start succeeds if and only if the bdev is selected, a channel is obtained, the file opens with a multiple-of-4 size, the read delivers the truncated size, and the first download is accepted. The image is then the bytes read |
| FirmwareStart.EmptyImageAccepted | module/bdev/nvme/bdev_nvme_rpc.c:1089-1128 | an empty image starts, and its plan is one zero-length download with cdw11 0 |
| FirmwareStart.InFlightWithinImage | module/bdev/nvme/bdev_nvme_rpc.c:916-972 | under the record's invariant each download in flight lies inside the image, at a word-aligned offset, moves a whole number of words, at most 4096 bytes, and is empty only for an empty image |
| NqnFormat.ValidateNqn | lib/nvmf/conf.c:402-425 | a name is accepted if and only if it has 12 to 223 characters, "nqn." in any case, four digits, '-', two digits and '.'. Too long is TooLong exactly when over 223 characters, and a bad prefix is BadPrefix exactly, in that order |
| NqnFormat.ShortNameFailsDateCode | lib/nvmf/conf.c:418-419 | a name shorter than 12 characters meets its terminator inside the date code and fails it |
| NqnFormat.PrefixIgnoresCase | lib/nvmf/conf.c:412-415 | two names that differ only in the case of their first four characters are decided alike, so "NQN.", "Nqn." and "nqn." prefixes are interchangeable |
| NqnFormat.AcceptedExample | lib/nvmf/conf.c:417-422 | "nqn.2014-08.org.x" passes |
| NqnFormat.LetterInYearRejected | lib/nvmf/conf.c:417-422 | "nqn.20a4-08.x" fails on its date code |
| NqnFormat.MonthUnchecked | lib/nvmf/conf.c:417-422 | the month is not range-checked: "nqn.2014-99.x" passes |
| NqnFormat.TruncatedDateRejected | lib/nvmf/conf.c:418-419 | "nqn.2014-08" fails on its missing '.' |
| ListenAddr.DecimalText | lib/nvmf/conf.c:154 | the `%d` text of a number is a nonempty run of digits whose decimal value is the number |
| ListenAddr.DefaultPortText | lib/nvmf/conf.c:149-154 | the default port text fits PORTNUMSTRLEN and reads as 4420 |
| ListenAddr.AtOrEnd | lib/nvmf/conf.c:160-163 | the port end is the first '@' of the address, or its end |
| ListenAddr.ParseAddr | lib/nvmf/conf.c:83-182 | a NULL address, and only that, is NullAddr. A parsed host is a prefix of the address, and a bracketed host ends with ']' |
| ListenAddr.Ipv4Split | lib/nvmf/conf.c:137-176 | an unbracketed address gives the text before its first ':' as host and the text up to its first '@' after it as port |
| ListenAddr.Ipv4WithPort | lib/nvmf/conf.c:155-176 | "host:port" without '@' gives back host and port |
| ListenAddr.Ipv4PortEndsAtAt | lib/nvmf/conf.c:160-176 | "host:port@rest" gives back host and port; the rest is ignored |
| ListenAddr.Ipv4DefaultPort | lib/nvmf/conf.c:137-154 | an address without ':' is the whole host with the default port |
| ListenAddr.Ipv6Split | lib/nvmf/conf.c:96-134 | a bracketed address gives the host up to and including its first ']', and the port from after the ':' to the first '@' |
| ListenAddr.Ipv6WithPort | lib/nvmf/conf.c:117-134 | "[inner]:port" keeps the brackets on the host and gives back the port |
| ListenAddr.Ipv6DefaultPort | lib/nvmf/conf.c:110-116 | "[inner]" alone takes the default port |
| ListenAddr.Ipv6MissingBracket | lib/nvmf/conf.c:98-101 | a '[' without a later ']' is refused |
| ListenAddr.Ipv6BadSeparator | lib/nvmf/conf.c:118-121 | anything but the end or ':' after the ']' is refused |
| ListenAddr.PortBeforeHostExactly | lib/nvmf/conf.c:96-176 | an address is refused for a negative port length if and only if its first '@' lies ahead of the port separator: the first ':' of an IPv4 address, or the ':' after the ']' of a bracketed one |
| ListenAddr.AtInsideHostRejected | lib/nvmf/conf.c:160-172 | example: "a@b:1" is refused |
| ListenAddr.EmptyPortGuardUnreachable | lib/nvmf/conf.c:165-168 | the `q == p` guard never refuses an address |
| SubsystemConf.ScanIdExactly | lib/nvmf/conf.c:475 | an id is read if and only if the name starts with a non-digit and contains a digit; the id is the value of the digit run that starts at the first digit, and no digit comes before it |
| SubsystemConf.MappingId | lib/nvmf/conf.c:473-486 | a mapping name with an id starts with the prefix in any letter case |
| SubsystemConf.CheckEntry | lib/nvmf/conf.c:467-491 | a mapping line is accepted if and only if it has a port name starting with "Port" and a host name starting with "Host", in any case, each followed by an id of at least 1; the entry holds exactly those two ids |
| SubsystemConf.MapRounds | lib/nvmf/conf.c:461-498 | after n rounds the loop holds at most n maps |
| SubsystemConf.MapStep | lib/nvmf/conf.c:461-498 | one round adds at most one map |
| SubsystemConf.Finish | lib/nvmf/conf.c:500-525 | the subsystem is configured if and only if the Controller line is present, the claim succeeds and the controller is added; a failure deletes it; the maps are kept either way |
| SubsystemConf.ParseSubsystem | lib/nvmf/conf.c:428-526 | the section parser ends as the reference `SubsystemResult` says: not created, deleted with the maps added so far, or configured |
| SubsystemConf.SubsystemResult | lib/nvmf/conf.c:428-526 | the subsystem is not created if and only if the NQN is missing or invalid or creation fails. A configured subsystem had its Controller line, claim and add, and names that controller. At most MAX_PER_SUBSYSTEM_ACCESS_MAP maps are added |
| SubsystemConf.MapLines | lib/nvmf/conf.c:461-498 | the mapping loop ends after at most MAX_PER_SUBSYSTEM_ACCESS_MAP rounds, exactly as the reference rounds describe |
| SubsystemConf.MapRoundsSettled | lib/nvmf/conf.c:463-465 | once the loop has broken off, later rounds change nothing |
| SubsystemConf.MapRoundsEntries | lib/nvmf/conf.c:461-498 | map k comes from mapping line k, which passed the checks and was added. A loop that ended met a missing line, and one that broke met a line that failed |
| SubsystemConf.GoodPrefix | lib/nvmf/conf.c:461-498 | lines that all pass keep the loop going with one map per line |
| SubsystemConf.ConfiguredMaps | lib/nvmf/conf.c:439-525 | a configured subsystem had a valid NQN. It has one map per mapping line, in order, each with ids of at least 1, up to the first missing line or the limit |
| SubsystemConf.BadLineDeletes | lib/nvmf/conf.c:467-491 | a bad mapping line after good ones deletes the subsystem with exactly the maps of the lines before it |
| SubsystemConf.BadLineBreaks | lib/nvmf/conf.c:467-491 | the loop breaks at the first bad line with one map per earlier line |
| SubsystemConf.MappingIdOfParts | lib/nvmf/conf.c:473-482 | prefix, non-digits, digits, then a non-digit or the end reads as the digits' value |
| SubsystemConf.PortFiveExample | lib/nvmf/conf.c:473-475 | "Port5" reads as 5 |
| SubsystemConf.SignSkippedExample | lib/nvmf/conf.c:475 | "Port-3" reads as 3: the sign is skipped with the other non-digits |
| SubsystemConf.ZeroIdRejected | lib/nvmf/conf.c:487-491 | an id of 0 is refused |
| SubsystemConf.NoDigitNoId | lib/nvmf/conf.c:475 | a name without a digit has no id |
| NvmeConf.ScanHex | lib/nvmf/conf.c:365 | a successful `%x` conversion consumes at least one character of the input |
| NvmeConf.ScanBdfDomain | lib/nvmf/conf.c:365 | an address is read if and only if the whole `%x:%x:%x.%x` format matches; its domain is the value of the leading hex field, which a ':' follows |
| NvmeConf.ScanFormat | lib/nvmf/conf.c:365 | a matched format gives one value per conversion |
| NvmeConf.BdfRoundTrip | lib/nvmf/conf.c:365-375 | an address printed as four hex fields separated by ':', ':' and '.' reads back as those four values, whatever non-hex text follows |
| NvmeConf.BdfExample | lib/nvmf/conf.c:365-375 | "0000:01:00.0" reads as domain 0, bus 1, device 0, function 0 |
| NvmeConf.MissingFunctionRejected | lib/nvmf/conf.c:365-370 | an address without its function field does not give four conversions |
| NvmeConf.WhitelistFrom | lib/nvmf/conf.c:354-385 | a failure is a bad address or a missing name on a real line; the list is empty, without failure, exactly when there is no line |
| NvmeConf.NvmeResult | lib/nvmf/conf.c:324-391 | a missing section, and only that, is NoNvmeSection. claim_all holds exactly for "Yes" and unbind_from_kernel likewise. The whitelist is empty exactly when all devices are claimed, and claiming all devices never fails. Without claim_all: no BDF line, and only that, gives NoBdfLines; a success carries exactly the whitelist built from the BDF lines; any other failure is the whitelist builder's own (a line that does not scan, or a line without a name) |
| NvmeConf.ParseNvme | lib/nvmf/conf.c:324-399 | the section parser computes `NvmeResult` |
| NvmeConf.BuildWhitelist | lib/nvmf/conf.c:354-385 | the BDF loop grows the whitelist one entry per line, as the reference `WhitelistFrom` describes |
| NvmeConf.WhitelistInOrder | lib/nvmf/conf.c:354-385 | entry k is line k's address and its name cut to the buffer, in configuration order. The list stops at the first line without values |
| NvmeConf.FirstBadLine | lib/nvmf/conf.c:365-382 | a refused line is the first bad one. It either has an unreadable address, or a readable address and no name, and every earlier line was read and named |
| NvmeConf.YesIsCaseSensitive | lib/nvmf/conf.c:340-345 | "yes" does not claim all devices |

## Left out

- JSON decoding, the decoder tables, the result writers and RPC registration are not modelled. Requests enter as decoded values. Only the `cmd_type` and `action_on_timeout` string decoders are modelled.
- Allocation failures (`calloc`, `malloc`, `strdup`, `realloc`, `spdk_zmalloc`) are not modelled. Most are one more error exit with its own message; the failed `strdup("failover")` of attach (bdev_nvme_rpc.c:440-444) goes to cleanup without sending any reply.
- The transport-id parsers, `spdk_strtol` for the priority, and the library calls listed above are parameters. Page contents of `spdk_nvme_ctrlr_get_opts` and so on are not modelled.
- `spdk_for_each_channel` is modelled as a fold over the channels that stops at the first nonzero status. Concurrency and the message passing between threads are not modelled; a remote close is a recorded event.
- The file I/O of apply_firmware (`open`, `fstat`, `read`, `close`) and the DMA buffer are not modelled. The file enters as its size and the bytes read.
- `spdk_nvme_bytes_to_numd` is not evaluated. A download records its byte count, from which cdw10 is derived.
- FirmwarePlan.ChunksCount: the ceiling is over unbounded integers. That is the same as the 32-bit arithmetic, because sizes are below 2^32.
- ScanHex: `%x` values beyond `unsigned int` and the overflow behaviour of `sscanf` are not modelled. A "0x" not followed by a hex digit is read as the single digit 0.
- SubsystemConf.MappingId: `%d` ids beyond the range of `int` are not modelled.
- MAX_PER_SUBSYSTEM_ACCESS_MAP and MAX_NVME_NAME_LENGTH come from headers that are not part of this model, so they are parameters.
- The default port text comes from SPDK_NVMF_DEFAULT_SIN_PORT = 4420. That header is not part of this model.
- `spdk_nvmf_init_nvme`, `spdk_nvmf_parse_port`, `spdk_nvmf_parse_host`, the section iteration of `spdk_nvmf_parse_subsystems` and the configuration entry points are not modelled.
- Other RPCs in the file are not modelled: set options, hotplug, get_controllers output, reset, health and statistics pages, stop_discovery, and so on.
- The names written into the whitelist are cut by `snprintf`, which is modelled as truncation to the buffer minus its terminator.
- The log messages (`SPDK_ERRLOG`, `SPDK_NOTICELOG`) are not modelled.
- Strings are `CString` values of single-byte ASCII characters, so a length is a byte count. Multibyte UTF-8 input in JSON strings or configuration values is not modelled; this bounds FitsMeansShorter, SameLengthRule, ValidateNqn, Msg, WhitelistInOrder and OversizedFieldRejected, which count characters.
- The buffer sizes TraddrCapacity = 257 (SPDK_NVMF_TRADDR_MAX_LEN + 1), TrsvcidCapacity = 33 (SPDK_NVMF_TRSVCID_MAX_LEN + 1) and NqnCapacity = 224 (SPDK_NVMF_NQN_MAX_LEN + 1) come from SPDK headers that are not part of this model.
- The `bdev_nvme_create` failure reply after admission (bdev_nvme_rpc.c:522-527) is not modelled; admission ends where the request is handed over.
