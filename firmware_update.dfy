/**
 * `bdev_nvme_apply_firmware` as a state machine over the record
 * `firmware_update_info`. Start opens every bdev of the target controller,
 * reads the image and submits the first download. Each successful
 * download completion advances the cursor and submits the next download, or
 * the commit once nothing remains. The commit completion requests a
 * controller reset. Every end, success or failure, sends one reply and runs
 * cleanup, which closes each opened descriptor on its opening thread.
 */
module FirmwareUpdate {
  import opened Wrappers
  import opened CStrings
  import opened FirmwarePlan

  /** SPDK_JSONRPC_ERROR_INTERNAL_ERROR, the code of every error reply here. */
  const InternalError: int := -32603
  /** The size of the handler's message buffer `msg`. */
  const MsgSize: nat := 1024
  /** `unsigned int` holds values below 2^32. */
  const UintRange: nat := 0x1_0000_0000

  /** A thread, as `spdk_get_thread` names it; where an `Option<ThreadId>` is `None`, the caller is not an SPDK thread. */
  type ThreadId = nat
  /** The descriptor `spdk_bdev_open_ext` returns, identified by the position of the opened bdev. */
  type Descriptor = nat

  /**
   * `snprintf(msg, sizeof(msg), ...)`: the formatted message cut to what
   * the buffer holds. Every message is ASCII text around a bdev name, which
   * is a `CString`, so its length is its size in bytes.
   */
  function Msg(s: string): (r: string)
    ensures |r| < MsgSize && r <= s
    ensures |s| < MsgSize ==> r == s
  {
    s[..Min(|s|, MsgSize - 1)]
  }

  /** A registered bdev: its name and the NVMe controller behind it, if it is an NVMe bdev. */
  datatype Bdev = Bdev(name: CString, ctrlr: Option<nat>)

  /** `struct open_descriptors`: the descriptor, the bdev it was recorded under, the opening thread. */
  datatype OpenDescriptor = OpenDescriptor(desc: Descriptor, bdev: nat, thread: Option<ThreadId>)

  datatype Reply = ErrorReply(code: int, message: string) | ResultReply(message: string)

  /** How cleanup closes a descriptor: `spdk_bdev_close` here, or a close message to another thread. */
  datatype CloseEvent = CloseDirect(desc: Descriptor) | SendClose(thread: ThreadId, desc: Descriptor)

  datatype Phase = Idle | Downloading | Committing | Done

  /**
   * The image file as the handler meets it: `open` fails, `fstat` fails, or
   * the file has `stSize` bytes and `read` delivers `readBytes`.
   */
  datatype ImageFile = OpenFailed | FstatFailed | Opened(stSize: nat, readBytes: seq<bv8>)

  /** `spdk_bdev_get_by_name`: the first bdev with that name. */
  function FindBdev(bdevs: seq<Bdev>, name: CString, from: nat): (r: Option<nat>)
    decreases |bdevs| - from
    ensures r.Some? ==> from <= r.value < |bdevs| && bdevs[r.value].name == name
    ensures r.Some? ==> forall k :: from <= k < r.value ==> bdevs[k].name != name
    ensures r.None? ==> forall k :: from <= k < |bdevs| ==> bdevs[k].name != name
  {
    if from >= |bdevs| then None
    else if bdevs[from].name == name then Some(from)
    else FindBdev(bdevs, name, from + 1)
  }

  /** The descriptor list after the opening loop has looked at `n` bdevs, and whether an open was refused. */
  datatype OpenScan = OpenScan(entries: seq<OpenDescriptor>, refused: bool)

  /**
   * The opening loop over the first `n` bdevs: bdevs of controller `c` are
   * opened in order and recorded under the requested bdev `requested` with
   * the current thread; the first refused open stops the loop.
   */
  function ScanOpen(bdevs: seq<Bdev>, c: nat, requested: nat, openOk: nat -> bool,
                    cur: Option<ThreadId>, n: nat): (r: OpenScan)
    requires n <= |bdevs|
    ensures |r.entries| <= n
    ensures forall k :: 0 <= k < |r.entries| ==>
              && r.entries[k].desc < n && bdevs[r.entries[k].desc].ctrlr == Some(c)
              && r.entries[k].bdev == requested && r.entries[k].thread == cur
  {
    if n == 0 then OpenScan([], false)
    else
      var prev := ScanOpen(bdevs, c, requested, openOk, cur, n - 1);
      if prev.refused || bdevs[n - 1].ctrlr != Some(c) then prev
      else if !openOk(n - 1) then OpenScan(prev.entries, true)
      else OpenScan(prev.entries + [OpenDescriptor(n - 1, requested, cur)], false)
  }

  /** The positions among the first `n` bdevs whose controller is `c`, in list order. */
  function OnController(bdevs: seq<Bdev>, c: nat, n: nat): (r: seq<nat>)
    requires n <= |bdevs|
    ensures forall k :: 0 <= k < |r| ==> r[k] < n && bdevs[r[k]].ctrlr == Some(c)
  {
    if n == 0 then []
    else OnController(bdevs, c, n - 1) + (if bdevs[n - 1].ctrlr == Some(c) then [n - 1] else [])
  }

  /** The descriptors of a list, in order. */
  function Descriptors(ds: seq<OpenDescriptor>): (r: seq<Descriptor>)
    ensures |r| == |ds| && forall k :: 0 <= k < |ds| ==> r[k] == ds[k].desc
  {
    if ds == [] then [] else [ds[0].desc] + Descriptors(ds[1..])
  }

  /** The lookup loop: the descriptor of the first entry recorded under `bdev`. */
  function FirstDescriptorFor(ds: seq<OpenDescriptor>, bdev: nat): (r: Option<Descriptor>)
    ensures r.Some? <==> exists k :: 0 <= k < |ds| && ds[k].bdev == bdev
  {
    if ds == [] then None
    else if ds[0].bdev == bdev then Some(ds[0].desc)
    else
      var r := FirstDescriptorFor(ds[1..], bdev);
      assert forall k :: 1 <= k < |ds| ==> ds[k] == ds[1..][k - 1];
      assert r.Some? ==> exists k :: 0 <= k < |ds[1..]| && ds[1..][k].bdev == bdev;
      r
  }

  /** How cleanup closes one descriptor when it runs on thread `cur`. */
  function CloseAction(d: OpenDescriptor, cur: Option<ThreadId>): (e: CloseEvent)
    ensures e.desc == d.desc
    ensures e.SendClose? <==> d.thread.Some? && d.thread != cur
    ensures e.SendClose? ==> Some(e.thread) == d.thread
  {
    if d.thread.Some? && d.thread != cur then SendClose(d.thread.value, d.desc) else CloseDirect(d.desc)
  }

  /** Each descriptor of the list closed once, in list order. */
  function CloseActions(ds: seq<OpenDescriptor>, cur: Option<ThreadId>): (r: seq<CloseEvent>)
    ensures |r| == |ds|
    ensures forall k :: 0 <= k < |ds| ==> r[k] == CloseAction(ds[k], cur)
  {
    if ds == [] then [] else [CloseAction(ds[0], cur)] + CloseActions(ds[1..], cur)
  }

  /** How a start ends: an error reply after cleanup, or the first download in flight. */
  datatype StartOutcome =
    | StartFailed(message: string, descs: seq<OpenDescriptor>)
    | Started(size: nat, image: seq<bv8>, descs: seq<OpenDescriptor>, desc: Descriptor)

  /** The first half of the handler: which bdev, which controller, which descriptors. */
  datatype Selection =
    | Unselected(message: string, descs: seq<OpenDescriptor>)
    | Selected(descs: seq<OpenDescriptor>, desc: Descriptor)

  /**
   * Finding the bdev and its controller, opening every bdev of that
   * controller (`openOk(k)`: the k-th bdev opens) and picking the
   * descriptor recorded under the requested bdev, with the message of each
   * failure.
   */
  function Select(name: CString, bdevs: seq<Bdev>, openOk: nat -> bool, cur: Option<ThreadId>): (r: Selection)
    ensures r.Unselected? ==> |r.message| < MsgSize
    ensures FindBdev(bdevs, name, 0).None? ==> r.Unselected? && r.descs == []
    ensures r.Selected? ==> FindBdev(bdevs, name, 0).Some? && bdevs[FindBdev(bdevs, name, 0).value].ctrlr.Some?
    ensures forall k :: 0 <= k < |r.descs| ==> r.descs[k].thread == cur && r.descs[k].desc < |bdevs|
  {
    match FindBdev(bdevs, name, 0)
    case None => Unselected(Msg("bdev " + name + " were not found"), [])
    case Some(i) =>
      if bdevs[i].ctrlr.None? then Unselected(Msg("Controller information for " + name + " were not found."), [])
      else
        var scan := ScanOpen(bdevs, bdevs[i].ctrlr.value, i, openOk, cur, |bdevs|);
        if scan.refused then Unselected(Msg("Device " + name + " is in use."), scan.entries)
        else match FirstDescriptorFor(scan.entries, i)
          case None => Unselected("No descriptor were found.", scan.entries)
          case Some(d) => Selected(scan.entries, d)
  }

  /** The second half: the channel, the image file, the first submission. */
  datatype Loading = LoadFailed(message: string) | Loaded(size: nat, image: seq<bv8>)

  /**
   * `channelOk`: an I/O channel is obtained; `submitOk`: the first download
   * is accepted. The size is `st_size` truncated to `unsigned int`; the
   * multiple-of-4 test is on `st_size` itself.
   */
  function Load(channelOk: bool, file: ImageFile, submitOk: bool): (r: Loading)
    ensures r.Loaded? ==> r.size < UintRange && r.size % 4 == 0 && |r.image| == r.size
    ensures r.LoadFailed? ==> |r.message| < MsgSize
  {
    if !channelOk then LoadFailed("No channels were found.")
    else match file
      case OpenFailed => LoadFailed("open file failed.")
      case FstatFailed => LoadFailed("fstat failed.")
      case Opened(st, bytes) =>
        TruncationKeepsAlignment(st);
        if st % 4 != 0 then LoadFailed("Firmware image size is not multiple of 4.")
        else if |bytes| != st % UintRange then LoadFailed("Read firmware image failed!")
        else if !submitOk then LoadFailed("Read firmware image failed!")
        else Loaded(st % UintRange, bytes)
  }

  /** The checks of the handler in order, with the message each failure replies with. */
  function Start(name: CString, bdevs: seq<Bdev>, openOk: nat -> bool, cur: Option<ThreadId>,
                 channelOk: bool, file: ImageFile, submitOk: bool): (r: StartOutcome)
    ensures r.descs == Select(name, bdevs, openOk, cur).descs
    ensures r.StartFailed? ==> |r.message| < MsgSize
    ensures r.Started? ==> r.size < UintRange && r.size % 4 == 0 && |r.image| == r.size
  {
    match Select(name, bdevs, openOk, cur)
    case Unselected(msg, ds) => StartFailed(msg, ds)
    case Selected(ds, d) =>
      match Load(channelOk, file, submitOk)
      case LoadFailed(msg) => StartFailed(msg, ds)
      case Loaded(sz, img) => Started(sz, img, ds, d)
  }

  class FirmwareUpdate {
    /** `size`, `size_remaining`, `offset`, `transfer` of the record; `p` is the cursor as an index into `image`. */
    var size: nat
    var sizeRemaining: nat
    var offset: nat
    var transfer: nat
    var p: nat
    var image: seq<bv8>
    /** Whether the DMA image buffer, the I/O channel are held. */
    var holdsImage: bool
    var holdsChannel: bool
    var desc: Option<Descriptor>
    var descHead: seq<OpenDescriptor>
    var phase: Phase
    /** What has been submitted to the controller, the replies sent, the closes performed. */
    var submitted: seq<Submission>
    var replies: seq<Reply>
    var closes: seq<CloseEvent>

    /** The zeroed record with an empty descriptor list. */
    predicate Fresh()
      reads this
    {
      && size == 0 && sizeRemaining == 0 && offset == 0 && transfer == 0 && p == 0 && image == []
      && !holdsImage && !holdsChannel && desc.None? && descHead == [] && phase == Idle
      && submitted == [] && replies == [] && closes == []
    }

    /**
     * The record's invariant. While downloading, the offset, remaining
     * size and cursor agree, the offset is a whole number of full
     * transfers, and what was submitted is the plan up to the download in
     * flight. While committing, the whole plan and then the commit were
     * submitted. No reply is sent before the end, and the end releases everything.
     */
    predicate Valid()
      reads this
    {
      && size < UintRange
      && (phase == Downloading || phase == Committing ==>
            |image| == size && size % 4 == 0 && holdsImage && holdsChannel && desc.Some? && replies == [])
      && (phase == Downloading ==>
            && offset + sizeRemaining == size && p == offset
            && offset % MaxTransfer == 0
            && transfer == Min(sizeRemaining, MaxTransfer)
            && (size > 0 ==> sizeRemaining > 0)
            && ChunksWithin(Chunks(0, offset), |image|)
            && submitted == DownloadCommands(Chunks(0, offset), image) +
                            [DownloadCommand(Chunk(offset, transfer), image)])
      && (phase == Committing ==>
            && sizeRemaining == 0 && offset == size && p == offset
            && ChunksWithin(Plan(size), |image|)
            && submitted == DownloadCommands(Plan(size), image) + [CommitCommand])
      && (phase == Done ==> descHead == [] && !holdsImage && !holdsChannel)
    }

    /** `apply_firmware_cleanup` has run: everything released, each listed descriptor closed once. */
    twostate predicate CleanedUp(cur: Option<ThreadId>)
      reads this
    {
      && phase == Done && descHead == [] && !holdsImage && !holdsChannel
      && closes == old(closes) + CloseActions(old(descHead), cur)
    }

    constructor ()
      ensures Fresh()
    {
      size, sizeRemaining, offset, transfer, p := 0, 0, 0, 0, 0;
      image := [];
      holdsImage, holdsChannel := false, false;
      desc := None;
      descHead := [];
      phase := Idle;
      submitted, replies, closes := [], [], [];
    }

    /** `apply_firmware_cleanup`, running on thread `cur`. */
    method Cleanup(cur: Option<ThreadId>)
      modifies this
      ensures CleanedUp(cur)
      ensures submitted == old(submitted) && replies == old(replies)
      ensures size == old(size) && offset == old(offset) && sizeRemaining == old(sizeRemaining)
      ensures transfer == old(transfer) && p == old(p) && image == old(image) && desc == old(desc)
    {
      holdsImage := false;
      holdsChannel := false;
      CloseAll(cur);
      phase := Done;
    }

    /** The draining loop of cleanup: each entry is removed and its descriptor closed. */
    method CloseAll(cur: Option<ThreadId>)
      modifies this`descHead, this`closes
      ensures descHead == [] && closes == old(closes) + CloseActions(old(descHead), cur)
    {
      while descHead != []
        invariant closes + CloseActions(descHead, cur) == old(closes) + CloseActions(old(descHead), cur)
        decreases |descHead|
      {
        var opt := descHead[0];
        ghost var rest := CloseActions(descHead[1..], cur);
        assert CloseActions(descHead, cur) == [CloseAction(opt, cur)] + rest;
        descHead := descHead[1..];
        var e: CloseEvent;
        if opt.thread.Some? && opt.thread != cur {
          e := SendClose(opt.thread.value, opt.desc);
        } else {
          e := CloseDirect(opt.desc);
        }
        assert (closes + [e]) + rest == closes + ([e] + rest);
        closes := closes + [e];
      }
    }

    /** The `err:` exit: one error reply, then cleanup. */
    method Fail(message: string, cur: Option<ThreadId>)
      requires size < UintRange
      modifies this
      ensures replies == old(replies) + [ErrorReply(InternalError, message)]
      ensures CleanedUp(cur) && Valid()
      ensures submitted == old(submitted) && size == old(size) && offset == old(offset)
      ensures sizeRemaining == old(sizeRemaining) && transfer == old(transfer) && p == old(p)
      ensures image == old(image) && desc == old(desc)
    {
      replies := replies + [ErrorReply(InternalError, message)];
      Cleanup(cur);
    }

    /** The opening loop: fills `descHead` as `ScanOpen` describes and reports a refused open. */
    method OpenDescriptors(bdevs: seq<Bdev>, c: nat, requested: nat, openOk: nat -> bool,
                           cur: Option<ThreadId>) returns (refused: bool)
      requires descHead == []
      modifies this`descHead
      ensures descHead == ScanOpen(bdevs, c, requested, openOk, cur, |bdevs|).entries
      ensures refused == ScanOpen(bdevs, c, requested, openOk, cur, |bdevs|).refused
    {
      var k := 0;
      refused := false;
      while k < |bdevs| && !refused
        invariant 0 <= k <= |bdevs|
        invariant ScanOpen(bdevs, c, requested, openOk, cur, k) == OpenScan(descHead, refused)
      {
        if bdevs[k].ctrlr == Some(c) {
          if !openOk(k) {
            refused := true;
          } else {
            descHead := descHead + [OpenDescriptor(k, requested, cur)];
          }
        }
        k := k + 1;
      }
      ScanOpenStopped(bdevs, c, requested, openOk, cur, k, |bdevs|);
    }

    /** The lookup loop over `descHead` for the entry recorded under `bdev`. */
    method FindDescriptor(bdev: nat) returns (d: Option<Descriptor>)
      ensures d == FirstDescriptorFor(descHead, bdev)
    {
      var k := 0;
      while k < |descHead|
        invariant 0 <= k <= |descHead|
        invariant FirstDescriptorFor(descHead[k..], bdev) == FirstDescriptorFor(descHead, bdev)
      {
        if descHead[k].bdev == bdev {
          return Some(descHead[k].desc);
        }
        assert descHead[k..][1..] == descHead[k + 1..];
        k := k + 1;
      }
      return None;
    }

    /**
     * `rpc_bdev_nvme_apply_firmware` on thread `cur`: the new state is the
     * one `Start` describes: either one error reply, nothing submitted and
     * every opened descriptor closed, or the first download of the plan
     * submitted with the record at offset 0.
     */
    method Apply(name: CString, bdevs: seq<Bdev>, openOk: nat -> bool, cur: Option<ThreadId>,
                 channelOk: bool, file: ImageFile, submitOk: bool)
      requires Fresh()
      modifies this
      ensures Valid()
      ensures var out := Start(name, bdevs, openOk, cur, channelOk, file, submitOk);
        match out
        case StartFailed(msg, descs) =>
          && replies == [ErrorReply(InternalError, msg)] && submitted == [] && phase == Done
          && closes == CloseActions(descs, cur)
        case Started(sz, img, descs, d) =>
          && phase == Downloading && size == sz && image == img && descHead == descs && desc == Some(d)
          && offset == 0 && sizeRemaining == sz && transfer == Min(sz, MaxTransfer) && p == 0
          && submitted == [DownloadCommand(Chunk(0, Min(sz, MaxTransfer)), img)]
          && replies == [] && closes == []
    {
      ghost var sel := Select(name, bdevs, openOk, cur);
      ghost var ld := Load(channelOk, file, submitOk);
      ghost var out := Start(name, bdevs, openOk, cur, channelOk, file, submitOk);
      var err := SelectDescriptor(name, bdevs, openOk, cur);
      if err.Some? {
        assert sel.Unselected? && out == StartFailed(err.value, descHead);
        Fail(err.value, cur);
        return;
      }
      assert sel.Selected? && descHead == sel.descs && desc == Some(sel.desc);
      LoadAndSubmit(channelOk, file, submitOk, cur);
    }

    /** The handler once a descriptor is chosen: the image is loaded and the first download submitted, or the error reply and cleanup. */
    method LoadAndSubmit(channelOk: bool, file: ImageFile, submitOk: bool, cur: Option<ThreadId>)
      requires phase == Idle && desc.Some? && replies == [] && submitted == [] && closes == []
      requires size == 0 && !holdsImage && !holdsChannel
      modifies this
      ensures Valid()
      ensures match Load(channelOk, file, submitOk)
        case LoadFailed(msg) =>
          && replies == [ErrorReply(InternalError, msg)] && submitted == [] && phase == Done
          && closes == CloseActions(old(descHead), cur)
        case Loaded(sz, img) =>
          && phase == Downloading && size == sz && image == img
          && descHead == old(descHead) && desc == old(desc)
          && offset == 0 && sizeRemaining == sz && transfer == Min(sz, MaxTransfer) && p == 0
          && submitted == [DownloadCommand(Chunk(0, Min(sz, MaxTransfer)), img)]
          && replies == [] && closes == []
    {
      var err := LoadImage(channelOk, file, submitOk);
      if err.Some? {
        Fail(err.value, cur);
      }
    }

    /** The handler up to and including the descriptor lookup. */
    method SelectDescriptor(name: CString, bdevs: seq<Bdev>, openOk: nat -> bool, cur: Option<ThreadId>)
      returns (err: Option<string>)
      requires descHead == []
      modifies this`descHead, this`desc
      ensures match Select(name, bdevs, openOk, cur)
        case Unselected(msg, ds) => err == Some(msg) && descHead == ds
        case Selected(ds, d) => err.None? && descHead == ds && desc == Some(d)
    {
      var found := FindBdev(bdevs, name, 0);
      if found.None? {
        return Some(Msg("bdev " + name + " were not found"));
      }
      var i := found.value;
      if bdevs[i].ctrlr.None? {
        return Some(Msg("Controller information for " + name + " were not found."));
      }
      var refused := OpenDescriptors(bdevs, bdevs[i].ctrlr.value, i, openOk, cur);
      if refused {
        return Some(Msg("Device " + name + " is in use."));
      }
      desc := FindDescriptor(i);
      if desc.None? {
        return Some("No descriptor were found.");
      }
      return None;
    }

    /** The handler from the channel to the first submission. */
    method LoadImage(channelOk: bool, file: ImageFile, submitOk: bool) returns (err: Option<string>)
      requires phase == Idle && desc.Some? && replies == [] && submitted == []
      requires size == 0 && !holdsImage && !holdsChannel
      modifies this`holdsChannel, this`holdsImage, this`size, this`p, this`image, this`offset,
               this`sizeRemaining, this`transfer, this`submitted, this`phase
      ensures size < UintRange
      ensures match Load(channelOk, file, submitOk)
        case LoadFailed(msg) => err == Some(msg) && submitted == [] && phase == Idle
        case Loaded(sz, img) =>
          && err.None? && Valid() && phase == Downloading && size == sz && image == img
          && offset == 0 && sizeRemaining == sz && transfer == Min(sz, MaxTransfer) && p == 0
          && submitted == [DownloadCommand(Chunk(0, Min(sz, MaxTransfer)), img)]
    {
      if !channelOk {
        return Some("No channels were found.");
      }
      holdsChannel := true;
      match file
      case OpenFailed =>
        return Some("open file failed.");
      case FstatFailed =>
        return Some("fstat failed.");
      case Opened(st, bytes) =>
        size := st % UintRange;
        if st % 4 != 0 {
          return Some("Firmware image size is not multiple of 4.");
        }
        TruncationKeepsAlignment(st);
        holdsImage := true;
        p := 0;
        if |bytes| != size {
          return Some("Read firmware image failed!");
        }
        var sentFirst := FirstDownload(bytes, submitOk);
        if !sentFirst {
          return Some("Read firmware image failed!");
        }
        return None;
    }

    /** The image is in the buffer: the record starts at offset 0 and the first download is submitted, if accepted. */
    method FirstDownload(bytes: seq<bv8>, submitOk: bool) returns (sentFirst: bool)
      requires phase == Idle && desc.Some? && replies == [] && submitted == [] && holdsImage && holdsChannel
      requires size == |bytes| && size < UintRange && size % 4 == 0 && p == 0
      modifies this`image, this`offset, this`sizeRemaining, this`transfer, this`submitted, this`phase
      ensures sentFirst == submitOk && image == bytes
      ensures !sentFirst ==> submitted == [] && phase == Idle
      ensures sentFirst ==>
        && Valid() && phase == Downloading && offset == 0 && sizeRemaining == size
        && transfer == Min(size, MaxTransfer)
        && submitted == [DownloadCommand(Chunk(0, Min(size, MaxTransfer)), bytes)]
    {
      image := bytes;
      offset := 0;
      sizeRemaining := size;
      transfer := Min(sizeRemaining, MaxTransfer);
      if !submitOk {
        return false;
      }
      submitted := [DownloadCommand(Chunk(offset, transfer), image)];
      phase := Downloading;
      assert submitted == DownloadCommands(Chunks(0, offset), image) +
                          [DownloadCommand(Chunk(offset, transfer), image)];
      return true;
    }

    /**
     * `apply_firmware_complete`: the completion of the download in flight.
     * A failure replies and cleans up. Success advances cursor, offset and
     * remaining size by the transfer; with nothing left the commit is
     * submitted, otherwise the next download of min(remaining, 4096) bytes
     * at cdw11 = offset >> 2. A refused submission replies and cleans up.
     */
    method DownloadComplete(success: bool, submitOk: bool, cur: Option<ThreadId>)
      requires Valid() && phase == Downloading
      modifies this
      ensures Valid()
      ensures !success ==>
        && replies == old(replies) + [ErrorReply(InternalError, "firmware download failed .")]
        && submitted == old(submitted) && CleanedUp(cur)
      ensures success ==>
        && offset == old(offset) + old(transfer) && p == offset
        && sizeRemaining == old(sizeRemaining) - old(transfer)
        && size == old(size) && image == old(image)
      ensures success && sizeRemaining == 0 && submitOk ==>
        && phase == Committing && submitted == old(submitted) + [CommitCommand]
        && replies == old(replies) && descHead == old(descHead) && closes == old(closes)
      ensures success && sizeRemaining == 0 && !submitOk ==>
        && replies == old(replies) + [ErrorReply(InternalError, "firmware commit failed.")]
        && submitted == old(submitted) && CleanedUp(cur)
      ensures success && sizeRemaining > 0 ==> transfer == Min(sizeRemaining, MaxTransfer)
      ensures success && sizeRemaining > 0 && submitOk ==>
        && phase == Downloading
        && submitted == old(submitted) + [DownloadCommand(Chunk(offset, transfer), image)]
        && replies == old(replies) && descHead == old(descHead) && closes == old(closes)
      ensures success && sizeRemaining > 0 && !submitOk ==>
        && replies == old(replies) + [ErrorReply(InternalError, "firmware download failed.")]
        && submitted == old(submitted) && CleanedUp(cur)
    {
      if !success {
        Fail("firmware download failed .", cur);
        return;
      }
      ghost var done, sent := offset, transfer;
      p := p + transfer;
      offset := offset + transfer;
      sizeRemaining := sizeRemaining - transfer;
      if sizeRemaining == 0 {
        SubmitCommit(submitOk, cur, done, sent);
      } else {
        SubmitNext(submitOk, cur, done, sent);
      }
    }

    /**
     * The record just after a successful transfer of `sent` bytes at
     * `done`: the cursor has moved, nothing new is submitted yet.
     */
    predicate Advanced(done: nat, sent: nat)
      reads this
    {
      && phase == Downloading && size < UintRange
      && |image| == size && size % 4 == 0 && holdsImage && holdsChannel && desc.Some? && replies == []
      && done % MaxTransfer == 0 && done + sent <= size && sent == Min(size - done, MaxTransfer)
      && (size > 0 ==> sent > 0)
      && offset == done + sent && p == offset && sizeRemaining == size - offset
      && ChunksWithin(Chunks(0, done), |image|)
      && submitted == DownloadCommands(Chunks(0, done), image) + [DownloadCommand(Chunk(done, sent), image)]
    }

    /** Nothing left: the commit is submitted, or its refusal replies and cleans up. */
    method SubmitCommit(submitOk: bool, cur: Option<ThreadId>, ghost done: nat, ghost sent: nat)
      requires Advanced(done, sent) && sizeRemaining == 0
      modifies this
      ensures Valid()
      ensures offset == old(offset) && p == old(p) && sizeRemaining == 0 && size == old(size) && image == old(image)
      ensures submitOk ==>
        && phase == Committing && submitted == old(submitted) + [CommitCommand]
        && replies == old(replies) && descHead == old(descHead) && closes == old(closes)
      ensures !submitOk ==>
        && replies == old(replies) + [ErrorReply(InternalError, "firmware commit failed.")]
        && submitted == old(submitted) && CleanedUp(cur)
    {
      if !submitOk {
        Fail("firmware commit failed.", cur);
        return;
      }
      CommittedPlan(image, done, sent);
      submitted := submitted + [CommitCommand];
      phase := Committing;
    }

    /** More to send: the next download, or its refusal replies and cleans up. */
    method SubmitNext(submitOk: bool, cur: Option<ThreadId>, ghost done: nat, ghost sent: nat)
      requires Advanced(done, sent) && sizeRemaining > 0
      modifies this
      ensures Valid()
      ensures offset == old(offset) && p == old(p) && sizeRemaining == old(sizeRemaining)
      ensures size == old(size) && image == old(image)
      ensures transfer == Min(sizeRemaining, MaxTransfer)
      ensures submitOk ==>
        && phase == Downloading
        && submitted == old(submitted) + [DownloadCommand(Chunk(offset, transfer), image)]
        && replies == old(replies) && descHead == old(descHead) && closes == old(closes)
      ensures !submitOk ==>
        && replies == old(replies) + [ErrorReply(InternalError, "firmware download failed.")]
        && submitted == old(submitted) && CleanedUp(cur)
    {
      NextChunkPrefix(image, done);
      transfer := Min(sizeRemaining, MaxTransfer);
      if !submitOk {
        Fail("firmware download failed.", cur);
        return;
      }
      submitted := submitted + [DownloadCommand(Chunk(offset, transfer), image)];
    }

    /**
     * `apply_firmware_complete_reset`: the completion of the commit. A
     * failed commit replies with an error; otherwise a controller reset is
     * requested and its refusal or acceptance is the reply. Cleanup follows
     * in every case.
     */
    method CommitComplete(success: bool, resetOk: bool, cur: Option<ThreadId>)
      requires Valid() && phase == Committing
      modifies this
      ensures Valid() && CleanedUp(cur)
      ensures !success ==>
        submitted == old(submitted) &&
        replies == old(replies) + [ErrorReply(InternalError, "firmware commit failed.")]
      ensures success ==> submitted == old(submitted) + [ControllerReset]
      ensures success && !resetOk ==>
        replies == old(replies) + [ErrorReply(InternalError, "Controller reset failed.")]
      ensures success && resetOk ==>
        replies == old(replies) + [ResultReply("firmware commit succeeded. Controller reset in progress.")]
    {
      if !success {
        Fail("firmware commit failed.", cur);
        return;
      }
      submitted := submitted + [ControllerReset];
      if !resetOk {
        Fail("Controller reset failed.", cur);
        return;
      }
      replies := replies + [ResultReply("firmware commit succeeded. Controller reset in progress.")];
      Cleanup(cur);
    }
  }

  /** `st_size % 4` decides the same as `size % 4` after truncation to `unsigned int`. */
  lemma TruncationKeepsAlignment(st: nat)
    ensures (st % UintRange) % 4 == st % 4
  {
    var q := st / UintRange;
    assert st == q * UintRange + st % UintRange;
    assert q * UintRange == (q * 0x4000_0000) * 4;
  }

  /** After a full transfer at `done`, the plan so far grows by that chunk. */
  lemma NextChunkPrefix(image: seq<bv8>, done: nat)
    requires done % MaxTransfer == 0 && done + MaxTransfer <= |image|
    requires ChunksWithin(Chunks(0, done), |image|)
    ensures ChunksWithin(Chunks(0, done + MaxTransfer), |image|)
    ensures DownloadCommands(Chunks(0, done + MaxTransfer), image) ==
            DownloadCommands(Chunks(0, done), image) + [DownloadCommand(Chunk(done, MaxTransfer), image)]
  {
    var a := Chunks(0, done);
    var c := [Chunk(done, MaxTransfer)];
    LastChunk(done, MaxTransfer);
    assert ChunksWithin(c, |image|);
    DownloadCommandsSplit(a, c, image);
    assert DownloadCommands(c, image) == [DownloadCommand(Chunk(done, MaxTransfer), image)];
  }

  /** The last transfer, from aligned offset `done`, completes the plan. */
  lemma CommittedPlan(image: seq<bv8>, done: nat, sent: nat)
    requires done % MaxTransfer == 0 && done + sent == |image| && sent <= MaxTransfer
    requires |image| > 0 ==> sent > 0
    requires ChunksWithin(Chunks(0, done), |image|)
    ensures ChunksWithin(Plan(|image|), |image|)
    ensures DownloadCommands(Plan(|image|), image) ==
            DownloadCommands(Chunks(0, done), image) + [DownloadCommand(Chunk(done, sent), image)]
  {
    if |image| == 0 {
      EmptyPlan(image);
    } else {
      var a := Chunks(0, done);
      var c := [Chunk(done, sent)];
      PlanLastChunk(|image|, done, sent);
      assert ChunksWithin(c, |image|);
      DownloadCommandsSplit(a, c, image);
      assert DownloadCommands(c, image) == [DownloadCommand(Chunk(done, sent), image)];
    }
  }

  /** An empty image's plan is the single zero-length download. */
  lemma EmptyPlan(image: seq<bv8>)
    requires |image| == 0
    ensures ChunksWithin(Plan(0), 0)
    ensures DownloadCommands(Plan(0), image) == DownloadCommands(Chunks(0, 0), image) + [DownloadCommand(Chunk(0, 0), image)]
  {
    assert Chunks(0, 0) == [];
    assert DownloadCommands([Chunk(0, 0)], image) == [DownloadCommand(Chunk(0, 0), image)];
  }

  /** Once an open is refused the loop's result no longer changes. */
  lemma {:induction false} ScanOpenStopped(bdevs: seq<Bdev>, c: nat, requested: nat, openOk: nat -> bool,
                                           cur: Option<ThreadId>, k: nat, n: nat)
    requires k <= n <= |bdevs|
    requires k < n ==> ScanOpen(bdevs, c, requested, openOk, cur, k).refused
    ensures ScanOpen(bdevs, c, requested, openOk, cur, n) == ScanOpen(bdevs, c, requested, openOk, cur, k)
    decreases n - k
  {
    if k < n {
      ScanOpenStopped(bdevs, c, requested, openOk, cur, k, n - 1);
    }
  }
}

/** What the start of a firmware update decides, stated over `Start`. */
module FirmwareStart {
  import opened Wrappers
  import opened CStrings
  import opened FirmwarePlan
  import opened FirmwareUpdate

  /**
   * Without a refused open, the opening loop records one entry per bdev of
   * the controller, in list order, each under the requested bdev and the
   * current thread.
   */
  lemma {:induction false} ScanOpenRecords(bdevs: seq<Bdev>, c: nat, requested: nat, openOk: nat -> bool,
                                           cur: Option<ThreadId>, n: nat)
    requires n <= |bdevs|
    requires !ScanOpen(bdevs, c, requested, openOk, cur, n).refused
    ensures Descriptors(ScanOpen(bdevs, c, requested, openOk, cur, n).entries) == OnController(bdevs, c, n)
    ensures forall e :: e in ScanOpen(bdevs, c, requested, openOk, cur, n).entries ==>
              e.bdev == requested && e.thread == cur
  {
    if n > 0 {
      var prev := ScanOpen(bdevs, c, requested, openOk, cur, n - 1);
      ScanOpenRecords(bdevs, c, requested, openOk, cur, n - 1);
      if bdevs[n - 1].ctrlr == Some(c) {
        var e := OpenDescriptor(n - 1, requested, cur);
        DescriptorsAppend(prev.entries, e);
      }
    }
  }

  lemma {:induction false} DescriptorsAppend(ds: seq<OpenDescriptor>, e: OpenDescriptor)
    ensures Descriptors(ds + [e]) == Descriptors(ds) + [e.desc]
  {
    assert |Descriptors(ds + [e])| == |ds| + 1;
    assert forall k :: 0 <= k < |ds| ==> (ds + [e])[k] == ds[k];
  }

  /** A bdev of the controller among the first `n` shows up in `OnController`. */
  lemma {:induction false} OnControllerHas(bdevs: seq<Bdev>, c: nat, n: nat, i: nat)
    requires i < n <= |bdevs| && bdevs[i].ctrlr == Some(c)
    ensures i in OnController(bdevs, c, n)
  {
    if i < n - 1 {
      OnControllerHas(bdevs, c, n - 1, i);
    }
  }

  /**
   * The descriptor the update runs on is the one of the first bdev of the
   * requested bdev's controller in list order; every bdev of that
   * controller was opened, each entry tagged with the requested bdev.
   * Because of that tag, "No descriptor were found." is never the answer.
   */
  lemma SelectedIsFirstOnController(name: CString, bdevs: seq<Bdev>, openOk: nat -> bool, cur: Option<ThreadId>)
    ensures match Select(name, bdevs, openOk, cur)
      case Unselected(msg, _) => msg != "No descriptor were found."
      case Selected(ds, d) =>
        && FindBdev(bdevs, name, 0).Some?
        && var i := FindBdev(bdevs, name, 0).value;
        && bdevs[i].ctrlr.Some?
        && var ons := OnController(bdevs, bdevs[i].ctrlr.value, |bdevs|);
        && Descriptors(ds) == ons && |ons| > 0 && d == ons[0]
  {
    var found := FindBdev(bdevs, name, 0);
    if found.None? {
      assert Msg("bdev " + name + " were not found")[0] == 'b';
    } else if bdevs[found.value].ctrlr.None? {
      assert Msg("Controller information for " + name + " were not found.")[0] == 'C';
    } else {
      var i := found.value;
      var c := bdevs[i].ctrlr.value;
      var scan := ScanOpen(bdevs, c, i, openOk, cur, |bdevs|);
      if scan.refused {
        assert Msg("Device " + name + " is in use.")[0] == 'D';
      } else {
        ScanOpenRecords(bdevs, c, i, openOk, cur, |bdevs|);
        OnControllerHas(bdevs, c, |bdevs|, i);
        var ons := OnController(bdevs, c, |bdevs|);
        assert |scan.entries| == |ons| > 0;
        assert scan.entries[0] in scan.entries;
        assert FirstDescriptorFor(scan.entries, i) == Some(scan.entries[0].desc);
      }
    }
  }

  /**
   * Two bdevs on one controller, the second requested: the update runs on
   * the descriptor of the first.
   */
  lemma FirstDescriptorExample()
    ensures Select("n2", [Bdev("n1", Some(7)), Bdev("n2", Some(7))], _ => true, Some(3)) ==
            Selected([OpenDescriptor(0, 1, Some(3)), OpenDescriptor(1, 1, Some(3))], 0)
  {
    var bdevs := [Bdev("n1", Some(7)), Bdev("n2", Some(7))];
    assert FindBdev(bdevs, "n2", 0) == Some(1) by {
      assert bdevs[0].name != "n2";
    }
    var ok: nat -> bool := _ => true;
    assert ScanOpen(bdevs, 7, 1, ok, Some(3), 1) == OpenScan([OpenDescriptor(0, 1, Some(3))], false);
    assert ScanOpen(bdevs, 7, 1, ok, Some(3), 2) ==
           OpenScan([OpenDescriptor(0, 1, Some(3)), OpenDescriptor(1, 1, Some(3))], false);
  }

  /**
   * An image whose size is not a multiple of 4 is refused once the bdev,
   * the descriptors and the channel are in place, before any download.
   */
  lemma MisalignedImageRejected(name: CString, bdevs: seq<Bdev>, openOk: nat -> bool, cur: Option<ThreadId>,
                                st: nat, bytes: seq<bv8>, submitOk: bool)
    requires Select(name, bdevs, openOk, cur).Selected?
    requires st % 4 != 0
    ensures Start(name, bdevs, openOk, cur, true, Opened(st, bytes), submitOk) ==
            StartFailed("Firmware image size is not multiple of 4.", Select(name, bdevs, openOk, cur).descs)
  {
  }

  /**
   * A start succeeds exactly when the bdev is selected, a channel is
   * obtained, the file opens with a size that is a multiple of 4, the read
   * delivers the truncated size, and the first download is accepted.
   */
  lemma StartedExactly(name: CString, bdevs: seq<Bdev>, openOk: nat -> bool, cur: Option<ThreadId>,
                       channelOk: bool, file: ImageFile, submitOk: bool)
    ensures Start(name, bdevs, openOk, cur, channelOk, file, submitOk).Started? <==>
      && Select(name, bdevs, openOk, cur).Selected? && channelOk && file.Opened?
      && file.stSize % 4 == 0 && |file.readBytes| == file.stSize % UintRange && submitOk
    ensures Start(name, bdevs, openOk, cur, channelOk, file, submitOk).Started? ==>
      Start(name, bdevs, openOk, cur, channelOk, file, submitOk).image == file.readBytes
  {
  }

  /**
   * An empty image passes the alignment test; its plan is one zero-length
   * download and then the commit.
   */
  lemma EmptyImageAccepted(name: CString, bdevs: seq<Bdev>, openOk: nat -> bool, cur: Option<ThreadId>)
    requires Select(name, bdevs, openOk, cur).Selected?
    ensures Start(name, bdevs, openOk, cur, true, Opened(0, []), true).Started?
    ensures Plan(0) == [Chunk(0, 0)]
    ensures DownloadCommand(Chunk(0, Min(0, MaxTransfer)), []) == ImageDownload(0, 0, [])
  {
  }

  /**
   * Under the record's invariant the download in flight lies inside the
   * image, is a whole number of 4-byte words at a word-aligned offset, and
   * is never empty unless the image is.
   */
  lemma InFlightWithinImage(u: FirmwareUpdate)
    requires u.Valid() && u.phase == Downloading
    ensures u.offset + u.transfer <= u.size == |u.image|
    ensures u.offset % 4 == 0 && u.transfer % 4 == 0
    ensures u.transfer <= MaxTransfer && (u.size > 0 ==> u.transfer > 0)
  {
    TransferArithmetic(u.size, u.offset, u.sizeRemaining, u.transfer);
  }

  /** The arithmetic behind `InFlightWithinImage`, on the record's numbers alone. */
  lemma TransferArithmetic(size: nat, offset: nat, remaining: nat, transfer: nat)
    requires size % 4 == 0 && offset + remaining == size && offset % MaxTransfer == 0
    requires transfer == Min(remaining, MaxTransfer) && (size > 0 ==> remaining > 0)
    ensures offset + transfer <= size && offset % 4 == 0 && transfer % 4 == 0
    ensures transfer <= MaxTransfer && (size > 0 ==> transfer > 0)
  {
    var q := offset / MaxTransfer;
    var w := size / 4;
    assert offset == 4 * (1024 * q);
    assert size == 4 * w;
    assert remaining == 4 * (w - 1024 * q);
  }
}
