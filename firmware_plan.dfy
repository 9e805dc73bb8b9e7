/**
 * The transfer plan of `bdev_nvme_apply_firmware`: the image is sent in
 * Firmware Image Download commands of at most 4096 bytes each, at
 * increasing offsets, followed by one Firmware Commit (sections 5.12 and
 * 5.11 of the NVMe Base Specification 1.4).
 */
module FirmwarePlan {

  /** The largest transfer of one Firmware Image Download. */
  const MaxTransfer: nat := 4096

  /** SPDK_NVME_OPC_FIRMWARE_IMAGE_DOWNLOAD and SPDK_NVME_OPC_FIRMWARE_COMMIT. */
  const OpcImageDownload: nat := 0x11
  const OpcFirmwareCommit: nat := 0x10
  /** SPDK_NVME_FW_COMMIT_REPLACE_AND_ENABLE_IMG. */
  const ReplaceAndEnable: nat := 1

  /** One download: `len` bytes of the image starting at byte `offset`. */
  datatype Chunk = Chunk(offset: nat, len: nat)

  /**
   * What the handler submits. A download records its byte count (the
   * argument cdw10 is computed from by `spdk_nvme_bytes_to_numd`), its
   * cdw11 (`offset >> 2`, the offset in dwords) and the bytes it points at.
   * A commit records its slot (fs) and commit action (ca).
   */
  datatype Submission =
    | ImageDownload(bytes: nat, cdw11: nat, data: seq<bv8>)
    | FirmwareCommit(slot: nat, action: nat)
    | ControllerReset
  {
    function Opcode(): nat
      requires !ControllerReset?
    {
      if ImageDownload? then OpcImageDownload else OpcFirmwareCommit
    }
  }

  /** The commit the handler sends: slot 0, replace and enable. */
  const CommitCommand: Submission := FirmwareCommit(0, ReplaceAndEnable)

  /** `len` bytes from `start` sent at most MaxTransfer at a time, in order. */
  function Chunks(start: nat, len: nat): (r: seq<Chunk>)
    decreases len
    ensures len == 0 <==> r == []
  {
    if len == 0 then []
    else
      var t := if len < MaxTransfer then len else MaxTransfer;
      [Chunk(start, t)] + Chunks(start + t, len - t)
  }

  /**
   * The shape of a run: each chunk holds 1..MaxTransfer bytes, every one but
   * the last is full, each starts where the previous one ended, the first
   * at `start` and the last ending at `start + len`.
   */
  lemma {:induction false} ChunksShape(start: nat, len: nat)
    ensures var r := Chunks(start, len);
      && (forall i :: 0 <= i < |r| ==> 0 < r[i].len <= MaxTransfer)
      && (forall i :: 0 <= i < |r| - 1 ==> r[i].len == MaxTransfer)
      && (forall i :: 0 <= i < |r| - 1 ==> r[i + 1].offset == r[i].offset + r[i].len)
      && (len > 0 ==> r[0].offset == start && r[|r| - 1].offset + r[|r| - 1].len == start + len)
    decreases len
  {
    if len > 0 {
      var t := if len < MaxTransfer then len else MaxTransfer;
      var rest := Chunks(start + t, len - t);
      ChunksShape(start + t, len - t);
      var r := Chunks(start, len);
      assert r == [Chunk(start, t)] + rest;
      assert forall i :: 1 <= i < |r| ==> r[i] == rest[i - 1];
      if len - t > 0 {
        assert r[1].offset == start + t;
      }
    }
  }

  /** A run of `len` bytes takes ceil(len / MaxTransfer) downloads. */
  lemma {:induction false} ChunksCount(start: nat, len: nat)
    ensures |Chunks(start, len)| == (len + MaxTransfer - 1) / MaxTransfer
    decreases len
  {
    if len > 0 {
      var t := if len < MaxTransfer then len else MaxTransfer;
      ChunksCount(start + t, len - t);
      if len > MaxTransfer {
        assert (len + MaxTransfer - 1) / MaxTransfer == (len - t + MaxTransfer - 1) / MaxTransfer + 1;
      }
    }
  }

  /**
   * The downloads for an image of `size` bytes, as the state machine sends
   * them: a size-0 image still sends one zero-length download, because the
   * first download is submitted before the remaining size is looked at.
   */
  function Plan(size: nat): (r: seq<Chunk>)
    ensures size == 0 ==> r == [Chunk(0, 0)]
    ensures size > 0 ==> r == Chunks(0, size)
  {
    if size == 0 then [Chunk(0, 0)] else Chunks(0, size)
  }

  function DownloadCommand(c: Chunk, image: seq<bv8>): (r: Submission)
    requires c.offset + c.len <= |image|
    ensures r.ImageDownload? && r.bytes == c.len && r.cdw11 == c.offset / 4 && |r.data| == c.len
  {
    ImageDownload(c.len, c.offset / 4, image[c.offset..c.offset + c.len])
  }

  predicate ChunksWithin(cs: seq<Chunk>, size: nat) {
    forall i :: 0 <= i < |cs| ==> cs[i].offset + cs[i].len <= size
  }

  function DownloadCommands(cs: seq<Chunk>, image: seq<bv8>): (r: seq<Submission>)
    requires ChunksWithin(cs, |image|)
    ensures |r| == |cs|
    ensures forall i :: 0 <= i < |cs| ==> r[i] == DownloadCommand(cs[i], image)
  {
    if cs == [] then [] else [DownloadCommand(cs[0], image)] + DownloadCommands(cs[1..], image)
  }

  /** The bytes a sequence of downloads carries, in submission order. */
  function Payload(cmds: seq<Submission>): (r: seq<bv8>)
  {
    if cmds == [] then []
    else (if cmds[0].ImageDownload? then cmds[0].data else []) + Payload(cmds[1..])
  }

  /** The commit and the reset carry no bytes; a lone download carries its data. */
  lemma {:induction false} PayloadBasics(cmds: seq<Submission>)
    ensures (forall i :: 0 <= i < |cmds| ==> !cmds[i].ImageDownload?) ==> Payload(cmds) == []
    ensures |cmds| == 1 && cmds[0].ImageDownload? ==> Payload(cmds) == cmds[0].data
  {
    if cmds != [] {
      PayloadBasics(cmds[1..]);
      assert forall i :: 1 <= i < |cmds| ==> cmds[i] == cmds[1..][i - 1];
    }
  }

  /** Splitting a run at a multiple of MaxTransfer splits its chunks. */
  lemma {:induction false} ChunksSplit(start: nat, a: nat, b: nat)
    requires a % MaxTransfer == 0
    ensures Chunks(start, a + b) == Chunks(start, a) + Chunks(start + a, b)
    decreases a
  {
    if a > 0 {
      ChunksSplit(start + MaxTransfer, a - MaxTransfer, b);
      assert Chunks(start, a + b) == [Chunk(start, MaxTransfer)] + Chunks(start + MaxTransfer, a - MaxTransfer + b);
    }
  }

  /** One piece of at most MaxTransfer bytes is a single chunk. */
  lemma SingleChunk(start: nat, len: nat)
    requires 0 < len <= MaxTransfer
    ensures Chunks(start, len) == [Chunk(start, len)]
  {
    assert Chunks(start + len, 0) == [];
  }

  /** The plan of a non-empty image ends with its last, possibly short, chunk. */
  lemma PlanLastChunk(size: nat, done: nat, sent: nat)
    requires done % MaxTransfer == 0 && done + sent == size && 0 < sent <= MaxTransfer
    ensures Plan(size) == Chunks(0, done) + [Chunk(done, sent)]
  {
    LastChunk(done, sent);
  }

  /** A run that ends with a short or full final piece after an aligned prefix. */
  lemma LastChunk(done: nat, sent: nat)
    requires done % MaxTransfer == 0 && 0 < sent <= MaxTransfer
    ensures Chunks(0, done + sent) == Chunks(0, done) + [Chunk(done, sent)]
  {
    ChunksSplit(0, done, sent);
    SingleChunk(done, sent);
  }

  /** Chunks are a partition of [start, start + len): every chunk lies inside it. */
  lemma {:induction false} ChunksInside(start: nat, len: nat)
    ensures forall i :: 0 <= i < |Chunks(start, len)| ==>
      start <= Chunks(start, len)[i].offset && Chunks(start, len)[i].offset + Chunks(start, len)[i].len <= start + len
    decreases len
  {
    if len > 0 {
      var t := if len < MaxTransfer then len else MaxTransfer;
      ChunksInside(start + t, len - t);
      var r := Chunks(start, len);
      assert r == [Chunk(start, t)] + Chunks(start + t, len - t);
      forall i | 0 <= i < |r|
        ensures start <= r[i].offset && r[i].offset + r[i].len <= start + len
      {
        if i > 0 { assert r[i] == Chunks(start + t, len - t)[i - 1]; }
      }
    }
  }

  /** Offsets of an aligned run stay aligned: each chunk starts MaxTransfer bytes after the last. */
  lemma {:induction false} ChunksAligned(start: nat, len: nat)
    requires start % MaxTransfer == 0
    ensures forall i :: 0 <= i < |Chunks(start, len)| ==> Chunks(start, len)[i].offset % MaxTransfer == 0
    decreases len
  {
    if len > 0 {
      var t := if len < MaxTransfer then len else MaxTransfer;
      var r := Chunks(start, len);
      assert r == [Chunk(start, t)] + Chunks(start + t, len - t);
      if len > MaxTransfer {
        ChunksAligned(start + t, len - t);
        forall i | 0 <= i < |r|
          ensures r[i].offset % MaxTransfer == 0
        {
          if i > 0 { assert r[i] == Chunks(start + t, len - t)[i - 1]; }
        }
      } else {
        assert Chunks(start + t, len - t) == [];
      }
    }
  }

  lemma {:induction false} PayloadAppend(a: seq<Submission>, b: seq<Submission>)
    ensures Payload(a + b) == Payload(a) + Payload(b)
    decreases |a|
  {
    if a != [] {
      assert (a + b)[0] == a[0];
      assert (a + b)[1..] == a[1..] + b;
      PayloadAppend(a[1..], b);
    } else {
      assert a + b == b;
    }
  }

  /** The downloads of a run carry exactly the image bytes of that run, in order. */
  lemma {:induction false} ChunksCarryImage(image: seq<bv8>, start: nat, len: nat)
    requires start + len <= |image|
    ensures ChunksWithin(Chunks(start, len), |image|)
    ensures Payload(DownloadCommands(Chunks(start, len), image)) == image[start..start + len]
    decreases len
  {
    ChunksInside(start, len);
    if len > 0 {
      var t := if len < MaxTransfer then len else MaxTransfer;
      var first := [Chunk(start, t)];
      var rest := Chunks(start + t, len - t);
      ChunksCarryImage(image, start + t, len - t);
      assert Chunks(start, len) == first + rest;
      HeadPayload(image, Chunk(start, t));
      DownloadCommandsSplit(first, rest, image);
      JoinPayloads(DownloadCommands(first, image), DownloadCommands(rest, image), image, start, start + t, start + len);
    }
  }

  /** One download carries the image bytes of its chunk. */
  lemma HeadPayload(image: seq<bv8>, c: Chunk)
    requires c.offset + c.len <= |image|
    ensures ChunksWithin([c], |image|)
    ensures Payload(DownloadCommands([c], image)) == image[c.offset..c.offset + c.len]
  {
    var head := DownloadCommands([c], image);
    assert head == [DownloadCommand(c, image)];
    assert Payload(head) == head[0].data + Payload([]);
  }

  /** Two command runs that carry adjacent slices of the image carry their union. */
  lemma JoinPayloads(a: seq<Submission>, b: seq<Submission>, image: seq<bv8>, i: nat, j: nat, k: nat)
    requires i <= j <= k <= |image|
    requires Payload(a) == image[i..j] && Payload(b) == image[j..k]
    ensures Payload(a + b) == image[i..k]
  {
    PayloadAppend(a, b);
    assert image[i..k] == image[i..j] + image[j..k];
  }

  lemma {:induction false} DownloadCommandsSplit(a: seq<Chunk>, b: seq<Chunk>, image: seq<bv8>)
    requires ChunksWithin(a, |image|) && ChunksWithin(b, |image|)
    ensures ChunksWithin(a + b, |image|)
    ensures DownloadCommands(a + b, image) == DownloadCommands(a, image) + DownloadCommands(b, image)
  {
    assert forall k :: 0 <= k < |a + b| ==> (a + b)[k] == if k < |a| then a[k] else b[k - |a|];
  }

  /**
   * The commands of the whole plan transfer the image exactly: their
   * payloads concatenate to the image, each cdw11 is its offset in dwords,
   * and no download exceeds MaxTransfer bytes.
   */
  lemma PlanTransfersImage(image: seq<bv8>)
    requires |image| % 4 == 0
    ensures ChunksWithin(Plan(|image|), |image|)
    ensures Payload(DownloadCommands(Plan(|image|), image)) == image
    ensures forall i :: 0 <= i < |Plan(|image|)| ==>
      Plan(|image|)[i].offset % 4 == 0 &&
      DownloadCommands(Plan(|image|), image)[i].cdw11 * 4 == Plan(|image|)[i].offset &&
      DownloadCommands(Plan(|image|), image)[i].bytes <= MaxTransfer
  {
    if |image| == 0 {
      assert Payload(DownloadCommands(Plan(0), image)) == [] + Payload([]);
    } else {
      ChunksCarryImage(image, 0, |image|);
      assert image[0..|image|] == image;
      PlanDwords(image);
    }
  }

  /** The downloads of a non-empty plan sit at dword offsets and move at most MaxTransfer bytes each. */
  lemma PlanDwords(image: seq<bv8>)
    requires |image| > 0 && ChunksWithin(Plan(|image|), |image|)
    ensures forall i :: 0 <= i < |Plan(|image|)| ==>
      Plan(|image|)[i].offset % 4 == 0 &&
      DownloadCommands(Plan(|image|), image)[i].cdw11 * 4 == Plan(|image|)[i].offset &&
      DownloadCommands(Plan(|image|), image)[i].bytes <= MaxTransfer
  {
    var cs := Plan(|image|);
    var cmds := DownloadCommands(cs, image);
    ChunksAligned(0, |image|);
    ChunksShape(0, |image|);
    forall i | 0 <= i < |cs|
      ensures cs[i].offset % 4 == 0 && cmds[i].cdw11 * 4 == cs[i].offset && cmds[i].bytes <= MaxTransfer
    {
      DwordAligned(cs[i].offset);
      assert cmds[i] == DownloadCommand(cs[i], image);
    }
  }

  /** A multiple of MaxTransfer is a whole number of dwords. */
  lemma DwordAligned(x: nat)
    requires x % MaxTransfer == 0
    ensures x % 4 == 0 && (x / 4) * 4 == x
  {
    var q := x / MaxTransfer;
    assert x == q * MaxTransfer;
    assert x == (q * 1024) * 4;
  }

  /** The number of downloads: ceil(size / 4096), but one for an empty image. */
  lemma PlanLength(size: nat)
    ensures |Plan(size)| == if size == 0 then 1 else (size + MaxTransfer - 1) / MaxTransfer
  {
    if size > 0 {
      ChunksCount(0, size);
    }
  }
}
