/**
  What the write path of one handle proves is what the concurrent system asks of its flush step.
*/
module FlushPromise {
  import opened Arith
  import opened Striping
  import opened StripedIo
  import opened S3Fifo
  import opened Core
  import opened Engine
  import WritePath

  /** The tier has its `bytes` bytes, padded to `len` within its chunks, and no two of them in one place. */
  lemma TierIsHeld(p: DrivePool, h: nat, files: seq<File>, value: seq<byte>, from: nat, len: nat, bytes: nat, o: nat)
    requires p.Valid() && |files| == p.n && WritePath.TierIs(p, h, files, value, from, len)
    requires NoClash(p, h, p.Chunks(bytes)) && len <= p.Chunks(bytes) * p.s
    requires bytes <= len && from + bytes <= |value| && o < bytes
    ensures At(p, h, files, o) == Some(value[from + o])
  {
    hide At, NoClash, DrivePool.Chunks, WritePath.TierIs;
    CleanIsDistinct(p, h, p.Chunks(bytes), 0, len);
    WritePath.TierReads(p, h, files, value, from, len, o);
  }

  /** A sealed handle's files, seen through its descriptors, hold the whole value, unless chunks clash. */
  lemma SealedIsOnDisk(cfg: Config, h: WritePath.StoreHandle, d: Digest, value: seq<byte>, ssd: Fds, hdd: Fds,
                       inodes: map<Inode, File>)
    requires cfg.Valid() && h.Sealed(value) && h.layout == cfg.LayoutOf(|value|) && h.bucket == d.bucket
    requires h.ssdPool == cfg.ssdPool && h.hddPool == cfg.hddPool
    requires NoClash(h.ssdPool, h.bucket, h.SsdChunks()) && NoClash(h.hddPool, h.bucket, h.HddChunks())
    requires ssd.Keys == OpenedDrives(cfg.ssdPool, d.bucket, h.layout.ssdBytes)
             && FilesOf(cfg.ssdPool, ssd, inodes) == h.ssd[..]
    requires hdd.Keys == OpenedDrives(cfg.hddPool, d.bucket, h.layout.hddBytes)
             && FilesOf(cfg.hddPool, hdd, inodes) == h.hdd[..]
    ensures OnDisk(cfg, d, value, ssd, hdd, inodes)
    ensures h.head != null ==> h.head[..] == value[..h.head.Length]
  {
    hide At, OpenedDrives, FilesOf, AlignUp, WritePath.TierIs, NoClash, DrivePool.Chunks;
    var l := h.layout;
    AlignUpLeast(l.size, DEVICE_BLOCK);
    AlignUpLeast(l.ssdBytes, DEVICE_BLOCK);
    PaddedFits(cfg.ssdPool, l.ssdBytes);
    PaddedFits(cfg.hddPool, l.hddBytes);
    forall o: nat | o < l.ssdBytes ensures At(cfg.ssdPool, d.bucket, h.ssd[..], o) == Some(value[0 + o]) {
      TierIsHeld(cfg.ssdPool, d.bucket, h.ssd[..], value, 0, Min(AlignUp(l.size, DEVICE_BLOCK), h.SsdExtent()),
                 l.ssdBytes, o);
    }
    forall o: nat | o < l.hddBytes ensures At(cfg.hddPool, d.bucket, h.hdd[..], o) == Some(value[l.ssdBytes + o]) {
      AlignUpSum(l.ssdBytes, l.hddBytes, DEVICE_BLOCK);
      TierIsHeld(cfg.hddPool, d.bucket, h.hdd[..], value, l.ssdBytes,
                 Max(AlignUp(l.size, DEVICE_BLOCK) - l.ssdBytes, 0), l.hddBytes, o);
    }
    if h.head != null {
      assert h.head[..] == h.head[..h.head.Length];
    }
  }
}
