/**
  How the bytes of an object split over RAM head, SSD prefix and HDD tail
  (src/goblin/storage/layout.cpp).
*/
module Layout {
  import opened Arith

  datatype TierSizes = TierSizes(ramHead: nat, ssdPrefix: nat) {
    /** What the configuration is validated for: ordered and 4 KiB-aligned tier sizes. */
    predicate Valid()
    {
      ramHead <= ssdPrefix && ramHead % DEVICE_BLOCK == 0 && ssdPrefix % DEVICE_BLOCK == 0
    }
  }

  datatype ObjectLayout = ObjectLayout(size: nat, ramHeadBytes: nat, ssdBytes: nat, hddBytes: nat)

  function ComputeLayout(size: nat, tiers: TierSizes, threeLayer: bool): (l: ObjectLayout)
    ensures l.size == size && l.ramHeadBytes == Min(size, tiers.ramHead)
    ensures l.ssdBytes == 0 && l.hddBytes == 0 <==> size <= tiers.ramHead || size == 0
    ensures size > tiers.ramHead ==> l.ssdBytes + l.hddBytes == size
    ensures l.hddBytes > 0 ==> threeLayer && l.ssdBytes == tiers.ssdPrefix
    ensures size > tiers.ramHead ==> l.ssdBytes == if threeLayer then Min(size, tiers.ssdPrefix) else size
    ensures tiers.Valid() && l.hddBytes > 0 ==> l.ssdBytes % DEVICE_BLOCK == 0 && l.ramHeadBytes <= l.ssdBytes
  {
    if size <= tiers.ramHead then ObjectLayout(size, size, 0, 0)
    else if !threeLayer || size <= tiers.ssdPrefix then ObjectLayout(size, tiers.ramHead, size, 0)
    else ObjectLayout(size, tiers.ramHead, tiers.ssdPrefix, size - tiers.ssdPrefix)
  }

  datatype Tier = Ssd | Hdd
  datatype Placement = Placement(tier: Tier, local: nat)

  function Place(off: nat, l: ObjectLayout): Placement
  {
    if off < l.ssdBytes then Placement(Ssd, off) else Placement(Hdd, off - l.ssdBytes)
  }

  function TierBytes(l: ObjectLayout, t: Tier): nat { if t == Ssd then l.ssdBytes else l.hddBytes }

  /** The offset of an object byte from its place. */
  function Unplace(p: Placement, l: ObjectLayout): nat
  {
    if p.tier == Ssd then p.local else l.ssdBytes + p.local
  }

  /** Placing is a bijection between the bytes of a disk-backed object and the bytes of its tiers. */
  lemma PlaceBijective(size: nat, tiers: TierSizes, threeLayer: bool, off: nat, p: Placement)
    requires size > tiers.ramHead
    ensures var l := ComputeLayout(size, tiers, threeLayer);
            && (off < size ==>
                Place(off, l).local < TierBytes(l, Place(off, l).tier)
                && Unplace(Place(off, l), l) == off)
            && (p.local < TierBytes(l, p.tier) ==> Unplace(p, l) < size && Place(Unplace(p, l), l) == p)
  {
  }
}
