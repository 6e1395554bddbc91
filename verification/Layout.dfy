/** Runs of entries laid back to back, and where they sit in the sectors of the partition. */
module Layout {
  import opened Bytes
  import opened Entry

  /** The sizes the logger is configured with. */
  datatype Geometry = Geometry(align: nat, sector: nat, sectors: nat, batch: nat) {
    function Size(): nat {
      sectors * sector
    }

    /**
     * What the configuration has to respect: at least two sectors, a batch that fits a sector, and a
     * partition whose offsets fit 32 bits. The alignment is a byte; nothing here needs it to divide the sector.
     */
    predicate Valid() {
      && 1 <= align <= 255
      && OVERHEAD <= sector
      && 2 <= sectors
      && batch <= sector
      && Size() < WORD
    }
  }

  /** Byte strings back to back. */
  function Flat(xs: seq<seq<Byte>>): seq<Byte> {
    if xs == [] then [] else xs[0] + Flat(xs[1..])
  }

  lemma FlatUnfolds(xs: seq<seq<Byte>>)
    ensures Flat(xs) == if xs == [] then [] else xs[0] + Flat(xs[1..])
  {
  }

  lemma ConcatAssociates(a: seq<Byte>, b: seq<Byte>, c: seq<Byte>)
    ensures a + b + c == a + (b + c)
  {
  }

  lemma {:induction false} FlatConcat(xs: seq<seq<Byte>>, ys: seq<seq<Byte>>)
    ensures Flat(xs + ys) == Flat(xs) + Flat(ys)
  {
    hide Flat;
    FlatUnfolds(xs);
    if xs == [] {
      assert xs + ys == ys;
      assert [] + Flat(ys) == Flat(ys);
    } else {
      FlatConcat(xs[1..], ys);
      FlatUnfolds(xs + ys);
      assert (xs + ys)[1..] == xs[1..] + ys;
      ConcatAssociates(xs[0], Flat(xs[1..]), Flat(ys));
    }
  }

  lemma FlatOne(x: seq<Byte>)
    ensures Flat([x]) == x
  {
    assert Flat([x]) == x + Flat([]);
  }

  lemma {:induction false} FlatCount(xs: seq<seq<Byte>>, least: nat)
    requires forall i :: 0 <= i < |xs| ==> |xs[i]| >= least
    ensures |Flat(xs)| >= least * |xs|
  {
    if xs != [] {
      FlatCount(xs[1..], least);
      assert least * |xs| == least + least * (|xs| - 1);
    }
  }

  // ---------- Sectors ----------

  lemma SectorInside(geo: Geometry, k: nat)
    requires k < geo.sectors
    ensures 0 <= k * geo.sector <= k * geo.sector + geo.sector <= geo.Size()
    ensures (k + 1) * geo.sector == k * geo.sector + geo.sector
  {
    MulLe(k + 1, geo.sectors, geo.sector);
  }

  /** The bytes of sector `k`. */
  function Sector(geo: Geometry, mem: seq<Byte>, k: nat): (s: seq<Byte>)
    requires |mem| == geo.Size() && k < geo.sectors
    ensures |s| == geo.sector
  {
    SectorInside(geo, k);
    mem[k * geo.sector..k * geo.sector + geo.sector]
  }

  /** The sector an offset lies in. */
  lemma SectorOfOffset(geo: Geometry, k: nat, d: nat)
    requires geo.sector > 0 && d < geo.sector
    ensures (k * geo.sector + d) / geo.sector == k
    ensures (k * geo.sector + d) % geo.sector == d
  {
    DivUnique(k * geo.sector + d, geo.sector, k, d);
  }

  /** `mem` with `src` written at `off`. */
  function Splice(mem: seq<Byte>, off: nat, src: seq<Byte>): (r: seq<Byte>)
    requires off + |src| <= |mem|
    ensures |r| == |mem|
  {
    mem[..off] + src + mem[off + |src|..]
  }

  lemma SectorsApart(geo: Geometry, j: nat, k: nat)
    requires j < k
    ensures j * geo.sector + geo.sector <= k * geo.sector
  {
    MulLe(j + 1, k, geo.sector);
    assert (j + 1) * geo.sector == j * geo.sector + geo.sector;
  }

  /** A write inside sector `k` changes that sector only, in place. */
  lemma SpliceSectors(geo: Geometry, mem: seq<Byte>, k: nat, d: nat, src: seq<Byte>)
    requires |mem| == geo.Size() && k < geo.sectors
    requires d + |src| <= geo.sector
    ensures k * geo.sector + d + |src| <= |mem|
    ensures Sector(geo, Splice(mem, k * geo.sector + d, src), k) == Splice(Sector(geo, mem, k), d, src)
    ensures forall j: nat | j < geo.sectors && j != k ::
              Sector(geo, Splice(mem, k * geo.sector + d, src), j) == Sector(geo, mem, j)
  {
    SectorInside(geo, k);
    var base := k * geo.sector;
    var mem' := Splice(mem, base + d, src);
    forall j: nat | j < geo.sectors && j != k
      ensures Sector(geo, mem', j) == Sector(geo, mem, j)
    {
      SectorInside(geo, j);
      if j < k {
        SectorsApart(geo, j, k);
      } else {
        SectorsApart(geo, k, j);
      }
    }
  }
}
