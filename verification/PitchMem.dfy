/** The byte window through which the decoder reads the pitch tables at the addresses
    that the layout of the tables gives them, and the proof that every such read finds the
    table entry it is meant for. */
module PitchMem {
  import opened RangeSpec
  import opened PitchSpec

  type Address = x: int | 0 <= x < 0x1_0000_0000

  datatype Region = Region(base: Address, data: seq<Byte>) {
    predicate Covers(addr: Address, n: nat) {
      addr >= base && addr - base + n <= |data|
    }
  }

  datatype Hit = Miss | Hit(data: seq<Byte>, off: nat)

  const MEM_GCLK: Address := 0xb9f9a8
  const MEM_PCFG: Address := 0xba50ac           // MEM_GCLK + 0x5704
  const HDR_CONTOUR_MAP: Address := 0xe7c10
  const HDR_LAG_CDF: Address := 0xbaa7b0
  const HDR_FRAC_BASE: Address := 0xbaa9be
  const HDR_DELTA_CDF: Address := 0xbab13e
  const DELTA_BOUNDS: Address := 0xe7ef0
  const RECORDS: Address := 0xba6de4            // MEM_PCFG + 0x1d38
  const RECORD_WORDS := 17

  lemma AddressValues()
    ensures MEM_GCLK == 0xb9f9a8 && MEM_PCFG == MEM_GCLK + 0x5704 && RECORDS == MEM_PCFG + 0x1d38
    ensures HDR_CONTOUR_MAP == 0xe7c10 && HDR_LAG_CDF == 0xbaa7b0 && HDR_FRAC_BASE == 0xbaa9be
    ensures HDR_DELTA_CDF == 0xbab13e && DELTA_BOUNDS == 0xe7ef0
    ensures CONTOURS == 217 && LAG_BLOCKS == 9 && BLOCK_SIZE == 64 && DELTA_ENTRIES == 320
  {
  }

  /** 32-bit address arithmetic. */
  function At32(x: int): Address {
    x % 0x1_0000_0000
  }

  function Find(regions: seq<Region>, i: nat, addr: Address, n: nat): (h: Hit)
    ensures h.Hit? ==> h.off + n <= |h.data|
    decreases |regions| - i
  {
    if i >= |regions| then Miss
    else if regions[i].Covers(addr, n) then Hit(regions[i].data, addr - regions[i].base)
    else Find(regions, i + 1, addr, n)
  }

  lemma {:induction false} FindHit(regions: seq<Region>, i: nat, k: nat, addr: Address, n: nat)
    requires i <= k < |regions| && regions[k].Covers(addr, n)
    requires forall j :: i <= j < k ==> !regions[j].Covers(addr, n)
    ensures Find(regions, i, addr, n) == Hit(regions[k].data, addr - regions[k].base)
    decreases k - i
  {
    if i < k {
      FindHit(regions, i + 1, k, addr, n);
    }
  }

  /** Little-endian words. */
  function Word16(a: nat, b: nat): nat {
    a + 256 * b
  }

  function Word32(a: Byte, b: Byte, c: Byte, d: Byte): Address {
    Word16(a, b) + 0x1_0000 * Word16(c, d)
  }

  datatype SmplMem = SmplMem(regions: seq<Region>, gClk: Address) {
    /** The search as a scan. */
    method RegionFor(addr: Address, n: nat) returns (h: Hit)
      ensures h == Find(regions, 0, addr, n)
    {
      var i := 0;
      while i < |regions|
        invariant i <= |regions| && Find(regions, 0, addr, n) == Find(regions, i, addr, n)
      {
        if regions[i].Covers(addr, n) {
          return Hit(regions[i].data, addr - regions[i].base);
        }
        i := i + 1;
      }
      return Miss;
    }

    /** Reads outside every region yield zero. */
    function U8(addr: Address): Byte {
      var h := Find(regions, 0, addr, 1);
      if h.Hit? then h.data[h.off] else 0
    }

    function U16(addr: Address): nat {
      var h := Find(regions, 0, addr, 2);
      if h.Hit? then Word16(h.data[h.off], h.data[h.off + 1]) else 0
    }

    function U32(addr: Address): Address {
      var h := Find(regions, 0, addr, 4);
      if h.Hit? then Word32(h.data[h.off], h.data[h.off + 1], h.data[h.off + 2], h.data[h.off + 3]) else 0
    }

    function I32(addr: Address): int {
      var x := U32(addr);
      if x < 0x8000_0000 then x else x - 0x1_0000_0000
    }

    function CdfAt(addr: Address, n: nat): (r: seq<nat>)
      ensures |r| == n
    {
      seq(n, i requires 0 <= i < n => U16(At32(addr + 2 * i)))
    }
  }

  // ---- building the window ----

  function Le2(x: nat): (r: seq<Byte>)
    ensures |r| == 2
  {
    [x % 256, x / 256 % 256]
  }

  function Le4(x: nat): (r: seq<Byte>)
    ensures |r| == 4
  {
    Le2(x % 0x1_0000) + Le2(x / 0x1_0000)
  }

  function U16Bytes(v: seq<nat>): (r: seq<Byte>)
    ensures |r| == 2 * |v|
  {
    if v == [] then [] else U16Bytes(v[..|v| - 1]) + Le2(v[|v| - 1])
  }

  function U32Bytes(v: seq<nat>): (r: seq<Byte>)
    ensures |r| == 4 * |v|
  {
    if v == [] then [] else U32Bytes(v[..|v| - 1]) + Le4(v[|v| - 1])
  }

  lemma {:induction false} U16BytesAt(v: seq<nat>, i: nat)
    requires i < |v|
    ensures U16Bytes(v)[2 * i] == Le2(v[i])[0] && U16Bytes(v)[2 * i + 1] == Le2(v[i])[1]
    decreases |v|
  {
    if i < |v| - 1 {
      U16BytesAt(v[..|v| - 1], i);
    }
  }

  lemma {:induction false} U32BytesAt(v: seq<nat>, i: nat)
    requires i < |v|
    ensures U32Bytes(v)[4 * i..4 * i + 4] == Le4(v[i])
    decreases |v|
  {
    if i < |v| - 1 {
      U32BytesAt(v[..|v| - 1], i);
      assert U32Bytes(v)[4 * i..4 * i + 4] == U32Bytes(v[..|v| - 1])[4 * i..4 * i + 4];
    }
  }

  function Padded8(xs: seq<nat>): (r: seq<nat>)
    ensures |r| == 8
  {
    seq(8, i requires 0 <= i < 8 => if i < |xs| then xs[i] else 0)
  }

  function RecordWords(seg: BlockSeg): (r: seq<nat>)
    ensures |r| == RECORD_WORDS
  {
    Padded8(seg.blocks) + Padded8(seg.seglens) + [|seg.blocks|]
  }

  function AllRecords(segs: seq<BlockSeg>): (r: seq<nat>)
    ensures |r| == RECORD_WORDS * |segs|
  {
    if segs == [] then [] else AllRecords(segs[..|segs| - 1]) + RecordWords(segs[|segs| - 1])
  }

  lemma {:induction false} RecordAt(segs: seq<BlockSeg>, c: nat, s: nat)
    requires c < |segs| && s < RECORD_WORDS
    ensures AllRecords(segs)[RECORD_WORDS * c + s] == RecordWords(segs[c])[s]
    decreases |segs|
  {
    if c < |segs| - 1 {
      RecordAt(segs[..|segs| - 1], c, s);
    }
  }

  const HEADER: seq<nat> := [187, CONTOURS, HDR_CONTOUR_MAP, HDR_LAG_CDF, HDR_FRAC_BASE,
                             0xe7d20, 0xe7ef0, 0xe8096, HDR_DELTA_CDF]

  function Join(cdfs: seq<Cdf>): seq<nat> {
    if cdfs == [] then [] else Join(cdfs[..|cdfs| - 1]) + cdfs[|cdfs| - 1]
  }

  lemma {:induction false} JoinSlice(cdfs: seq<Cdf>, n: nat, c: nat, lo: nat, hi: nat)
    requires c < |cdfs| && lo <= hi <= n && forall k :: 0 <= k < |cdfs| ==> |cdfs[k]| == n
    ensures |Join(cdfs)| == n * |cdfs| && 0 <= n * c && n * c + hi <= |Join(cdfs)|
    ensures Join(cdfs)[n * c + lo..n * c + hi] == cdfs[c][lo..hi]
    decreases |cdfs|
  {
    var m := |cdfs| - 1;
    JoinLength(cdfs, n);
    JoinLength(cdfs[..m], n);
    Multiples(n, c, m);
    if c < m {
      JoinSlice(cdfs[..m], n, c, lo, hi);
      assert Join(cdfs)[n * c + lo..n * c + hi] == Join(cdfs[..m])[n * c + lo..n * c + hi];
    }
  }

  lemma {:induction false} JoinLength(cdfs: seq<Cdf>, n: nat)
    requires forall k :: 0 <= k < |cdfs| ==> |cdfs[k]| == n
    ensures |Join(cdfs)| == n * |cdfs|
    decreases |cdfs|
  {
    if cdfs != [] {
      JoinLength(cdfs[..|cdfs| - 1], n);
      Multiples(n, 0, |cdfs| - 1);
    }
  }

  lemma Multiples(n: nat, c: nat, m: nat)
    requires c <= m
    ensures 0 <= n * c <= n * m && n * (m + 1) == n * m + n && (c < m ==> n * c + n <= n * m)
  {
    if c < m {
      assert n * (c + 1) <= n * m;
    }
  }

  function Low8(x: nat): Byte {
    x % 256
  }

  function MapBytes(xs: seq<nat>): (r: seq<Byte>)
    ensures |r| == |xs|
  {
    seq(|xs|, i requires 0 <= i < |xs| => Low8(xs[i]))
  }

  function PairBytes(ps: seq<(nat, nat)>): (r: seq<Byte>)
    ensures |r| == 2 * |ps|
  {
    if ps == [] then [] else PairBytes(ps[..|ps| - 1]) + [Low8(ps[|ps| - 1].0), Low8(ps[|ps| - 1].1)]
  }

  lemma {:induction false} PairBytesAt(ps: seq<(nat, nat)>, f: nat)
    requires f < |ps|
    ensures PairBytes(ps)[2 * f] == Low8(ps[f].0) && PairBytes(ps)[2 * f + 1] == Low8(ps[f].1)
    decreases |ps|
  {
    if f < |ps| - 1 {
      PairBytesAt(ps[..|ps| - 1], f);
    }
  }

  function MemOf(t: PitchTables): SmplMem {
    SmplMem([Region(RECORDS, U32Bytes(AllRecords(t.blocksegs) + HEADER)),
             Region(HDR_LAG_CDF, U16Bytes(t.blocksegIdxCmf)),
             Region(HDR_FRAC_BASE, U16Bytes(Join(t.deltaLagCmfs))),
             Region(HDR_DELTA_CDF, U16Bytes(Join(t.blockTransitionCmf))),
             Region(HDR_CONTOUR_MAP, MapBytes(t.blocksegs2idx)),
             Region(DELTA_BOUNDS, PairBytes(t.firstblockRange) + [0, 0])],
            MEM_GCLK)
  }

  // ---- what each read finds ----

  /** The regions do not overlap, so the first that covers a read is the one meant. */
  lemma Sizes(t: PitchTables)
    requires t.Wf()
    ensures var r := MemOf(t).regions;
            && |r[0].data| == 14792 && |r[1].data| == 436 && |r[2].data| == 1920
            && |r[3].data| == 180 && |r[4].data| == 217 && |r[5].data| == 20
  {
    JoinLength(t.deltaLagCmfs, DELTA_ENTRIES);
    JoinLength(t.blockTransitionCmf, LAG_BLOCKS + 1);
  }

  lemma FindIn(t: PitchTables, k: nat, off: nat, n: nat)
    requires t.Wf() && k < 6 && 1 <= n && off + n <= |MemOf(t).regions[k].data|
    ensures |MemOf(t).regions| == 6 && MemOf(t).regions[k].base + off < 0x1_0000_0000
    ensures Find(MemOf(t).regions, 0, MemOf(t).regions[k].base + off, n) == Hit(MemOf(t).regions[k].data, off)
  {
    Sizes(t);
    hide U32Bytes, U16Bytes, AllRecords, Join, PairBytes, PitchTables.Wf, Find;
    var r := MemOf(t).regions;
    var addr := r[k].base + off;
    forall j | 0 <= j < k ensures !r[j].Covers(addr, n) {
      if k == 1 {} else if k == 2 {} else if k == 3 {} else if k == 4 {} else {}
    }
    FindHit(r, 0, k, addr, n);
  }

  lemma Digits2(x: nat)
    requires x < 0x1_0000
    ensures Word16(Le2(x)[0], Le2(x)[1]) == x
  {
  }

  lemma Digits4(x: nat)
    requires x < 0x8000_0000
    ensures Word32(Le4(x)[0], Le4(x)[1], Le4(x)[2], Le4(x)[3]) == x
  {
    Digits2(x % 0x1_0000);
    Digits2(x / 0x1_0000);
    hide Le2;
  }

  lemma U16Found(m: SmplMem, addr: Address, v: seq<nat>, i: nat)
    requires i < |v| && v[i] < 0x1_0000 && Find(m.regions, 0, addr, 2) == Hit(U16Bytes(v), 2 * i)
    ensures m.U16(addr) == v[i]
  {
    hide U16Bytes, Find, Le2, Word16;
    U16BytesAt(v, i);
    Digits2(v[i]);
  }

  /** Entry i of a 16-bit region. */
  lemma ReadU16(t: PitchTables, k: nat, v: seq<nat>, i: nat, addr: Address)
    requires t.Wf() && k < 6 && MemOf(t).regions[k].data == U16Bytes(v) && i < |v| && v[i] < 0x1_0000
    requires addr == MemOf(t).regions[k].base + 2 * i
    ensures MemOf(t).U16(addr) == v[i]
  {
    hide *;
    FindIn(t, k, 2 * i, 2);
    U16Found(MemOf(t), addr, v, i);
  }

  lemma ReadEntry(t: PitchTables, k: nat, v: seq<nat>, lo: nat, i: nat, addr: Address)
    requires t.Wf() && k < 6 && MemOf(t).regions[k].data == U16Bytes(v) && lo + i < |v| && v[lo + i] < 0x1_0000
    requires addr == MemOf(t).regions[k].base + 2 * lo
    ensures MemOf(t).U16(At32(addr + 2 * i)) == v[lo + i]
  {
    hide *;
    FindIn(t, k, 2 * (lo + i), 2);
    ReadU16(t, k, v, lo + i, addr + 2 * i);
    Wrapped(addr + 2 * i);
  }

  lemma ReadCdf(t: PitchTables, k: nat, v: seq<nat>, lo: nat, n: nat, addr: Address)
    requires t.Wf() && k < 6 && MemOf(t).regions[k].data == U16Bytes(v) && lo + n <= |v|
    requires forall i :: lo <= i < lo + n ==> v[i] < 0x1_0000
    requires addr == MemOf(t).regions[k].base + 2 * lo
    ensures MemOf(t).CdfAt(addr, n) == v[lo..lo + n]
  {
    hide SmplMem.U16, U16Bytes, At32, PitchTables.Wf, SmplMem.CdfAt, MemOf;
    var m, w := MemOf(t), v[lo..lo + n];
    forall i | 0 <= i < n ensures m.U16(At32(addr + 2 * i)) == w[i] {
      ReadEntry(t, k, v, lo, i, addr);
      assert w[i] == v[lo + i];
    }
    CdfIs(m, addr, n, w);
  }

  lemma CdfIs(m: SmplMem, addr: Address, n: nat, w: seq<nat>)
    requires |w| == n && forall i :: 0 <= i < n ==> m.U16(At32(addr + 2 * i)) == w[i]
    ensures m.CdfAt(addr, n) == w
  {
    hide SmplMem.U16, At32;
  }

  lemma Wrapped(x: int)
    requires 0 <= x < 0x1_0000_0000
    ensures At32(x) == x
  {
  }

  lemma EntriesFit(c: Cdf)
    ensures forall i :: 0 <= i < |c| ==> c[i] < 0x1_0000
  {
    forall i | 0 <= i < |c| ensures c[i] < 0x1_0000 {
      CdfOrder(c, i, |c| - 1);
    }
  }

  /** The lag table, and any window of it. */
  lemma LagCdfAt(t: PitchTables, lo: nat, n: nat)
    requires t.Wf() && lo + n <= CONTOURS + 1
    ensures MemOf(t).CdfAt(HDR_LAG_CDF + 2 * lo, n) == t.blocksegIdxCmf[lo..lo + n]
  {
    EntriesFit(t.blocksegIdxCmf);
    ReadCdf(t, 1, t.blocksegIdxCmf, lo, n, HDR_LAG_CDF + 2 * lo);
  }

  lemma JoinFits(cdfs: seq<Cdf>, n: nat, c: nat, lo: nat, hi: nat)
    requires c < |cdfs| && lo <= hi <= n && forall k :: 0 <= k < |cdfs| ==> |cdfs[k]| == n
    ensures |Join(cdfs)| == n * |cdfs| && 0 <= n * c && n * c + hi <= |Join(cdfs)|
    ensures forall i :: n * c + lo <= i < n * c + hi ==> Join(cdfs)[i] < 0x1_0000
  {
    JoinSlice(cdfs, n, c, lo, hi);
    EntriesFit(cdfs[c]);
    forall i | n * c + lo <= i < n * c + hi ensures Join(cdfs)[i] < 0x1_0000 {
      assert Join(cdfs)[i] == Join(cdfs)[n * c + lo..n * c + hi][i - n * c - lo] == cdfs[c][lo..hi][i - n * c - lo];
    }
  }

  /** The window of delta table mode that starts at entry base. */
  lemma RegionsOf(t: PitchTables)
    ensures var r := MemOf(t).regions;
            && |r| == 6
            && r[2] == Region(HDR_FRAC_BASE, U16Bytes(Join(t.deltaLagCmfs)))
            && r[3] == Region(HDR_DELTA_CDF, U16Bytes(Join(t.blockTransitionCmf)))
  {
    hide U16Bytes, Join;
  }

  lemma FracCdfAt(t: PitchTables, mode: nat, base: nat, n: nat)
    requires t.Wf() && mode < 3 && base + n <= DELTA_ENTRIES
    ensures MemOf(t).CdfAt(HDR_FRAC_BASE + 0x280 * mode + 2 * base, n) == t.deltaLagCmfs[mode][base..base + n]
  {
    RegionsOf(t);
    hide MemOf, Join, U16Bytes, SmplMem.CdfAt;
    JoinFits(t.deltaLagCmfs, DELTA_ENTRIES, mode, base, base + n);
    JoinSlice(t.deltaLagCmfs, DELTA_ENTRIES, mode, base, base + n);
    ReadCdf(t, 2, Join(t.deltaLagCmfs), DELTA_ENTRIES * mode + base, n, HDR_FRAC_BASE + 0x280 * mode + 2 * base);
  }

  lemma TransitionCdfAt(t: PitchTables, prev: nat)
    requires t.Wf() && prev < LAG_BLOCKS
    ensures MemOf(t).CdfAt(HDR_DELTA_CDF + 20 * prev, 10) == t.TransitionCdf(prev)
  {
    RegionsOf(t);
    hide MemOf, Join, U16Bytes, SmplMem.CdfAt;
    JoinFits(t.blockTransitionCmf, 10, prev, 0, 10);
    JoinSlice(t.blockTransitionCmf, 10, prev, 0, 10);
    ReadCdf(t, 3, Join(t.blockTransitionCmf), 10 * prev, 10, HDR_DELTA_CDF + 20 * prev);
    assert t.blockTransitionCmf[prev][0..10] == t.blockTransitionCmf[prev];
  }

  lemma MapAt(t: PitchTables, i: nat)
    requires t.Wf() && i < CONTOURS
    ensures MemOf(t).U8(HDR_CONTOUR_MAP + i) == t.Index(i) + 1
  {
    FindIn(t, 4, i, 1);
  }

  lemma U8Found(m: SmplMem, addr: Address, data: seq<Byte>, off: nat)
    requires off < |data| && Find(m.regions, 0, addr, 1) == Hit(data, off)
    ensures m.U8(addr) == data[off]
  {
  }

  lemma BoundsRegion(t: PitchTables, f: nat)
    requires t.Wf() && f < LAG_BLOCKS
    ensures |MemOf(t).regions| == 6 && MemOf(t).regions[5].base == DELTA_BOUNDS
    ensures var d := MemOf(t).regions[5].data;
            2 * f + 1 < |d| && d[2 * f] == t.FirstLo(f) && d[2 * f + 1] == t.FirstHi(f)
  {
    PairBytesAt(t.firstblockRange, f);
    assert t.WfRange(f);
    hide PairBytes, U32Bytes, U16Bytes, MapBytes, AllRecords, Join;
  }

  lemma BoundsAt(t: PitchTables, f: nat)
    requires t.Wf() && f < LAG_BLOCKS
    ensures MemOf(t).U8(DELTA_BOUNDS + 2 * f) == t.FirstLo(f)
    ensures MemOf(t).U8(DELTA_BOUNDS + 2 * f + 1) == t.FirstHi(f)
  {
    hide MemOf, SmplMem.U8, Find, PitchTables.Wf, PitchTables.FirstLo, PitchTables.FirstHi;
    BoundsRegion(t, f);
    FindIn(t, 5, 2 * f, 1);
    U8Found(MemOf(t), DELTA_BOUNDS + 2 * f, MemOf(t).regions[5].data, 2 * f);
    FindIn(t, 5, 2 * f + 1, 1);
    U8Found(MemOf(t), DELTA_BOUNDS + 2 * f + 1, MemOf(t).regions[5].data, 2 * f + 1);
  }

  /** Word i of the record region. */
  lemma ReadWord(t: PitchTables, i: nat)
    requires t.Wf() && i < RECORD_WORDS * CONTOURS + 9
    requires (AllRecords(t.blocksegs) + HEADER)[i] < 0x8000_0000
    ensures MemOf(t).U32(RECORDS + 4 * i) == (AllRecords(t.blocksegs) + HEADER)[i]
  {
    var w := AllRecords(t.blocksegs) + HEADER;
    FindIn(t, 0, 4 * i, 4);
    U32BytesAt(w, i);
    Digits4(w[i]);
    hide U32Bytes, AllRecords, Le4, Find;
    var b := U32Bytes(w);
    assert b[4 * i] == b[4 * i..4 * i + 4][0] && b[4 * i + 1] == b[4 * i..4 * i + 4][1];
    assert b[4 * i + 2] == b[4 * i..4 * i + 4][2] && b[4 * i + 3] == b[4 * i..4 * i + 4][3];
  }

  lemma RecordAddress(c: nat, s: nat)
    requires c < CONTOURS && s < RECORD_WORDS
    ensures At32(MEM_PCFG + 0x44 * c + 0x1d38 + 4 * s) == RECORDS + 4 * (RECORD_WORDS * c + s)
  {
    Wrapped(MEM_PCFG + 0x44 * c + 0x1d38 + 4 * s);
  }

  lemma SmallWord(m: SmplMem, addr: Address, x: nat)
    requires m.U32(addr) == x < 0x8000_0000
    ensures m.I32(addr) == x
  {
  }

  lemma RecordWord(t: PitchTables, c: nat, s: nat)
    requires t.Wf() && c < CONTOURS && s < RECORD_WORDS
    ensures c < |t.blocksegs| && RECORD_WORDS * c + s < RECORD_WORDS * CONTOURS <= |AllRecords(t.blocksegs) + HEADER|
    ensures (AllRecords(t.blocksegs) + HEADER)[RECORD_WORDS * c + s] == RecordWords(t.blocksegs[c])[s] < 10
  {
    assert t.blocksegs[c].Wf();
    hide AllRecords, RecordWords, PitchTables.Wf, BlockSeg.Wf;
    RecordAt(t.blocksegs, c, s);
    WordFits(t.blocksegs[c], s);
  }

  /** Field s of contour record c, through 32-bit address arithmetic. */
  lemma RecordField(t: PitchTables, c: nat, s: nat)
    requires t.Wf() && c < CONTOURS && s < RECORD_WORDS
    ensures c < |t.blocksegs|
    ensures MemOf(t).I32(At32(MEM_PCFG + 0x44 * c + 0x1d38 + 4 * s)) == RecordWords(t.blocksegs[c])[s]
  {
    hide *;
    RecordAddress(c, s);
    RecordWord(t, c, s);
    ReadWord(t, RECORD_WORDS * c + s);
    SmallWord(MemOf(t), RECORDS + 4 * (RECORD_WORDS * c + s), RecordWords(t.blocksegs[c])[s]);
  }

  lemma WordFits(seg: BlockSeg, s: nat)
    requires seg.Wf() && s < RECORD_WORDS
    ensures RecordWords(seg)[s] < 10
  {
    if s < 8 {} else if s < 16 {} else {}
  }

  /** The block, length and count fields of a record. */
  lemma RecordFields(t: PitchTables, c: nat, k: nat)
    requires t.Wf() && c < CONTOURS && k < |t.blocksegs[c].blocks|
    ensures k < |t.blocksegs[c].seglens|
    ensures var ctr, seg := MEM_PCFG + 0x44 * c, t.blocksegs[c];
            && MemOf(t).I32(At32(ctr + 0x1d38 + 4 * k)) == seg.blocks[k]
            && MemOf(t).I32(At32(ctr + 0x1d58 + 4 * k)) == seg.seglens[k]
            && MemOf(t).I32(At32(ctr + 0x1d78)) == |seg.blocks|
  {
    hide MemOf;
    assert t.blocksegs[c].Wf();
    RecordField(t, c, k);
    RecordField(t, c, 8 + k);
    RecordField(t, c, 16);
  }

  /** The header words hold the table addresses. */
  lemma HeaderFields(t: PitchTables)
    requires t.Wf()
    ensures var m := MemOf(t);
            && m.U32(MEM_PCFG + 22240) == CONTOURS && m.U32(MEM_PCFG + 22244) == HDR_CONTOUR_MAP
            && m.U32(MEM_PCFG + 22248) == HDR_LAG_CDF && m.U32(MEM_PCFG + 22252) == HDR_FRAC_BASE
            && m.U32(MEM_PCFG + 22268) == HDR_DELTA_CDF
  {
    hide MemOf, AllRecords;
    var n := RECORD_WORDS * CONTOURS;
    ReadWord(t, n + 1);
    ReadWord(t, n + 2);
    ReadWord(t, n + 3);
    ReadWord(t, n + 4);
    ReadWord(t, n + 8);
  }
}
