/** Where everything lies in an MDF4 file: record layout, the blocks of one channel group, and the
    whole block list with every link already in place. */
module Mdf4Layout {
  import opened Bytes
  import opened Mdf4Blocks

  /** Samples are doubles, kept as opaque 64-bit patterns; names are byte strings. */
  datatype ChannelDesc = ChannelDesc(name: bytes, unit: bytes, dataType: string, data: seq<uint64>)

  datatype ChannelGroup = ChannelGroup(name: bytes, channels: seq<ChannelDesc>, times: seq<uint64>)

  /** The machine's conversions of a double, and its quiet NaN. */
  datatype Casts = Casts(toFloat: uint64 -> uint32, toInt16: uint64 -> uint16, toUint8: uint64 -> byte, nan: uint64)

  datatype CtypeInfo = CtypeInfo(code: byte, size: nat, bits: uint32)

  function Ctype(dataType: string): CtypeInfo
  {
    if dataType == "float64" then CtypeInfo(6, 8, 64)
    else if dataType == "float32" then CtypeInfo(4, 4, 32)
    else if dataType == "int16" then CtypeInfo(2, 2, 16)
    else CtypeInfo(0, 1, 8)
  }

  /** The byte offset of channel i in a record; the time takes the first eight bytes. */
  function Offset(chs: seq<ChannelDesc>, i: nat): (r: nat)
    requires i <= |chs|
    ensures r >= 8
  {
    if i == 0 then 8 else Offset(chs, i - 1) + Ctype(chs[i - 1].dataType).size
  }

  function RecordSize(g: ChannelGroup): nat
  {
    Offset(g.channels, |g.channels|)
  }

  // ---- Records ----

  function Encode(v: uint64, dataType: string, c: Casts): (r: bytes)
    ensures |r| == Ctype(dataType).size
  {
    var code := Ctype(dataType).code;
    if code == 6 then Le(v, 8)
    else if code == 4 then Le(c.toFloat(v), 4)
    else if code == 2 then Le(c.toInt16(v), 2)
    else [c.toUint8(v)]
  }

  /** A channel shorter than the time axis is filled up with NaN. */
  function Sample(ch: ChannelDesc, row: nat, c: Casts): uint64
  {
    if row < |ch.data| then ch.data[row] else c.nan
  }

  /** The time of a row and its first n channels. */
  function Cells(g: ChannelGroup, row: nat, n: nat, c: Casts): (r: bytes)
    requires row < |g.times| && n <= |g.channels|
    ensures |r| == Offset(g.channels, n)
  {
    if n == 0 then Le(g.times[row], 8)
    else Cells(g, row, n - 1, c) + Encode(Sample(g.channels[n - 1], row, c), g.channels[n - 1].dataType, c)
  }

  function Records(g: ChannelGroup, rows: nat, c: Casts): (r: bytes)
    requires rows <= |g.times|
  {
    if rows == 0 then [] else Records(g, rows - 1, c) + Cells(g, rows - 1, |g.channels|, c)
  }

  // ---- Blocks of one group ----

  /** The texts written before the group: its name, the time channel's name and unit, then name
      and unit of each channel. */
  function TextAt(g: ChannelGroup, j: nat): bytes
    requires j < 3 + 2 * |g.channels|
  {
    if j == 0 then g.name
    else if j == 1 then g.name + Ascii(".time_s")
    else if j == 2 then Ascii("s")
    else if j % 2 == 1 then g.channels[(j - 3) / 2].name
    else g.channels[(j - 4) / 2].unit
  }

  function TextCount(g: ChannelGroup): nat
  {
    3 + 2 * |g.channels|
  }

  function Texts(g: ChannelGroup, n: nat): (r: seq<Block>)
    requires n <= TextCount(g)
    ensures |r| == n
  {
    seq(n, j requires 0 <= j < n => TextBlock("##TX", TextAt(g, j)))
  }

  /** The place of text j of a group that starts at p. */
  function TextPos(g: ChannelGroup, p: nat, j: nat): nat
    requires j <= TextCount(g)
  {
    p + Size(Texts(g, j))
  }

  function DgPos(g: ChannelGroup, p: nat): nat
  {
    TextPos(g, p, TextCount(g))
  }

  function CgPos(g: ChannelGroup, p: nat): nat
  {
    DgPos(g, p) + 64
  }

  function CnPos(g: ChannelGroup, p: nat, c: nat): nat
  {
    CgPos(g, p) + 104 + 160 * c
  }

  function DtPos(g: ChannelGroup, p: nat): nat
  {
    CnPos(g, p, |g.channels| + 1)
  }

  function GroupEnd(g: ChannelGroup, p: nat): nat
  {
    DtPos(g, p) + 24 + |g.times| * RecordSize(g)
  }

  function DgBlock(g: ChannelGroup, p: nat, next: nat): Block
  {
    Block("##DG", 64, [next, CgPos(g, p), DtPos(g, p), 0], [0] + Zeros(7))
  }

  function CgData(cycles: nat, recordSize: nat): bytes
  {
    Le(0, 8) + Le(cycles, 8) + Le(0, 2) + Le(0, 2) + Zeros(4) + Le(recordSize, 4) + Le(0, 4)
  }

  /** The record size is computed and stored in 32 bits. */
  function CgBlock(g: ChannelGroup, p: nat): Block
  {
    Block("##CG", 104, [0, CnPos(g, p, 0), TextPos(g, p, 0), 0, 0, 0], CgData(|g.times|, RecordSize(g) % TWO_32))
  }

  datatype Cn = Cn(cnType: byte, sync: byte, code: byte, offset: uint32, bits: uint32)

  /** Channel 0 is the time master. */
  function CnInfo(g: ChannelGroup, c: nat): Cn
    requires c <= |g.channels|
  {
    if c == 0 then Cn(2, 1, 6, 0, 64)
    else
      var t := Ctype(g.channels[c - 1].dataType);
      Cn(0, 0, t.code, Offset(g.channels, c - 1) % TWO_32, t.bits)
  }

  function CnData(i: Cn): bytes
  {
    [i.cnType] + [i.sync] + [i.code] + [0] + Le(i.offset, 4) + Le(i.bits, 4) + Le(0, 4) + Le(0, 4) + [0] + [0]
        + Le(0, 2)
    + Le(0, 8) + Le(0, 8) + Le(0, 8) + Le(0, 8) + Le(0, 8) + Le(0, 8)
  }

  function CnBlock(g: ChannelGroup, p: nat, c: nat, next: nat): Block
    requires c <= |g.channels|
  {
    Block("##CN", 160, [next, 0, TextPos(g, p, 1 + 2 * c), 0, 0, 0, TextPos(g, p, 2 + 2 * c), 0], CnData(CnInfo(g, c)))
  }

  /** The first n channel blocks, chained; the last one links to next. */
  function Cns(g: ChannelGroup, p: nat, n: nat, next: nat): (r: seq<Block>)
    requires n <= |g.channels| + 1
    ensures |r| == n
  {
    if n == 0 then [] else Cns(g, p, n - 1, CnPos(g, p, n - 1)) + [CnBlock(g, p, n - 1, next)]
  }

  /** The stored length is computed from the 32-bit record size. */
  function DtBlock(g: ChannelGroup, c: Casts): Block
  {
    Block("##DT", 24 + |g.times| * (RecordSize(g) % TWO_32), [], Records(g, |g.times|, c))
  }

  function GroupBlocks(g: ChannelGroup, p: nat, next: nat, c: Casts): seq<Block>
  {
    Texts(g, TextCount(g)) + [DgBlock(g, p, next)] + [CgBlock(g, p)] + Cns(g, p, |g.channels| + 1, 0) + [DtBlock(g, c)]
  }

  // ---- The whole file ----

  function IdHead(): (r: bytes)
    ensures |r| == 64
  {
    Ascii("MDF     ") + Ascii("4.10    ") + Ascii("ego-offl") + Zeros(4) + Le(410, 2) + Zeros(34)
  }

  function HdData(t0: uint64): (r: bytes)
    ensures |r| == 32
  {
    Le(t0, 8) + Le(0, 2) + Le(0, 2) + [0] + [0] + [0] + [0] + Le(0, 8) + Le(0, 8)
  }

  function HdBlock(firstDg: nat, t0: uint64): Block
  {
    Block("##HD", 104, [firstDg, 168, 0, 0, 0, 224], HdData(t0))
  }

  function FhData(t0: uint64): (r: bytes)
    ensures |r| == 16
  {
    Le(t0, 8) + Le(0, 2) + Le(0, 2) + [0] + Zeros(3)
  }

  function FhBlock(t0: uint64): Block
  {
    Block("##FH", 56, [0, 224], FhData(t0))
  }

  /** What is written: the groups that have channels and rows. */
  function Kept(groups: seq<ChannelGroup>): seq<ChannelGroup>
  {
    if groups == [] then []
    else
      var n := |groups| - 1;
      var g := groups[n];
      Kept(groups[..n]) + (if g.channels == [] || g.times == [] then [] else [g])
  }

  /** Where group i starts. */
  function Start(gs: seq<ChannelGroup>, i: nat, xml: bytes): nat
    requires i <= |gs|
  {
    if i == 0 then 224 + Extent(TextBlock("##MD", xml)) else GroupEnd(gs[i - 1], Start(gs, i - 1, xml))
  }

  function DgOf(gs: seq<ChannelGroup>, i: nat, xml: bytes): nat
    requires i < |gs|
  {
    DgPos(gs[i], Start(gs, i, xml))
  }

  /** The blocks of the first n groups; the last data group links to next. */
  function Chain(gs: seq<ChannelGroup>, n: nat, next: nat, xml: bytes, c: Casts): seq<Block>
    requires n <= |gs|
  {
    if n == 0 then []
    else Chain(gs, n - 1, DgOf(gs, n - 1, xml), xml, c) + GroupBlocks(gs[n - 1], Start(gs, n - 1, xml), next, c)
  }

  /** The file with n groups written so far. */
  function FileBlocks(gs: seq<ChannelGroup>, n: nat, xml: bytes, t0: uint64, c: Casts): seq<Block>
    requires n <= |gs|
  {
    [HdBlock(if n == 0 then 0 else DgOf(gs, 0, xml), t0)] + [FhBlock(t0)] + [TextBlock("##MD", xml)]
        + Chain(gs, n, 0, xml, c)
  }

  function FileSize(gs: seq<ChannelGroup>, xml: bytes): nat
  {
    Start(gs, |gs|, xml)
  }

  function Image(groups: seq<ChannelGroup>, xml: bytes, t0: uint64, c: Casts): bytes
  {
    var gs := Kept(groups);
    IdHead() + Flat(FileBlocks(gs, |gs|, xml, t0, c))
  }

  // ---- Sizes ----

  lemma {:induction false} SizeOfRecords(g: ChannelGroup, rows: nat, c: Casts)
    requires rows <= |g.times|
    ensures |Records(g, rows, c)| == rows * RecordSize(g)
  {
    hide RecordSize, Cells, Offset;
    if rows == 0 {
    } else {
      SizeOfRecords(g, rows - 1, c);
      SizeOfRow(g, rows - 1, c);
      OneMoreRow(rows - 1, RecordSize(g));
    }
  }

  lemma SizeOfRow(g: ChannelGroup, row: nat, c: Casts)
    requires row < |g.times|
    ensures |Cells(g, row, |g.channels|, c)| == RecordSize(g)
  {}

  lemma OneMoreRow(rows: nat, size: nat)
    ensures (rows + 1) * size == rows * size + size
  {}

  lemma OneMoreText(g: ChannelGroup, n: nat)
    requires n < TextCount(g)
    ensures Texts(g, n + 1) == Texts(g, n) + [TextBlock("##TX", TextAt(g, n))]
  {
    hide TextAt, TextBlock;
  }

  lemma SizeOfTexts(g: ChannelGroup, n: nat)
    requires n < TextCount(g)
    ensures Size(Texts(g, n + 1)) == Size(Texts(g, n)) + Extent(TextBlock("##TX", TextAt(g, n)))
  {
    hide Texts, TextAt, TextBlock, Size, Flat;
    OneMoreText(g, n);
    FlatOfSnoc(Texts(g, n), TextBlock("##TX", TextAt(g, n)));
  }

  lemma {:induction false} TextsGrow(g: ChannelGroup, m: nat, n: nat)
    requires m <= n <= TextCount(g)
    ensures Size(Texts(g, m)) <= Size(Texts(g, n))
  {
    hide Texts, TextAt, TextBlock, Size, Extent;
    if m == n {
    } else {
      TextsGrow(g, m, n - 1);
      SizeOfTexts(g, n - 1);
    }
  }

  lemma CnExtent(g: ChannelGroup, p: nat, c: nat, next: nat)
    requires c <= |g.channels|
    ensures Extent(CnBlock(g, p, c, next)) == 160
  {
    hide CnInfo, TextPos;
  }

  lemma CnsStep(g: ChannelGroup, p: nat, n: nat, next: nat)
    requires 0 < n <= |g.channels| + 1
    ensures Cns(g, p, n, next) == Cns(g, p, n - 1, CnPos(g, p, n - 1)) + [CnBlock(g, p, n - 1, next)]
    ensures Cns(g, p, 0, next) == []
  {
    hide CnBlock, CnPos;
  }

  lemma {:induction false} SizeOfCns(g: ChannelGroup, p: nat, n: nat, next: nat)
    requires n <= |g.channels| + 1
    ensures Size(Cns(g, p, n, next)) == 160 * n
  {
    hide *;
    if n == 0 {
      CnsStep(g, p, 1, next);
      FlatOfNothing();
    } else {
      SizeOfCns(g, p, n - 1, CnPos(g, p, n - 1));
      CnsStep(g, p, n, next);
      FlatOfSnoc(Cns(g, p, n - 1, CnPos(g, p, n - 1)), CnBlock(g, p, n - 1, next));
      CnExtent(g, p, n - 1, next);
    }
  }

  lemma ExtentsInGroup(g: ChannelGroup, p: nat, next: nat, c: Casts)
    ensures Extent(DgBlock(g, p, next)) == 64 && Extent(CgBlock(g, p)) == 104
    ensures Extent(DtBlock(g, c)) == 24 + |g.times| * RecordSize(g)
  {
    hide Records, RecordSize, TextPos, CgData;
    SizeOfRecords(g, |g.times|, c);
    CgDataSize(|g.times|, RecordSize(g) % TWO_32);
  }

  lemma SizeOfGroup(g: ChannelGroup, p: nat, next: nat, c: Casts)
    ensures p + Size(GroupBlocks(g, p, next, c)) == GroupEnd(g, p)
  {
    hide Texts, Cns, Size, Flat, RecordSize, DgBlock, CgBlock, DtBlock, Extent;
    var t, dg, cg, cns, dt := Texts(g, TextCount(g)), DgBlock(g, p, next), CgBlock(g, p),
        Cns(g, p, |g.channels| + 1, 0), DtBlock(g, c);
    SizeOfCns(g, p, |g.channels| + 1, 0);
    FlatOfSnoc(t, dg);
    FlatOfSnoc(t + [dg], cg);
    FlatOfConcat(t + [dg] + [cg], cns);
    FlatOfSnoc(t + [dg] + [cg] + cns, dt);
    ExtentsInGroup(g, p, next, c);
  }

  lemma CgDataSize(cycles: nat, recordSize: nat)
    ensures |CgData(cycles, recordSize)| == 32
  {}

  lemma {:induction false} SizeOfChain(gs: seq<ChannelGroup>, n: nat, next: nat, xml: bytes, c: Casts)
    requires n <= |gs|
    ensures Start(gs, 0, xml) + Size(Chain(gs, n, next, xml, c)) == Start(gs, n, xml)
  {
    hide GroupBlocks, GroupEnd, DgOf, Size, Flat;
    FlatOfNothing();
    if n == 0 {
    } else {
      var before := Chain(gs, n - 1, DgOf(gs, n - 1, xml), xml, c);
      SizeOfChain(gs, n - 1, DgOf(gs, n - 1, xml), xml, c);
      FlatOfConcat(before, GroupBlocks(gs[n - 1], Start(gs, n - 1, xml), next, c));
      SizeOfGroup(gs[n - 1], Start(gs, n - 1, xml), next, c);
    }
  }

  lemma SizeOfFront(firstDg: nat, xml: bytes, t0: uint64)
    ensures Size([HdBlock(firstDg, t0)] + [FhBlock(t0)] + [TextBlock("##MD", xml)])
            == 160 + Extent(TextBlock("##MD", xml))
  {
    hide TextBlock;
    var hd, fh, md := HdBlock(firstDg, t0), FhBlock(t0), TextBlock("##MD", xml);
    SizeOfOne(hd);
    FlatOfSnoc([hd], fh);
    FlatOfSnoc([hd] + [fh], md);
  }

  lemma SizeOfFile(gs: seq<ChannelGroup>, n: nat, xml: bytes, t0: uint64, c: Casts)
    requires n <= |gs|
    ensures 64 + Size(FileBlocks(gs, n, xml, t0, c)) == Start(gs, n, xml)
  {
    hide Chain, HdBlock, FhBlock, TextBlock;
    var first := if n == 0 then 0 else DgOf(gs, 0, xml);
    SizeOfFront(first, xml, t0);
    SizeOfChain(gs, n, 0, xml, c);
    FlatOfConcat([HdBlock(first, t0)] + [FhBlock(t0)] + [TextBlock("##MD", xml)], Chain(gs, n, 0, xml, c));
  }

  lemma {:induction false} StartsGrow(gs: seq<ChannelGroup>, i: nat, j: nat, xml: bytes)
    requires i <= j <= |gs|
    ensures Start(gs, i, xml) <= Start(gs, j, xml)
  {
    hide GroupEnd;
    if i == j {
    } else {
      StartsGrow(gs, i, j - 1, xml);
      GroupEndsLater(gs[j - 1], Start(gs, j - 1, xml));
    }
  }

  lemma GroupEndsLater(g: ChannelGroup, p: nat)
    ensures p <= DgPos(g, p) && DtPos(g, p) + 24 <= GroupEnd(g, p)
  {
    hide TextPos, RecordSize;
    TextsEndLater(g, p);
    Products(|g.times|, RecordSize(g));
  }

  lemma RowsFit(g: ChannelGroup, p: nat)
    ensures |g.times| <= GroupEnd(g, p)
  {
    hide DtPos;
    RecordIsLong(g);
    ProductOrder(|g.times|, 1, RecordSize(g));
  }

  lemma RecordIsLong(g: ChannelGroup)
    ensures RecordSize(g) >= 8
  {}

  lemma TextsEndLater(g: ChannelGroup, p: nat)
    ensures p <= TextPos(g, p, TextCount(g))
  {}

  lemma Products(a: nat, b: nat)
    ensures 0 <= a * b
  {}

  /** The layout of a group does not depend on the groups after it. */
  lemma {:induction false} StartOfPrefix(gs: seq<ChannelGroup>, more: seq<ChannelGroup>, i: nat, xml: bytes)
    requires i <= |gs|
    ensures Start(gs + more, i, xml) == Start(gs, i, xml)
    ensures i < |gs| ==> DgOf(gs + more, i, xml) == DgOf(gs, i, xml)
  {
    hide GroupEnd, DgPos;
    if i == 0 {
    } else {
      StartOfPrefix(gs, more, i - 1, xml);
    }
  }

  lemma {:induction false} ChainOfPrefix(gs: seq<ChannelGroup>, more: seq<ChannelGroup>, n: nat, next: nat,
      xml: bytes, c: Casts)
    requires n <= |gs|
    ensures Chain(gs + more, n, next, xml, c) == Chain(gs, n, next, xml, c)
  {
    hide GroupBlocks, Start, DgOf;
    if n == 0 {
    } else {
      StartOfPrefix(gs, more, n - 1, xml);
      ChainOfPrefix(gs, more, n - 1, DgOf(gs, n - 1, xml), xml, c);
    }
  }
}
