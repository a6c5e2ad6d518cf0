/** `build_mdf4`: the blocks are written one after the other, interleaved with the data, and the
    links are patched as soon as their targets are known. */
module Mdf4Builder {
  import opened Bytes
  import opened Mdf4Blocks
  import opened Mdf4Layout

  /** Byte offsets of the time and of each channel, and the record size, all in 32 bits. */
  method MakeLayout(g: ChannelGroup) returns (offsets: seq<uint32>, recSize: uint32)
    ensures |offsets| == |g.channels| + 1 && offsets[0] == 0
    ensures forall i :: 0 <= i < |g.channels| ==> offsets[i + 1] == Offset(g.channels, i) % TWO_32
    ensures recSize == RecordSize(g) % TWO_32
  {
    hide Offset, Ctype;
    var off: uint32 := 0;
    offsets := [off];
    off := 8;
    FirstOffset(g.channels);
    for i := 0 to |g.channels|
      invariant |offsets| == i + 1 && offsets[0] == 0
      invariant forall k :: 0 <= k < i ==> offsets[k + 1] == Offset(g.channels, k) % TWO_32
      invariant off == Offset(g.channels, i) % TWO_32
    {
      offsets := offsets + [off];
      NextOffset(g.channels, i);
      off := (off + Ctype(g.channels[i].dataType).size) % TWO_32;
    }
    recSize := off;
  }

  lemma FirstOffset(chs: seq<ChannelDesc>)
    ensures Offset(chs, 0) == 8
  {}

  lemma NextOffset(chs: seq<ChannelDesc>, i: nat)
    requires i < |chs|
    ensures Offset(chs, i + 1) == Offset(chs, i) + Ctype(chs[i].dataType).size
    ensures Offset(chs, i + 1) % TWO_32 == (Offset(chs, i) % TWO_32 + Ctype(chs[i].dataType).size) % TWO_32
  {}

  // ---- Slots in a list of blocks ----

  lemma MidLink(a: seq<Block>, x: Block, r: seq<Block>, k: nat, v: nat)
    requires k < |x.links|
    ensures (a + [x] + r)[|a|] == x && (a + [x] + r)[..|a|] == a
    ensures SetLink(a + [x] + r, |a|, k, v) == a + [x.(links := x.links[k := v])] + r
  {}

  lemma LastLink(a: seq<Block>, x: Block, k: nat, v: nat)
    requires k < |x.links|
    ensures (a + [x])[|a|] == x && (a + [x])[..|a|] == a
    ensures SetLink(a + [x], |a|, k, v) == a + [x.(links := x.links[k := v])]
  {}

  lemma SetLinkInFront(a: seq<Block>, b: seq<Block>, i: nat, k: nat, v: nat)
    requires i < |a| && k < |a[i].links|
    ensures (a + b)[i] == a[i] && (a + b)[..i] == a[..i]
    ensures SetLink(a + b, i, k, v) == SetLink(a, i, k, v) + b
  {}

  // ---- Channel blocks ----

  function FreshCn(txName: nat, txUnit: nat, info: Cn): Block
  {
    Block("##CN", 160, [0, 0, txName, 0, 0, 0, txUnit, 0], CnData(info))
  }

  lemma FreshCnLinks(txName: nat, txUnit: nat)
    ensures NoLinks(8)[2 := txName][6 := txUnit] == [0, 0, txName, 0, 0, 0, txUnit, 0]
  {}

  /** The closure `write_cn`; slot is the link slot of the block the new one is chained to. */
  method WriteCn(b: Buf, txName: uint64, txUnit: uint64, info: Cn, slot: nat, ghost si: nat, ghost sk: nat)
    returns (cnLp: nat)
    requires b.Valid() && b.run == [] && |b.d| + 160 < TWO_64
    requires si < |b.blocks| && sk < |b.blocks[si].links|
    requires slot == |b.head| + Size(b.blocks[..si]) + 24 + 8 * sk
    modifies b
    ensures b.Valid() && b.run == [] && b.head == old(b.head)
    ensures b.blocks == old(SetLink(b.blocks, si, sk, |b.d|)) + [FreshCn(txName, txUnit, info)]
    ensures cnLp == old(|b.d|) + 24 && |b.d| == old(|b.d|) + 160
  {
    hide Flat, Size, CnData, SetLink, NoLinks, Le;
    ghost var a := b.blocks;
    var cnPos := |b.d|;
    BufLength(b);
    cnLp := b.BlkHdr("##CN", 160, 8);
    ghost var x := Block("##CN", 160, NoLinks(8), []);
    LastLink(a, x, 2, txName);
    b.Patch64(cnLp + 16, txName, |a|, 2);
    ghost var y := x.(links := x.links[2 := txName]);
    LastLink(a, y, 6, txUnit);
    b.Patch64(cnLp + 48, txUnit, |a|, 6);
    ghost var z := y.(links := y.links[6 := txUnit]);
    SetLinkInFront(a, [z], si, sk, cnPos);
    b.Patch64(slot, cnPos, si, sk);
    WriteCnData(b, info);
    AppendToNew(SetLink(a, si, sk, cnPos), z, CnData(info));
    FreshCnLinks(txName, txUnit);
  }

  lemma BufLength(b: Buf)
    requires b.Valid()
    ensures |b.d| == |b.head| + Size(b.blocks) + |b.run|
  {
    hide Flat, Size;
  }

  lemma CnDataSize(info: Cn)
    ensures |CnData(info)| == 72
  {}

  method WriteCnData(b: Buf, info: Cn)
    requires b.Valid() && b.run == [] && b.blocks != []
    modifies b
    ensures b.Valid() && b.run == [] && b.head == old(b.head)
    ensures b.blocks == AppendData(old(b.blocks), CnData(info)) && |b.d| == old(|b.d|) + 72
  {
    hide Flat, AppendData, Le;
    b.U8(info.cnType);
    b.U8(info.sync);
    b.U8(info.code);
    b.U8(0);
    b.U32(info.offset);
    b.U32(info.bits);
    b.U32(0);
    b.U32(0);
    b.U8(0);
    b.U8(0);
    b.U16(0);
    b.U64(0);
    b.U64(0);
    b.U64(0);
    b.U64(0);
    b.U64(0);
    b.U64(0);
    StartOfRun([info.cnType]);
    assert b.run == CnData(info);
    b.Account();
  }

  lemma StartOfRun(s: bytes)
    ensures [] + s == s
  {}

  lemma LastBlockAt(b: Buf, a: seq<Block>, x: Block)
    requires b.Valid() && b.run == [] && b.blocks == a + [x]
    ensures |b.d| == |b.head| + Size(a) + Extent(x)
  {
    hide Flat, Size, Extent;
    BufLength(b);
    FlatOfSnoc(a, x);
  }

  lemma CnsStep(g: ChannelGroup, p: nat, n: nat, next: nat)
    requires n <= |g.channels|
    ensures Cns(g, p, n + 1, next) == Cns(g, p, n, CnPos(g, p, n)) + [CnBlock(g, p, n, next)]
  {}

  lemma CnFacts(g: ChannelGroup, p: nat, i: nat, v: nat)
    requires i <= |g.channels|
    ensures Extent(CnBlock(g, p, i, v)) == 160 && |CnBlock(g, p, i, 0).links| == 8
    ensures CnBlock(g, p, i, 0).(links := CnBlock(g, p, i, 0).links[0 := v]) == CnBlock(g, p, i, v)
  {
    hide CnData, TextPos, CnInfo;
    CnDataSize(CnInfo(g, i));
  }

  lemma FirstCn(g: ChannelGroup, p: nat)
    ensures FreshCn(TextPos(g, p, 1), TextPos(g, p, 2), Cn(2, 1, 6, 0, 64)) == CnBlock(g, p, 0, 0)
    ensures Cns(g, p, 1, 0) == [CnBlock(g, p, 0, 0)]
  {
    hide CnData, TextPos;
    CnsStep(g, p, 0, 0);
  }

  lemma NextCn(g: ChannelGroup, p: nat, i: nat)
    requires i < |g.channels|
    ensures var t := Ctype(g.channels[i].dataType);
            FreshCn(TextPos(g, p, 3 + 2 * i), TextPos(g, p, 4 + 2 * i),
                Cn(0, 0, t.code, Offset(g.channels, i) % TWO_32, t.bits))
              == CnBlock(g, p, i + 1, 0)
  {
    hide CnData, TextPos, Offset, Ctype;
  }

  lemma JoinBlocks(a: seq<Block>, b: seq<Block>, c: seq<Block>)
    ensures a + b + c == a + (b + c)
  {}

  /** The time master and the channels, chained from the channel group block. */
  method WriteChannels(b: Buf, g: ChannelGroup, offsets: seq<uint32>, txTimeName: uint64, txTimeUnit: uint64,
                       txChName: seq<uint64>, txChUnit: seq<uint64>, cgLp: nat,
                       ghost p: nat, ghost a: seq<Block>, ghost cg: Block)
    requires b.Valid() && b.run == [] && b.blocks == a + [cg]
    requires |cg.links| == 6 && cg.links[1] == 0
    requires |b.d| == CnPos(g, p, 0) && DtPos(g, p) < TWO_64
    requires cgLp == |b.head| + Size(a) + 24
    requires |offsets| == |g.channels| + 1 && forall i :: 0 <= i < |g.channels| ==>
             offsets[i + 1] == Offset(g.channels, i) % TWO_32
    requires txTimeName == TextPos(g, p, 1) && txTimeUnit == TextPos(g, p, 2)
    requires |txChName| == |txChUnit| == |g.channels|
    requires forall i :: 0 <= i < |g.channels| ==>
               txChName[i] == TextPos(g, p, 3 + 2 * i) && txChUnit[i] == TextPos(g, p, 4 + 2 * i)
    modifies b
    ensures b.Valid() && b.run == [] && b.head == old(b.head)
    ensures b.blocks == a + [cg.(links := cg.links[1 := CnPos(g, p, 0)])] + Cns(g, p, |g.channels| + 1, 0)
    ensures |b.d| == DtPos(g, p)
  {
    hide Flat, Size, Extent, TextPos, CgPos, CnBlock, CnInfo, CnData, Offset, SetLink, FreshCn, Cns;
    LastLink(a, cg, 1, CnPos(g, p, 0));
    FirstCn(g, p);
    CnFacts(g, p, 0, 0);
    var prevCnLp := WriteCn(b, txTimeName, txTimeUnit, Cn(2, 1, 6, 0, 64), cgLp + 8, |a|, 1);
    ghost var base := a + [cg.(links := cg.links[1 := CnPos(g, p, 0)])];
    for i := 0 to |g.channels|
      invariant b.Valid() && b.run == [] && b.head == old(b.head)
      invariant b.blocks == base + Cns(g, p, i + 1, 0)
      invariant prevCnLp == CnPos(g, p, i) + 24 && |b.d| == CnPos(g, p, i + 1)
    {
      var t := Ctype(g.channels[i].dataType);
      ghost var before := base + Cns(g, p, i, CnPos(g, p, i));
      ghost var last := CnBlock(g, p, i, 0);
      CnsStep(g, p, i, 0);
      CnFacts(g, p, i, 0);
      JoinBlocks(base, Cns(g, p, i, CnPos(g, p, i)), [last]);
      LastBlockAt(b, before, last);
      LastLink(before, last, 0, |b.d|);
      NextCn(g, p, i);
      prevCnLp := WriteCn(b, txChName[i], txChUnit[i], Cn(0, 0, t.code, offsets[i + 1], t.bits), prevCnLp, |before|, 0);
      CnFacts(g, p, i, CnPos(g, p, i + 1));
      CnsStep(g, p, i, CnPos(g, p, i + 1));
      CnsStep(g, p, i + 1, 0);
      JoinBlocks(base, Cns(g, p, i, CnPos(g, p, i)), [CnBlock(g, p, i, CnPos(g, p, i + 1))]);
      JoinBlocks(base, Cns(g, p, i + 1, CnPos(g, p, i + 1)), [CnBlock(g, p, i + 1, 0)]);
    }
  }

  // ---- One group ----

  method WriteTexts(b: Buf, g: ChannelGroup)
    returns (txCg: uint64, txTimeName: uint64, txTimeUnit: uint64, txChName: seq<uint64>, txChUnit: seq<uint64>)
    requires b.Valid() && b.run == [] && DgPos(g, |b.d|) < TWO_64
    modifies b
    ensures b.Valid() && b.run == [] && b.head == old(b.head)
    ensures b.blocks == old(b.blocks) + Texts(g, TextCount(g)) && |b.d| == DgPos(g, old(|b.d|))
    ensures txCg == old(|b.d|) && txTimeName == TextPos(g, old(|b.d|), 1) && txTimeUnit == TextPos(g, old(|b.d|), 2)
    ensures |txChName| == |txChUnit| == |g.channels|
    ensures forall i :: 0 <= i < |g.channels| ==>
              txChName[i] == TextPos(g, old(|b.d|), 3 + 2 * i) && txChUnit[i] == TextPos(g, old(|b.d|), 4 + 2 * i)
  {
    hide Flat, Size, TextBlock, Extent;
    ghost var p := |b.d|;
    ghost var a := b.blocks;
    NoTexts(g, p);
    txCg := WriteText(b, g, 0, g.name, p, a);
    txTimeName := WriteText(b, g, 1, g.name + Ascii(".time_s"), p, a);
    txTimeUnit := WriteText(b, g, 2, Ascii("s"), p, a);
    txChName, txChUnit := [], [];
    for i := 0 to |g.channels|
      invariant b.Valid() && b.run == [] && b.head == old(b.head)
      invariant b.blocks == a + Texts(g, 3 + 2 * i) && |b.d| == TextPos(g, p, 3 + 2 * i)
      invariant |txChName| == |txChUnit| == i
      invariant forall k :: 0 <= k < i ==>
                  txChName[k] == TextPos(g, p, 3 + 2 * k) && txChUnit[k] == TextPos(g, p, 4 + 2 * k)
    {
      var name := WriteText(b, g, 3 + 2 * i, g.channels[i].name, p, a);
      var unit := WriteText(b, g, 4 + 2 * i, g.channels[i].unit, p, a);
      txChName := txChName + [name];
      txChUnit := txChUnit + [unit];
    }
  }

  lemma NoTexts(g: ChannelGroup, p: nat)
    ensures TextPos(g, p, 0) == p && Texts(g, 0) == []
  {}

  method WriteText(b: Buf, g: ChannelGroup, ghost j: nat, text: bytes, ghost p: nat, ghost a: seq<Block>)
      returns (start: uint64)
    requires b.Valid() && b.run == [] && j < TextCount(g) && text == TextAt(g, j)
    requires b.blocks == a + Texts(g, j) && |b.d| == TextPos(g, p, j) && DgPos(g, p) < TWO_64
    modifies b
    ensures b.Valid() && b.run == [] && b.head == old(b.head)
    ensures b.blocks == a + Texts(g, j + 1) && |b.d| == TextPos(g, p, j + 1) && start == TextPos(g, p, j)
  {
    hide Flat, Size, TextBlock, Extent, Texts, TextAt;
    TextsGrow(g, j + 1, TextCount(g));
    SizeOfTexts(g, j);
    OneMoreText(g, j);
    JoinBlocks(a, Texts(g, j), [TextBlock("##TX", text)]);
    start := b.TextBlk("##TX", text);
  }

  function FreshDg(): Block
  {
    Block("##DG", 64, [0, 0, 0, 0], [0] + Zeros(7))
  }

  lemma FreshDgLinks()
    ensures NoLinks(4) == [0, 0, 0, 0]
  {}

  /** The data group block, and the link to it from the file header or the previous group. */
  method WriteDg(b: Buf, slot: nat, ghost si: nat) returns (dgLp: nat)
    requires b.Valid() && b.run == [] && |b.d| + 64 < TWO_64
    requires si < |b.blocks| && 0 < |b.blocks[si].links| && slot == |b.head| + Size(b.blocks[..si]) + 24
    modifies b
    ensures b.Valid() && b.run == [] && b.head == old(b.head)
    ensures b.blocks == old(SetLink(b.blocks, si, 0, |b.d|)) + [FreshDg()]
    ensures dgLp == old(|b.d|) + 24 && |b.d| == old(|b.d|) + 64
  {
    hide Flat, Size, SetLink, Le;
    ghost var a := b.blocks;
    var dgPos := |b.d|;
    dgLp := b.BlkHdr("##DG", 64, 4);
    ghost var x := Block("##DG", 64, NoLinks(4), []);
    b.U8(0);
    b.PushZeros(7);
    StartOfRun([0]);
    AppendToNew(a, x, [0] + Zeros(7));
    b.Account();
    FreshDgLinks();
    SetLinkInFront(a, [FreshDg()], si, 0, dgPos);
    b.Patch64(slot, dgPos, si, 0);
  }

  function FreshCg(txCg: nat, cycles: nat, recSize: nat): Block
  {
    Block("##CG", 104, [0, 0, txCg, 0, 0, 0], CgData(cycles, recSize))
  }

  method WriteCg(b: Buf, txCg: uint64, dgLp: nat, cycles: uint64, recSize: uint32, ghost a: seq<Block>)
      returns (cgLp: nat)
    requires b.Valid() && b.run == [] && b.blocks == a + [FreshDg()] && |b.d| + 104 < TWO_64
    requires dgLp == |b.head| + Size(a) + 24
    modifies b
    ensures b.Valid() && b.run == [] && b.head == old(b.head)
    ensures b.blocks == a + [FreshDg().(links := [0, old(|b.d|), 0, 0])] + [FreshCg(txCg, cycles, recSize)]
    ensures cgLp == old(|b.d|) + 24 && |b.d| == old(|b.d|) + 104
  {
    hide Flat, Size, SetLink, Le, CgData;
    ghost var before := b.blocks;
    var cgPos := |b.d|;
    LastBlockAt(b, a, FreshDg());
    BufLength(b);
    cgLp := b.BlkHdr("##CG", 104, 6);
    ghost var x := Block("##CG", 104, NoLinks(6), []);
    LastLink(before, x, 2, txCg);
    b.Patch64(cgLp + 16, txCg, |before|, 2);
    ghost var y := Block("##CG", 104, [0, 0, txCg, 0, 0, 0], []);
    assert x.(links := x.links[2 := txCg]) == y;
    MidLink(a, FreshDg(), [y], 1, cgPos);
    JoinBlocks(a, [FreshDg()], [y]);
    b.Patch64(dgLp + 8, cgPos, |a|, 1);
    assert FreshDg().links[1 := cgPos] == [0, cgPos, 0, 0];
    ghost var dg := FreshDg().(links := [0, cgPos, 0, 0]);
    AppendToNew(a + [dg], y, CgData(cycles, recSize));
    WriteCgData(b, cycles, recSize);
  }

  method WriteCgData(b: Buf, cycles: uint64, recSize: uint32)
    requires b.Valid() && b.run == [] && b.blocks != []
    modifies b
    ensures b.Valid() && b.run == [] && b.head == old(b.head)
    ensures b.blocks == AppendData(old(b.blocks), CgData(cycles, recSize)) && |b.d| == old(|b.d|) + 32
  {
    hide Flat, AppendData, Le;
    b.U64(0);
    b.U64(cycles);
    b.U16(0);
    b.U16(0);
    b.PushZeros(4);
    b.U32(recSize);
    b.U32(0);
    StartOfRun(Le(0, 8));
    assert b.run == CgData(cycles, recSize);
    b.Account();
  }

  /** One cell, encoded by the channel's type. */
  method WriteCell(b: Buf, v: uint64, dataType: string, c: Casts)
    requires b.Valid()
    modifies b`d, b`run
    ensures b.Valid() && b.run == old(b.run) + Encode(v, dataType, c)
    ensures |b.d| == old(|b.d|) + Ctype(dataType).size
  {
    hide Flat, Le;
    var code := Ctype(dataType).code;
    if code == 6 {
      b.U64(v);
    } else if code == 4 {
      b.U32(c.toFloat(v));
    } else if code == 2 {
      b.U16(c.toInt16(v));
    } else {
      b.U8(c.toUint8(v));
    }
  }

  method WriteRow(b: Buf, g: ChannelGroup, row: nat, c: Casts)
    requires b.Valid() && row < |g.times|
    modifies b`d, b`run
    ensures b.Valid() && b.run == old(b.run) + Cells(g, row, |g.channels|, c)
    ensures |b.d| == old(|b.d|) + RecordSize(g)
  {
    hide Flat, Le, Encode, Ctype;
    ghost var run := b.run;
    b.U64(g.times[row]);
    for ci := 0 to |g.channels|
      invariant b.Valid() && b.run == run + Cells(g, row, ci, c) && |b.d| == old(|b.d|) + Offset(g.channels, ci)
    {
      var ch := g.channels[ci];
      var val := if row < |ch.data| then ch.data[row] else c.nan;
      WriteCell(b, val, ch.dataType, c);
      AddAssoc(run, Cells(g, row, ci, c), Encode(val, ch.dataType, c));
    }
  }

  method WriteRows(b: Buf, g: ChannelGroup, c: Casts)
    requires b.Valid() && b.run == []
    modifies b`d, b`run
    ensures b.Valid() && b.run == Records(g, |g.times|, c) && |b.d| == old(|b.d|) + |g.times| * RecordSize(g)
  {
    hide Flat, Cells, RecordSize;
    for row := 0 to |g.times|
      invariant b.Valid() && b.run == Records(g, row, c) && |b.d| == old(|b.d|) + row * RecordSize(g)
    {
      OneMoreRow(row, RecordSize(g));
      WriteRow(b, g, row, c);
    }
  }

  lemma StoredLengthFits(n: nat, r: nat)
    ensures n * (r % TWO_32) <= n * r
  {
    ProductOrder(n, r % TWO_32, r);
  }

  method WriteDt(b: Buf, g: ChannelGroup, c: Casts, recSize: uint32, dgLp: nat, ghost a: seq<Block>, ghost dg: Block,
      ghost r: seq<Block>)
    requires b.Valid() && b.run == [] && b.blocks == a + [dg] + r && |dg.links| == 4
    requires dgLp == |b.head| + Size(a) + 24
    requires |b.d| + 24 + |g.times| * RecordSize(g) < TWO_64 && recSize == RecordSize(g) % TWO_32
    modifies b
    ensures b.Valid() && b.run == [] && b.head == old(b.head)
    ensures b.blocks == a + [dg.(links := dg.links[2 := old(|b.d|)])] + r + [DtBlock(g, c)]
    ensures |b.d| == old(|b.d|) + 24 + |g.times| * RecordSize(g)
  {
    hide Flat, Size, SetLink, Records, RecordSize;
    var dtPos := |b.d|;
    StoredLengthFits(|g.times|, RecordSize(g));
    var dtLen := 24 + |g.times| * recSize;
    var lp := b.BlkHdr("##DT", dtLen, 0);
    assert NoLinks(0) == [];
    ghost var x := Block("##DT", dtLen, [], []);
    MidLink(a, dg, r + [x], 2, dtPos);
    JoinBlocks(a + [dg], r, [x]);
    b.Patch64(dgLp + 16, dtPos, |a|, 2);
    ghost var dg' := dg.(links := dg.links[2 := dtPos]);
    JoinBlocks(a + [dg'], r, [x]);
    WriteRows(b, g, c);
    AppendToNew(a + [dg'] + r, x, Records(g, |g.times|, c));
    b.Account();
  }

  /** One group: texts, DG, CG, CN chain, DT. slot is the link that must lead to the DG. */
  method WriteGroup(b: Buf, g: ChannelGroup, c: Casts, slot: nat, ghost si: nat) returns (dgLp: nat)
    requires b.Valid() && b.run == []
    requires si < |b.blocks| && 0 < |b.blocks[si].links| && slot == |b.head| + Size(b.blocks[..si]) + 24
    requires GroupEnd(g, |b.d|) < TWO_64
    modifies b
    ensures b.Valid() && b.run == [] && b.head == old(b.head)
    ensures b.blocks == old(SetLink(b.blocks, si, 0, DgPos(g, |b.d|)) + GroupBlocks(g, |b.d|, 0, c))
    ensures |b.d| == GroupEnd(g, old(|b.d|)) && dgLp == DgPos(g, old(|b.d|)) + 24
  {
    hide Flat, Size, SetLink, Records, RecordSize, CgData, Texts, Cns, TextPos, Offset;
    ghost var p := |b.d|;
    ghost var a := b.blocks;
    GroupEndsLater(g, p);
    RowsFit(g, p);
    var txCg, txTimeName, txTimeUnit, txChName, txChUnit := WriteTexts(b, g);
    var offsets, recSize := MakeLayout(g);
    ghost var texts := Texts(g, TextCount(g));
    SetLinkInFront(a, texts, si, 0, DgPos(g, p));
    dgLp := WriteDg(b, slot, si);
    ghost var front := SetLink(a, si, 0, DgPos(g, p)) + texts;
    LastBlockAt(b, front, FreshDg());
    var cgLp := WriteCg(b, txCg, dgLp, |g.times|, recSize, front);
    ghost var dg1 := FreshDg().(links := [0, CgPos(g, p), 0, 0]);
    ghost var cg0 := FreshCg(txCg, |g.times|, recSize);
    LastBlockAt(b, front + [dg1], cg0);
    CgFacts(g, p, txCg, |g.times|, recSize);
    WriteChannels(b, g, offsets, txTimeName, txTimeUnit, txChName, txChUnit, cgLp, p, front + [dg1], cg0);
    ghost var cns := Cns(g, p, |g.channels| + 1, 0);
    ghost var cg := CgBlock(g, p);
    JoinBlocks(front + [dg1], [cg], cns);
    WriteDt(b, g, c, recSize, dgLp, front, dg1, [cg] + cns);
    DgFacts(g, p);
    JoinGroup(SetLink(a, si, 0, DgPos(g, p)), texts, [DgBlock(g, p, 0)], [cg], cns, [DtBlock(g, c)]);
  }

  lemma CgFacts(g: ChannelGroup, p: nat, txCg: nat, cycles: nat, recSize: nat)
    requires txCg == p && cycles == |g.times| && recSize == RecordSize(g) % TWO_32
    ensures Extent(FreshCg(txCg, cycles, recSize)) == 104
    ensures FreshCg(txCg, cycles, recSize).(links := FreshCg(txCg, cycles, recSize).links[1 := CnPos(g, p, 0)])
            == CgBlock(g, p)
  {
    hide CgData, CnPos, RecordSize;
    CgDataSize(cycles, recSize);
    NoTexts(g, p);
  }

  lemma DgFacts(g: ChannelGroup, p: nat)
    ensures FreshDg().(links := [0, CgPos(g, p), 0, 0][2 := DtPos(g, p)]) == DgBlock(g, p, 0)
  {
    hide DgPos, CnPos;
  }

  lemma JoinGroup(a: seq<Block>, t: seq<Block>, dg: seq<Block>, cg: seq<Block>, cns: seq<Block>, dt: seq<Block>)
    ensures a + t + dg + (cg + cns) + dt == a + (t + dg + cg + cns + dt)
  {}

  // ---- The slot the next group is linked from ----

  function Front(firstDg: nat, xml: bytes, t0: uint64): seq<Block>
  {
    [HdBlock(firstDg, t0)] + [FhBlock(t0)] + [TextBlock("##MD", xml)]
  }

  /** The data group link of the last group, or the first link of the file header. */
  lemma NextSlot(gs: seq<ChannelGroup>, n: nat, v: nat, xml: bytes, t0: uint64, c: Casts) returns (si: nat)
    requires n <= |gs|
    ensures var blocks := FileBlocks(gs, n, xml, t0, c);
            && si < |blocks| && 0 < |blocks[si].links|
            && 64 + Size(blocks[..si]) + 24 == (if n == 0 then 88 else DgOf(gs, n - 1, xml) + 24)
            && SetLink(blocks, si, 0, v) == Front(if n == 0 then v else DgOf(gs, 0, xml), xml, t0)
               + Chain(gs, n, v, xml, c)
  {
    hide Size, Flat, HdBlock, FhBlock, TextBlock, GroupEnd, Texts, Cns, DtBlock, CgBlock, Start;
    if n == 0 {
      si := 0;
      var hd := HdBlock(0, t0);
      HdLinks(0, v, t0);
      var rest := [FhBlock(t0)] + [TextBlock("##MD", xml)];
      JoinBlocks([hd], [FhBlock(t0)], [TextBlock("##MD", xml)]);
      JoinBlocks([HdBlock(v, t0)], [FhBlock(t0)], [TextBlock("##MD", xml)]);
      MidLink([], hd, rest, 0, v);
      FlatOfNothing();
      assert FileBlocks(gs, 0, xml, t0, c) == [] + [hd] + rest;
      assert FileBlocks(gs, 0, xml, t0, c)[..0] == [];
      assert Front(v, xml, t0) + Chain(gs, 0, v, xml, c) == [] + [HdBlock(v, t0)] + rest;
    } else {
      var g, p := gs[n - 1], Start(gs, n - 1, xml);
      var before := Front(DgOf(gs, 0, xml), xml, t0) + Chain(gs, n - 1, DgOf(gs, n - 1, xml), xml, c);
      var texts := Texts(g, TextCount(g));
      var rest := [CgBlock(g, p)] + Cns(g, p, |g.channels| + 1, 0) + [DtBlock(g, c)];
      si := |before + texts|;
      SplitAtDg(gs, n, 0, xml, t0, c);
      SplitAtDg(gs, n, v, xml, t0, c);
      MidLink(before + texts, DgBlock(g, p, 0), rest, 0, v);
      DgLink(g, p, v);
      SizeOfFront(DgOf(gs, 0, xml), xml, t0);
      SizeOfChain(gs, n - 1, DgOf(gs, n - 1, xml), xml, c);
      FlatOfConcat(Front(DgOf(gs, 0, xml), xml, t0), Chain(gs, n - 1, DgOf(gs, n - 1, xml), xml, c));
      FlatOfConcat(before, texts);
      StartOfFirst(gs, xml);
    }
  }

  lemma StartOfFirst(gs: seq<ChannelGroup>, xml: bytes)
    ensures Start(gs, 0, xml) == 224 + Extent(TextBlock("##MD", xml))
  {}

  lemma HdLinks(u: nat, v: nat, t0: uint64)
    ensures |HdBlock(u, t0).links| == 6 && HdBlock(u, t0).(links := HdBlock(u, t0).links[0 := v]) == HdBlock(v, t0)
  {
    hide HdData;
    assert HdBlock(u, t0).links[0 := v] == HdBlock(v, t0).links;
  }

  lemma DgLink(g: ChannelGroup, p: nat, v: nat)
    ensures |DgBlock(g, p, 0).links| == 4 && DgBlock(g, p, 0).(links := DgBlock(g, p, 0).links[0 := v])
            == DgBlock(g, p, v)
  {
    hide CgPos, DtPos;
  }

  lemma SplitAtDg(gs: seq<ChannelGroup>, n: nat, v: nat, xml: bytes, t0: uint64, c: Casts)
    requires 0 < n <= |gs|
    ensures var g, p := gs[n - 1], Start(gs, n - 1, xml);
            var before := Front(DgOf(gs, 0, xml), xml, t0) + Chain(gs, n - 1, DgOf(gs, n - 1, xml), xml, c);
            Front(DgOf(gs, 0, xml), xml, t0) + Chain(gs, n, v, xml, c) ==
              before + Texts(g, TextCount(g)) + [DgBlock(g, p, v)]
                  + ([CgBlock(g, p)] + Cns(g, p, |g.channels| + 1, 0) + [DtBlock(g, c)])
  {
    hide Front, Start, DgOf, Texts, Cns, DtBlock, CgBlock, DgBlock;
    var g, p := gs[n - 1], Start(gs, n - 1, xml);
    RejoinGroup(Front(DgOf(gs, 0, xml), xml, t0), Chain(gs, n - 1, DgOf(gs, n - 1, xml), xml, c),
        Texts(g, TextCount(g)),
                [DgBlock(g, p, v)], [CgBlock(g, p)], Cns(g, p, |g.channels| + 1, 0), [DtBlock(g, c)]);
  }

  lemma RejoinGroup(f: seq<Block>, h: seq<Block>, t: seq<Block>, dg: seq<Block>, cg: seq<Block>, cns: seq<Block>,
      dt: seq<Block>)
    ensures f + (h + (t + dg + cg + cns + dt)) == f + h + t + dg + (cg + cns + dt)
  {
    JoinBlocks(f, h, t + dg + cg + cns + dt);
    var a := f + h;
    assert a + (t + dg + cg + cns + dt) == a + t + dg + (cg + cns + dt);
  }

  // ---- The whole file ----

  method WriteIdBlock(b: Buf)
    requires b.Valid() && b.d == [] && b.head == [] && b.blocks == [] && b.run == []
    modifies b
    ensures b.Valid() && b.head == IdHead() && b.blocks == [] && b.run == [] && |b.d| == 64
  {
    hide Flat, Le;
    b.PushAll(Ascii("MDF     "));
    b.PushAll(Ascii("4.10    "));
    b.PushAll(Ascii("ego-offl"));
    b.PushZeros(4);
    b.U16(410);
    b.PushZeros(34);
    StartOfRun(Ascii("MDF     "));
    assert b.run == IdHead();
    b.Account();
    StartOfRun(IdHead());
  }

  method WriteHdData(b: Buf, t0: uint64)
    requires b.Valid() && b.run == [] && b.blocks != []
    modifies b
    ensures b.Valid() && b.run == [] && b.head == old(b.head)
    ensures b.blocks == AppendData(old(b.blocks), HdData(t0)) && |b.d| == old(|b.d|) + 32
  {
    hide Flat, AppendData, Le;
    b.U64(t0);
    b.U16(0);
    b.U16(0);
    b.U8(0);
    b.U8(0);
    b.U8(0);
    b.U8(0);
    b.U64(0);
    b.U64(0);
    StartOfRun(Le(t0, 8));
    assert b.run == HdData(t0);
    b.Account();
  }

  method WriteHd(b: Buf, t0: uint64) returns (hdLp: nat)
    requires b.Valid() && b.head == IdHead() && b.blocks == [] && b.run == [] && |b.d| == 64
    modifies b
    ensures b.Valid() && b.head == IdHead() && b.run == [] && |b.d| == 168 && hdLp == 88
    ensures b.blocks == [] + [Block("##HD", 104, NoLinks(6), HdData(t0))]
  {
    hide Flat, AppendData, HdData, NoLinks;
    hdLp := b.BlkHdr("##HD", 104, 6);
    AppendToNew([], Block("##HD", 104, NoLinks(6), []), HdData(t0));
    WriteHdData(b, t0);
  }

  method WriteFhData(b: Buf, t0: uint64)
    requires b.Valid() && b.run == [] && b.blocks != []
    modifies b
    ensures b.Valid() && b.run == [] && b.head == old(b.head)
    ensures b.blocks == AppendData(old(b.blocks), FhData(t0)) && |b.d| == old(|b.d|) + 16
  {
    hide Flat, AppendData, Le;
    b.U64(t0);
    b.U16(0);
    b.U16(0);
    b.U8(0);
    b.PushZeros(3);
    StartOfRun(Le(t0, 8));
    assert b.run == FhData(t0);
    b.Account();
  }

  /** The file history block before its link is patched. */
  function FreshFh(t0: uint64): Block
  {
    Block("##FH", 56, NoLinks(2), FhData(t0))
  }

  method WriteFh(b: Buf, t0: uint64) returns (fhLp: nat)
    requires b.Valid() && b.head == IdHead() && |b.blocks| == 1 && b.run == [] && |b.d| == 168
    modifies b
    ensures b.Valid() && b.head == IdHead() && b.run == [] && |b.d| == 224 && fhLp == 192
    ensures b.blocks == old(b.blocks) + [FreshFh(t0)]
  {
    hide Flat, AppendData, FhData, NoLinks;
    fhLp := b.BlkHdr("##FH", 56, 2);
    AppendToNew(old(b.blocks), Block("##FH", 56, NoLinks(2), []), FhData(t0));
    WriteFhData(b, t0);
  }

  /** The blocks before the groups, with their links to each other. */
  method WriteFront(b: Buf, xml: bytes, t0: uint64) returns (hdLp: nat)
    requires b.Valid() && b.d == [] && b.head == [] && b.blocks == [] && b.run == []
    requires 224 + Extent(TextBlock("##MD", xml)) < TWO_64
    modifies b
    ensures b.Valid() && b.head == IdHead() && b.blocks == Front(0, xml, t0) && b.run == [] && hdLp == 88
    ensures |b.d| == 224 + Extent(TextBlock("##MD", xml))
  {
    hide Flat, Size, Le, TextBlock, SetLink, IdHead, HdData, FhData;
    WriteIdBlock(b);
    hdLp := WriteHd(b, t0);
    ghost var hd := Block("##HD", 104, NoLinks(6), HdData(t0));
    ghost var fh := FreshFh(t0);
    var fhPos := |b.d|;
    var fhLp := WriteFh(b, t0);
    FlatOfNothing();
    SizeOfOne(hd);
    MidLink([], hd, [fh], 1, fhPos);
    assert b.blocks == [] + [hd] + [fh] && b.blocks[..0] == [];
    b.Patch64(hdLp + 8, fhPos, 0, 1);
    ghost var hd1 := hd.(links := hd.links[1 := fhPos]);
    ghost var md := TextBlock("##MD", xml);
    var mdPos := b.TextBlk("##MD", xml);
    assert b.blocks == [] + [hd1] + ([fh] + [md]) && b.blocks[..0] == [];
    MidLink([], hd1, [fh] + [md], 5, mdPos);
    b.Patch64(hdLp + 40, mdPos, 0, 5);
    ghost var hd2 := hd1.(links := hd1.links[5 := mdPos]);
    assert hd2 == HdBlock(0, t0);
    assert b.blocks == [hd2] + [fh] + [md];
    MidLink([hd2], fh, [md], 1, mdPos);
    SizeOfOne(hd2);
    b.Patch64(fhLp + 8, mdPos, 1, 1);
    assert fh.(links := fh.links[1 := mdPos]) == FhBlock(t0);
  }

  lemma KeptStep(groups: seq<ChannelGroup>, i: nat)
    requires i < |groups|
    ensures Kept(groups[..i + 1]) == Kept(groups[..i])
            + (if groups[i].channels == [] || groups[i].times == [] then [] else [groups[i]])
  {
    assert groups[..i + 1][..i] == groups[..i];
  }

  lemma {:induction false} KeptSizes(groups: seq<ChannelGroup>, i: nat, xml: bytes)
    requires i <= |groups|
    ensures FileSize(Kept(groups[..i]), xml) <= FileSize(Kept(groups), xml)
    decreases |groups| - i
  {
    hide Kept, GroupEnd;
    if i == |groups| {
      assert groups[..i] == groups;
    } else {
      KeptSizes(groups, i + 1, xml);
      KeptStep(groups, i);
      var gs, g := Kept(groups[..i]), groups[i];
      if g.channels == [] || g.times == [] {
        assert gs + [] == gs;
      } else {
        StartOfPrefix(gs, [g], |gs|, xml);
        StartsGrow(gs + [g], |gs|, |gs| + 1, xml);
      }
    }
  }

  lemma OneMoreGroup(gs: seq<ChannelGroup>, g: ChannelGroup, xml: bytes, t0: uint64, c: Casts)
    ensures var gs' := gs + [g]; var p := Start(gs, |gs|, xml); var n := |gs|;
            && Start(gs', n + 1, xml) == GroupEnd(g, p)
            && DgOf(gs', n, xml) == DgPos(g, p)
            && FileBlocks(gs', n + 1, xml, t0, c)
                 == Front(if n == 0 then DgPos(g, p) else DgOf(gs, 0, xml), xml, t0)
                     + Chain(gs, n, DgPos(g, p), xml, c) + GroupBlocks(g, p, 0, c)
  {
    hide GroupBlocks, GroupEnd, DgPos, HdBlock, FhBlock, TextBlock;
    var gs', n := gs + [g], |gs|;
    StartOfPrefix(gs, [g], n, xml);
    StartOfPrefix(gs, [g], 0, xml);
    ChainOfPrefix(gs, [g], n, DgOf(gs', n, xml), xml, c);
    JoinBlocks(Front(DgOf(gs', 0, xml), xml, t0), Chain(gs, n, DgOf(gs', n, xml), xml, c),
        GroupBlocks(g, Start(gs, n, xml), 0, c));
  }

  /** The builder, whose patched buffer is the image of the file. A vector cannot hold 2^64 bytes. */
  method BuildMdf4(groups: seq<ChannelGroup>, xml: bytes, t0: uint64, c: Casts) returns (d: bytes)
    requires FileSize(Kept(groups), xml) < TWO_64
    ensures d == Image(groups, xml, t0, c)
  {
    hide Flat, Size, SetLink, Kept, FileBlocks, IdHead, GroupBlocks, GroupEnd, Start, DgOf, Front, Chain, HdBlock,
         FhBlock, TextBlock;
    var b := new Buf();
    KeptSizes(groups, 0, xml);
    NoGroups(groups, xml, t0, c);
    var hdLp := WriteFront(b, xml, t0);
    var prevDgLp := 0;
    var firstDg := true;
    for i := 0 to |groups|
      invariant fresh(b) && b.Valid() && b.head == IdHead() && b.run == []
      invariant b.blocks == FileBlocks(Kept(groups[..i]), |Kept(groups[..i])|, xml, t0, c)
      invariant firstDg <==> Kept(groups[..i]) == []
      invariant hdLp == 88
      invariant !firstDg ==> prevDgLp == DgOf(Kept(groups[..i]), |Kept(groups[..i])| - 1, xml) + 24
    {
      var g := groups[i];
      ghost var gs := Kept(groups[..i]);
      KeptStep(groups, i);
      if g.channels == [] || g.times == [] {
        assert gs + [] == gs;
      } else {
        KeptSizes(groups, i + 1, xml);
        OneMoreGroup(gs, g, xml, t0, c);
        FileLength(b, gs, xml, t0, c);
        ghost var si := NextSlot(gs, |gs|, DgPos(g, |b.d|), xml, t0, c);
        var slot := if firstDg then hdLp else prevDgLp;
        var dgLp := WriteGroup(b, g, c, slot, si);
        firstDg := false;
        prevDgLp := dgLp;
      }
    }
    assert groups[..|groups|] == groups;
    d := b.d;
    ImageIs(groups, xml, t0, c);
    AddNothing(IdHead() + Flat(b.blocks));
  }

  lemma ImageIs(groups: seq<ChannelGroup>, xml: bytes, t0: uint64, c: Casts)
    ensures Image(groups, xml, t0, c) == IdHead() + Flat(FileBlocks(Kept(groups), |Kept(groups)|, xml, t0, c))
  {}

  lemma NoGroups(groups: seq<ChannelGroup>, xml: bytes, t0: uint64, c: Casts)
    ensures Kept(groups[..0]) == [] && FileBlocks([], 0, xml, t0, c) == Front(0, xml, t0)
    ensures FileSize([], xml) == 224 + Extent(TextBlock("##MD", xml))
  {
    hide HdBlock, FhBlock, TextBlock;
    assert Front(0, xml, t0) + [] == Front(0, xml, t0);
  }

  lemma FileLength(b: Buf, gs: seq<ChannelGroup>, xml: bytes, t0: uint64, c: Casts)
    requires b.Valid() && b.run == [] && b.head == IdHead() && b.blocks == FileBlocks(gs, |gs|, xml, t0, c)
    ensures |b.d| == Start(gs, |gs|, xml)
  {
    hide Flat, Size, FileBlocks, IdHead, Start;
    BufLength(b);
    SizeOfFile(gs, |gs|, xml, t0, c);
  }
}
