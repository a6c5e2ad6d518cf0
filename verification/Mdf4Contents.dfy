/** What a reader that follows the links of an exported file finds in it, in numbers: descriptions
    of the channels, the cells of the records, and the fixed blocks at the front. */
module Mdf4Contents {
  import opened Bytes
  import opened Mdf4Blocks
  import opened Mdf4Layout
  import opened Mdf4Reader
  import opened Wrappers

  // ---- The cells ----

  lemma KnownTypes()
    ensures Ctype("float64") == CtypeInfo(6, 8, 64) && Ctype("float32") == CtypeInfo(4, 4, 32)
    ensures Ctype("int16") == CtypeInfo(2, 2, 16)
  {
    assert "float64"[5] != "float32"[5] && |"int16"| != |"float32"|;
  }

  predicate OtherType(t: string)
  {
    t != "float64" && t != "float32" && t != "int16"
  }

  /** What stands in a record for a value: the double itself, or what the machine makes of it. */
  lemma EncodedValue(v: uint64, t: string, c: Casts)
    ensures t == "float64" ==> Encode(v, t, c) == Le(v, 8)
    ensures t == "float32" ==> Encode(v, t, c) == Le(c.toFloat(v), 4)
    ensures t == "int16" ==> Encode(v, t, c) == Le(c.toInt16(v), 2)
    ensures OtherType(t) ==> Encode(v, t, c) == [c.toUint8(v)]
  {
    hide Le;
    KnownTypes();
  }

  /** The cell at record row and channel i holds sample number row of that channel, in the form its
      type names, and the machine's NaN past the end of the data. */
  lemma CellHoldsSample(g: ChannelGroup, row: nat, i: nat, at: nat, c: Casts)
    requires row < |g.times| && i < |g.channels| && at == row * ViewOf(g, c).recordSize
    ensures var v := ViewOf(g, c);
            && |v.channels| == |g.channels| + 1
            && var ch := g.channels[i]; var o := at + v.channels[i + 1].offset;
               var value := if row < |ch.data| then ch.data[row] else c.nan;
               && (ch.dataType == "float64" ==> o + 8 <= |v.records| && v.records[o..o + 8] == Le(value, 8))
               && (ch.dataType == "float32" ==> o + 4 <= |v.records| && v.records[o..o + 4] == Le(c.toFloat(value), 4))
               && (ch.dataType == "int16" ==> o + 2 <= |v.records| && v.records[o..o + 2] == Le(c.toInt16(value), 2))
               && (OtherType(ch.dataType) ==> o < |v.records| && v.records[o] == c.toUint8(value))
  {
    hide ViewOf, Encode, Le;
    CellReadsBack(g, row, i, at, c);
    var ch := g.channels[i];
    EncodedValue(if row < |ch.data| then ch.data[row] else c.nan, ch.dataType, c);
    var o := at + ViewOf(g, c).channels[i + 1].offset;
    assert OtherType(ch.dataType) ==> ViewOf(g, c).records[o] == ViewOf(g, c).records[o..o + 1][0];
  }

  // ---- The descriptions ----

  /** The number of bytes of a cell. */
  function Width(t: string): nat
  {
    if t == "float64" then 8 else if t == "float32" then 4 else if t == "int16" then 2 else 1
  }

  /** The channel blocks describe the records: the time master is a double at offset 0, the channels
      follow one after the other, and the record ends with the last of them. */
  lemma ChannelsAreDescribed(g: ChannelGroup, i: nat, c: Casts)
    requires i < |g.channels|
    ensures var v := ViewOf(g, c); var ch := g.channels[i];
            && v.cycles == |g.times| && |v.channels| == |g.channels| + 1
            && v.channels[0].cnType == 2 && v.channels[0].sync == 1
            && v.channels[0].code == 6 && v.channels[0].offset == 0 && v.channels[0].bits == 64
            && v.channels[0].unit == Ascii("s")
            && v.channels[1].offset == 8
            && var d := v.channels[i + 1];
               && d.cnType == 0 && d.sync == 0 && d.bits == 8 * Width(ch.dataType)
               && d.code == (if ch.dataType == "float64" then 6 else if ch.dataType == "float32" then 4
                             else if ch.dataType == "int16" then 2 else 0)
               && d.offset + Width(ch.dataType)
                  == (if i + 1 < |g.channels| then v.channels[i + 2].offset else v.recordSize)
  {
    hide Records, UpToNul, Ascii;
    KnownTypes();
    var v := ViewOf(g, c);
    assert v.channels[0] == ChannelOf(g, 0) && v.channels[1] == ChannelOf(g, 1);
    assert v.channels[i + 1] == ChannelOf(g, i + 1);
    if i + 1 < |g.channels| {
      assert v.channels[i + 2] == ChannelOf(g, i + 2);
    }
    assert Offset(g.channels, i + 1) == Offset(g.channels, i) + Ctype(g.channels[i].dataType).size;
    assert Offset(g.channels, 0) == 8;
  }

  /** Names without NUL are the names given to the export. */
  lemma NamesAreGiven(g: ChannelGroup, i: nat, c: Casts)
    requires i < |g.channels| && 0 !in g.name && 0 !in g.channels[i].name && 0 !in g.channels[i].unit
    ensures var v := ViewOf(g, c);
            && v.name == g.name && |v.channels| == |g.channels| + 1
            && v.channels[0].name == g.name + Ascii(".time_s")
            && v.channels[i + 1].name == g.channels[i].name && v.channels[i + 1].unit == g.channels[i].unit
  {
    hide Records, UpToNul, Ascii, Offset, Ctype;
    var v := ViewOf(g, c);
    assert v.channels[0] == ChannelOf(g, 0) && v.channels[i + 1] == ChannelOf(g, i + 1);
    NulFreeText(g.name);
    NulFreeText(g.channels[i].name);
    NulFreeText(g.channels[i].unit);
    NoNulInSuffix();
    NulFreeText(g.name + Ascii(".time_s"));
  }

  lemma NoNulInSuffix()
    ensures 0 !in Ascii(".time_s")
  {
    assert forall i :: 0 <= i < |".time_s"| ==> ".time_s"[i] != 0 as char;
  }

  /** The bytes of the group blocks that carry nothing are zero. */
  lemma CgRestIsZero(cycles: nat, recordSize: nat)
    ensures CgData(cycles, recordSize) == Zeros(8) + Le(cycles, 8) + Zeros(8) + Le(recordSize, 4) + Zeros(4)
  {
    hide Le;
    LeOfZero(8);
    LeOfZero(4);
    LeOfZero(2);
  }

  lemma CnRestIsZero(i: Cn)
    ensures CnData(i) == [i.cnType, i.sync, i.code, 0] + Le(i.offset, 4) + Le(i.bits, 4) + Zeros(60)
  {
    hide Le;
    LeOfZero(8);
    LeOfZero(4);
    LeOfZero(2);
  }

  // ---- The front of the file ----

  lemma IdIs()
    ensures IdHead()[..8] == Ascii("MDF     ") && IdHead()[8..16] == Ascii("4.10    ")
    ensures IdHead()[16..24] == Ascii("ego-offl") && IdHead()[28..30] == Le(410, 2)
  {
    hide Ascii, Le;
  }

  lemma OnlyZeros()
    ensures Le(0, 2) + Le(0, 2) + [0] + [0] + [0] + [0] + Le(0, 8) + Le(0, 8) == Zeros(24)
    ensures Le(0, 2) + Le(0, 2) + [0] + Zeros(3) == Zeros(8)
  {
    hide Le;
    LeOfZero(8);
    LeOfZero(2);
  }

  lemma HeaderTime(t0: uint64)
    ensures HdData(t0) == Le(t0, 8) + Zeros(24)
  {
    hide Le, Zeros;
    OnlyZeros();
    assert HdData(t0)
        == Le(t0, 8) + (Le(0, 2) + Le(0, 2) + [0] + [0] + [0] + [0] + Le(0, 8) + Le(0, 8));
  }

  lemma HistoryTime(t0: uint64)
    ensures FhData(t0) == Le(t0, 8) + Zeros(8)
  {
    hide Le, Zeros;
    OnlyZeros();
    assert FhData(t0) == Le(t0, 8) + (Le(0, 2) + Le(0, 2) + [0] + Zeros(3));
  }

  lemma FrontIsStored(first: nat, xml: bytes, t0: uint64)
    requires first < TWO_64 && Extent(TextBlock("##MD", xml)) < TWO_64
    ensures WellStored(HdBlock(first, t0)) && WellStored(FhBlock(t0)) && WellStored(TextBlock("##MD", xml))
  {
    hide HdData, FhData;
    assert forall k :: 0 <= k < 6 ==> HdBlock(first, t0).links[k] < TWO_64;
  }

  lemma BlockIsPlaced(head: bytes, blocks: seq<Block>, a: seq<Block>, b: Block, z: seq<Block>)
    requires WellStored(b) && blocks == a + [b] + z
    ensures BlockAt(head + Flat(blocks), |head| + Size(a)) == Some(AsRead(b))
  {
    hide *;
    BlockInFile(head, a, b, z);
  }

  lemma SizesOfFront(hd: Block, fh: Block)
    ensures Size([]) == 0 && Size([hd]) == Extent(hd) && Size([hd] + [fh]) == Extent(hd) + Extent(fh)
  {
    hide *;
    FlatOfNothing();
    SizeOfOne(hd);
    FlatOfSnoc([hd], fh);
  }

  lemma FrontIsPlaced(head: bytes, hd: Block, fh: Block, md: Block, z: seq<Block>)
    requires WellStored(hd) && WellStored(fh) && WellStored(md)
    ensures var f := head + Flat([hd] + [fh] + [md] + z);
            && BlockAt(f, |head|) == Some(AsRead(hd)) && BlockAt(f, |head| + Extent(hd)) == Some(AsRead(fh))
            && BlockAt(f, |head| + Extent(hd) + Extent(fh)) == Some(AsRead(md))
  {
    hide *;
    var blocks := [hd] + [fh] + [md] + z;
    SizesOfFront(hd, fh);
    BlockIsPlaced(head, blocks, [], hd, [fh] + [md] + z);
    BlockIsPlaced(head, blocks, [hd], fh, [md] + z);
    BlockIsPlaced(head, blocks, [hd] + [fh], md, z);
  }

  /** The file begins with its identification, the header block with the start time and the links to
      the first group, the history and the comment, the history block and the comment. */
  lemma FrontOfFile(groups: seq<ChannelGroup>, xml: bytes, t0: uint64, c: Casts)
    requires FileSize(Kept(groups), xml) < TWO_64
    ensures var f := Image(groups, xml, t0, c); var gs := Kept(groups);
            && |f| >= 64 && f[..8] == Ascii("MDF     ") && f[8..16] == Ascii("4.10    ")
            && f[16..24] == Ascii("ego-offl") && f[28..30] == Le(410, 2)
            && BlockAt(f, 64) == Some(FileBlock(Ascii("##HD"),
                 [if gs == [] then 0 else DgOf(gs, 0, xml), 168, 0, 0, 0, 224], Le(t0, 8) + Zeros(24)))
            && BlockAt(f, 168) == Some(FileBlock(Ascii("##FH"), [0, 224], Le(t0, 8) + Zeros(8)))
            && BlockAt(f, 224).Some? && BlockAt(f, 224).value.id == Ascii("##MD") && BlockAt(f, 224).value.links == []
            && UpToNul(BlockAt(f, 224).value.data) == UpToNul(xml)
  {
    hide Flat, Size, BlockAt, WellStored, Chain, IdHead, UpToNul, TextBlock, Ascii, HdData, FhData, DgOf, Start, Kept,
         Le;
    var gs := Kept(groups);
    var first := if |gs| == 0 then 0 else DgOf(gs, 0, xml);
    FirstFits(gs, xml);
    FrontIsStored(first, xml, t0);
    FrontIsPlaced(IdHead(), HdBlock(first, t0), FhBlock(t0), TextBlock("##MD", xml), Chain(gs, |gs|, 0, xml, c));
    IdIs();
    HeaderTime(t0);
    HistoryTime(t0);
    CommentReadsBack(xml);
  }

  lemma FirstFits(gs: seq<ChannelGroup>, xml: bytes)
    requires FileSize(gs, xml) < TWO_64
    ensures |gs| > 0 ==> DgOf(gs, 0, xml) < TWO_64
    ensures Extent(TextBlock("##MD", xml)) < TWO_64
  {
    hide TextBlock, GroupEnd, DgPos, DtPos;
    StartsGrow(gs, 0, |gs|, xml);
    if |gs| > 0 {
      StartsGrow(gs, 1, |gs|, xml);
      DgBeforeEnd(gs[0], Start(gs, 0, xml));
      assert Start(gs, 1, xml) == GroupEnd(gs[0], Start(gs, 0, xml));
    }
  }

  lemma DgBeforeEnd(g: ChannelGroup, p: nat)
    ensures DgPos(g, p) <= GroupEnd(g, p)
  {
    hide DgPos, RecordSize;
    Products(|g.times|, RecordSize(g));
  }

  lemma CommentReadsBack(xml: bytes)
    ensures UpToNul(TextBlock("##MD", xml).data) == UpToNul(xml) && TextBlock("##MD", xml).links == []
    ensures TextBlock("##MD", xml).id == "##MD"
  {
    hide UpToNul;
    TextEndsAtNul(xml, Zeros((|xml| + 8) / 8 * 8 - |xml| - 1));
  }
}
