/** An independent reader of MDF4 files: blocks are parsed from the bytes and reached through the
    links only. Reading a built file gives back the groups it was built from. */
module Mdf4Reader {
  import opened Bytes
  import opened Wrappers
  import opened Mdf4Blocks
  import opened Mdf4Layout

  datatype FileBlock = FileBlock(id: bytes, links: seq<nat>, data: bytes)

  function LinksAt(f: bytes, pos: nat, n: nat): (r: seq<nat>)
    requires pos + 8 * n <= |f|
    ensures |r| == n
  {
    seq(n, k requires 0 <= k < n => U64(f[pos + 8 * k..pos + 8 * k + 8]))
  }

  /** The block whose header starts at pos, cut out by its stored length. */
  function BlockAt(f: bytes, pos: nat): Option<FileBlock>
  {
    if pos + 24 > |f| then None
    else
      var len := U64(f[pos + 8..pos + 16]);
      var n := U64(f[pos + 16..pos + 24]);
      if len < 24 + 8 * n || pos + len > |f| then None
      else Some(FileBlock(f[pos..pos + 4], LinksAt(f, pos + 24, n), f[pos + 24 + 8 * n..pos + len]))
  }

  /** The block at pos, if it has this id and at least so many links and data bytes. */
  function Find(f: bytes, pos: nat, id: blockId, links: nat, data: nat): (r: Option<FileBlock>)
    ensures r.Some? ==> |r.value.links| >= links && |r.value.data| >= data
  {
    match BlockAt(f, pos)
    case Some(b) => if b.id == Ascii(id) && |b.links| >= links && |b.data| >= data then Some(b) else None
    case None => None
  }

  function UpToNul(s: bytes): bytes
  {
    if s == [] || s[0] == 0 then [] else [s[0]] + UpToNul(s[1..])
  }

  function TextFrom(f: bytes, pos: nat): Option<bytes>
  {
    match Find(f, pos, "##TX", 0, 0)
    case Some(b) => Some(UpToNul(b.data))
    case None => None
  }

  datatype ChannelView = ChannelView(name: bytes, unit: bytes, cnType: byte, sync: byte, code: byte, offset: nat,
      bits: nat)

  datatype GroupView = GroupView(name: bytes, channels: seq<ChannelView>, cycles: nat, recordSize: nat, records: bytes)

  function ChannelFrom(f: bytes, b: FileBlock): Option<ChannelView>
    requires |b.links| >= 8 && |b.data| >= 72
  {
    var name := TextFrom(f, b.links[2]);
    var unit := TextFrom(f, b.links[6]);
    if name == None || unit == None then None
    else Some(ChannelView(name.value, unit.value, b.data[0], b.data[1], b.data[2], U32(b.data[4..8]),
        U32(b.data[8..12])))
  }

  /** The channel chain from pos on; 0 ends it, and a link must lead forward. */
  function ChannelsFrom(f: bytes, pos: nat): Option<seq<ChannelView>>
    decreases |f| - pos
  {
    if pos == 0 then Some([])
    else
      match Find(f, pos, "##CN", 8, 72)
      case None => None
      case Some(b) =>
        var ch := ChannelFrom(f, b);
        if ch == None then None
        else if b.links[0] == 0 then Some([ch.value])
        else if b.links[0] <= pos || pos >= |f| then None
        else
          match ChannelsFrom(f, b.links[0])
          case Some(rest) => Some([ch.value] + rest)
          case None => None
  }

  function GroupFrom(f: bytes, dg: FileBlock): Option<GroupView>
    requires |dg.links| >= 4
  {
    match Find(f, dg.links[1], "##CG", 6, 32)
    case None => None
    case Some(cg) =>
      var name := TextFrom(f, cg.links[2]);
      var channels := ChannelsFrom(f, cg.links[1]);
      var dt := Find(f, dg.links[2], "##DT", 0, 0);
      if name == None || channels == None || dt == None then None
      else Some(GroupView(name.value, channels.value, U64(cg.data[8..16]), U32(cg.data[24..28]), dt.value.data))
  }

  /** The data groups from pos on. */
  function GroupsFrom(f: bytes, pos: nat): Option<seq<GroupView>>
    decreases |f| - pos
  {
    if pos == 0 then Some([])
    else
      match Find(f, pos, "##DG", 4, 8)
      case None => None
      case Some(dg) =>
        var g := GroupFrom(f, dg);
        if g == None then None
        else if dg.links[0] == 0 then Some([g.value])
        else if dg.links[0] <= pos || pos >= |f| then None
        else
          match GroupsFrom(f, dg.links[0])
          case Some(rest) => Some([g.value] + rest)
          case None => None
  }

  function ReadFile(f: bytes): Option<seq<GroupView>>
  {
    if |f| < 64 || f[..8] != Ascii("MDF     ") then None
    else
      match Find(f, 64, "##HD", 6, 32)
      case Some(hd) => GroupsFrom(f, hd.links[0])
      case None => None
  }

  // ---- What reading should give ----

  function ChannelOf(g: ChannelGroup, i: nat): ChannelView
    requires i <= |g.channels|
  {
    if i == 0 then ChannelView(UpToNul(g.name + Ascii(".time_s")), Ascii("s"), 2, 1, 6, 0, 64)
    else
      var ch := g.channels[i - 1];
      var t := Ctype(ch.dataType);
      ChannelView(UpToNul(ch.name), UpToNul(ch.unit), 0, 0, t.code, Offset(g.channels, i - 1), t.bits)
  }

  /** The group's own data: time master first, then the channels in order. */
  function ViewOf(g: ChannelGroup, c: Casts): GroupView
  {
    GroupView(UpToNul(g.name), seq(|g.channels| + 1, i requires 0 <= i < |g.channels| + 1 => ChannelOf(g, i)),
              |g.times|, RecordSize(g), Records(g, |g.times|, c))
  }

  lemma {:induction false} NulFreeText(s: bytes)
    requires 0 !in s
    ensures UpToNul(s) == s
  {
    if s == [] {
    } else {
      assert s[0] in s && s == [s[0]] + s[1..];
      NulFreeText(s[1..]);
    }
  }

  lemma {:induction false} TextEndsAtNul(s: bytes, rest: bytes)
    ensures UpToNul(s + [0] + rest) == UpToNul(s)
  {
    var t := s + [0] + rest;
    if s == [] {
      assert t[0] == 0;
    } else {
      assert t[0] == s[0] && t[1..] == s[1..] + [0] + rest;
      TextEndsAtNul(s[1..], rest);
    }
  }

  // ---- Reading one block ----

  /** The stored length is the extent, and every number fits its eight bytes. */
  ghost predicate WellStored(b: Block)
  {
    b.len == Extent(b) < TWO_64 && forall k :: 0 <= k < |b.links| ==> b.links[k] < TWO_64
  }

  function AsRead(b: Block): FileBlock
  {
    FileBlock(Ascii(b.id), b.links, b.data)
  }

  lemma {:induction false} LinkAt(links: seq<nat>, k: nat)
    requires k < |links|
    ensures LinkBytes(links)[8 * k..8 * k + 8] == Le(links[k], 8)
  {
    hide Le;
    var n := |links| - 1;
    var init, last := LinkBytes(links[..n]), Le(links[n], 8);
    if k < n {
      LinkAt(links[..n], k);
      assert (init + last)[8 * k..8 * k + 8] == init[8 * k..8 * k + 8];
    } else {
      assert (init + last)[8 * k..8 * k + 8] == last;
    }
  }

  lemma HeaderFields(id: blockId, len: nat, n: nat)
    requires len < TWO_64 && n < TWO_64
    ensures var h := HeaderBytes(id, len, n); h[..4] == Ascii(id) && U64(h[8..16]) == len && U64(h[16..24]) == n
  {
    hide U64, Le;
    var h := HeaderBytes(id, len, n);
    assert h[8..16] == Le(len, 8) && h[16..24] == Le(n, 8);
    U64OfLe(len);
    U64OfLe(n);
  }

  lemma SliceOf(x: bytes, m: bytes, y: bytes, i: nat, j: nat)
    requires i <= j <= |m|
    ensures (x + m + y)[|x| + i..|x| + j] == m[i..j]
  {}

  lemma BlockReadsBack(x: bytes, b: Block, y: bytes)
    requires WellStored(b)
    ensures BlockAt(x + BlockBytes(b) + y, |x|) == Some(AsRead(b))
  {
    hide U64, HeaderBytes, LinkBytes, Le, Ascii;
    var m, n := BlockBytes(b), |b.links|;
    var f := x + m + y;
    var h, l := HeaderBytes(b.id, b.len, n), LinkBytes(b.links);
    SliceOf(x, m, y, 0, 4);
    SliceOf(x, m, y, 8, 16);
    SliceOf(x, m, y, 16, 24);
    SliceOf(x, m, y, 24 + 8 * n, b.len);
    assert m[0..4] == h[..4] && m[8..16] == h[8..16] && m[16..24] == h[16..24];
    assert m[24 + 8 * n..b.len] == b.data;
    HeaderFields(b.id, b.len, n);
    forall k | 0 <= k < n
      ensures LinksAt(f, |x| + 24, n)[k] == b.links[k]
    {
      SliceOf(x, m, y, 24 + 8 * k, 32 + 8 * k);
      assert m[24 + 8 * k..32 + 8 * k] == l[8 * k..8 * k + 8];
      LinkAt(b.links, k);
      U64OfLe(b.links[k]);
    }
    assert LinksAt(f, |x| + 24, n) == b.links;
  }

  /** The block at an index of the list, read at its place in the file. */
  lemma BlockInFile(head: bytes, a: seq<Block>, b: Block, z: seq<Block>)
    requires WellStored(b)
    ensures BlockAt(head + Flat(a + [b] + z), |head| + Size(a)) == Some(AsRead(b))
  {
    hide Flat, Size, BlockBytes, BlockAt, WellStored;
    FlatOfConcat(a + [b], z);
    FlatOfSnoc(a, b);
    var x := head + Flat(a);
    assert head + (Flat(a) + BlockBytes(b) + Flat(z)) == x + BlockBytes(b) + Flat(z);
    BlockReadsBack(x, b, Flat(z));
  }

  /** Every block of the list is found at its place when the list starts at p. */
  ghost predicate Placed(f: bytes, p: nat, blocks: seq<Block>)
  {
    forall j :: 0 <= j < |blocks| ==> BlockAt(f, p + Size(blocks[..j])) == Some(AsRead(blocks[j]))
  }

  lemma PlacedFile(head: bytes, blocks: seq<Block>)
    requires forall j :: 0 <= j < |blocks| ==> WellStored(blocks[j])
    ensures Placed(head + Flat(blocks), |head|, blocks)
  {
    hide Flat, Size, BlockAt, WellStored, AsRead;
    forall j | 0 <= j < |blocks|
      ensures BlockAt(head + Flat(blocks), |head| + Size(blocks[..j])) == Some(AsRead(blocks[j]))
    {
      assert blocks == blocks[..j] + [blocks[j]] + blocks[j + 1..];
      BlockInFile(head, blocks[..j], blocks[j], blocks[j + 1..]);
    }
  }

  lemma PlacedAt(f: bytes, p: nat, blocks: seq<Block>, j: nat)
    requires Placed(f, p, blocks) && j < |blocks|
    ensures BlockAt(f, p + Size(blocks[..j])) == Some(AsRead(blocks[j]))
  {
    hide Size, BlockAt, AsRead;
  }

  lemma PlacedFront(f: bytes, p: nat, a: seq<Block>, b: seq<Block>)
    requires Placed(f, p, a + b)
    ensures Placed(f, p, a)
  {
    hide Size, BlockAt, AsRead;
    forall j | 0 <= j < |a|
      ensures BlockAt(f, p + Size(a[..j])) == Some(AsRead(a[j]))
    {
      PlacedAt(f, p, a + b, j);
      assert (a + b)[..j] == a[..j];
    }
  }

  lemma PlacedBackAt(f: bytes, p: nat, a: seq<Block>, b: seq<Block>, j: nat)
    requires Placed(f, p, a + b) && j < |b|
    ensures BlockAt(f, p + Size(a) + Size(b[..j])) == Some(AsRead(b[j]))
  {
    hide *;
    PlacedAt(f, p, a + b, |a| + j);
    assert (a + b)[..|a| + j] == a + b[..j];
    FlatOfConcat(a, b[..j]);
  }

  lemma PlacedBack(f: bytes, p: nat, a: seq<Block>, b: seq<Block>)
    requires Placed(f, p, a + b)
    ensures Placed(f, p + Size(a), b)
  {
    hide Size, Flat, BlockAt, AsRead;
    forall j | 0 <= j < |b|
      ensures BlockAt(f, p + Size(a) + Size(b[..j])) == Some(AsRead(b[j]))
    {
      PlacedBackAt(f, p, a, b, j);
    }
  }

  lemma PlacedOne(f: bytes, p: nat, b: Block)
    requires Placed(f, p, [b])
    ensures BlockAt(f, p) == Some(AsRead(b))
  {
    hide BlockAt, AsRead;
    assert [b][0] == b && [b][..0] == [];
    FlatOfNothing();
  }

  lemma TextReadsBack(f: bytes, p: nat, text: bytes)
    requires BlockAt(f, p) == Some(AsRead(TextBlock("##TX", text)))
    ensures TextFrom(f, p) == Some(UpToNul(text))
  {
    hide BlockAt, UpToNul, Ascii;
    var b := TextBlock("##TX", text);
    var tpad := (|text| + 8) / 8 * 8;
    TextEndsAtNul(text, Zeros(tpad - |text| - 1));
  }

  // ---- Reading one group ----

  ghost predicate TextsPlaced(f: bytes, p: nat, g: ChannelGroup)
  {
    forall j :: 0 <= j < TextCount(g) ==> TextFrom(f, TextPos(g, p, j)) == Some(UpToNul(TextAt(g, j)))
  }

  /** The link of channel block i to the next one. */
  function CnNext(g: ChannelGroup, p: nat, i: nat): nat
  {
    if i == |g.channels| then 0 else CnPos(g, p, i + 1)
  }

  ghost predicate CnsPlaced(f: bytes, p: nat, g: ChannelGroup)
  {
    forall i :: 0 <= i <= |g.channels| ==> BlockAt(f, CnPos(g, p, i)) == Some(AsRead(CnBlock(g, p, i, CnNext(g, p, i))))
  }

  lemma TextsArePlaced(f: bytes, p: nat, g: ChannelGroup)
    requires Placed(f, p, Texts(g, TextCount(g)))
    ensures TextsPlaced(f, p, g)
  {
    hide Size, BlockAt, AsRead, TextBlock, TextAt, TextFrom, UpToNul;
    var t := Texts(g, TextCount(g));
    forall j | 0 <= j < TextCount(g)
      ensures TextFrom(f, TextPos(g, p, j)) == Some(UpToNul(TextAt(g, j)))
    {
      assert t[..j] == Texts(g, j) && t[j] == TextBlock("##TX", TextAt(g, j));
      TextReadsBack(f, TextPos(g, p, j), TextAt(g, j));
    }
  }

  lemma {:induction false} CnAt(g: ChannelGroup, p: nat, n: nat, next: nat, i: nat)
    requires i < n <= |g.channels| + 1
    ensures Cns(g, p, n, next)[i] == CnBlock(g, p, i, if i == n - 1 then next else CnPos(g, p, i + 1))
    ensures Size(Cns(g, p, n, next)[..i]) == 160 * i
  {
    hide CnBlock, CnPos;
    var all := Cns(g, p, n, next);
    var init := Cns(g, p, n - 1, CnPos(g, p, n - 1));
    if i < n - 1 {
      CnAt(g, p, n - 1, CnPos(g, p, n - 1), i);
      assert all[..i] == init[..i];
    } else {
      assert all[..i] == init;
      SizeOfCns(g, p, n - 1, CnPos(g, p, n - 1));
    }
  }

  lemma CnsArePlaced(f: bytes, p: nat, g: ChannelGroup)
    requires Placed(f, CnPos(g, p, 0), Cns(g, p, |g.channels| + 1, 0))
    ensures CnsPlaced(f, p, g)
  {
    hide Size, BlockAt, AsRead, CnBlock, Cns, CgPos, Placed;
    forall i | 0 <= i <= |g.channels|
      ensures BlockAt(f, CnPos(g, p, i)) == Some(AsRead(CnBlock(g, p, i, CnNext(g, p, i))))
    {
      PlacedAt(f, CnPos(g, p, 0), Cns(g, p, |g.channels| + 1, 0), i);
      CnAt(g, p, |g.channels| + 1, 0, i);
    }
  }

  lemma GroupIsPlaced(f: bytes, p: nat, g: ChannelGroup, next: nat, c: Casts)
    requires Placed(f, p, GroupBlocks(g, p, next, c))
    ensures TextsPlaced(f, p, g) && CnsPlaced(f, p, g)
    ensures BlockAt(f, DgPos(g, p)) == Some(AsRead(DgBlock(g, p, next)))
    ensures BlockAt(f, CgPos(g, p)) == Some(AsRead(CgBlock(g, p)))
    ensures BlockAt(f, DtPos(g, p)) == Some(AsRead(DtBlock(g, c)))
  {
    hide *;
    var t, dg, cg, cns, dt := Texts(g, TextCount(g)), DgBlock(g, p, next), CgBlock(g, p),
        Cns(g, p, |g.channels| + 1, 0), DtBlock(g, c);
    GroupParts(g, p, next, c);
    var t1, t2, t3 := t + [dg], t + [dg] + [cg], t + [dg] + [cg] + cns;
    PlacedBack(f, p, t3, [dt]);
    PlacedFront(f, p, t3, [dt]);
    PlacedBack(f, p, t2, cns);
    PlacedFront(f, p, t2, cns);
    PlacedBack(f, p, t1, [cg]);
    PlacedFront(f, p, t1, [cg]);
    PlacedBack(f, p, t, [dg]);
    PlacedFront(f, p, t, [dg]);
    TextsArePlaced(f, p, g);
    CnsArePlaced(f, p, g);
    PlacedOne(f, DgPos(g, p), dg);
    PlacedOne(f, CgPos(g, p), cg);
    PlacedOne(f, DtPos(g, p), dt);
  }

  /** The parts of a group and where they begin. */
  lemma GroupParts(g: ChannelGroup, p: nat, next: nat, c: Casts)
    ensures var t := Texts(g, TextCount(g)); var dg := DgBlock(g, p, next); var cg := CgBlock(g, p);
            var cns := Cns(g, p, |g.channels| + 1, 0);
            && GroupBlocks(g, p, next, c) == t + [dg] + [cg] + cns + [DtBlock(g, c)]
            && p + Size(t) == DgPos(g, p)
            && p + Size(t + [dg]) == CgPos(g, p)
            && p + Size(t + [dg] + [cg]) == CnPos(g, p, 0)
            && p + Size(t + [dg] + [cg] + cns) == DtPos(g, p)
  {
    hide Size, Flat, Texts, Cns, DgBlock, CgBlock, DtBlock, Extent;
    var t, dg, cg, cns := Texts(g, TextCount(g)), DgBlock(g, p, next), CgBlock(g, p), Cns(g, p, |g.channels| + 1, 0);
    FlatOfSnoc(t, dg);
    FlatOfSnoc(t + [dg], cg);
    FlatOfConcat(t + [dg] + [cg], cns);
    SizeOfCns(g, p, |g.channels| + 1, 0);
    DgAndCgExtents(g, p, next);
  }

  lemma DgAndCgExtents(g: ChannelGroup, p: nat, next: nat)
    ensures Extent(DgBlock(g, p, next)) == 64 && Extent(CgBlock(g, p)) == 104
  {
    hide RecordSize, TextPos, CgData;
    CgDataSize(|g.times|, RecordSize(g) % TWO_32);
  }

  lemma {:induction false} OffsetsGrow(chs: seq<ChannelDesc>, i: nat, j: nat)
    requires i <= j <= |chs|
    ensures Offset(chs, i) <= Offset(chs, j)
  {
    if i == j {
    } else {
      OffsetsGrow(chs, i, j - 1);
    }
  }

  lemma CnFields(i: Cn)
    ensures |CnData(i)| == 72
    ensures CnData(i)[0] == i.cnType && CnData(i)[1] == i.sync && CnData(i)[2] == i.code
    ensures CnData(i)[4..8] == Le(i.offset, 4) && CnData(i)[8..12] == Le(i.bits, 4)
  {
    hide Le;
    var d := CnData(i);
    assert d[4..8] == Le(i.offset, 4);
    assert d[8..12] == Le(i.bits, 4);
  }

  lemma ChannelReadsBack(f: bytes, p: nat, g: ChannelGroup, i: nat, next: nat)
    requires TextsPlaced(f, p, g) && i <= |g.channels| && ChannelOf(g, i).offset < TWO_32
    ensures ChannelFrom(f, AsRead(CnBlock(g, p, i, next))) == Some(ChannelOf(g, i))
  {
    hide TextFrom, UpToNul, U32, Le, CnData, TextPos, Ctype, Offset, Ascii;
    var b := CnBlock(g, p, i, next);
    var info := CnInfo(g, i);
    CnFields(info);
    U32OfLe(info.offset);
    U32OfLe(info.bits);
    assert TextFrom(f, TextPos(g, p, 1 + 2 * i)) == Some(UpToNul(TextAt(g, 1 + 2 * i)));
    assert TextFrom(f, TextPos(g, p, 2 + 2 * i)) == Some(UpToNul(TextAt(g, 2 + 2 * i)));
    if i == 0 {
      UnitOfTime();
    }
  }

  lemma UnitOfTime()
    ensures UpToNul(Ascii("s")) == Ascii("s")
  {
    NulFreeText(Ascii("s"));
  }

  function ChannelsOf(g: ChannelGroup, i: nat): (r: seq<ChannelView>)
    requires i <= |g.channels|
    ensures |r| == |g.channels| + 1 - i
  {
    seq(|g.channels| + 1 - i, k requires 0 <= k < |g.channels| + 1 - i => ChannelOf(g, i + k))
  }

  lemma CnIsFound(f: bytes, p: nat, g: ChannelGroup, i: nat, next: nat)
    requires i <= |g.channels| && BlockAt(f, CnPos(g, p, i)) == Some(AsRead(CnBlock(g, p, i, next)))
    ensures Find(f, CnPos(g, p, i), "##CN", 8, 72) == Some(AsRead(CnBlock(g, p, i, next)))
    ensures AsRead(CnBlock(g, p, i, next)).links[0] == next && |AsRead(CnBlock(g, p, i, next)).links| == 8
    ensures CnPos(g, p, i) + 24 <= |f|
  {
    hide CnData, TextPos, CnInfo, Ascii;
    CnFields(CnInfo(g, i));
  }

  /** The offsets from channel i on fit the 32-bit field. */
  ghost predicate OffsetsFit(g: ChannelGroup, i: nat)
  {
    forall k :: i <= k <= |g.channels| ==> ChannelOf(g, k).offset < TWO_32
  }

  lemma {:induction false} ChannelsAreRead(f: bytes, p: nat, g: ChannelGroup, i: nat)
    requires TextsPlaced(f, p, g) && CnsPlaced(f, p, g) && i <= |g.channels| && OffsetsFit(g, i)
    ensures ChannelsFrom(f, CnPos(g, p, i)) == Some(ChannelsOf(g, i))
    decreases |g.channels| - i
  {
    hide TextsPlaced, BlockAt, Find, CnBlock, ChannelOf, ChannelFrom, ChannelsOf, CgPos;
    var next := CnNext(g, p, i);
    CnIsFound(f, p, g, i, next);
    ChannelReadsBack(f, p, g, i, next);
    ChannelsFromHere(g, i);
    if i == |g.channels| {
    } else {
      ChannelsAreRead(f, p, g, i + 1);
    }
  }

  lemma ChannelsFromHere(g: ChannelGroup, i: nat)
    requires i <= |g.channels|
    ensures ChannelsOf(g, i) ==
              if i == |g.channels| then [ChannelOf(g, i)] else [ChannelOf(g, i)] + ChannelsOf(g, i + 1)
  {
    hide ChannelOf;
  }

  /** A reader only ever sees 32 bits of an offset. */
  lemma {:induction false} ReadOffsetsFit(f: bytes, pos: nat)
    ensures ChannelsFrom(f, pos).Some? ==> forall ch :: ch in ChannelsFrom(f, pos).value ==> ch.offset < TWO_32
    decreases |f| - pos
  {
    hide Find, TextFrom;
    if pos == 0 {
    } else {
      var b := Find(f, pos, "##CN", 8, 72);
      if b.Some? && pos < b.value.links[0] && pos < |f| {
        ReadOffsetsFit(f, b.value.links[0]);
      }
    }
  }

  /** Following the channel chain gives the time master and the channels in order, exactly when
      their offsets fit 32 bits. */
  lemma ChannelsReadBack(f: bytes, p: nat, g: ChannelGroup, i: nat)
    requires TextsPlaced(f, p, g) && CnsPlaced(f, p, g) && i <= |g.channels|
    ensures ChannelsFrom(f, CnPos(g, p, i)) == Some(ChannelsOf(g, i)) <==> OffsetsFit(g, i)
  {
    hide TextsPlaced, CnsPlaced, ChannelsFrom, ChannelOf, CnPos;
    if OffsetsFit(g, i) {
      ChannelsAreRead(f, p, g, i);
    } else {
      var k :| i <= k <= |g.channels| && ChannelOf(g, k).offset >= TWO_32;
      assert ChannelsOf(g, i)[k - i] == ChannelOf(g, k);
      ReadOffsetsFit(f, CnPos(g, p, i));
    }
  }

  lemma SmallRecordsFit(g: ChannelGroup)
    requires RecordSize(g) < TWO_32
    ensures OffsetsFit(g, 0)
  {
    hide Ctype, UpToNul, Ascii, Offset;
    forall k | 1 <= k <= |g.channels|
      ensures ChannelOf(g, k).offset < TWO_32
    {
      OffsetsGrow(g.channels, k - 1, |g.channels|);
    }
  }

  lemma CgFields(cycles: nat, recordSize: nat)
    requires cycles < TWO_64 && recordSize < TWO_32
    ensures |CgData(cycles, recordSize)| == 32
    ensures U64(CgData(cycles, recordSize)[8..16]) == cycles && U32(CgData(cycles, recordSize)[24..28]) == recordSize
  {
    hide Le, U64, U32;
    var d := CgData(cycles, recordSize);
    assert d[8..16] == Le(cycles, 8);
    assert d[24..28] == Le(recordSize, 4);
    U64OfLe(cycles);
    U32OfLe(recordSize);
  }

  lemma GroupIsRead(f: bytes, p: nat, g: ChannelGroup, next: nat, c: Casts)
    requires Placed(f, p, GroupBlocks(g, p, next, c)) && RecordSize(g) < TWO_32 && |g.times| < TWO_64
    ensures GroupFrom(f, AsRead(DgBlock(g, p, next))) == Some(ViewOf(g, c))
  {
    hide Placed, BlockAt, TextPos, CnPos, CgPos, DtPos, CgData, Records, RecordSize, ChannelsFrom, TextFrom, Ascii,
         UpToNul, U64, U32, GroupBlocks, OffsetsFit, TextsPlaced, CnsPlaced, ChannelOf;
    GroupIsPlaced(f, p, g, next, c);
    SmallRecordsFit(g);
    ChannelsAreRead(f, p, g, 0);
    CgFields(|g.times|, RecordSize(g));
    FirstText(f, p, g);
    assert ChannelsOf(g, 0) == ViewOf(g, c).channels;
  }

  /** A reader only ever sees 32 bits of a record size. */
  lemma ReadSizeFits(f: bytes, dg: FileBlock)
    requires |dg.links| >= 4
    ensures GroupFrom(f, dg).Some? ==> GroupFrom(f, dg).value.recordSize < TWO_32
  {
    hide Find, TextFrom, ChannelsFrom;
  }

  /** Reading one group through its data group block gives its own data, exactly when its record
      size fits 32 bits. */
  lemma GroupReadsBack(f: bytes, p: nat, g: ChannelGroup, next: nat, c: Casts)
    requires Placed(f, p, GroupBlocks(g, p, next, c)) && |g.times| < TWO_64
    ensures GroupFrom(f, AsRead(DgBlock(g, p, next))) == Some(ViewOf(g, c)) <==> RecordSize(g) < TWO_32
  {
    hide Placed, GroupBlocks, GroupFrom, RecordSize, Records, UpToNul, ChannelOf;
    ReadSizeFits(f, AsRead(DgBlock(g, p, next)));
    if RecordSize(g) < TWO_32 {
      GroupIsRead(f, p, g, next, c);
    }
  }

  lemma FirstText(f: bytes, p: nat, g: ChannelGroup)
    requires TextsPlaced(f, p, g)
    ensures TextFrom(f, TextPos(g, p, 0)) == Some(UpToNul(g.name))
  {
    hide TextFrom, UpToNul, TextPos;
    assert TextAt(g, 0) == g.name;
  }

  // ---- Every block is stored with its own length ----

  ghost predicate AllStored(blocks: seq<Block>)
  {
    forall j :: 0 <= j < |blocks| ==> WellStored(blocks[j])
  }

  lemma StoredConcat(a: seq<Block>, b: seq<Block>)
    ensures AllStored(a + b) <==> AllStored(a) && AllStored(b)
  {
    hide WellStored;
    var ab := a + b;
    if AllStored(ab) {
      forall j | 0 <= j < |a| ensures WellStored(a[j]) { assert ab[j] == a[j]; }
      forall j | 0 <= j < |b| ensures WellStored(b[j]) { assert ab[|a| + j] == b[j]; }
    }
  }

  lemma StoredOne(b: Block)
    ensures AllStored([b]) <==> WellStored(b)
  {
    hide WellStored;
    assert [b][0] == b;
  }

  lemma TextIsStored(id: blockId, text: bytes)
    requires Extent(TextBlock(id, text)) < TWO_64
    ensures WellStored(TextBlock(id, text))
  {}

  lemma TextsAreStored(g: ChannelGroup, p: nat)
    requires DgPos(g, p) < TWO_64
    ensures AllStored(Texts(g, TextCount(g)))
  {
    hide TextBlock, TextAt, Size, Extent, WellStored;
    forall j | 0 <= j < TextCount(g)
      ensures WellStored(Texts(g, TextCount(g))[j])
    {
      TextsGrow(g, j + 1, TextCount(g));
      SizeOfTexts(g, j);
      TextIsStored("##TX", TextAt(g, j));
    }
  }

  lemma TextPosBound(g: ChannelGroup, p: nat, j: nat)
    requires j <= TextCount(g)
    ensures TextPos(g, p, j) <= DgPos(g, p)
  {
    TextsGrow(g, j, TextCount(g));
  }

  lemma CnsAreStored(g: ChannelGroup, p: nat)
    requires DtPos(g, p) < TWO_64
    ensures AllStored(Cns(g, p, |g.channels| + 1, 0))
  {
    hide Cns, CnData, CnInfo, TextPos;
    var cns := Cns(g, p, |g.channels| + 1, 0);
    forall i | 0 <= i < |cns|
      ensures WellStored(cns[i])
    {
      CnAt(g, p, |g.channels| + 1, 0, i);
      CnFields(CnInfo(g, i));
      TextPosBound(g, p, 1 + 2 * i);
      TextPosBound(g, p, 2 + 2 * i);
    }
  }

  lemma StrictProducts(n: nat, a: nat, b: nat)
    requires n > 0 && a < b
    ensures n * a < n * b
  {
    ProductOrder(n, a + 1, b);
    assert n * (a + 1) == n * a + n;
  }

  lemma EqualProducts(n: nat, a: nat, b: nat)
    requires n > 0 && n * a == n * b && a <= b
    ensures a == b
  {
    if a < b {
      StrictProducts(n, a, b);
    }
  }

  /** The data block is stored with its own length exactly when the record size fits 32 bits. */
  lemma DtIsStored(g: ChannelGroup, c: Casts)
    requires g.times != [] && 24 + |g.times| * RecordSize(g) < TWO_64
    ensures WellStored(DtBlock(g, c)) <==> RecordSize(g) < TWO_32
    ensures DtBlock(g, c).len == Extent(DtBlock(g, c)) <==> RecordSize(g) < TWO_32
  {
    hide Records, RecordSize;
    SizeOfRecords(g, |g.times|, c);
    if |g.times| * (RecordSize(g) % TWO_32) == |g.times| * RecordSize(g) {
      EqualProducts(|g.times|, RecordSize(g) % TWO_32, RecordSize(g));
    }
  }

  lemma GroupIsStored(g: ChannelGroup, p: nat, next: nat, c: Casts)
    requires g.times != [] && GroupEnd(g, p) < TWO_64 && next < TWO_64
    ensures AllStored(GroupBlocks(g, p, next, c)) <==> RecordSize(g) < TWO_32
  {
    hide AllStored, Texts, Cns, DtBlock, TextPos, RecordSize, CgData;
    var t, dg, cg, cns, dt := Texts(g, TextCount(g)), DgBlock(g, p, next), CgBlock(g, p),
        Cns(g, p, |g.channels| + 1, 0), DtBlock(g, c);
    GroupEndsLater(g, p);
    TextsAreStored(g, p);
    CnsAreStored(g, p);
    DtIsStored(g, c);
    DgAndCgExtents(g, p, next);
    TextPosBound(g, p, 0);
    StoredOne(dg);
    StoredOne(cg);
    StoredOne(dt);
    StoredConcat(t, [dg]);
    StoredConcat(t + [dg], [cg]);
    StoredConcat(t + [dg] + [cg], cns);
    StoredConcat(t + [dg] + [cg] + cns, [dt]);
  }

  ghost predicate RecordsFit(gs: seq<ChannelGroup>, n: nat)
    requires n <= |gs|
  {
    forall i :: 0 <= i < n ==> RecordSize(gs[i]) < TWO_32
  }

  ghost predicate AllHaveRows(gs: seq<ChannelGroup>)
  {
    forall i :: 0 <= i < |gs| ==> gs[i].times != []
  }

  lemma {:induction false} ChainIsStored(gs: seq<ChannelGroup>, n: nat, next: nat, xml: bytes, c: Casts)
    requires n <= |gs| && AllHaveRows(gs) && FileSize(gs, xml) < TWO_64 && next < TWO_64
    ensures AllStored(Chain(gs, n, next, xml, c)) <==> RecordsFit(gs, n)
  {
    hide AllStored, GroupBlocks, GroupEnd, DgPos, RecordSize;
    if n == 0 {
      NothingStored();
    } else {
      StartsGrow(gs, n, |gs|, xml);
      GroupEndsLater(gs[n - 1], Start(gs, n - 1, xml));
      var dg := DgOf(gs, n - 1, xml);
      DgInside(gs, n - 1, xml);
      ChainIsStored(gs, n - 1, dg, xml, c);
      GroupIsStored(gs[n - 1], Start(gs, n - 1, xml), next, c);
      StoredConcat(Chain(gs, n - 1, dg, xml, c), GroupBlocks(gs[n - 1], Start(gs, n - 1, xml), next, c));
      assert RecordsFit(gs, n) <==> RecordsFit(gs, n - 1) && RecordSize(gs[n - 1]) < TWO_32;
    }
  }

  lemma NothingStored()
    ensures AllStored([])
  {}

  /** A data group lies inside the file, and before the next group. */
  lemma DgInside(gs: seq<ChannelGroup>, i: nat, xml: bytes)
    requires i < |gs|
    ensures Start(gs, i, xml) <= DgOf(gs, i, xml) && DgOf(gs, i, xml) + 64 <= Start(gs, i + 1, xml) <= FileSize(gs, xml)
    ensures Start(gs, i, xml) >= 224
  {
    hide TextPos, RecordSize, TextBlock, Extent;
    GroupEndsLater(gs[i], Start(gs, i, xml));
    StartsGrow(gs, i + 1, |gs|, xml);
    StartsGrow(gs, 0, i, xml);
    FirstStart(gs, xml);
  }

  lemma FirstStart(gs: seq<ChannelGroup>, xml: bytes)
    ensures Start(gs, 0, xml) == 224 + Extent(TextBlock("##MD", xml))
  {}

  lemma {:induction false} KeptHaveRows(groups: seq<ChannelGroup>)
    ensures AllHaveRows(Kept(groups))
    ensures forall g :: g in Kept(groups) <==> g in groups && g.channels != [] && g.times != []
  {
    if groups == [] {
    } else {
      var n := |groups| - 1;
      KeptHaveRows(groups[..n]);
      assert groups == groups[..n] + [groups[n]];
    }
  }

  lemma FrontIsStored(first: nat, xml: bytes, t0: uint64)
    requires first < TWO_64 && 224 + Extent(TextBlock("##MD", xml)) < TWO_64
    ensures AllStored([HdBlock(first, t0)] + [FhBlock(t0)] + [TextBlock("##MD", xml)])
  {
    hide AllStored, TextBlock, HdData, FhData;
    StoredOne(HdBlock(first, t0));
    StoredOne(FhBlock(t0));
    StoredOne(TextBlock("##MD", xml));
    TextIsStored("##MD", xml);
    StoredConcat([HdBlock(first, t0)], [FhBlock(t0)]);
    StoredConcat([HdBlock(first, t0)] + [FhBlock(t0)], [TextBlock("##MD", xml)]);
  }

  lemma FileIsStored(gs: seq<ChannelGroup>, xml: bytes, t0: uint64, c: Casts)
    requires AllHaveRows(gs) && FileSize(gs, xml) < TWO_64
    ensures AllStored(FileBlocks(gs, |gs|, xml, t0, c)) <==> RecordsFit(gs, |gs|)
  {
    hide AllStored, Chain, RecordsFit, HdBlock, FhBlock, TextBlock, DgOf, Start, Extent;
    var first := if |gs| == 0 then 0 else DgOf(gs, 0, xml);
    FirstStart(gs, xml);
    StartsGrow(gs, 0, |gs|, xml);
    if |gs| > 0 {
      DgInside(gs, 0, xml);
    }
    FrontIsStored(first, xml, t0);
    ChainIsStored(gs, |gs|, 0, xml, c);
    StoredConcat([HdBlock(first, t0)] + [FhBlock(t0)] + [TextBlock("##MD", xml)], Chain(gs, |gs|, 0, xml, c));
  }

  /** After the 64 identification bytes the file is tiled by blocks. Their stored lengths are their
      extents exactly when no record is longer than 32 bits can say. */
  lemma FileIsTiled(groups: seq<ChannelGroup>, xml: bytes, t0: uint64, c: Casts)
    requires FileSize(Kept(groups), xml) < TWO_64
    ensures var blocks := FileBlocks(Kept(groups), |Kept(groups)|, xml, t0, c);
            && Image(groups, xml, t0, c)[..64] == IdHead()
            && Image(groups, xml, t0, c)[64..] == Flat(blocks)
            && (AllStored(blocks) <==> forall g :: g in groups && g.channels != [] && g.times != [] ==>
                  RecordSize(g) < TWO_32)
  {
    hide AllStored, Kept, FileBlocks, RecordSize, Flat, IdHead, FileSize;
    var gs := Kept(groups);
    KeptHaveRows(groups);
    FileIsStored(gs, xml, t0, c);
    if forall g :: g in groups && g.channels != [] && g.times != [] ==> RecordSize(g) < TWO_32 {
      forall i | 0 <= i < |gs| ensures RecordSize(gs[i]) < TWO_32 { assert gs[i] in gs; }
    } else {
      var g :| g in groups && g.channels != [] && g.times != [] && RecordSize(g) >= TWO_32;
      var i :| 0 <= i < |gs| && gs[i] == g;
    }
  }

  // ---- Following the data group chain ----

  function NextDg(gs: seq<ChannelGroup>, n: nat, i: nat, next: nat, xml: bytes): nat
    requires i < n <= |gs|
  {
    if i == n - 1 then next else DgOf(gs, i + 1, xml)
  }

  /** Group i within the chain. */
  lemma {:induction false} ChainSplit(gs: seq<ChannelGroup>, n: nat, next: nat, xml: bytes, c: Casts, i: nat)
      returns (rest: seq<Block>)
    requires i < n <= |gs|
    ensures Chain(gs, n, next, xml, c) ==
              Chain(gs, i, DgOf(gs, i, xml), xml, c)
                  + GroupBlocks(gs[i], Start(gs, i, xml), NextDg(gs, n, i, next, xml), c) + rest
  {
    hide GroupBlocks, Start, DgOf;
    if i == n - 1 {
      rest := [];
    } else {
      var r := ChainSplit(gs, n - 1, DgOf(gs, n - 1, xml), xml, c, i);
      rest := r + GroupBlocks(gs[n - 1], Start(gs, n - 1, xml), next, c);
    }
  }

  lemma GroupInFile(f: bytes, gs: seq<ChannelGroup>, xml: bytes, t0: uint64, c: Casts, i: nat)
    requires i < |gs| && Placed(f, 64, FileBlocks(gs, |gs|, xml, t0, c))
    ensures Placed(f, Start(gs, i, xml), GroupBlocks(gs[i], Start(gs, i, xml), NextDg(gs, |gs|, i, 0, xml), c))
  {
    hide Placed, Chain, GroupBlocks, Size, Flat, HdBlock, FhBlock, TextBlock, Start, DgOf, NextDg, Extent;
    var front := [HdBlock(DgOf(gs, 0, xml), t0)] + [FhBlock(t0)] + [TextBlock("##MD", xml)];
    var rest := ChainSplit(gs, |gs|, 0, xml, c, i);
    var before := Chain(gs, i, DgOf(gs, i, xml), xml, c);
    var group := GroupBlocks(gs[i], Start(gs, i, xml), NextDg(gs, |gs|, i, 0, xml), c);
    PlacedBack(f, 64, front, Chain(gs, |gs|, 0, xml, c));
    SizeOfFront(DgOf(gs, 0, xml), xml, t0);
    FirstStart(gs, xml);
    SizeOfChain(gs, i, DgOf(gs, i, xml), xml, c);
    PlacedFront(f, Start(gs, 0, xml), before + group, rest);
    PlacedBack(f, Start(gs, 0, xml), before, group);
  }

  function Views(gs: seq<ChannelGroup>, i: nat, c: Casts): (r: seq<GroupView>)
    requires i <= |gs|
    ensures |r| == |gs| - i
  {
    seq(|gs| - i, k requires 0 <= k < |gs| - i => ViewOf(gs[i + k], c))
  }

  lemma DgIsFound(f: bytes, g: ChannelGroup, p: nat, next: nat, c: Casts)
    requires Placed(f, p, GroupBlocks(g, p, next, c))
    ensures Find(f, DgPos(g, p), "##DG", 4, 8) == Some(AsRead(DgBlock(g, p, next)))
    ensures AsRead(DgBlock(g, p, next)).links[0] == next && DgPos(g, p) + 24 <= |f|
  {
    hide Placed, GroupBlocks, TextsPlaced, CnsPlaced, TextPos, CgPos, DtPos, Ascii;
    GroupIsPlaced(f, p, g, next, c);
  }

  ghost predicate RowsCountable(gs: seq<ChannelGroup>)
  {
    forall i :: 0 <= i < |gs| ==> |gs[i].times| < TWO_64
  }

  lemma {:induction false} GroupsReadBack(f: bytes, gs: seq<ChannelGroup>, xml: bytes, t0: uint64, c: Casts, i: nat)
    requires i < |gs| && Placed(f, 64, FileBlocks(gs, |gs|, xml, t0, c))
    requires RecordsFit(gs, |gs|) && RowsCountable(gs)
    ensures GroupsFrom(f, DgOf(gs, i, xml)) == Some(Views(gs, i, c))
    decreases |gs| - i
  {
    hide Placed, FileBlocks, GroupBlocks, Find, GroupFrom, ViewOf, DgBlock, RecordSize, DgPos, Start, GroupEnd;
    var g, p := gs[i], Start(gs, i, xml);
    var next := NextDg(gs, |gs|, i, 0, xml);
    GroupInFile(f, gs, xml, t0, c, i);
    DgIsFound(f, g, p, next, c);
    GroupIsRead(f, p, g, next, c);
    DgInside(gs, i, xml);
    if i == |gs| - 1 {
      assert Views(gs, i, c) == [ViewOf(g, c)];
    } else {
      DgInside(gs, i + 1, xml);
      GroupsReadBack(f, gs, xml, t0, c, i + 1);
      assert Views(gs, i, c) == [ViewOf(g, c)] + Views(gs, i + 1, c);
    }
  }

  lemma HdIsFound(f: bytes, first: nat, t0: uint64)
    requires BlockAt(f, 64) == Some(AsRead(HdBlock(first, t0)))
    ensures Find(f, 64, "##HD", 6, 32) == Some(AsRead(HdBlock(first, t0))) && |f| >= 64
    ensures AsRead(HdBlock(first, t0)).links[0] == first
  {
    hide Ascii, HdData;
  }

  lemma HeadIsMagic(s: bytes)
    ensures (IdHead() + s)[..8] == Ascii("MDF     ")
  {}

  lemma FileIsRead(groups: seq<ChannelGroup>, xml: bytes, t0: uint64, c: Casts)
    requires FileSize(Kept(groups), xml) < TWO_64
    requires forall g :: g in groups && g.channels != [] && g.times != [] ==> RecordSize(g) < TWO_32
    ensures ReadFile(Image(groups, xml, t0, c)) == Some(Views(Kept(groups), 0, c))
  {
    hide Kept, RecordSize, Flat, Size, IdHead, Chain, GroupsFrom, HdBlock, FhBlock, TextBlock, Find, BlockAt,
         WellStored, Ascii, DgOf, Start, AsRead;
    var gs := Kept(groups);
    var f := Image(groups, xml, t0, c);
    var blocks := FileBlocks(gs, |gs|, xml, t0, c);
    KeptHaveRows(groups);
    FileIsTiled(groups, xml, t0, c);
    PlacedFile(IdHead(), blocks);
    HeadIsMagic(Flat(blocks));
    var first := if |gs| == 0 then 0 else DgOf(gs, 0, xml);
    PlacedAt(f, 64, blocks, 0);
    assert blocks[..0] == [] && blocks[0] == HdBlock(first, t0);
    FlatOfNothing();
    HdIsFound(f, first, t0);
    forall i | 0 <= i < |gs|
      ensures RecordSize(gs[i]) < TWO_32 && |gs[i].times| < TWO_64
    {
      assert gs[i] in gs;
      RowsInFile(gs, i, xml);
    }
    if |gs| > 0 {
      DgInside(gs, 0, xml);
      GroupsReadBack(f, gs, xml, t0, c, 0);
    } else {
      EndOfGroups(f);
      assert Views(gs, 0, c) == [];
    }
  }

  lemma {:induction false} ReadSizesFit(f: bytes, pos: nat)
    ensures GroupsFrom(f, pos).Some? ==> forall g :: g in GroupsFrom(f, pos).value ==> g.recordSize < TWO_32
    decreases |f| - pos
  {
    hide Find, GroupFrom;
    if pos == 0 {
    } else {
      var dg := Find(f, pos, "##DG", 4, 8);
      if dg.Some? {
        ReadSizeFits(f, dg.value);
        if pos < dg.value.links[0] && pos < |f| {
          ReadSizesFit(f, dg.value.links[0]);
        }
      }
    }
  }

  /** Reading a built file through its links gives exactly the groups with channels and rows, in
      order, with their names up to NUL, channels, offsets, cycle counts and record bytes. That is
      so exactly when every record size fits 32 bits. */
  lemma FileReadsBack(groups: seq<ChannelGroup>, xml: bytes, t0: uint64, c: Casts)
    requires FileSize(Kept(groups), xml) < TWO_64
    ensures ReadFile(Image(groups, xml, t0, c)) == Some(Views(Kept(groups), 0, c)) <==>
            forall g :: g in groups && g.channels != [] && g.times != [] ==> RecordSize(g) < TWO_32
  {
    hide Kept, RecordSize, Image, GroupsFrom, Find, FileSize, ViewOf, Ascii;
    var gs, f := Kept(groups), Image(groups, xml, t0, c);
    KeptHaveRows(groups);
    if forall g :: g in groups && g.channels != [] && g.times != [] ==> RecordSize(g) < TWO_32 {
      FileIsRead(groups, xml, t0, c);
    } else {
      var g :| g in groups && g.channels != [] && g.times != [] && RecordSize(g) >= TWO_32;
      var i :| 0 <= i < |gs| && gs[i] == g;
      assert Views(gs, 0, c)[i] == ViewOf(g, c);
      ViewSize(g, c);
      match Find(f, 64, "##HD", 6, 32)
      case None =>
      case Some(hd) => ReadSizesFit(f, hd.links[0]);
    }
  }

  lemma ViewSize(g: ChannelGroup, c: Casts)
    ensures ViewOf(g, c).recordSize == RecordSize(g)
  {}

  // ---- A record that does not fit 32 bits ----

  /** One row of n doubles. */
  function WideGroup(n: nat): ChannelGroup
  {
    ChannelGroup([], seq(n, _ => ChannelDesc([], [], "float64", [])), [0])
  }

  lemma {:induction false} WideOffset(n: nat, i: nat)
    requires i <= n
    ensures Offset(WideGroup(n).channels, i) == 8 + 8 * i
  {
    if i == 0 {
    } else {
      WideOffset(n, i - 1);
    }
  }

  /** With 2^29 doubles a row takes 2^32 + 8 bytes, and the data block says it takes 8. */
  lemma WideGroupIsStoredShort(c: Casts)
    ensures var dt := DtBlock(WideGroup(0x2000_0000), c);
            dt.len == 24 + 8 && Extent(dt) == 24 + TWO_32 + 8 && !WellStored(dt)
  {
    hide WideGroup, Offset, Records, WellStored;
    var g := WideGroup(0x2000_0000);
    WideOffset(0x2000_0000, 0x2000_0000);
    OneRow(0x2000_0000);
    SizeOfRecords(g, 1, c);
    DtIsStored(g, c);
  }

  lemma OneRow(n: nat)
    ensures |WideGroup(n).times| == 1 && |WideGroup(n).channels| == n
  {}

  lemma RowsInFile(gs: seq<ChannelGroup>, i: nat, xml: bytes)
    requires i < |gs|
    ensures |gs[i].times| <= FileSize(gs, xml)
  {
    hide GroupEnd;
    RowsFit(gs[i], Start(gs, i, xml));
    StartsGrow(gs, i + 1, |gs|, xml);
  }

  lemma EndOfGroups(f: bytes)
    ensures GroupsFrom(f, 0) == Some([])
  {}

  // ---- The bytes of one cell ----

  function RowStart(g: ChannelGroup, row: nat): nat
  {
    if row == 0 then 0 else RowStart(g, row - 1) + RecordSize(g)
  }

  lemma {:induction false} RowStartIs(g: ChannelGroup, row: nat)
    ensures RowStart(g, row) == row * RecordSize(g)
  {
    hide RecordSize;
    if row == 0 {
    } else {
      RowStartIs(g, row - 1);
      OneMoreRow(row - 1, RecordSize(g));
    }
  }

  lemma {:induction false} RowSlice(g: ChannelGroup, rows: nat, row: nat, c: Casts)
    requires row < rows <= |g.times|
    ensures |Records(g, rows, c)| == RowStart(g, rows) && RowStart(g, row) + RecordSize(g) <= RowStart(g, rows)
    ensures Records(g, rows, c)[RowStart(g, row)..RowStart(g, row) + RecordSize(g)] == Cells(g, row, |g.channels|, c)
  {
    hide Cells, RecordSize;
    var at, r := RowStart(g, row), RecordSize(g);
    var init, last := Records(g, rows - 1, c), Cells(g, rows - 1, |g.channels|, c);
    SizeOfRow(g, rows - 1, c);
    if row < rows - 1 {
      RowSlice(g, rows - 1, row, c);
      assert (init + last)[at..at + r] == init[at..at + r];
    } else {
      SizeOfRecords(g, row, c);
      RowStartIs(g, row);
      assert (init + last)[at..at + r] == last;
    }
  }

  lemma {:induction false} CellSlice(g: ChannelGroup, row: nat, n: nat, i: nat, c: Casts)
    requires row < |g.times| && i < n <= |g.channels|
    ensures var o := Offset(g.channels, i); var e := Encode(Sample(g.channels[i], row, c), g.channels[i].dataType, c);
            o + |e| <= |Cells(g, row, n, c)| && Cells(g, row, n, c)[o..o + |e|] == e
  {
    hide Encode, Sample, Ctype;
    var o := Offset(g.channels, i);
    var init := Cells(g, row, n - 1, c);
    if i == n - 1 {
    } else {
      CellSlice(g, row, n - 1, i, c);
      var e := Encode(Sample(g.channels[i], row, c), g.channels[i].dataType, c);
      assert Cells(g, row, n, c)[o..o + |e|] == init[o..o + |e|];
    }
  }

  lemma {:induction false} TimeSlice(g: ChannelGroup, row: nat, n: nat, c: Casts)
    requires row < |g.times| && n <= |g.channels|
    ensures |Cells(g, row, n, c)| >= 8 && Cells(g, row, n, c)[..8] == Le(g.times[row], 8)
  {
    hide Encode, Sample, Ctype, Le;
    if n == 0 {
    } else {
      TimeSlice(g, row, n - 1, c);
      assert Cells(g, row, n, c)[..8] == Cells(g, row, n - 1, c)[..8];
    }
  }

  lemma SliceOfSlice(s: bytes, a: nat, n: nat, o: nat, k: nat)
    requires a + n <= |s| && o + k <= n
    ensures s[a..a + n][o..o + k] == s[a + o..a + o + k]
  {
    var t, u := s[a..a + n][o..o + k], s[a + o..a + o + k];
    forall j | 0 <= j < k
      ensures t[j] == u[j]
    {
      assert t[j] == s[a..a + n][o + j];
    }
  }

  lemma CellInRow(s: bytes, at: nat, cells: bytes, o: nat, e: bytes, time: bytes)
    requires at + |cells| <= |s| && s[at..at + |cells|] == cells
    requires o + |e| <= |cells| && cells[o..o + |e|] == e
    requires |cells| >= 8 && cells[..8] == time
    ensures s[at + o..at + o + |e|] == e && s[at..at + 8] == time
  {
    SliceOfSlice(s, at, |cells|, o, |e|);
    SliceOfSlice(s, at, |cells|, 0, 8);
    assert cells[0..8] == cells[..8];
  }

  /** In the record bytes that a reader gets, row * record size is where the row begins, with its
      time; the cell of a channel lies at the offset its channel block gives and is the encoding
      of that sample. */
  lemma CellReadsBack(g: ChannelGroup, row: nat, i: nat, at: nat, c: Casts)
    requires row < |g.times| && i < |g.channels| && at == row * ViewOf(g, c).recordSize
    ensures var v := ViewOf(g, c);
            && |v.channels| == |g.channels| + 1
            && var o := v.channels[i + 1].offset;
               var e := Encode(Sample(g.channels[i], row, c), g.channels[i].dataType, c);
               && at + o + |e| <= |v.records| && v.records[at + o..at + o + |e|] == e
               && at + 8 <= |v.records| && v.records[at..at + 8] == Le(g.times[row], 8)
  {
    hide *;
    ViewFields(g, i, c);
    RowStartIs(g, row);
    CellOfRecords(g, row, i, c);
  }

  lemma CellOfRecords(g: ChannelGroup, row: nat, i: nat, c: Casts)
    requires row < |g.times| && i < |g.channels|
    ensures var s := Records(g, |g.times|, c); var at := RowStart(g, row); var o := Offset(g.channels, i);
            var e := Encode(Sample(g.channels[i], row, c), g.channels[i].dataType, c);
            && at + o + |e| <= |s| && s[at + o..at + o + |e|] == e
            && at + 8 <= |s| && s[at..at + 8] == Le(g.times[row], 8)
  {
    hide *;
    RowSlice(g, |g.times|, row, c);
    CellSlice(g, row, |g.channels|, i, c);
    TimeSlice(g, row, |g.channels|, c);
    SizeOfRow(g, row, c);
    CellInRow(Records(g, |g.times|, c), RowStart(g, row), Cells(g, row, |g.channels|, c), Offset(g.channels, i),
              Encode(Sample(g.channels[i], row, c), g.channels[i].dataType, c), Le(g.times[row], 8));
  }

  lemma ViewFields(g: ChannelGroup, i: nat, c: Casts)
    requires i < |g.channels|
    ensures var v := ViewOf(g, c);
            && v.recordSize == RecordSize(g) && v.records == Records(g, |g.times|, c)
            && |v.channels| == |g.channels| + 1 && v.channels[i + 1].offset == Offset(g.channels, i)
  {
    hide RecordSize, Records, Offset, Ctype, UpToNul;
    assert ViewOf(g, c).channels[i + 1] == ChannelOf(g, i + 1);
  }
}
