/** Every link of a built MDF4 file is zero or the start of a block of the kind its slot asks for. */
module Mdf4Links {
  import opened Bytes
  import opened Mdf4Blocks
  import opened Mdf4Layout
  import opened Mdf4Reader

  /** The kind of block slot k of a block leads to; "" when the slot is never used. */
  function Target(id: string, k: nat): string
  {
    if id == "##HD" then (if k == 0 then "##DG" else if k == 1 then "##FH" else if k == 5 then "##MD" else "")
    else if id == "##FH" then (if k == 1 then "##MD" else "")
    else if id == "##DG" then (if k == 0 then "##DG" else if k == 1 then "##CG" else if k == 2 then "##DT" else "")
    else if id == "##CG" then (if k == 1 then "##CN" else if k == 2 then "##TX" else "")
    else if id == "##CN" then (if k == 0 then "##CN" else if k == 2 || k == 6 then "##TX" else "")
    else ""
  }

  /** A block of this kind begins at pos of the file, whose blocks follow the 64 head bytes. */
  ghost predicate Begins(all: seq<Block>, pos: nat, id: string)
  {
    exists j :: 0 <= j < |all| && 64 + Size(all[..j]) == pos && all[j].id == id
  }

  ghost predicate LinkFits(all: seq<Block>, b: Block, k: nat)
    requires k < |b.links|
  {
    b.links[k] == 0 || (Target(b.id, k) != "" && Begins(all, b.links[k], Target(b.id, k)))
  }

  ghost predicate LinksFit(all: seq<Block>, b: Block)
  {
    forall k :: 0 <= k < |b.links| ==> LinkFits(all, b, k)
  }

  ghost predicate AllLinksFit(all: seq<Block>, blocks: seq<Block>)
  {
    forall b :: b in blocks ==> LinksFit(all, b)
  }

  lemma BeginsHere(all: seq<Block>, a: seq<Block>, x: Block, z: seq<Block>)
    requires all == a + [x] + z
    ensures Begins(all, 64 + Size(a), x.id)
  {
    hide Size;
    assert all[..|a|] == a && all[|a|] == x;
  }

  // ---- Where the blocks of one group begin ----

  /** The starts of all blocks of a group that begins at p. */
  ghost predicate GroupBegins(all: seq<Block>, g: ChannelGroup, p: nat)
  {
    && (forall j :: 0 <= j < TextCount(g) ==> Begins(all, TextPos(g, p, j), "##TX"))
    && Begins(all, DgPos(g, p), "##DG")
    && Begins(all, CgPos(g, p), "##CG")
    && (forall i :: 0 <= i <= |g.channels| ==> Begins(all, CnPos(g, p, i), "##CN"))
    && Begins(all, DtPos(g, p), "##DT")
  }

  lemma TextBegins(all: seq<Block>, a: seq<Block>, g: ChannelGroup, p: nat, z: seq<Block>, j: nat)
    requires all == a + Texts(g, TextCount(g)) + z && 64 + Size(a) == p && j < TextCount(g)
    ensures Begins(all, TextPos(g, p, j), "##TX")
  {
    hide Size, Flat, Begins, TextBlock, TextAt;
    var t := Texts(g, TextCount(g));
    assert t[..j] == Texts(g, j);
    TakeOut(a, t, z, j);
    FlatOfConcat(a, t[..j]);
    BeginsHere(all, a + t[..j], t[j], t[j + 1..] + z);
    IdOfText(TextAt(g, j));
  }

  lemma TakeOut(a: seq<Block>, t: seq<Block>, z: seq<Block>, i: nat)
    requires i < |t|
    ensures a + t + z == (a + t[..i]) + [t[i]] + (t[i + 1..] + z)
  {
    assert t == t[..i] + [t[i]] + t[i + 1..];
  }

  lemma IdOfCn(g: ChannelGroup, p: nat, i: nat, next: nat)
    requires i <= |g.channels|
    ensures CnBlock(g, p, i, next).id == "##CN"
  {}

  lemma IdOfText(text: bytes)
    ensures TextBlock("##TX", text).id == "##TX"
  {}

  lemma CnBegins(all: seq<Block>, a: seq<Block>, g: ChannelGroup, p: nat, z: seq<Block>, i: nat)
    requires all == a + Cns(g, p, |g.channels| + 1, 0) + z && 64 + Size(a) == CnPos(g, p, 0) && i <= |g.channels|
    ensures Begins(all, CnPos(g, p, i), "##CN")
  {
    hide Size, Flat, Begins, Cns, CgPos, CnBlock;
    var t := Cns(g, p, |g.channels| + 1, 0);
    CnAt(g, p, |g.channels| + 1, 0, i);
    IdOfCn(g, p, i, CnNext(g, p, i));
    TakeOut(a, t, z, i);
    FlatOfConcat(a, t[..i]);
    BeginsHere(all, a + t[..i], t[i], t[i + 1..] + z);
  }

  lemma GroupBeginsHere(all: seq<Block>, a: seq<Block>, g: ChannelGroup, p: nat, next: nat, c: Casts, z: seq<Block>)
    requires all == a + GroupBlocks(g, p, next, c) + z && 64 + Size(a) == p
    ensures GroupBegins(all, g, p)
  {
    hide Size, Flat, Begins, Texts, Cns, DgBlock, CgBlock, DtBlock, TextPos, DgPos, CgPos, CnPos, DtPos, GroupBlocks;
    var t, dg, cg, cns, dt := Texts(g, TextCount(g)), DgBlock(g, p, next), CgBlock(g, p),
        Cns(g, p, |g.channels| + 1, 0), DtBlock(g, c);
    GroupParts(g, p, next, c);
    var t1, t2, t3 := t + [dg], t + [dg] + [cg], t + [dg] + [cg] + cns;
    IdsInGroup(g, p, next, c);
    FlatOfConcat(a, t);
    FlatOfConcat(a, t1);
    FlatOfConcat(a, t2);
    FlatOfConcat(a, t3);
    forall j | 0 <= j < TextCount(g)
      ensures Begins(all, TextPos(g, p, j), "##TX")
    {
      assert all == a + t + ([dg] + [cg] + cns + [dt] + z);
      TextBegins(all, a, g, p, [dg] + [cg] + cns + [dt] + z, j);
    }
    BeginsHere(all, a + t, dg, [cg] + cns + [dt] + z);
    BeginsHere(all, a + t1, cg, cns + [dt] + z);
    forall i | 0 <= i <= |g.channels|
      ensures Begins(all, CnPos(g, p, i), "##CN")
    {
      assert all == (a + t2) + cns + ([dt] + z);
      CnBegins(all, a + t2, g, p, [dt] + z, i);
    }
    BeginsHere(all, a + t3, dt, z);
  }

  lemma IdsInGroup(g: ChannelGroup, p: nat, next: nat, c: Casts)
    ensures DgBlock(g, p, next).id == "##DG" && CgBlock(g, p).id == "##CG" && DtBlock(g, c).id == "##DT"
  {}

  // ---- The links of one group ----

  lemma DgLinksFit(all: seq<Block>, g: ChannelGroup, p: nat, next: nat)
    requires GroupBegins(all, g, p) && (next == 0 || Begins(all, next, "##DG"))
    ensures LinksFit(all, DgBlock(g, p, next))
  {
    hide Begins, DgPos, CgPos, DtPos, TextPos;
  }

  lemma CgLinksFit(all: seq<Block>, g: ChannelGroup, p: nat)
    requires GroupBegins(all, g, p)
    ensures LinksFit(all, CgBlock(g, p))
  {
    hide Begins, DgPos, CgPos, DtPos, TextPos, CgData;
    assert Begins(all, CnPos(g, p, 0), "##CN");
    assert Begins(all, TextPos(g, p, 0), "##TX");
  }

  lemma CnLinksFit(all: seq<Block>, g: ChannelGroup, p: nat, i: nat)
    requires GroupBegins(all, g, p) && i <= |g.channels|
    ensures LinksFit(all, CnBlock(g, p, i, CnNext(g, p, i)))
  {
    hide Begins, DgPos, CgPos, DtPos, TextPos, CnData, CnInfo;
    assert Begins(all, TextPos(g, p, 1 + 2 * i), "##TX");
    assert Begins(all, TextPos(g, p, 2 + 2 * i), "##TX");
    if i < |g.channels| {
      assert Begins(all, CnPos(g, p, i + 1), "##CN");
    }
  }

  lemma GroupLinksFit(all: seq<Block>, g: ChannelGroup, p: nat, next: nat, c: Casts)
    requires GroupBegins(all, g, p) && (next == 0 || Begins(all, next, "##DG"))
    ensures AllLinksFit(all, GroupBlocks(g, p, next, c))
  {
    hide GroupBegins, LinksFit, Begins, Texts, Cns, DgBlock, CgBlock, DtBlock, TextPos;
    var t, cns := Texts(g, TextCount(g)), Cns(g, p, |g.channels| + 1, 0);
    DgLinksFit(all, g, p, next);
    CgLinksFit(all, g, p);
    NoLinksAtAll(all, g, c);
    forall i | 0 <= i < |cns|
      ensures LinksFit(all, cns[i])
    {
      CnAt(g, p, |g.channels| + 1, 0, i);
      CnLinksFit(all, g, p, i);
    }
  }

  lemma NoLinksAtAll(all: seq<Block>, g: ChannelGroup, c: Casts)
    ensures LinksFit(all, DtBlock(g, c))
    ensures forall b :: b in Texts(g, TextCount(g)) ==> LinksFit(all, b)
  {
    hide Records, RecordSize, Begins, TextAt;
  }

  // ---- The whole file ----

  lemma GroupOfFileBegins(gs: seq<ChannelGroup>, xml: bytes, t0: uint64, c: Casts, i: nat)
    requires i < |gs|
    ensures GroupBegins(FileBlocks(gs, |gs|, xml, t0, c), gs[i], Start(gs, i, xml))
  {
    hide Size, Flat, GroupBegins, GroupBlocks, Chain, HdBlock, FhBlock, TextBlock, Start, DgOf, NextDg, Extent;
    var all := FileBlocks(gs, |gs|, xml, t0, c);
    var front := [HdBlock(DgOf(gs, 0, xml), t0)] + [FhBlock(t0)] + [TextBlock("##MD", xml)];
    var rest := ChainSplit(gs, |gs|, 0, xml, c, i);
    var before := Chain(gs, i, DgOf(gs, i, xml), xml, c);
    var next := NextDg(gs, |gs|, i, 0, xml);
    var group := GroupBlocks(gs[i], Start(gs, i, xml), next, c);
    SizeOfFront(DgOf(gs, 0, xml), xml, t0);
    FirstStart(gs, xml);
    SizeOfChain(gs, i, DgOf(gs, i, xml), xml, c);
    FlatOfConcat(front, before);
    assert all == (front + before) + group + rest;
    GroupBeginsHere(all, front + before, gs[i], Start(gs, i, xml), next, c, rest);
  }

  lemma {:induction false} ChainLinksFit(all: seq<Block>, gs: seq<ChannelGroup>, n: nat, next: nat, xml: bytes,
      c: Casts)
    requires n <= |gs| && forall i :: 0 <= i < |gs| ==> GroupBegins(all, gs[i], Start(gs, i, xml))
    requires next == 0 || Begins(all, next, "##DG")
    ensures AllLinksFit(all, Chain(gs, n, next, xml, c))
  {
    hide GroupBegins, LinksFit, Begins, GroupBlocks, Start;
    if n == 0 {
    } else {
      var g, p := gs[n - 1], Start(gs, n - 1, xml);
      assert GroupBegins(all, g, p);
      GroupLinksFit(all, g, p, next, c);
      DgBegins(all, g, p);
      ChainLinksFit(all, gs, n - 1, DgOf(gs, n - 1, xml), xml, c);
    }
  }

  lemma DgBegins(all: seq<Block>, g: ChannelGroup, p: nat)
    requires GroupBegins(all, g, p)
    ensures Begins(all, DgPos(g, p), "##DG")
  {
    hide Begins, DgPos, CgPos, DtPos, TextPos, CnPos;
  }

  lemma Join(a: seq<Block>, b: seq<Block>, c: seq<Block>)
    ensures a + b + c == a + (b + c)
  {}

  lemma SecondBegins(all: seq<Block>, x: Block, y: Block, z: seq<Block>)
    requires all == [x] + [y] + z
    ensures Begins(all, 64 + Extent(x), y.id)
  {
    hide Size, Flat, Begins, Extent, BlockBytes;
    SizeOfOne(x);
    BeginsHere(all, [x], y, z);
  }

  lemma ThirdBegins(all: seq<Block>, x: Block, y: Block, w: Block, z: seq<Block>)
    requires all == [x] + [y] + [w] + z
    ensures Begins(all, 64 + Extent(x) + Extent(y), w.id)
  {
    hide Size, Flat, Begins, Extent, BlockBytes;
    SizeOfOne(x);
    FlatOfSnoc([x], y);
    BeginsHere(all, [x] + [y], w, z);
  }

  lemma FrontBegins(all: seq<Block>, first: nat, xml: bytes, t0: uint64, chain: seq<Block>)
    requires all == [HdBlock(first, t0)] + [FhBlock(t0)] + [TextBlock("##MD", xml)] + chain
    ensures Begins(all, 168, "##FH") && Begins(all, 224, "##MD")
  {
    hide Begins, HdData, FhData;
    var md := TextBlock("##MD", xml);
    Join([HdBlock(first, t0)] + [FhBlock(t0)], [md], chain);
    SecondBegins(all, HdBlock(first, t0), FhBlock(t0), [md] + chain);
    ThirdBegins(all, HdBlock(first, t0), FhBlock(t0), md, chain);
  }

  lemma HdLinksFit(all: seq<Block>, first: nat, t0: uint64)
    requires first == 0 || Begins(all, first, "##DG")
    requires Begins(all, 168, "##FH") && Begins(all, 224, "##MD")
    ensures LinksFit(all, HdBlock(first, t0))
  {
    hide Begins, HdData;
  }

  lemma FhLinksFit(all: seq<Block>, t0: uint64, xml: bytes)
    requires Begins(all, 224, "##MD")
    ensures LinksFit(all, FhBlock(t0)) && LinksFit(all, TextBlock("##MD", xml))
  {
    hide Begins, FhData;
  }

  lemma FrontLinksFit(all: seq<Block>, first: nat, xml: bytes, t0: uint64, chain: seq<Block>)
    requires all == [HdBlock(first, t0)] + [FhBlock(t0)] + [TextBlock("##MD", xml)] + chain
    requires first == 0 || Begins(all, first, "##DG")
    ensures AllLinksFit(all, [HdBlock(first, t0)] + [FhBlock(t0)] + [TextBlock("##MD", xml)])
  {
    hide Begins, LinksFit, HdBlock, FhBlock, TextBlock;
    FrontBegins(all, first, xml, t0, chain);
    HdLinksFit(all, first, t0);
    FhLinksFit(all, t0, xml);
  }

  /** For every list of groups: each link of each block of the built file is zero, or the start of
      a block of the kind the slot is for; slots without a purpose stay zero. */
  lemma LinksAreTyped(groups: seq<ChannelGroup>, xml: bytes, t0: uint64, c: Casts)
    ensures var blocks := FileBlocks(Kept(groups), |Kept(groups)|, xml, t0, c);
            Image(groups, xml, t0, c)[64..] == Flat(blocks) && AllLinksFit(blocks, blocks)
  {
    hide Kept, Flat, FileBlocks, IdHead, LinksFit, GroupBegins, Begins, Start, Chain, HdBlock, FhBlock, TextBlock;
    var gs := Kept(groups);
    var all := FileBlocks(gs, |gs|, xml, t0, c);
    forall i | 0 <= i < |gs|
      ensures GroupBegins(all, gs[i], Start(gs, i, xml))
    {
      GroupOfFileBegins(gs, xml, t0, c, i);
    }
    var first := if |gs| == 0 then 0 else DgOf(gs, 0, xml);
    if |gs| > 0 {
      DgBegins(all, gs[0], Start(gs, 0, xml));
    }
    WholeList(gs, xml, t0, c, first);
    FrontLinksFit(all, first, xml, t0, Chain(gs, |gs|, 0, xml, c));
    ChainLinksFit(all, gs, |gs|, 0, xml, c);
  }

  lemma WholeList(gs: seq<ChannelGroup>, xml: bytes, t0: uint64, c: Casts, first: nat)
    requires first == if |gs| == 0 then 0 else DgOf(gs, 0, xml)
    ensures FileBlocks(gs, |gs|, xml, t0, c) == [HdBlock(first, t0)] + [FhBlock(t0)] + [TextBlock("##MD", xml)]
            + Chain(gs, |gs|, 0, xml, c)
  {
    hide HdBlock, FhBlock, TextBlock, Chain, DgOf;
  }
}
