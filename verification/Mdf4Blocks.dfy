/** The byte buffer of the MDF4 writer: blocks with a stored length and link slots that are
    written as zeros and patched later. */
module Mdf4Blocks {
  import opened Bytes

  type blockId = s: string | |s| == 4 witness "##HD"

  /** One block: the length stored in its header, its links, and the data written so far. */
  datatype Block = Block(id: blockId, len: nat, links: seq<nat>, data: bytes)

  function Ascii(s: string): (r: bytes)
    ensures |r| == |s|
  {
    seq(|s|, i requires 0 <= i < |s| => s[i] as int % 256)
  }

  function LinkBytes(links: seq<nat>): (r: bytes)
    ensures |r| == 8 * |links|
  {
    if links == [] then [] else LinkBytes(links[..|links| - 1]) + Le(links[|links| - 1], 8)
  }

  function HeaderBytes(id: blockId, len: nat, linkCount: nat): (r: bytes)
    ensures |r| == 24
  {
    Ascii(id) + Zeros(4) + Le(len, 8) + Le(linkCount, 8)
  }

  /** The bytes a block takes. */
  function Extent(b: Block): nat
  {
    24 + 8 * |b.links| + |b.data|
  }

  function BlockBytes(b: Block): (r: bytes)
    ensures |r| == Extent(b)
  {
    HeaderBytes(b.id, b.len, |b.links|) + LinkBytes(b.links) + b.data
  }

  function Size(blocks: seq<Block>): nat
  {
    if blocks == [] then 0 else Size(blocks[..|blocks| - 1]) + Extent(blocks[|blocks| - 1])
  }

  function Flat(blocks: seq<Block>): (r: bytes)
    ensures |r| == Size(blocks)
  {
    if blocks == [] then [] else Flat(blocks[..|blocks| - 1]) + BlockBytes(blocks[|blocks| - 1])
  }

  function SetLink(blocks: seq<Block>, i: nat, k: nat, v: nat): (r: seq<Block>)
    requires i < |blocks| && k < |blocks[i].links|
    ensures |r| == |blocks|
  {
    blocks[i := blocks[i].(links := blocks[i].links[k := v])]
  }

  function AppendData(blocks: seq<Block>, s: bytes): (r: seq<Block>)
    requires blocks != []
    ensures |r| == |blocks|
  {
    var last := blocks[|blocks| - 1];
    blocks[|blocks| - 1 := last.(data := last.data + s)]
  }

  function NoLinks(n: nat): (r: seq<nat>)
    ensures |r| == n
  {
    seq(n, i => 0)
  }

  /** Overwriting eight bytes. */
  function Patched(d: bytes, at: nat, v: nat): (r: bytes)
    requires at + 8 <= |d|
    ensures |r| == |d|
  {
    d[..at] + Le(v, 8) + d[at + 8..]
  }

  // ---- Facts about the layout ----

  lemma AddAssoc(a: bytes, b: bytes, c: bytes)
    ensures a + b + c == a + (b + c)
  {}

  lemma FlatOfNothing()
    ensures Flat([]) == [] && Size([]) == 0
  {}

  lemma {:induction false} FlatOfConcat(a: seq<Block>, b: seq<Block>)
    ensures Flat(a + b) == Flat(a) + Flat(b)
    ensures Size(a + b) == Size(a) + Size(b)
    decreases |b|
  {
    hide Flat, Size, BlockBytes, Extent;
    if b == [] {
      assert a + b == a;
      FlatOfNothing();
    } else {
      var n := |b| - 1;
      var init, last := b[..n], b[n];
      FlatOfConcat(a, init);
      assert b == init + [last] && a + b == (a + init) + [last];
      FlatOfSnoc(a + init, last);
      FlatOfSnoc(init, last);
      AddAssoc(Flat(a), Flat(init), BlockBytes(last));
    }
  }

  lemma SizeOfOne(b: Block)
    ensures Size([b]) == Extent(b) && Flat([b]) == BlockBytes(b)
  {
    assert [b][..0] == [];
  }

  lemma FlatOfSnoc(blocks: seq<Block>, b: Block)
    ensures Flat(blocks + [b]) == Flat(blocks) + BlockBytes(b)
    ensures Size(blocks + [b]) == Size(blocks) + Extent(b)
  {
    assert (blocks + [b])[..|blocks|] == blocks;
  }

  lemma BlockOfAppend(b: Block, s: bytes)
    ensures BlockBytes(b.(data := b.data + s)) == BlockBytes(b) + s
  {
    hide HeaderBytes, LinkBytes;
    var h := HeaderBytes(b.id, b.len, |b.links|) + LinkBytes(b.links);
    assert h + (b.data + s) == h + b.data + s;
  }

  lemma FlatOfAppend(blocks: seq<Block>, s: bytes)
    requires blocks != []
    ensures Flat(AppendData(blocks, s)) == Flat(blocks) + s
  {
    hide BlockBytes;
    var n := |blocks| - 1;
    var b := blocks[n];
    assert AppendData(blocks, s)[..n] == blocks[..n];
    BlockOfAppend(b, s);
    assert Flat(blocks[..n]) + (BlockBytes(b) + s) == Flat(blocks[..n]) + BlockBytes(b) + s;
  }

  lemma {:induction false} LinkBytesOfUpdate(links: seq<nat>, k: nat, v: nat)
    requires k < |links|
    ensures LinkBytes(links[k := v]) == Patched(LinkBytes(links), 8 * k, v)
  {
    hide Le;
    var n := |links| - 1;
    var links' := links[k := v];
    if k == n {
      assert links'[..n] == links[..n];
    } else {
      LinkBytesOfUpdate(links[..n], k, v);
      assert links'[..n] == links[..n][k := v];
    }
  }

  lemma PatchedMiddle(a: bytes, b: bytes, c: bytes, at: nat, v: nat)
    requires at + 8 <= |b|
    ensures Patched(a + b + c, |a| + at, v) == a + Patched(b, at, v) + c
  {}

  lemma BlockOfSetLink(b: Block, k: nat, v: nat)
    requires k < |b.links|
    ensures BlockBytes(b.(links := b.links[k := v])) == Patched(BlockBytes(b), 24 + 8 * k, v)
  {
    hide HeaderBytes, LinkBytes, Patched;
    LinkBytesOfUpdate(b.links, k, v);
    PatchedMiddle(HeaderBytes(b.id, b.len, |b.links|), LinkBytes(b.links), b.data, 8 * k, v);
  }

  /** Patching one link slot changes that link of that block and nothing else. */
  lemma {:induction false} FlatOfSetLink(blocks: seq<Block>, i: nat, k: nat, v: nat)
    requires i < |blocks| && k < |blocks[i].links|
    ensures var at := Size(blocks[..i]) + 24 + 8 * k;
            at + 8 <= Size(blocks) && Flat(SetLink(blocks, i, k, v)) == Patched(Flat(blocks), at, v)
    decreases |blocks|
  {
    hide Flat, Size, BlockBytes, Patched, Extent;
    var n := |blocks| - 1;
    var at := Size(blocks[..i]) + 24 + 8 * k;
    var init, last := blocks[..n], blocks[n];
    assert blocks == init + [last];
    FlatOfSnoc(init, last);
    if i == n {
      var last' := last.(links := last.links[k := v]);
      assert SetLink(blocks, i, k, v) == init + [last'];
      FlatOfSnoc(init, last');
      BlockOfSetLink(last, k, v);
      SlotInside(last, k);
      PatchedMiddle(Flat(init), BlockBytes(last), [], 24 + 8 * k, v);
      AddNothing(Flat(init) + BlockBytes(last));
      AddNothing(Flat(init) + BlockBytes(last'));
    } else {
      FlatOfSetLink(init, i, k, v);
      assert init[..i] == blocks[..i];
      assert SetLink(blocks, i, k, v) == SetLink(init, i, k, v) + [last];
      FlatOfSnoc(SetLink(init, i, k, v), last);
      PatchedFront(Flat(init), BlockBytes(last), at, v);
    }
  }

  lemma SlotInside(b: Block, k: nat)
    requires k < |b.links|
    ensures 24 + 8 * k + 8 <= Extent(b)
  {}

  lemma AddNothing(a: bytes)
    ensures a + [] == a
  {}

  lemma PatchedFront(b: bytes, c: bytes, at: nat, v: nat)
    requires at + 8 <= |b|
    ensures Patched(b + c, at, v) == Patched(b, at, v) + c
  {}

  lemma {:induction false} LeByte(v: nat, k: nat, i: nat)
    requires i < k
    ensures Le(v, k)[i] == v / Pow256(i) % 256
    decreases k
  {
    if i == 0 {
    } else {
      LeByte(v / 256, k - 1, i - 1);
      DivTwice(v, Pow256(i - 1));
    }
  }

  /** Overwriting one more byte of e. */
  lemma OverwriteStep(was: bytes, at: nat, e: bytes, j: nat)
    requires j < |e| && at + |e| <= |was|
    ensures (was[..at] + e[..j] + was[at + j..])[at + j := e[j]] == was[..at] + e[..j + 1] + was[at + j + 1..]
  {}

  lemma DivTwice(v: nat, m: nat)
    requires m >= 1
    ensures v / 256 / m == v / (256 * m)
  {
    var q := v / 256 / m;
    var r := v % 256 + 256 * (v / 256 % m);
    assert v / 256 == m * q + v / 256 % m;
    assert v == 256 * (v / 256) + v % 256;
    assert 256 * (m * q) == (256 * m) * q;
    assert v / 256 % m <= m - 1;
    ModIs(v, 256 * m, q, r);
  }

  // ---- The buffer ----

  class Buf {
    var d: bytes
    ghost var head: bytes
    ghost var blocks: seq<Block>
    ghost var run: bytes

    /** The bytes are the identification head, the blocks, and the run of bytes pushed since. */
    ghost predicate Valid()
      reads this
    {
      d == head + Flat(blocks) + run
    }

    constructor ()
      ensures Valid() && d == [] && head == [] && blocks == [] && run == []
    {
      d, head, blocks, run := [], [], [], [];
    }

    /** The run becomes the end of the head, or of the last block. */
    ghost method Account()
      requires Valid()
      modifies `head, `blocks, `run
      ensures Valid() && run == []
      ensures old(blocks) == [] ==> head == old(head + run) && blocks == []
      ensures old(blocks) != [] ==> head == old(head) && blocks == AppendData(old(blocks), old(run))
    {
      hide Flat;
      if blocks == [] {
        FlatOfNothing();
        assert head + [] + run == head + run + [] + [];
        head, run := head + run, [];
      } else {
        FlatOfAppend(blocks, run);
        AddAssoc(head, Flat(blocks), run);
        AddNothing(head + (Flat(blocks) + run));
        blocks, run := AppendData(blocks, run), [];
      }
    }

    method U8(v: byte)
      requires Valid()
      modifies `d, `run
      ensures Valid() && run == old(run) + [v] && |d| == old(|d|) + 1
    {
      hide Flat;
      AddAssoc(head + Flat(blocks), run, [v]);
      d := d + [v];
      run := run + [v];
    }

    /** The k low bytes of v, least significant first. */
    method PushLe(v: nat, k: nat)
      requires Valid()
      modifies `d, `run
      ensures Valid() && run == old(run) + Le(v, k) && |d| == old(|d|) + k
    {
      hide Flat, Le, Pow256;
      for i := 0 to k
        invariant d == old(d) + Le(v, k)[..i] && run == old(run)
      {
        LeByte(v, k, i);
        assert Le(v, k)[..i + 1] == Le(v, k)[..i] + [Le(v, k)[i]];
        d := d + [v / Pow256(i) % 256];
      }
      assert Le(v, k)[..k] == Le(v, k);
      AddAssoc(head + Flat(blocks), run, Le(v, k));
      run := run + Le(v, k);
    }

    method U16(v: uint16)
      requires Valid()
      modifies `d, `run
      ensures Valid() && run == old(run) + Le(v, 2) && |d| == old(|d|) + 2
    {
      PushLe(v, 2);
    }

    method U32(v: uint32)
      requires Valid()
      modifies `d, `run
      ensures Valid() && run == old(run) + Le(v, 4) && |d| == old(|d|) + 4
    {
      PushLe(v, 4);
    }

    /** Also the bit pattern of a double. */
    method U64(v: uint64)
      requires Valid()
      modifies `d, `run
      ensures Valid() && run == old(run) + Le(v, 8) && |d| == old(|d|) + 8
    {
      PushLe(v, 8);
    }

    method PushAll(s: bytes)
      requires Valid()
      modifies `d, `run
      ensures Valid() && run == old(run) + s && |d| == old(|d|) + |s|
    {
      hide Flat;
      for i := 0 to |s|
        invariant d == old(d) + s[..i] && run == old(run)
      {
        assert s[..i + 1] == s[..i] + [s[i]];
        d := d + [s[i]];
      }
      assert s[..|s|] == s;
      AddAssoc(head + Flat(blocks), run, s);
      run := run + s;
    }

    method PushZeros(n: nat)
      requires Valid()
      modifies `d, `run
      ensures Valid() && run == old(run) + Zeros(n) && |d| == old(|d|) + n
    {
      hide Flat;
      AddAssoc(head + Flat(blocks), run, Zeros(n));
      d := d + Zeros(n);
      run := run + Zeros(n);
    }

    /** Overwrites link slot k of block i; at is its place in the file. */
    method Patch64(at: nat, v: uint64, ghost i: nat, ghost k: nat)
      requires Valid() && i < |blocks| && k < |blocks[i].links|
      requires at == |head| + Size(blocks[..i]) + 24 + 8 * k
      modifies `d, `blocks
      ensures Valid() && blocks == old(SetLink(blocks, i, k, v))
      ensures |d| == |old(d)|
    {
      hide Flat, Size, Le, Pow256;
      FlatOfSetLink(blocks, i, k, v);
      ghost var was := d;
      PatchedMiddle(head, Flat(blocks), run, at - |head|, v);
      assert Patched(d, at, v) == head + Flat(SetLink(blocks, i, k, v)) + run;
      for j := 0 to 8
        invariant blocks == old(blocks) && at + 8 <= |was| == |d|
        invariant d == was[..at] + Le(v, 8)[..j] + was[at + j..]
      {
        LeByte(v, 8, j);
        OverwriteStep(was, at, Le(v, 8), j);
        d := d[at + j := v / Pow256(j) % 256];
      }
      assert Le(v, 8)[..8] == Le(v, 8);
      blocks := SetLink(blocks, i, k, v);
    }

    /** A new block: header and zeroed link slots. Returns the place of the first slot. */
    method BlkHdr(id: blockId, len: uint64, linkCount: uint64) returns (lp: nat)
      requires Valid() && run == []
      modifies `d, `blocks
      ensures Valid() && lp == |old(d)| + 24
      ensures blocks == old(blocks) + [Block(id, len, NoLinks(linkCount), [])]
      ensures |d| == lp + 8 * linkCount
    {
      hide Flat, Le, Ascii, Zeros, BlockBytes, NoLinks;
      d := d + Ascii(id);
      d := d + Zeros(4);
      d := d + Le(len, 8);
      d := d + Le(linkCount, 8);
      lp := |d|;
      d := d + Zeros(linkCount * 8);
      ghost var b := Block(id, len, NoLinks(linkCount), []);
      HeaderPieces(old(d), id, len, linkCount);
      FlatOfSnoc(blocks, b);
      AddAssoc(head, Flat(blocks), BlockBytes(b));
      blocks := blocks + [b];
    }

    /** A text block; id is "##TX" or "##MD". Returns its place in the file. */
    method TextBlk(id: blockId, text: bytes) returns (start: nat)
      requires Valid() && run == []
      requires Extent(TextBlock(id, text)) < TWO_64
      modifies this
      ensures Valid() && run == [] && start == |old(d)| && |d| == start + Extent(TextBlock(id, text))
      ensures head == old(head) && blocks == old(blocks) + [TextBlock(id, text)]
    {
      hide Flat;
      start := |d|;
      var tlen := |text| + 1;
      var tpad := (tlen + 7) / 8 * 8;
      var lp := BlkHdr(id, 24 + tpad, 0);
      PushAll(text);
      U8(0);
      PushZeros(tpad - tlen);
      assert run == text + [0] + Zeros(tpad - tlen);
      assert NoLinks(0) == [];
      AppendToNew(old(blocks), Block(id, 24 + tpad, [], []), run);
      Account();
    }
  }

  lemma AppendToNew(blocks: seq<Block>, b: Block, s: bytes)
    requires b.data == []
    ensures AppendData(blocks + [b], s) == blocks + [b.(data := s)]
  {
    assert [] + s == s;
  }

  /** Text, a NUL, and zeros up to a multiple of eight. */
  function TextBlock(id: blockId, text: bytes): Block
  {
    var tpad := (|text| + 8) / 8 * 8;
    Block(id, 24 + tpad, [], text + [0] + Zeros(tpad - |text| - 1))
  }

  /** A block header written piece by piece. */
  lemma HeaderPieces(d: bytes, id: blockId, len: nat, n: nat)
    ensures d + Ascii(id) + Zeros(4) + Le(len, 8) + Le(n, 8) + Zeros(n * 8)
              == d + BlockBytes(Block(id, len, NoLinks(n), []))
  {
    hide Ascii, Zeros, Le, LinkBytes, NoLinks;
    NoLinkBytes(n);
  }

  lemma {:induction false} NoLinkBytes(n: nat)
    ensures LinkBytes(NoLinks(n)) == Zeros(n * 8)
  {
    if n == 0 {
    } else {
      NoLinkBytes(n - 1);
      LeOfZero(8);
      assert NoLinks(n)[..n - 1] == NoLinks(n - 1);
      assert Zeros(n * 8) == Zeros((n - 1) * 8) + Zeros(8);
    }
  }
}
