/** Random access to a legacy log: the index by timestamp, and `read_range` through it. */
module LogIndex {
  import opened Bytes
  import opened Wrappers
  import opened LegacyPacket
  import opened ManifestReader
  import opened LogReader
  import opened Sorting

  datatype IndexEntry = IndexEntry(offset: nat, ts: int, packetType: nat, seqNo: nat, chunkId: int)

  /** Conversion of an unsigned 64-bit integer to the signed time type. */
  function ToInt64(x: uint64): (r: int)
    ensures -0x8000_0000_0000_0000 <= r < TWO_63 && (r == x || r + TWO_64 == x)
  {
    if x < TWO_63 then x else x as int - TWO_64
  }

  function TimeOf(p: RawPacket): int
  {
    ToInt64(p.header.tsNs)
  }

  function EntryOf(p: RawPacket): IndexEntry
  {
    IndexEntry(p.fileOffset, TimeOf(p), p.header.packetType, p.header.seqNo, p.chunkId)
  }

  function Entries(ps: seq<RawPacket>): (r: seq<IndexEntry>)
    ensures |r| == |ps|
  {
    seq(|ps|, i requires 0 <= i < |ps| => EntryOf(ps[i]))
  }

  /** The index entry of a legacy packet, byte by byte; its time is a signed number. */
  lemma EntryBytes(d: bytes, chunkId: int, offset: nat)
    requires LegacyHead(d, chunkId, offset).Some?
    ensures var e := EntryOf(LegacyHead(d, chunkId, offset).value);
            && |d| >= 34 && e.offset == offset && e.chunkId == chunkId
            && e.packetType == FromLe(d[8..10]) && e.seqNo == FromLe(d[22..26])
            && -0x8000_0000_0000_0000 <= e.ts < TWO_63
            && (e.ts == FromLe(d[14..22]) || e.ts + TWO_64 == FromLe(d[14..22]))
  {
    hide FromLe;
    LegacyHeadFields(d, chunkId, offset);
  }

  /** The packets of a time window, by filtering. */
  function InRange(ps: seq<RawPacket>, tStart: int, tEnd: int): seq<RawPacket>
  {
    if ps == [] then []
    else
      var n := |ps| - 1;
      InRange(ps[..n], tStart, tEnd) + (if tStart <= TimeOf(ps[n]) <= tEnd then [ps[n]] else [])
  }

  function FirstChunk(chunks: seq<OfflineChunk>, id: int): Option<OfflineChunk>
    decreases |chunks|
  {
    if chunks == [] then None
    else if chunks[0].chunkId == id then Some(chunks[0])
    else FirstChunk(chunks[1..], id)
  }

  /** The packet read at an offset; the magic is not looked at again. */
  function ReadAt(d: bytes, offset: nat, chunkId: int): Option<RawPacket>
  {
    if offset + PACKET_HEADER_SIZE > |d| then None
    else
      var h := HeaderAt(d[offset..]);
      if offset + PACKET_HEADER_SIZE + h.payloadSize > |d| then None
      else Some(RawPacket(h, None, d[offset..][PACKET_HEADER_SIZE..PACKET_HEADER_SIZE + h.payloadSize], chunkId,
          offset))
  }

  function Reread(files: map<string, bytes>, chunks: seq<OfflineChunk>, e: IndexEntry): Option<RawPacket>
  {
    match FirstChunk(chunks, e.chunkId)
    case None => None
    case Some(c) => if c.name in files then ReadAt(files[c.name], e.offset, e.chunkId) else None
  }

  /** The packets found for a list of index entries; an entry that cannot be read is skipped. */
  function Found(files: map<string, bytes>, chunks: seq<OfflineChunk>, entries: seq<IndexEntry>): seq<RawPacket>
  {
    if entries == [] then []
    else
      var n := |entries| - 1;
      Found(files, chunks, entries[..n])
      + match Reread(files, chunks, entries[n])
        case Some(p) => [p]
        case None => []
  }

  predicate Sorted(s: seq<IndexEntry>)
  {
    forall i, j :: 0 <= i < j < |s| ==> s[i].ts <= s[j].ts
  }

  predicate DistinctIds(chunks: seq<OfflineChunk>)
  {
    forall i, j :: 0 <= i < j < |chunks| ==> chunks[i].chunkId != chunks[j].chunkId
  }

  /** No chunk is read with the 72-byte header. */
  predicate AllLegacy(files: map<string, bytes>, format: Format, chunks: seq<OfflineChunk>)
  {
    forall c :: c in chunks ==> !ReadAsContract(files, format, c)
  }

  // ---- Every indexed packet is found again ----

  lemma {:induction false} ChunkOfPacket(files: map<string, bytes>, format: Format, chunks: seq<OfflineChunk>,
      p: RawPacket) returns (c: OfflineChunk)
    requires p in AllPackets(files, format, chunks)
    ensures c in chunks && p in ChunkPackets(files, format, c)
    decreases |chunks|
  {
    hide ChunkPackets;
    var n := |chunks| - 1;
    if p in ChunkPackets(files, format, chunks[n]) {
      c := chunks[n];
    } else {
      c := ChunkOfPacket(files, format, chunks[..n], p);
    }
  }

  lemma {:induction false} FirstIsOnly(chunks: seq<OfflineChunk>, c: OfflineChunk)
    requires DistinctIds(chunks) && c in chunks
    ensures FirstChunk(chunks, c.chunkId) == Some(c)
    decreases |chunks|
  {
    if chunks[0] == c {
    } else {
      var k :| 0 <= k < |chunks| && chunks[k] == c;
      assert chunks[0].chunkId != chunks[k].chunkId;
      assert chunks[1..][k - 1] == c;
      FirstIsOnly(chunks[1..], c);
    }
  }

  lemma RereadFindsPacket(files: map<string, bytes>, format: Format, chunks: seq<OfflineChunk>, p: RawPacket)
    requires p in AllPackets(files, format, chunks)
    requires DistinctIds(chunks) && AllLegacy(files, format, chunks)
    ensures Reread(files, chunks, EntryOf(p)) == Some(p)
  {
    hide DistinctIds, AllPackets, Packets, HeaderAt;
    var c := ChunkOfPacket(files, format, chunks, p);
    var d := files[c.name];
    var i :| 0 <= i < |ChunkPackets(files, format, c)| && ChunkPackets(files, format, c)[i] == p;
    PacketAtOffset(false, d, c.chunkId, 0, i);
    FirstIsOnly(chunks, c);
  }

  // ---- Lists with the same elements ----

  /** The entries of a time window. */
  function Window(s: seq<IndexEntry>, tStart: int, tEnd: int): seq<IndexEntry>
  {
    if s == [] then []
    else
      var n := |s| - 1;
      Window(s[..n], tStart, tEnd) + (if tStart <= s[n].ts <= tEnd then [s[n]] else [])
  }

  function Count<T(==)>(s: seq<T>, x: T): nat
  {
    if s == [] then 0 else Count(s[..|s| - 1], x) + if s[|s| - 1] == x then 1 else 0
  }

  lemma {:induction false} CountIsMultiplicity<T>(s: seq<T>, x: T)
    ensures multiset(s)[x] == Count(s, x)
  {
    if s == [] {
    } else {
      var init, last := s[..|s| - 1], s[|s| - 1];
      CountIsMultiplicity(init, x);
      assert s == init + [last];
    }
  }

  lemma CountOfSnoc<T>(s: seq<T>, x: T, y: T)
    ensures Count(s + [x], y) == Count(s, y) + if x == y then 1 else 0
  {
    assert (s + [x])[..|s|] == s;
  }

  lemma {:induction false} WindowCount(s: seq<IndexEntry>, tStart: int, tEnd: int, e: IndexEntry)
    ensures Count(Window(s, tStart, tEnd), e) == if tStart <= e.ts <= tEnd then Count(s, e) else 0
    decreases |s|
  {
    if s == [] {
    } else {
      hide Window, Count;
      var init, last := s[..|s| - 1], s[|s| - 1];
      WindowCount(init, tStart, tEnd, e);
      WindowStep(s, tStart, tEnd);
      CountOfSnoc(init, last, e);
      CountOfSnoc(Window(init, tStart, tEnd), last, e);
      assert Window(init, tStart, tEnd) + [] == Window(init, tStart, tEnd);
    }
  }

  lemma SameWindow(a: seq<IndexEntry>, b: seq<IndexEntry>, tStart: int, tEnd: int)
    requires multiset(a) == multiset(b)
    ensures multiset(Window(a, tStart, tEnd)) == multiset(Window(b, tStart, tEnd))
  {
    hide Window, Count;
    forall e: IndexEntry
      ensures multiset(Window(a, tStart, tEnd))[e] == multiset(Window(b, tStart, tEnd))[e]
    {
      WindowCount(a, tStart, tEnd, e);
      WindowCount(b, tStart, tEnd, e);
      CountIsMultiplicity(a, e);
      CountIsMultiplicity(b, e);
      CountIsMultiplicity(Window(a, tStart, tEnd), e);
      CountIsMultiplicity(Window(b, tStart, tEnd), e);
    }
  }

  lemma {:induction false} WindowOfConcat(a: seq<IndexEntry>, b: seq<IndexEntry>, tStart: int, tEnd: int)
    ensures Window(a + b, tStart, tEnd) == Window(a, tStart, tEnd) + Window(b, tStart, tEnd)
    decreases |b|
  {
    if b == [] {
      assert a + b == a;
    } else {
      var n := |b| - 1;
      assert (a + b)[..|a| + n] == a + b[..n];
      WindowOfConcat(a, b[..n], tStart, tEnd);
    }
  }

  lemma {:induction false} WindowStep(s: seq<IndexEntry>, tStart: int, tEnd: int)
    requires s != []
    ensures var n := |s| - 1;
            && Window(s, tStart, tEnd) == Window(s[..n], tStart, tEnd)
               + (if tStart <= s[n].ts <= tEnd then [s[n]] else [])
            && s == s[..n] + [s[n]]
  {}

  lemma {:induction false} WindowOfAll(s: seq<IndexEntry>, tStart: int, tEnd: int)
    requires forall i :: 0 <= i < |s| ==> tStart <= s[i].ts <= tEnd
    ensures Window(s, tStart, tEnd) == s
    decreases |s|
  {
    if s == [] {
    } else {
      hide Window;
      WindowStep(s, tStart, tEnd);
      WindowOfAll(s[..|s| - 1], tStart, tEnd);
    }
  }

  lemma {:induction false} WindowOfNone(s: seq<IndexEntry>, tStart: int, tEnd: int)
    requires forall i :: 0 <= i < |s| ==> !(tStart <= s[i].ts <= tEnd)
    ensures Window(s, tStart, tEnd) == []
  {
    if s == [] {
    } else {
      WindowOfNone(s[..|s| - 1], tStart, tEnd);
    }
  }

  /** In a sorted index the window is the slice between the two search results. */
  lemma WindowIsSlice(s: seq<IndexEntry>, tStart: int, tEnd: int, lo: nat, hi: nat)
    requires lo <= hi <= |s|
    requires forall i :: 0 <= i < |s| ==> (i < lo <==> s[i].ts < tStart) && (i < hi <==> s[i].ts <= tEnd)
    ensures Window(s, tStart, tEnd) == s[lo..hi]
  {
    hide Window;
    assert s == s[..lo] + s[lo..hi] + s[hi..];
    WindowOfConcat(s[..lo] + s[lo..hi], s[hi..], tStart, tEnd);
    WindowOfConcat(s[..lo], s[lo..hi], tStart, tEnd);
    WindowOfNone(s[..lo], tStart, tEnd);
    WindowOfAll(s[lo..hi], tStart, tEnd);
    WindowOfNone(s[hi..], tStart, tEnd);
  }

  lemma {:induction false} WindowOfEntries(ps: seq<RawPacket>, tStart: int, tEnd: int)
    ensures Window(Entries(ps), tStart, tEnd) == Entries(InRange(ps, tStart, tEnd))
  {
    hide TimeOf;
    if ps == [] {
    } else {
      var n := |ps| - 1;
      WindowOfEntries(ps[..n], tStart, tEnd);
      assert Entries(ps)[..n] == Entries(ps[..n]);
      var q := InRange(ps[..n], tStart, tEnd);
      assert Entries(q + [ps[n]]) == Entries(q) + [EntryOf(ps[n])];
    }
  }

  lemma {:induction false} InRangeIsSubset(ps: seq<RawPacket>, tStart: int, tEnd: int)
    ensures forall p :: p in InRange(ps, tStart, tEnd) ==> p in ps
  {
    hide TimeOf;
    if ps == [] {
    } else {
      InRangeIsSubset(ps[..|ps| - 1], tStart, tEnd);
    }
  }

  /** Every entry is found again, as the packet it was made from. */
  ghost predicate AllFound(files: map<string, bytes>, chunks: seq<OfflineChunk>, entries: seq<IndexEntry>)
  {
    forall e :: e in entries ==> var r := Reread(files, chunks, e); r.Some? && EntryOf(r.value) == e
  }

  lemma FoundStep(files: map<string, bytes>, chunks: seq<OfflineChunk>, entries: seq<IndexEntry>)
    requires AllFound(files, chunks, entries) && entries != []
    ensures var n := |entries| - 1; var r := Reread(files, chunks, entries[n]);
            && AllFound(files, chunks, entries[..n]) && r.Some? && EntryOf(r.value) == entries[n]
            && Found(files, chunks, entries) == Found(files, chunks, entries[..n]) + [r.value]
  {
    hide Reread, EntryOf;
    assert entries[|entries| - 1] in entries;
  }

  lemma {:induction false} FoundCount(files: map<string, bytes>, chunks: seq<OfflineChunk>, entries: seq<IndexEntry>,
      p: RawPacket)
    requires AllFound(files, chunks, entries)
    ensures Count(Found(files, chunks, entries), p) ==
              if Reread(files, chunks, EntryOf(p)) == Some(p) then Count(entries, EntryOf(p)) else 0
    decreases |entries|
  {
    hide Reread, EntryOf, AllFound;
    if entries == [] {
    } else {
      var n := |entries| - 1;
      FoundStep(files, chunks, entries);
      FoundCount(files, chunks, entries[..n], p);
      CountOfSnoc(Found(files, chunks, entries[..n]), Reread(files, chunks, entries[n]).value, p);
    }
  }

  lemma SameFound(files: map<string, bytes>, chunks: seq<OfflineChunk>, a: seq<IndexEntry>, b: seq<IndexEntry>)
    requires multiset(a) == multiset(b) && AllFound(files, chunks, a)
    ensures multiset(Found(files, chunks, a)) == multiset(Found(files, chunks, b))
  {
    hide Found, Reread, EntryOf, Count;
    forall e | e in b
      ensures e in a
    {
      assert e in multiset(b);
    }
    forall p: RawPacket
      ensures multiset(Found(files, chunks, a))[p] == multiset(Found(files, chunks, b))[p]
    {
      FoundCount(files, chunks, a, p);
      FoundCount(files, chunks, b, p);
      CountIsMultiplicity(a, EntryOf(p));
      CountIsMultiplicity(b, EntryOf(p));
      CountIsMultiplicity(Found(files, chunks, a), p);
      CountIsMultiplicity(Found(files, chunks, b), p);
    }
  }

  lemma {:induction false} FoundOfEntries(files: map<string, bytes>, chunks: seq<OfflineChunk>, ps: seq<RawPacket>)
    requires forall p :: p in ps ==> Reread(files, chunks, EntryOf(p)) == Some(p)
    ensures Found(files, chunks, Entries(ps)) == ps && AllFound(files, chunks, Entries(ps))
  {
    hide Reread, EntryOf;
    if ps == [] {
    } else {
      var n := |ps| - 1;
      FoundOfEntries(files, chunks, ps[..n]);
      assert Entries(ps)[..n] == Entries(ps[..n]);
      assert ps == ps[..n] + [ps[n]] && ps[n] in ps;
    }
  }

  /** Reading the window through any sorted arrangement of the index gives, up to order, what
      filtering the full scan gives. */
  lemma IndexedReadIsFilter(files: map<string, bytes>, format: Format, chunks: seq<OfflineChunk>,
      index: seq<IndexEntry>,
                            tStart: int, tEnd: int)
    requires DistinctIds(chunks) && AllLegacy(files, format, chunks)
    requires multiset(index) == multiset(Entries(AllPackets(files, format, chunks)))
    ensures multiset(Found(files, chunks, Window(index, tStart, tEnd)))
              == multiset(InRange(AllPackets(files, format, chunks), tStart, tEnd))
    ensures AllFound(files, chunks, Window(index, tStart, tEnd))
  {
    hide Found, Window, InRange, AllPackets, Reread, EntryOf, AllLegacy, DistinctIds;
    var all := AllPackets(files, format, chunks);
    var chosen := InRange(all, tStart, tEnd);
    SameWindow(index, Entries(all), tStart, tEnd);
    WindowOfEntries(all, tStart, tEnd);
    InRangeIsSubset(all, tStart, tEnd);
    forall p | p in chosen
      ensures Reread(files, chunks, EntryOf(p)) == Some(p)
    {
      RereadFindsPacket(files, format, chunks, p);
    }
    FoundOfEntries(files, chunks, chosen);
    SameFound(files, chunks, Entries(chosen), Window(index, tStart, tEnd));
    forall e | e in Window(index, tStart, tEnd)
      ensures e in Entries(chosen)
    {
      assert e in multiset(Window(index, tStart, tEnd));
    }
  }

  lemma {:induction false} FoundLength(files: map<string, bytes>, chunks: seq<OfflineChunk>, entries: seq<IndexEntry>)
    requires AllFound(files, chunks, entries)
    ensures Entries(Found(files, chunks, entries)) == entries
  {
    hide Reread, EntryOf;
    if entries == [] {
    } else {
      var n := |entries| - 1;
      assert entries[n] in entries;
      FoundLength(files, chunks, entries[..n]);
      var q := Found(files, chunks, entries[..n]);
      var p := Reread(files, chunks, entries[n]).value;
      assert Entries(q + [p]) == Entries(q) + [EntryOf(p)];
    }
  }

  // ---- The reader ----

  /** `std::sort` by time. */
  method SortByTime(s: seq<IndexEntry>) returns (r: seq<IndexEntry>)
    ensures multiset(r) == multiset(s) && Sorted(r)
  {
    r := SortBy(s, (e: IndexEntry) => e.ts);
  }

  method LowerBound(s: seq<IndexEntry>, t: int) returns (lo: nat)
    requires Sorted(s)
    ensures lo <= |s| && forall i :: 0 <= i < |s| ==> (i < lo <==> s[i].ts < t)
  {
    lo := 0;
    var count := |s|;
    while count > 0
      invariant 0 <= count && lo + count <= |s|
      invariant forall i :: 0 <= i < lo ==> s[i].ts < t
      invariant forall i :: lo + count <= i < |s| ==> s[i].ts >= t
    {
      var half := count / 2;
      if s[lo + half].ts < t {
        lo := lo + half + 1;
        count := count - half - 1;
      } else {
        count := half;
      }
    }
  }

  method UpperBound(s: seq<IndexEntry>, t: int) returns (hi: nat)
    requires Sorted(s)
    ensures hi <= |s| && forall i :: 0 <= i < |s| ==> (i < hi <==> s[i].ts <= t)
  {
    hi := 0;
    var count := |s|;
    while count > 0
      invariant 0 <= count && hi + count <= |s|
      invariant forall i :: 0 <= i < hi ==> s[i].ts <= t
      invariant forall i :: hi + count <= i < |s| ==> s[i].ts > t
    {
      var half := count / 2;
      if s[hi + half].ts <= t {
        hi := hi + half + 1;
        count := count - half - 1;
      } else {
        count := half;
      }
    }
  }

  class EgoLogReader {
    const files: map<string, bytes>
    const chunks: seq<OfflineChunk>
    const format: Format
    var index: seq<IndexEntry>
    var indexBuilt: bool

    ghost predicate Valid()
      reads this
    {
      && format == (if chunks == [] then Unknown else DetectFormat(files, chunks[0].name))
      && (indexBuilt ==> Sorted(index) && multiset(index) == multiset(Entries(AllPackets(files, format, chunks))))
    }

    constructor (files: map<string, bytes>, chunks: seq<OfflineChunk>)
      ensures Valid() && !indexBuilt
      ensures this.files == files && this.chunks == chunks
    {
      this.files, this.chunks := files, chunks;
      format := if chunks == [] then Unknown else DetectFormat(files, chunks[0].name);
      index, indexBuilt := [], false;
    }

    method Scan(accept: RawPacket -> bool) returns (handed: seq<RawPacket>)
      requires Valid()
      ensures handed == Scanned(files, format, chunks, accept)
    {
      hide UpToRefusal, Packets, DetectFormat;
      handed := [];
      for i := 0 to |chunks|
        invariant handed == Scanned(files, format, chunks[..i], accept)
      {
        var c := chunks[i];
        assert chunks[..i + 1][..i] == chunks[..i];
        if c.name in files {
          var fmt := if format == Unknown then DetectFormat(files, c.name) else format;
          var ps;
          if fmt == Contract {
            ps := ScanContractChunk(files[c.name], c.chunkId, accept);
          } else {
            ps := ScanLegacyChunk(files[c.name], c.chunkId, accept);
          }
          handed := handed + ps;
        } else {
          NothingUpToRefusal(accept);
        }
      }
      assert chunks[..|chunks|] == chunks;
    }

    /** Building the index by scanning. */
    method BuildIndex()
      requires Valid()
      modifies this
      ensures Valid() && indexBuilt
    {
      hide AllPackets, Scanned, DetectFormat, EntryOf;
      var all := Scan(p => true);
      ScannedAll(files, format, chunks, p => true);
      var entries := [];
      for i := 0 to |all|
        invariant entries == Entries(all[..i])
      {
        assert Entries(all[..i + 1]) == Entries(all[..i]) + [EntryOf(all[i])];
        entries := entries + [EntryOf(all[i])];
      }
      assert all[..|all|] == all;
      var sorted := SortByTime(entries);
      index, indexBuilt := sorted, true;
    }

    method ChunkWithId(id: int) returns (c: Option<OfflineChunk>)
      ensures c == FirstChunk(chunks, id)
    {
      assert chunks[0..] == chunks;
      for i := 0 to |chunks|
        invariant FirstChunk(chunks[i..], id) == FirstChunk(chunks, id)
      {
        if chunks[i].chunkId == id {
          return Some(chunks[i]);
        }
        assert chunks[i..][1..] == chunks[i + 1..];
      }
      return None;
    }

    /** All packets whose time lies in the window. When the window is inverted and a packet lies
        strictly between its ends, the iterator from lower_bound starts behind the one from
        upper_bound and the loop runs out of the index: None. Without an index the packets come in
        scan order, with one in order of time. */
    method ReadRange(tStart: int, tEnd: int) returns (result: Option<seq<RawPacket>>)
      requires Valid()
      ensures result == None <==>
              indexBuilt && exists p :: p in AllPackets(files, format, chunks) && tEnd < TimeOf(p) < tStart
      ensures !indexBuilt ==> result == Some(InRange(AllPackets(files, format, chunks), tStart, tEnd))
      ensures indexBuilt && result.Some? && DistinctIds(chunks) && AllLegacy(files, format, chunks) ==>
                && multiset(result.value) == multiset(InRange(AllPackets(files, format, chunks), tStart, tEnd))
                && Sorted(Entries(result.value))
    {
      hide AllPackets, Scanned, DetectFormat, Found, Window, Reread, AllLegacy, DistinctIds, AllFound, NoneBetween,
           TimeOf;
      if !indexBuilt {
        var chosen := FilterScan(tStart, tEnd);
        return Some(chosen);
      }
      var lo := LowerBound(index, tStart);
      var hi := UpperBound(index, tEnd);
      BoundsInOrder(index, tStart, tEnd, lo, hi);
      BetweenInLog(index, AllPackets(files, format, chunks), tEnd, tStart);
      if lo > hi {
        return None;
      }
      var slice := index[lo..hi];
      var found := ReadEntries(slice);
      WindowIsSlice(index, tStart, tEnd, lo, hi);
      if DistinctIds(chunks) && AllLegacy(files, format, chunks) {
        IndexedReadIsFilter(files, format, chunks, index, tStart, tEnd);
        FoundLength(files, chunks, slice);
      }
      result := Some(found);
    }

    /** The branch of `read_range` without an index. */
    method FilterScan(tStart: int, tEnd: int) returns (chosen: seq<RawPacket>)
      requires Valid()
      ensures chosen == InRange(AllPackets(files, format, chunks), tStart, tEnd)
    {
      hide AllPackets, Scanned, DetectFormat, TimeOf;
      var all := Scan(p => true);
      ScannedAll(files, format, chunks, p => true);
      chosen := [];
      for i := 0 to |all|
        invariant chosen == InRange(all[..i], tStart, tEnd)
      {
        assert all[..i + 1][..i] == all[..i];
        var ts := TimeOf(all[i]);
        if ts >= tStart && ts <= tEnd {
          chosen := chosen + [all[i]];
        }
      }
      assert all[..|all|] == all;
    }

    /** The loop of `read_range` over the entries between the two iterators. */
    method ReadEntries(entries: seq<IndexEntry>) returns (result: seq<RawPacket>)
      ensures result == Found(files, chunks, entries)
    {
      hide FirstChunk, HeaderAt;
      result := [];
      for i := 0 to |entries|
        invariant result == Found(files, chunks, entries[..i])
      {
        assert entries[..i + 1][..i] == entries[..i];
        var e := entries[i];
        var c := ChunkWithId(e.chunkId);
        if c.Some? && c.value.name in files {
          var data := files[c.value.name];
          if e.offset + PACKET_HEADER_SIZE <= |data| {
            var h := HeaderAt(data[e.offset..]);
            if e.offset + PACKET_HEADER_SIZE + h.payloadSize <= |data| {
              result := result + [RawPacket(h, None,
                  data[e.offset..][PACKET_HEADER_SIZE..PACKET_HEADER_SIZE + h.payloadSize], e.chunkId, e.offset)];
            }
          }
        }
      }
      assert entries[..|entries|] == entries;
    }
  }

  predicate NoneBetween(s: seq<IndexEntry>, t0: int, t1: int)
  {
    forall i :: 0 <= i < |s| ==> !(t0 < s[i].ts < t1)
  }

  /** The two searches give iterators in order exactly when no indexed time lies strictly inside
      the inverted window. */
  lemma BoundsInOrder(s: seq<IndexEntry>, tStart: int, tEnd: int, lo: nat, hi: nat)
    requires lo <= |s| && forall i :: 0 <= i < |s| ==> (i < lo <==> s[i].ts < tStart)
    requires hi <= |s| && forall i :: 0 <= i < |s| ==> (i < hi <==> s[i].ts <= tEnd)
    ensures lo <= hi <==> NoneBetween(s, tEnd, tStart)
  {
    if hi < lo {
      assert tEnd < s[hi].ts < tStart;
    }
  }

  /** One packet at time 5, asked for from 9 to 1: the first iterator is behind the second. */
  lemma InvertedWindowRunsPast(e: IndexEntry, lo: nat, hi: nat)
    requires e.ts == 5
    requires lo <= 1 && (0 < lo <==> e.ts < 9)
    requires hi <= 1 && (0 < hi <==> e.ts <= 1)
    ensures lo == 1 && hi == 0 && !NoneBetween([e], 1, 9)
  {
    assert [e][0].ts == 5;
  }

  lemma BetweenInLog(index: seq<IndexEntry>, all: seq<RawPacket>, t0: int, t1: int)
    requires multiset(index) == multiset(Entries(all))
    ensures NoneBetween(index, t0, t1) <==> !exists p :: p in all && t0 < TimeOf(p) < t1
  {
    hide TimeOf;
    if !NoneBetween(index, t0, t1) {
      var i :| 0 <= i < |index| && t0 < index[i].ts < t1;
      assert index[i] in multiset(Entries(all));
      var k :| 0 <= k < |all| && Entries(all)[k] == index[i];
      assert all[k] in all;
    }
    if p :| p in all && t0 < TimeOf(p) < t1 {
      var k :| 0 <= k < |all| && all[k] == p;
      assert Entries(all)[k] in multiset(index);
      var i :| 0 <= i < |index| && index[i] == Entries(all)[k];
    }
  }

  lemma NothingUpToRefusal(accept: RawPacket -> bool)
    ensures UpToRefusal([], accept) == []
  {}
}
