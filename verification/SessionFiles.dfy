/** What a whole recording leaves in the session directory: where each index line points, how
    large the chunks are, and what the integrity check says about them. */
module SessionFiles {
  import opened Bytes
  import opened ContractFrame
  import opened Text
  import opened Manifest
  import opened Wrappers
  import opened ChunkWriter

  // ---- Runs of the writer ----

  datatype WriteCall = WriteCall(frame: bytes, timeUp: bool)

  /** The chunks after Open and the given calls of `WriteContractFrame`. */
  function AfterWrites(calls: seq<WriteCall>, chunkMaxBytes: nat): (r: seq<seq<framed>>)
    ensures r != []
  {
    if calls == [] then [[]]
    else
      var n := |calls| - 1;
      var r := Written(AfterWrites(calls[..n], chunkMaxBytes), calls[n].frame, calls[n].timeUp, chunkMaxBytes);
      assert r != [];
      r
  }

  function FramesOf(calls: seq<WriteCall>): (r: seq<bytes>)
    ensures |r| == |calls|
  {
    seq(|calls|, i requires 0 <= i < |calls| => calls[i].frame)
  }

  /** Every validated frame is written, once and in order, whatever the rotations. */
  lemma {:induction false} AllFramesWritten(calls: seq<WriteCall>, chunkMaxBytes: nat, maxPayload: nat)
    requires AllValid(FramesOf(calls), maxPayload)
    ensures AllFrames(AfterWrites(calls, chunkMaxBytes)) == FramesOf(calls)
  {
    hide ValidFrame, Written, HeaderOf;
    if calls == [] {
      FramesAfterOpen([]);
    } else {
      var n := |calls| - 1;
      var init := calls[..n];
      assert FramesOf(calls) == FramesOf(init) + [calls[n].frame];
      AllFramesWritten(init, chunkMaxBytes, maxPayload);
      var f := calls[n].frame;
      assert f in FramesOf(calls);
      ValidFrameHasMagic(f, maxPayload);
      OneMoreFrame(AfterWrites(init, chunkMaxBytes), f, calls[n].timeUp, chunkMaxBytes);
    }
  }

  lemma OneMoreFrame(c: seq<seq<framed>>, f: framed, timeUp: bool, chunkMaxBytes: nat)
    requires HeaderOf(f[..HEADER_SIZE]).magic == FRAME_MAGIC
    ensures AllFrames(Written(c, f, timeUp, chunkMaxBytes)) == AllFrames(c) + [f]
  {
    hide AllFrames, HeaderOf, Concat;
    FramesAfterOpen(c);
    FramesAfterAppend(Rotated(c, timeUp, chunkMaxBytes), f);
  }

  lemma ValidFrameHasMagic(f: bytes, maxPayload: nat)
    requires ValidFrame(f, maxPayload)
    ensures |f| >= HEADER_SIZE && HeaderOf(f[..HEADER_SIZE]).magic == FRAME_MAGIC
  {}

  /** The frames that begin with a whole header and the magic. */
  function Accepted(frames: seq<bytes>): seq<bytes>
  {
    if frames == [] then []
    else
      var n := |frames| - 1;
      Accepted(frames[..n]) + if |frames[n]| >= 72 && FromLe(frames[n][0..4]) == FRAME_MAGIC then [frames[n]] else []
  }

  /** Whatever is given to the writer, the chunks hold exactly the frames that begin with a header and
      the magic, in order; the others leave no byte, even where one of them began a chunk. */
  lemma {:induction false} AcceptedFramesWritten(calls: seq<WriteCall>, chunkMaxBytes: nat)
    ensures AllFrames(AfterWrites(calls, chunkMaxBytes)) == Accepted(FramesOf(calls))
  {
    hide Written, FromLe;
    if calls == [] {
      FramesAfterOpen([]);
    } else {
      var n := |calls| - 1;
      assert FramesOf(calls) == FramesOf(calls[..n]) + [calls[n].frame];
      AcceptedFramesWritten(calls[..n], chunkMaxBytes);
      OneMoreCall(AfterWrites(calls[..n], chunkMaxBytes), calls[n].frame, calls[n].timeUp, chunkMaxBytes);
    }
  }

  lemma OneMoreCall(c: seq<seq<framed>>, f: bytes, timeUp: bool, chunkMaxBytes: nat)
    ensures AllFrames(Written(c, f, timeUp, chunkMaxBytes))
            == AllFrames(c) + if |f| >= 72 && FromLe(f[0..4]) == FRAME_MAGIC then [f] else []
  {
    hide AllFrames, FromLe, Concat, Rotates;
    FramesAfterOpen(c);
    if |f| >= HEADER_SIZE {
      assert f[..HEADER_SIZE][0..4] == f[0..4];
      FramesAfterAppend(Rotated(c, timeUp, chunkMaxBytes), f);
    }
  }

  /** Without its last frame a chunk is empty or still below the size limit. */
  predicate WithinLimit(frames: seq<framed>, chunkMaxBytes: nat)
  {
    |frames| <= 1 || |Concat(frames[..|frames| - 1])| < chunkMaxBytes
  }

  /** Unless the time is up, a chunk is closed only when it has reached the size limit. */
  lemma {:induction false} ChunksAreFull(calls: seq<WriteCall>, chunkMaxBytes: nat, i: nat)
    requires forall c :: c in calls ==> !c.timeUp
    requires i < |AfterWrites(calls, chunkMaxBytes)| - 1
    ensures |Concat(AfterWrites(calls, chunkMaxBytes)[i])| >= chunkMaxBytes
  {
    hide Concat, HeaderOf;
    var n := |calls| - 1;
    var c := AfterWrites(calls[..n], chunkMaxBytes);
    assert calls[n] in calls && forall d :: d in calls[..n] ==> d in calls;
    if i < |c| - 1 {
      ChunksAreFull(calls[..n], chunkMaxBytes, i);
    }
  }

  /** A call whose time is up begins a chunk. */
  lemma TimeUpBeginsChunk(calls: seq<WriteCall>, frame: bytes, chunkMaxBytes: nat)
    requires |frame| >= HEADER_SIZE
    ensures |AfterWrites(calls + [WriteCall(frame, true)], chunkMaxBytes)| == |AfterWrites(calls, chunkMaxBytes)| + 1
  {
    hide Concat, HeaderOf;
    assert (calls + [WriteCall(frame, true)])[..|calls|] == calls;
  }

  /** A chunk grows past the limit by less than one frame. */
  lemma {:induction false} ChunksStayWithinLimit(calls: seq<WriteCall>, chunkMaxBytes: nat)
    ensures forall i :: 0 <= i < |AfterWrites(calls, chunkMaxBytes)| ==>
            WithinLimit(AfterWrites(calls, chunkMaxBytes)[i], chunkMaxBytes)
  {
    hide Concat, HeaderOf;
    if calls == [] {
    } else {
      var n := |calls| - 1;
      ChunksStayWithinLimit(calls[..n], chunkMaxBytes);
      var c := AfterWrites(calls[..n], chunkMaxBytes);
      var r := Rotated(c, calls[n].timeUp, chunkMaxBytes);
      if |calls[n].frame| >= HEADER_SIZE {
        var last := r[|r| - 1];
        assert (last + [calls[n].frame])[..|last|] == last;
      }
    }
  }

  /** In bytes: every chunk is shorter than the limit plus its last frame, or holds one frame. */
  lemma ChunkSizeBound(frames: seq<framed>, chunkMaxBytes: nat)
    requires WithinLimit(frames, chunkMaxBytes) && |frames| > 1
    ensures |Concat(frames)| < chunkMaxBytes + |frames[|frames| - 1]|
  {
    var n := |frames| - 1;
    ConcatOfSnoc(frames[..n], frames[n]);
    assert frames == frames[..n] + [frames[n]];
  }

  // ---- The index ----

  lemma {:induction false} ChunkLineAt(id: nat, frames: seq<framed>, j: nat)
    requires j < |frames|
    ensures ChunkLines(id, frames)[j] == IndexLine(id, |Concat(frames[..j])|, frames[j])
    decreases |frames|
  {
    hide IndexLine, Concat;
    var n := |frames| - 1;
    if j == n {
    } else {
      ChunkLineAt(id, frames[..n], j);
      assert frames[..n][..j] == frames[..j];
    }
  }

  lemma {:induction false} SameCounts(contents: seq<seq<framed>>)
    ensures |IndexLines(contents)| == |AllFrames(contents)|
  {
    hide ChunkLines;
    if contents == [] {
    } else {
      SameCounts(contents[..|contents| - 1]);
    }
  }

  /** Where the k-th frame of the session lies. */
  lemma {:induction false} Locate(contents: seq<seq<framed>>, k: nat) returns (c: nat, j: nat)
    requires k < |AllFrames(contents)|
    ensures c < |contents| && j < |contents[c]| && contents[c][j] == AllFrames(contents)[k]
    ensures k < |IndexLines(contents)| && IndexLines(contents)[k]
            == IndexLine(c, |Concat(contents[c][..j])|, contents[c][j])
  {
    hide IndexLine, ChunkLines, Concat;
    var n := |contents| - 1;
    var before := |AllFrames(contents[..n])|;
    SameCounts(contents[..n]);
    if k < before {
      c, j := Locate(contents[..n], k);
    } else {
      c, j := n, k - before;
      ChunkLineAt(n, contents[n], j);
    }
  }

  lemma ConcatStep(s: seq<bytes>)
    requires s != []
    ensures Concat(s) == s[0] + Concat(s[1..])
  {}

  lemma {:induction false} ConcatOfAppend(a: seq<bytes>, b: seq<bytes>)
    ensures Concat(a + b) == Concat(a) + Concat(b)
  {
    hide Concat;
    if a == [] {
      ConcatOfNothing();
      assert a + b == b && [] + Concat(b) == Concat(b);
    } else {
      ConcatOfAppend(a[1..], b);
      assert (a + b)[1..] == a[1..] + b;
      ConcatStep(a);
      ConcatStep(a + b);
      assert a[0] + (Concat(a[1..]) + Concat(b)) == a[0] + Concat(a[1..]) + Concat(b);
    }
  }

  lemma FrameAtOffset(frames: seq<bytes>, j: nat)
    requires j < |frames|
    ensures var o := |Concat(frames[..j])|;
            o + |frames[j]| <= |Concat(frames)| && Concat(frames)[o..o + |frames[j]|] == frames[j]
  {
    assert frames == frames[..j] + ([frames[j]] + frames[j + 1..]);
    ConcatOfAppend(frames[..j], [frames[j]] + frames[j + 1..]);
    assert ([frames[j]] + frames[j + 1..])[1..] == frames[j + 1..];
  }

  /** Index line k names the chunk file, the offset and the payload size at which frame k lies. */
  lemma IndexLineLocatesFrame(files: map<string, bytes>, contents: seq<seq<framed>>, k: nat)
      returns (c: nat, offset: nat)
    requires FilesHold(files, contents) && k < |AllFrames(contents)|
    ensures k < |IndexLines(contents)| && IndexLines(contents)[k] == IndexLine(c, offset, AllFrames(contents)[k])
    ensures ChunkName(c) in files && offset + |AllFrames(contents)[k]| <= |files[ChunkName(c)]|
    ensures files[ChunkName(c)][offset..offset + |AllFrames(contents)[k]|] == AllFrames(contents)[k]
  {
    hide IndexLine, IndexLines, AllFrames, ChunkName, Concat;
    var j;
    c, j := Locate(contents, k);
    offset := |Concat(contents[c][..j])|;
    FrameAtOffset(contents[c], j);
  }

  lemma {:induction false} NoCharInDec(n: nat, c: char)
    requires !IsDigit(c)
    ensures c !in Dec(n)
  {
    DecIsDigits(n);
  }

  /** The fields of an index line, read back as numbers: offset, t0, type, seq, chunk, payload size. */
  lemma IndexLineFields(id: nat, offset: nat, f: framed)
    ensures var h := HeaderIn(f);
            Split(IndexLine(id, offset, f), ',') ==
              [Dec(offset), Dec(h.t0Ns), Dec(h.frameType), Dec(h.seqNo), Dec(id), Dec(h.payloadSize)]
  {
    hide Dec, Split, HeaderIn;
    var h := HeaderIn(f);
    NoCharInDec(offset, ',');
    NoCharInDec(h.t0Ns, ',');
    NoCharInDec(h.frameType, ',');
    NoCharInDec(h.seqNo, ',');
    NoCharInDec(id, ',');
    NoCharInDec(h.payloadSize, ',');
    var r1 := Dec(id) + "," + Dec(h.payloadSize);
    var r2 := Dec(h.seqNo) + "," + r1;
    var r3 := Dec(h.frameType) + "," + r2;
    var r4 := Dec(h.t0Ns) + "," + r3;
    SplitLast(Dec(h.payloadSize), ',');
    SplitPiece(Dec(id), ',', Dec(h.payloadSize));
    SplitPiece(Dec(h.seqNo), ',', r1);
    SplitPiece(Dec(h.frameType), ',', r2);
    SplitPiece(Dec(h.t0Ns), ',', r3);
    SplitPiece(Dec(offset), ',', r4);
    assert IndexLine(id, offset, f) == Dec(offset) + "," + r4;
  }

  /** The same with the bytes of the frame they are read from. */
  lemma IndexLineIsOfFrame(id: nat, offset: nat, f: framed)
    ensures Split(IndexLine(id, offset, f), ',') ==
              [Dec(offset), Dec(FromLe(f[40..48])), Dec(FromLe(f[8..12])), Dec(FromLe(f[32..40])), Dec(id),
               Dec(FromLe(f[56..60]))]
  {
    hide Dec, Split, FromLe, IndexLine;
    IndexLineFields(id, offset, f);
    var h := f[..HEADER_SIZE];
    assert h[40..48] == f[40..48] && h[8..12] == f[8..12] && h[32..40] == f[32..40] && h[56..60] == f[56..60];
  }

  /** The manifest entry of a chunk: its file, its size, the start of its first and the end of its last
      frame. The count has 32 bits, and the first time starts anew where the count does. */
  lemma EntryOfChunk(contents: seq<seq<framed>>, i: nat)
    requires i < |contents|
    ensures var e := Infos(contents)[i]; var frames := contents[i]; var n := |frames|;
            && e.filename == "ego_" + Dec(i) + ".bin" && e.size == |Concat(frames)|
            && (n < TWO_32 ==> e.packetCount == n)
            && (n > 0 ==> e.lastTs == FromLe(frames[n - 1][48..56]))
            && (0 < n <= TWO_32 ==> e.firstTs == FromLe(frames[0][40..48]))
            && (n > TWO_32 && n % TWO_32 == 1 ==> e.firstTs == FromLe(frames[n - 1][40..48]) && e.packetCount == 1)
  {
    hide Dec, FromLe, Concat;
    var frames := contents[i];
    var n := |frames|;
    if n > 0 {
      FirstOfCount(n);
      var a, b := frames[(n - 1) / TWO_32 * TWO_32], frames[n - 1];
      assert a[..HEADER_SIZE][40..48] == a[40..48] && b[..HEADER_SIZE][48..56] == b[48..56];
    }
  }

  lemma FirstOfCount(n: nat)
    requires n > 0
    ensures 0 <= (n - 1) / TWO_32 * TWO_32 <= n - 1
    ensures n <= TWO_32 ==> (n - 1) / TWO_32 * TWO_32 == 0
    ensures n % TWO_32 == 1 ==> (n - 1) / TWO_32 * TWO_32 == n - 1
  {}

  lemma OneLine(id: nat, offset: nat, f: framed)
    ensures '\n' !in IndexLine(id, offset, f) && IndexLine(id, offset, f) != ""
  {
    hide Dec, HeaderIn;
    var h := HeaderIn(f);
    NoCharInDec(offset, '\n');
    NoCharInDec(h.t0Ns, '\n');
    NoCharInDec(h.frameType, '\n');
    NoCharInDec(h.seqNo, '\n');
    NoCharInDec(id, '\n');
    NoCharInDec(h.payloadSize, '\n');
  }

  /** Reading the index file line by line gives one non-empty line per frame. */
  lemma IndexReadsBack(contents: seq<seq<framed>>)
    ensures Split(Unlines(IndexLines(contents)), '\n') == IndexLines(contents)
    ensures forall l :: l in IndexLines(contents) ==> l != ""
  {
    hide Split, Unlines, IndexLine, Concat;
    SameCounts(contents);
    forall l | l in IndexLines(contents)
      ensures '\n' !in l && l != ""
    {
      var k :| 0 <= k < |IndexLines(contents)| && IndexLines(contents)[k] == l;
      var c, j := Locate(contents, k);
      OneLine(c, |Concat(contents[c][..j])|, contents[c][j]);
    }
    SplitOfUnlines(IndexLines(contents));
  }

  // ---- The integrity check ----

  datatype IntegrityResult = IntegrityOk | IntegrityWarning | IntegrityFailed

  function NonEmptyCount(lines: seq<string>): nat
  {
    if lines == [] then 0 else NonEmptyCount(lines[..|lines| - 1]) + (if lines[|lines| - 1] == "" then 0 else 1)
  }

  predicate IsChunkFile(name: string)
  {
    && |name| >= 4 && name[..4] == "ego_"
    && name[|name| - 4..] == ".bin"
  }

  /** The frames a chunk file contributes to the count. */
  function FileCount(files: map<string, bytes>, maxPayload: nat, name: string): nat
    requires name in files
  {
    if IsChunkFile(name) then |WalkFrames(files[name], maxPayload, f => true).handed| else 0
  }

  /** A chunk file with bytes but no readable frame. */
  predicate Unreadable(files: map<string, bytes>, maxPayload: nat, name: string)
    requires name in files
  {
    IsChunkFile(name) && files[name] != [] && FileCount(files, maxPayload, name) == 0
  }

  ghost function TotalCount(files: map<string, bytes>, maxPayload: nat, names: set<string>): nat
    requires names <= files.Keys
  {
    if names == {} then 0
    else
      var n :| n in names;
      FileCount(files, maxPayload, n) + TotalCount(files, maxPayload, names - {n})
  }

  /** The total does not depend on the order in which the directory lists its files. */
  lemma {:induction false} TotalCountOfRest(files: map<string, bytes>, maxPayload: nat, names: set<string>, n: string)
    requires names <= files.Keys && n in names
    ensures TotalCount(files, maxPayload, names) == FileCount(files, maxPayload, n)
            + TotalCount(files, maxPayload, names - {n})
    decreases |names|
  {
    hide FileCount;
    var m :| m in names && TotalCount(files, maxPayload, names)
                == FileCount(files, maxPayload, m) + TotalCount(files, maxPayload, names - {m});
    if m == n {
    } else {
      TotalCountOfRest(files, maxPayload, names - {m}, n);
      TotalCountOfRest(files, maxPayload, names - {n}, m);
      assert names - {m} - {n} == names - {n} - {m};
    }
  }

  /** A name with the extension .tmp; a leading dot does not begin an extension. */
  predicate IsTmpFile(name: string)
  {
    |name| > 4 && name[|name| - 4..] == ".tmp"
  }

  /** The two kinds of names the check looks at, by their ends. */
  lemma NamesByEnds(name: string)
    ensures IsTmpFile(name) <==> exists stem :: stem != "" && name == stem + ".tmp"
    ensures IsChunkFile(name) <==> exists middle :: name == "ego_" + middle + ".bin"
  {
    if IsTmpFile(name) {
      assert name == name[..|name| - 4] + ".tmp";
    }
    if stem :| stem != "" && name == stem + ".tmp" {
      assert name[|name| - 4..] == ".tmp";
    }
    if IsChunkFile(name) {
      ChunkFileMiddle(name);
    }
    if middle :| name == "ego_" + middle + ".bin" {
      assert name[..4] == "ego_" && name[|name| - 4..] == ".bin";
    }
  }

  lemma ChunkFileMiddle(name: string)
    requires IsChunkFile(name)
    ensures |name| >= 8 && name == "ego_" + name[4..|name| - 4] + ".bin"
  {
    assert forall i :: 0 <= i < 4 ==> name[i] == name[..4][i];
    assert name[|name| - 4] == name[|name| - 4..][0];
    assert name == name[..4] + name[4..|name| - 4] + name[|name| - 4..];
  }

  /** dirExists and others: whether the session directory exists, and the names in it beside the
      chunk files, the index and the manifest. */
  method CheckSessionIntegrity(
      dirExists: bool, others: set<string>, files: map<string, bytes>, index: Option<string>, manifest: Option<string>,
      maxPayload: nat)
    returns (result: IntegrityResult)
    ensures !dirExists ==> result == IntegrityFailed
    ensures dirExists && (exists n :: n in others && IsTmpFile(n)) ==> result == IntegrityWarning
    ensures dirExists && (forall n :: n in others ==> !IsTmpFile(n)) && (manifest == None || index == None) ==>
              result == IntegrityFailed
    ensures dirExists && (forall n :: n in others ==> !IsTmpFile(n)) && manifest != None && index != None ==>
              && (result == IntegrityFailed <==> exists n :: n in files && Unreadable(files, maxPayload, n))
              && (result == IntegrityOk <==>
                    && (forall n :: n in files ==> !Unreadable(files, maxPayload, n))
                    && NonEmptyCount(Split(index.value, '\n')) == TotalCount(files, maxPayload, files.Keys))
  {
    if !dirExists {
      return IntegrityFailed;
    }
    if exists n :: n in others && IsTmpFile(n) {
      return IntegrityWarning;
    }
    if manifest == None || index == None {
      return IntegrityFailed;
    }
    hide Split, FileCount;
    var indexedPackets := CountLines(Split(index.value, '\n'));
    var filePackets := 0;
    var names := files.Keys;
    while names != {}
      invariant names <= files.Keys
      invariant filePackets + TotalCount(files, maxPayload, names) == TotalCount(files, maxPayload, files.Keys)
      invariant forall n :: n in files && n !in names ==> !Unreadable(files, maxPayload, n)
      decreases |names|
    {
      var name :| name in names;
      TotalCountOfRest(files, maxPayload, names, name);
      CountIs(files, maxPayload, name);
      if IsChunkFile(name) {
        var count := CountContractFramesInBytes(files[name], maxPayload);
        if count == 0 && files[name] != [] {
          return IntegrityFailed;
        }
        filePackets := filePackets + count;
      }
      names := names - {name};
    }
    result := if indexedPackets != filePackets then IntegrityWarning else IntegrityOk;
  }

  lemma CountIs(files: map<string, bytes>, maxPayload: nat, name: string)
    requires name in files
    ensures FileCount(files, maxPayload, name) ==
              if IsChunkFile(name) then |WalkFrames(files[name], maxPayload, f => true).handed| else 0
  {}

  method CountLines(lines: seq<string>) returns (n: nat)
    ensures n == NonEmptyCount(lines)
  {
    n := 0;
    for i := 0 to |lines|
      invariant n == NonEmptyCount(lines[..i])
    {
      assert lines[..i + 1][..i] == lines[..i];
      if lines[i] != "" {
        n := n + 1;
      }
    }
    assert lines[..|lines|] == lines;
  }

  lemma {:induction false} AllLinesCount(lines: seq<string>)
    requires forall l :: l in lines ==> l != ""
    ensures NonEmptyCount(lines) == |lines|
  {
    if lines == [] {
    } else {
      var init := lines[..|lines| - 1];
      assert forall l :: l in init ==> l in lines;
      AllLinesCount(init);
      assert lines[|lines| - 1] in lines;
    }
  }

  lemma ChunkNameIsChunkFile(i: nat)
    ensures IsChunkFile(ChunkName(i))
  {
    hide Dec;
    var a, b, n := "ego_", ".bin", ChunkName(i);
    assert n == (a + Dec(i)) + b && |n| == 8 + |Dec(i)|;
    assert n[|n| - 4..] == b;
    assert n[..4] == a;
  }

  function ChunkNames(n: nat): set<string>
  {
    set i: nat | i < n :: ChunkName(i)
  }

  lemma ChunkNamesStep(n: nat)
    ensures ChunkName(n) !in ChunkNames(n) && ChunkNames(n + 1) == ChunkNames(n) + {ChunkName(n)}
  {
    hide ChunkName;
    forall i: nat | i < n
      ensures ChunkName(i) != ChunkName(n)
    {
      if ChunkName(i) == ChunkName(n) {
        ChunkNamesDiffer(i, n);
      }
    }
    forall name | name in ChunkNames(n + 1)
      ensures name in ChunkNames(n) + {ChunkName(n)}
    {
      var i: nat :| i < n + 1 && name == ChunkName(i);
    }
  }

  ghost predicate AllChunksValid(contents: seq<seq<framed>>, maxPayload: nat)
  {
    forall i :: 0 <= i < |contents| ==> AllValid(contents[i], maxPayload)
  }

  lemma ChunkCounts(files: map<string, bytes>, contents: seq<seq<framed>>, maxPayload: nat, i: nat)
    requires FilesHold(files, contents) && AllChunksValid(contents, maxPayload) && i < |contents|
    ensures ChunkName(i) in files && FileCount(files, maxPayload, ChunkName(i)) == |contents[i]|
    ensures !Unreadable(files, maxPayload, ChunkName(i))
  {
    hide ChunkName, WalkFrames, Concat, IsChunkFile;
    ChunkNameIsChunkFile(i);
    WholeStream(contents[i], maxPayload, f => true);
    if contents[i] == [] {
      ConcatOfNothing();
    }
  }

  lemma {:induction false} TotalOfChunks(files: map<string, bytes>, contents: seq<seq<framed>>, maxPayload: nat, n: nat)
    requires FilesHold(files, contents) && AllChunksValid(contents, maxPayload) && n <= |contents|
    ensures ChunkNames(n) <= files.Keys && TotalCount(files, maxPayload, ChunkNames(n)) == |AllFrames(contents[..n])|
  {
    hide ChunkName, ChunkNames, FileCount, FilesHold, AllChunksValid, AllFrames, Unreadable, TotalCount;
    if n == 0 {
      NoChunks(files, maxPayload);
      assert contents[..0] == [];
    } else {
      TotalOfChunks(files, contents, maxPayload, n - 1);
      ChunkNamesStep(n - 1);
      ChunkCounts(files, contents, maxPayload, n - 1);
      TotalCountOfRest(files, maxPayload, ChunkNames(n), ChunkName(n - 1));
      assert ChunkNames(n) - {ChunkName(n - 1)} == ChunkNames(n - 1);
      FramesOfOneMore(contents, n - 1);
    }
  }

  lemma NoChunks(files: map<string, bytes>, maxPayload: nat)
    ensures ChunkNames(0) == {} && TotalCount(files, maxPayload, {}) == 0 && AllFrames([]) == []
  {}

  lemma FramesOfOneMore(contents: seq<seq<framed>>, i: nat)
    requires i < |contents|
    ensures AllFrames(contents[..i + 1]) == AllFrames(contents[..i]) + contents[i]
  {
    assert contents[..i + 1][..i] == contents[..i];
  }

  lemma OnlyChunkFiles(files: map<string, bytes>, contents: seq<seq<framed>>)
    requires FilesHold(files, contents)
    ensures files.Keys == ChunkNames(|contents|)
  {
    hide ChunkName;
    forall name | name in files
      ensures name in ChunkNames(|contents|)
    {
      var i :| 0 <= i < |contents| && name == ChunkName(i);
    }
  }

  /** The files a closed writer leaves behind make the integrity check report ok: index lines and
      readable frames are equally many, and every chunk file is readable. */
  lemma ClosedSessionIsSound(files: map<string, bytes>, contents: seq<seq<framed>>, maxPayload: nat)
    requires FilesHold(files, contents) && AllChunksValid(contents, maxPayload)
    ensures NonEmptyCount(Split(Unlines(IndexLines(contents)), '\n')) == TotalCount(files, maxPayload, files.Keys)
    ensures forall n :: n in files ==> !Unreadable(files, maxPayload, n)
  {
    hide ChunkName, Unreadable, Split, Unlines, FileCount, IndexLines, AllFrames;
    IndexReadsBack(contents);
    AllLinesCount(IndexLines(contents));
    SameCounts(contents);
    OnlyChunkFiles(files, contents);
    TotalOfChunks(files, contents, maxPayload, |contents|);
    assert contents[..|contents|] == contents;
    forall n | n in files
      ensures !Unreadable(files, maxPayload, n)
    {
      var i :| 0 <= i < |contents| && n == ChunkName(i);
      ChunkCounts(files, contents, maxPayload, i);
    }
  }

  lemma {:induction false} ChunksOfValidFrames(contents: seq<seq<framed>>, maxPayload: nat)
    requires AllValid(AllFrames(contents), maxPayload)
    ensures AllChunksValid(contents, maxPayload)
  {
    hide ValidFrame;
    if contents == [] {
    } else {
      var n := |contents| - 1;
      assert forall f :: f in AllFrames(contents[..n]) ==> f in AllFrames(contents);
      ChunksOfValidFrames(contents[..n], maxPayload);
      forall i | 0 <= i < |contents|
        ensures AllValid(contents[i], maxPayload)
      {
        if i < n {
          assert contents[..n][i] == contents[i];
        }
      }
    }
  }

  lemma {:induction false} MoreWritesMoreChunks(calls: seq<WriteCall>, n: nat, chunkMaxBytes: nat)
    requires n <= |calls|
    ensures |AfterWrites(calls[..n], chunkMaxBytes)| <= |AfterWrites(calls, chunkMaxBytes)|
    decreases |calls|
  {
    hide HeaderOf, Concat;
    if n == |calls| {
      assert calls[..n] == calls;
    } else {
      var m := |calls| - 1;
      MoreWritesMoreChunks(calls[..m], n, chunkMaxBytes);
      assert calls[..m][..n] == calls[..n];
    }
  }

  /** A whole recording: a fresh writer is opened, any validated frames are written with any
      rotation and flush timing, the writer is closed, and the integrity check reports ok. */
  method RecordAndCheck(calls: seq<WriteCall>, flushDue: seq<bool>, chunkMaxBytes: nat, flushPackets: nat,
      maxPayload: nat)
    returns (w: ChunkWriter, result: IntegrityResult)
    requires AllValid(FramesOf(calls), maxPayload) && |flushDue| == |calls|
    requires |AfterWrites(calls, chunkMaxBytes)| <= TWO_32
    ensures result == IntegrityOk
    ensures fresh(w) && w.Valid() && w.closed && w.contents == AfterWrites(calls, chunkMaxBytes)
    ensures AllFrames(w.contents) == FramesOf(calls)
    ensures w.manifest == Some(ManifestText(Infos(w.contents)))
  {
    hide ValidFrame, AllFrames, FilesHold, Infos, IndexLines, Concat, Unlines, Split, ManifestText, HeaderOf,
         ChunkName;
    w := new ChunkWriter(chunkMaxBytes, flushPackets);
    w.Open();
    for i := 0 to |calls|
      invariant fresh(w) && w.Valid() && !w.closed
      invariant w.chunkMaxBytes == chunkMaxBytes && w.contents == AfterWrites(calls[..i], chunkMaxBytes)
    {
      assert calls[..i + 1][..i] == calls[..i];
      MoreWritesMoreChunks(calls, i + 1, chunkMaxBytes);
      var ok := w.WriteContractFrame(calls[i].frame, calls[i].timeUp, flushDue[i]);
    }
    assert calls[..|calls|] == calls;
    w.Close();
    AllFramesWritten(calls, chunkMaxBytes, maxPayload);
    ChunksOfValidFrames(w.contents, maxPayload);
    ClosedSessionIsSound(w.files, w.contents, maxPayload);
    result := CheckSessionIntegrity(true, {}, w.files, w.index, w.manifest, maxPayload);
  }

  /** One frame, Close, one more frame: the chunk file holds the second frame alone, while the
      index still has the line of the first and the chunk is listed twice. */
  method ClosedWriterLosesItsChunk(a: bytes, b: bytes, maxPayload: nat) returns (w: ChunkWriter)
    requires ValidFrame(a, maxPayload) && ValidFrame(b, maxPayload)
    ensures fresh(w) && w.files == map[ChunkName(0) := b]
    ensures w.index.Some? && Unlines(IndexLines([[a]])) <= w.index.value
    ensures |w.chunks| == 2 && w.chunks[0].filename == w.chunks[1].filename == ChunkName(0)
  {
    hide ValidFrame, HeaderOf, ChunkName, AllFrames, IndexLines, Unlines, Concat, InfoOf, Written, ManifestText;
    ValidFrameHasMagic(a, maxPayload);
    ValidFrameHasMagic(b, maxPayload);
    w := new ChunkWriter(1, 1);
    w.Open();
    var ok := w.WriteContractFrame(a, false, false);
    FirstFrameWritten(a, 1);
    assert w.contents == [[a]];
    w.Close();
    OneChunkHeld(w.files, a);
    OneChunkListed(w.chunks, a);
    ok := w.WriteContractFrame(b, false, false);
    assert w.chunks[..1][0] == w.chunks[0];
  }

  lemma FirstFrameWritten(f: framed, chunkMaxBytes: nat)
    requires HeaderOf(f[..HEADER_SIZE]).magic == FRAME_MAGIC && chunkMaxBytes > 0
    ensures Written([[]], f, false, chunkMaxBytes) == [[f]]
  {
    hide HeaderOf;
    var empty: seq<seq<framed>>, frames: seq<framed> := [[]], [f];
    assert empty[0] + frames == frames && empty[0 := frames] == [frames];
  }

  lemma OneChunkHeld(files: map<string, bytes>, f: framed)
    requires FilesHold(files, [[f]])
    ensures files == map[ChunkName(0) := f]
  {
    hide ChunkName;
    var frames: seq<framed> := [f];
    assert [frames][0] == frames;
    assert ChunkName(0) in files && files[ChunkName(0)] == Concat(frames);
    assert frames[1..] == [] && Concat(frames) == f + [] == f;
    forall name | name in files
      ensures name == ChunkName(0)
    {
      var i :| 0 <= i < 1 && name == ChunkName(i);
    }
    assert files.Keys == {ChunkName(0)};
  }

  lemma OneChunkListed(chunks: seq<ChunkInfo>, f: framed)
    requires chunks == Infos([[f]])
    ensures |chunks| == 1 && chunks[0].filename == ChunkName(0)
  {
    hide ChunkName, Concat, HeaderIn;
  }
}
