/** The chunk writer: frames go to `ego_<id>.bin` files that rotate by size or age, a line per
    frame goes to `ego.index`, and every flush rewrites `ego_manifest.json`. */
module ChunkWriter {
  import opened Bytes
  import opened ContractFrame
  import opened Text
  import opened Manifest
  import opened Wrappers

  /** A byte string long enough to carry a frame header. */
  type framed = f: bytes | |f| >= HEADER_SIZE witness Zeros(HEADER_SIZE)

  function HeaderIn(f: framed): EgoFrameHeader
  {
    HeaderOf(f[..HEADER_SIZE])
  }

  // ---- What the session directory holds, as a function of the frames in each chunk ----

  function IndexLine(chunkId: nat, offset: nat, f: framed): string
  {
    var h := HeaderIn(f);
    Dec(offset) + "," + (Dec(h.t0Ns) + "," + (Dec(h.frameType) + ","
        + (Dec(h.seqNo) + "," + (Dec(chunkId) + "," + Dec(h.payloadSize)))))
  }

  function ChunkLines(id: nat, frames: seq<framed>): (r: seq<string>)
    ensures |r| == |frames|
  {
    if frames == [] then []
    else
      var n := |frames| - 1;
      ChunkLines(id, frames[..n]) + [IndexLine(id, |Concat(frames[..n])|, frames[n])]
  }

  function IndexLines(contents: seq<seq<framed>>): seq<string>
  {
    if contents == [] then []
    else IndexLines(contents[..|contents| - 1]) + ChunkLines(|contents| - 1, contents[|contents| - 1])
  }

  function InfoOf(id: nat, frames: seq<framed>): ChunkInfo
  {
    var n := |frames|;
    ChunkInfo(ChunkName(id), |Concat(frames)|,
              if n == 0 then 0 else HeaderIn(frames[(n - 1) / TWO_32 * TWO_32]).t0Ns,
              if n == 0 then 0 else HeaderIn(frames[n - 1]).t1Ns,
              n % TWO_32)
  }

  function Infos(contents: seq<seq<framed>>): (r: seq<ChunkInfo>)
    ensures |r| == |contents|
  {
    seq(|contents|, i requires 0 <= i < |contents| => InfoOf(i, contents[i]))
  }

  /** The chunk files: exactly one per chunk, holding its frames one after the other. */
  ghost predicate FilesHold(files: map<string, bytes>, contents: seq<seq<framed>>)
  {
    && (forall i :: 0 <= i < |contents| ==> ChunkName(i) in files && files[ChunkName(i)] == Concat(contents[i]))
    && (forall name :: name in files ==> exists i :: 0 <= i < |contents| && name == ChunkName(i))
  }

  function AllFrames(contents: seq<seq<framed>>): seq<framed>
  {
    if contents == [] then [] else AllFrames(contents[..|contents| - 1]) + contents[|contents| - 1]
  }

  /** The frame appended to the last chunk. */
  function Appended(contents: seq<seq<framed>>, f: framed): seq<seq<framed>>
    requires contents != []
  {
    contents[|contents| - 1 := contents[|contents| - 1] + [f]]
  }

  // ---- How each part grows ----

  lemma FilesAfterOpen(files: map<string, bytes>, contents: seq<seq<framed>>)
    requires FilesHold(files, contents)
    ensures FilesHold(files[ChunkName(|contents|) := []], contents + [[]])
  {
    hide ChunkName;
    var files' := files[ChunkName(|contents|) := []];
    forall i | 0 <= i < |contents| + 1
      ensures ChunkName(i) in files' && files'[ChunkName(i)] == Concat((contents + [[]])[i])
    {
      if ChunkName(i) == ChunkName(|contents|) {
        ChunkNamesDiffer(i, |contents|);
      }
    }
    assert ChunkName(|contents|) in files';
  }

  lemma FilesAfterAppend(files: map<string, bytes>, contents: seq<seq<framed>>, f: framed)
    requires contents != [] && FilesHold(files, contents)
    ensures var name := ChunkName(|contents| - 1);
            name in files && FilesHold(files[name := files[name] + f], Appended(contents, f))
  {
    hide ChunkName, Concat;
    var n := |contents| - 1;
    var name := ChunkName(n);
    var files' := files[name := files[name] + f];
    ConcatOfSnoc(contents[n], f);
    forall i | 0 <= i < |contents|
      ensures ChunkName(i) in files' && files'[ChunkName(i)] == Concat(Appended(contents, f)[i])
    {
      if ChunkName(i) == ChunkName(n) {
        ChunkNamesDiffer(i, n);
      }
    }
  }

  lemma IndexAfterOpen(contents: seq<seq<framed>>)
    ensures IndexLines(contents + [[]]) == IndexLines(contents)
  {
    assert (contents + [[]])[..|contents|] == contents;
  }

  lemma IndexAfterAppend(contents: seq<seq<framed>>, f: framed)
    requires contents != []
    ensures var n := |contents| - 1;
            IndexLines(Appended(contents, f)) == IndexLines(contents) + [IndexLine(n, |Concat(contents[n])|, f)]
  {
    hide IndexLine, Concat;
    var n := |contents| - 1;
    assert Appended(contents, f)[..n] == contents[..n];
    assert (contents[n] + [f])[..|contents[n]|] == contents[n];
  }

  lemma InfosAfterOpen(contents: seq<seq<framed>>)
    ensures Infos(contents + [[]]) == Infos(contents) + [ChunkInfo(ChunkName(|contents|), 0, 0, 0, 0)]
  {}

  /** A manifest entry after one more frame. */
  function Counted(was: ChunkInfo, f: framed): (r: ChunkInfo)
    ensures r.filename == was.filename
  {
    var count := (was.packetCount + 1) % TWO_32;
    ChunkInfo(was.filename, was.size + |f|, if count == 1 then HeaderIn(f).t0Ns else was.firstTs,
              HeaderIn(f).t1Ns, count)
  }

  lemma InfoAfterAppend(id: nat, frames: seq<framed>, f: framed)
    ensures InfoOf(id, frames + [f]) == Counted(InfoOf(id, frames), f)
  {
    hide HeaderIn, Concat, ChunkName;
    ConcatOfSnoc(frames, f);
    var n := |frames|;
    var block := n / TWO_32 * TWO_32;
    assert (frames + [f])[..n] == frames;
    if n > 0 && n % TWO_32 != 0 {
      assert (n - 1) / TWO_32 == n / TWO_32;
    }
  }

  lemma InfosAfterAppend(contents: seq<seq<framed>>, f: framed)
    requires contents != []
    ensures var n := |contents| - 1;
            Infos(Appended(contents, f)) == Infos(contents)[n := InfoOf(n, contents[n] + [f])]
  {}

  ghost predicate Agrees(
    files: map<string, bytes>, index: Option<string>, chunks: seq<ChunkInfo>,
    totalBytes: nat, totalPackets: nat, contents: seq<seq<framed>>)
  {
    && FilesHold(files, contents)
    && chunks == Infos(contents)
    && index == (if contents == [] then None else Some(Unlines(IndexLines(contents))))
    && totalBytes == |Concat(AllFrames(contents))|
    && totalPackets == |AllFrames(contents)| % TWO_32
  }

  class ChunkWriter {
    const chunkMaxBytes: nat
    const flushPackets: nat
    var files: map<string, bytes>
    var index: Option<string>
    var manifest: Option<string>
    var chunkOpen: bool
    var closed: bool
    var chunkFile: string
    var currentChunkId: nat
    var currentChunkOffset: nat
    var currentChunkBytes: nat
    var packetsSinceFlush: nat
    var totalBytes: nat
    var totalPackets: nat
    var chunks: seq<ChunkInfo>
    ghost var contents: seq<seq<framed>>

    /** The files and counters agree with the frames written so far. */
    ghost predicate Consistent()
      reads this
    {
      Agrees(files, index, chunks, totalBytes, totalPackets, contents)
    }

    ghost predicate Valid()
      reads this
    {
      && Consistent()
      && |contents| <= TWO_32
      && (chunkOpen <==> contents != [] && !closed)
      && (contents == [] ==> currentChunkId == 0)
      && (contents != [] ==>
            && currentChunkId == |contents| - 1
            && chunkFile == ChunkName(|contents| - 1)
            && currentChunkOffset == currentChunkBytes == |Concat(contents[|contents| - 1])|)
    }

    /** The next write opens a chunk file that exists already: the writer was closed, or the
        32-bit chunk number wraps around. */
    ghost predicate Reuses(timeUp: bool)
      reads this
    {
      contents != [] && (closed || (|contents| == TWO_32 && Rotates(contents, timeUp, chunkMaxBytes)))
    }

    /** The number of that chunk. */
    ghost function ReusedId(): nat
      reads this
      requires contents != []
    {
      if closed then |contents| - 1 else 0
    }

    /** A writer for a fresh session directory. */
    constructor (chunkMaxBytes: nat, flushPackets: nat)
      ensures Valid() && !closed && contents == [] && manifest == None
      ensures this.chunkMaxBytes == chunkMaxBytes && this.flushPackets == flushPackets
    {
      this.chunkMaxBytes, this.flushPackets := chunkMaxBytes, flushPackets;
      files, index, manifest := map[], None, None;
      chunkOpen, closed, chunkFile := false, false, "";
      currentChunkId, currentChunkOffset, currentChunkBytes := 0, 0, 0;
      packetsSinceFlush, totalBytes, totalPackets := 0, 0, 0;
      chunks, contents := [], [];
    }

    method Open()
      requires Valid() && !closed && contents == []
      modifies this
      ensures Valid() && !closed && contents == [[]] && manifest == old(manifest)
    {
      hide ChunkName, FilesHold, Infos, IndexLines, InfoOf, Concat, AllFrames, Unlines, ManifestText;
      OpenChunk(true);
    }

    /** The file of the current chunk number is emptied if it exists. If the number is new, the
        chunk is added to the history. */
    method OpenChunk(ghost isNew: bool)
      requires !chunkOpen
      requires isNew ==> Consistent() && currentChunkId == |contents| < TWO_32
      modifies this
      ensures chunkOpen && !closed && chunkFile == ChunkName(currentChunkId)
      ensures files == old(files)[chunkFile := []] && chunks == old(chunks) + [ChunkInfo(chunkFile, 0, 0, 0, 0)]
      ensures index == Some(if old(index) == None then "" else old(index.value))
      ensures currentChunkId == old(currentChunkId) && manifest == old(manifest)
      ensures isNew ==> Valid() && contents == old(contents) + [[]]
    {
      hide ChunkName, Agrees, Concat, Rotates;
      if isNew {
        ConcatOfNothing();
        OpeningAgrees(files, index, chunks, totalBytes, totalPackets, contents);
      }
      OpenFiles();
      currentChunkOffset, currentChunkBytes := 0, 0;
      chunkOpen, closed := true, false;
      if isNew {
        contents := contents + [[]];
      }
    }

    method OpenFiles()
      modifies `files, `chunkFile, `index, `chunks
      ensures chunkFile == ChunkName(currentChunkId)
      ensures files == old(files)[chunkFile := []] && chunks == old(chunks) + [ChunkInfo(chunkFile, 0, 0, 0, 0)]
      ensures index == Some(if old(index) == None then "" else old(index.value))
    {
      hide ChunkName;
      chunkFile := ChunkName(currentChunkId);
      files := files[chunkFile := []];
      if index == None {
        index := Some("");
      }
      chunks := chunks + [ChunkInfo(chunkFile, 0, 0, 0, 0)];
    }

    method Flush()
      modifies `manifest, `packetsSinceFlush
      ensures manifest == Some(ManifestText(chunks)) && packetsSinceFlush == 0
    {
      packetsSinceFlush := 0;
      var text := PrintManifest(chunks);
      manifest := Some(text);
    }

    /** timeUp: the chunk has been open for chunk_max_sec. A chunk whose file name was used before
        empties that file and is listed a second time. */
    method RotateIfNeeded(timeUp: bool)
      requires Valid()
      modifies this
      ensures chunkOpen && !closed && chunkFile in files && index.Some? && chunks != []
      ensures !old(Reuses(timeUp)) ==> Valid() && contents == Rotated(old(contents), timeUp, chunkMaxBytes)
      ensures old(Reuses(timeUp)) ==>
                && chunkFile == ChunkName(old(ReusedId())) && chunkFile in old(files)
                && files == old(files)[chunkFile := []] && index == old(index)
                && chunks == old(chunks) + [ChunkInfo(chunkFile, 0, 0, 0, 0)]
                && old(ReusedId()) < |old(chunks)| && old(chunks)[old(ReusedId())].filename == chunkFile
    {
      hide ChunkName, Agrees, Concat, ManifestText;
      ghost var reused := Reuses(timeUp);
      if contents != [] {
        ChunksExist(files, index, chunks, totalBytes, totalPackets, contents, |contents| - 1);
        ChunksExist(files, index, chunks, totalBytes, totalPackets, contents, 0);
      }
      if chunkOpen {
        var sizeLimit := currentChunkBytes >= chunkMaxBytes;
        if !sizeLimit && !timeUp {
          return;
        }
        Flush();
        chunkOpen := false;
        currentChunkId := (currentChunkId + 1) % TWO_32;
      }
      OpenChunk(!reused);
    }

    method FlushIfDue(flushDue: bool)
      modifies `manifest, `packetsSinceFlush
      ensures old(Valid()) ==> Valid()
    {
      hide ChunkName, FilesHold, Infos, IndexLines, Concat, AllFrames, Unlines, ManifestText;
      packetsSinceFlush := packetsSinceFlush + 1;
      if packetsSinceFlush >= flushPackets || flushDue {
        Flush();
      }
    }

    /** No history of frames explains files, index, chunk list and totals any more. */
    ghost predicate Broken()
      reads this
    {
      forall c :: !Agrees(files, index, chunks, totalBytes, totalPackets, c)
    }

    /** flushDue: flush_interval_sec has passed since the last flush. Every write of a frame is as in
        the history of the frames, exactly unless it opens a chunk file used before: that file loses
        what it held, while index and chunk list keep naming it. */
    method WriteContractFrame(frame: bytes, timeUp: bool, flushDue: bool) returns (ok: bool)
      requires Valid()
      modifies this
      ensures ok <==> |frame| >= HEADER_SIZE && HeaderOf(frame[..HEADER_SIZE]).magic == FRAME_MAGIC
      ensures |frame| < HEADER_SIZE || !old(Reuses(timeUp)) ==>
                Valid() && contents == Written(old(contents), frame, timeUp, chunkMaxBytes)
      ensures |frame| < HEADER_SIZE ==> closed == old(closed)
      ensures |frame| >= HEADER_SIZE ==> !closed
      ensures |frame| >= HEADER_SIZE && old(Reuses(timeUp)) ==>
                var name := ChunkName(old(ReusedId()));
                && Broken()
                && name in old(files) && files == old(files)[name := if ok then frame else []]
                && |chunks| == |old(chunks)| + 1 && chunks[..|old(chunks)|] == old(chunks)
                && chunks[|old(chunks)|].filename == name
                && old(index).Some? && index.Some? && old(index).value <= index.value
    {
      hide ChunkName, Consistent, InfoOf, IndexLine, Counted, Concat, ManifestText, HeaderOf;
      if |frame| < HEADER_SIZE {
        return false;
      }
      ghost var reused := Reuses(timeUp);
      ghost var i, j := if reused then ReusedId() else 0, |chunks|;
      RotateIfNeeded(timeUp);
      var header := HeaderOf(frame[..HEADER_SIZE]);
      if header.magic != FRAME_MAGIC {
        if reused {
          NameTwice(files, index, chunks, totalBytes, totalPackets, i, j);
        }
        return false;
      }
      AppendFrame(frame, !reused);
      FlushIfDue(flushDue);
      if reused {
        NameTwice(files, index, chunks, totalBytes, totalPackets, i, j);
      }
      return true;
    }

    /** The part of `WriteContractFrame` after the magic test: bytes, index line and counters. */
    method AppendFrame(frame: framed, ghost isValid: bool)
      requires chunkOpen && !closed && chunkFile in files && index.Some? && chunks != []
      requires isValid ==> Valid()
      modifies this
      ensures files == old(files)[chunkFile := old(files[chunkFile]) + frame]
      ensures old(files[chunkFile]) == [] ==> files == old(files)[chunkFile := frame]
      ensures index == Some(old(index).value + (IndexLine(currentChunkId, old(currentChunkOffset), frame) + ['\n']))
      ensures chunks == old(chunks)[|old(chunks)| - 1 := Counted(old(chunks[|chunks| - 1]), frame)]
      ensures unchanged(`closed) && unchanged(`chunkOpen) && unchanged(`chunkFile)
      ensures isValid ==> Valid() && contents == Appended(old(contents), frame)
    {
      hide ChunkName, Agrees, HeaderOf, HeaderIn, IndexLine, Concat, Counted, Appended, Rotates;
      if isValid {
        AppendingAgrees(files, index, chunks, totalBytes, totalPackets, contents, frame);
      }
      AppendToFiles(frame);
      currentChunkOffset := currentChunkOffset + |frame|;
      currentChunkBytes := currentChunkBytes + |frame|;
      totalBytes := totalBytes + |frame|;
      totalPackets := (totalPackets + 1) % TWO_32;
      if isValid {
        contents := Appended(contents, frame);
      }
    }

    method AppendToFiles(frame: framed)
      requires chunkFile in files && index.Some? && chunks != []
      modifies `files, `index, `chunks
      ensures files == old(files)[chunkFile := old(files[chunkFile]) + frame]
      ensures old(files[chunkFile]) == [] ==> files == old(files)[chunkFile := frame]
      ensures index == Some(old(index).value + (IndexLine(currentChunkId, currentChunkOffset, frame) + ['\n']))
      ensures chunks == old(chunks)[|old(chunks)| - 1 := Counted(old(chunks[|chunks| - 1]), frame)]
    {
      hide HeaderOf, HeaderIn, IndexLine, Counted;
      assert [] + frame == frame;
      files := files[chunkFile := files[chunkFile] + frame];
      index := Some(index.value + (IndexLine(currentChunkId, currentChunkOffset, frame) + ['\n']));
      var chunk := CountFrame(chunks[|chunks| - 1], frame);
      chunks := chunks[|chunks| - 1 := chunk];
    }

    /** The manifest entry of the current chunk after one more frame. */
    static method CountFrame(info: ChunkInfo, frame: framed) returns (chunk: ChunkInfo)
      ensures chunk == Counted(info, frame)
    {
      hide HeaderOf;
      var header := HeaderIn(frame);
      chunk := info.(size := info.size + |frame|, packetCount := (info.packetCount + 1) % TWO_32);
      if chunk.packetCount == 1 {
        chunk := chunk.(firstTs := header.t0Ns);
      }
      chunk := chunk.(lastTs := header.t1Ns);
    }

    method Close()
      requires Valid()
      modifies this
      ensures Valid() && closed && contents == old(contents)
      ensures manifest == Some(ManifestText(Infos(contents)))
      ensures files == old(files) && index == old(index)
    {
      hide ChunkName, FilesHold, Infos, IndexLines, InfoOf, Concat, AllFrames, Unlines, ManifestText, HeaderOf;
      Flush();
      chunkOpen := false;
      closed := true;
    }
  }

  lemma ChunksExist(
    files: map<string, bytes>, index: Option<string>, chunks: seq<ChunkInfo>,
    totalBytes: nat, totalPackets: nat, contents: seq<seq<framed>>, i: nat)
    requires Agrees(files, index, chunks, totalBytes, totalPackets, contents) && i < |contents|
    ensures ChunkName(i) in files && index.Some? && |chunks| == |contents| && chunks[i].filename == ChunkName(i)
  {
    hide ChunkName, HeaderIn, IndexLines, Unlines, Concat, AllFrames;
    assert chunks[i] == InfoOf(i, contents[i]);
  }

  /** A chunk list that names a file twice describes no history at all. */
  lemma NameTwice(
    files: map<string, bytes>, index: Option<string>, chunks: seq<ChunkInfo>,
    totalBytes: nat, totalPackets: nat, i: nat, j: nat)
    requires i < j < |chunks| && chunks[i].filename == chunks[j].filename
    ensures forall c :: !Agrees(files, index, chunks, totalBytes, totalPackets, c)
  {
    hide ChunkName, Agrees;
    forall c: seq<seq<framed>>
      ensures !Agrees(files, index, chunks, totalBytes, totalPackets, c)
    {
      if Agrees(files, index, chunks, totalBytes, totalPackets, c) {
        NumberOfChunks(files, index, chunks, totalBytes, totalPackets, c);
        ChunksExist(files, index, chunks, totalBytes, totalPackets, c, i);
        ChunksExist(files, index, chunks, totalBytes, totalPackets, c, j);
        ChunkNamesDiffer(i, j);
      }
    }
  }

  lemma NumberOfChunks(
    files: map<string, bytes>, index: Option<string>, chunks: seq<ChunkInfo>,
    totalBytes: nat, totalPackets: nat, contents: seq<seq<framed>>)
    requires Agrees(files, index, chunks, totalBytes, totalPackets, contents)
    ensures |chunks| == |contents|
  {
    hide FilesHold, IndexLines, Unlines, Concat, AllFrames;
  }

  /** Opening the next chunk keeps all parts in agreement. */
  lemma OpeningAgrees(
    files: map<string, bytes>, index: Option<string>, chunks: seq<ChunkInfo>,
    totalBytes: nat, totalPackets: nat, contents: seq<seq<framed>>)
    requires Agrees(files, index, chunks, totalBytes, totalPackets, contents)
    ensures var name := ChunkName(|contents|);
            Agrees(files[name := []], Some(if index == None then "" else index.value),
                   chunks + [ChunkInfo(name, 0, 0, 0, 0)], totalBytes, totalPackets, contents + [[]])
  {
    hide ChunkName, FilesHold, Infos, IndexLines, Concat, AllFrames, Unlines;
    NoIndexYet(contents);
    FilesAfterOpen(files, contents);
    IndexAfterOpen(contents);
    InfosAfterOpen(contents);
    FramesAfterOpen(contents);
  }

  /** Appending a frame keeps all parts in agreement. */
  lemma AppendingAgrees(
    files: map<string, bytes>, index: Option<string>, chunks: seq<ChunkInfo>,
    totalBytes: nat, totalPackets: nat, contents: seq<seq<framed>>, f: framed)
    requires contents != [] && Agrees(files, index, chunks, totalBytes, totalPackets, contents)
    ensures var n := |contents| - 1; var name := ChunkName(n); var offset := |Concat(contents[n])|;
            && name in files && index.Some? && |chunks| == |contents|
            && Agrees(files[name := files[name] + f],
                      Some(index.value + (IndexLine(n, offset, f) + ['\n'])),
                      chunks[n := Counted(chunks[n], f)], totalBytes + |f|, (totalPackets + 1) % TWO_32,
                      Appended(contents, f))
            && |Appended(contents, f)| == |contents| && |Concat(Appended(contents, f)[n])| == offset + |f|
  {
    hide ChunkName, FilesHold, Infos, IndexLines, InfoOf, IndexLine, Concat, AllFrames, Unlines, Counted;
    var n := |contents| - 1;
    FilesAfterAppend(files, contents, f);
    IndexAfterAppend(contents, f);
    LinesAfterAppend(IndexLines(contents), IndexLine(n, |Concat(contents[n])|, f));
    InfosAfterAppend(contents, f);
    InfoAfterAppend(n, contents[n], f);
    LastInfo(contents);
    FramesAfterAppend(contents, f);
    ConcatOfSnoc(contents[n], f);
    ConcatOfSnoc(AllFrames(contents), f);
  }

  lemma ConcatOfNothing()
    ensures Concat([]) == []
  {}

  lemma NoIndexYet(contents: seq<seq<framed>>)
    ensures IndexLines([]) == [] && Unlines([]) == ""
  {}

  lemma LinesAfterAppend(lines: seq<string>, line: string)
    ensures Unlines(lines + [line]) == Unlines(lines) + (line + ['\n'])
  {
    assert (lines + [line])[..|lines|] == lines;
  }

  lemma FramesAfterOpen(contents: seq<seq<framed>>)
    ensures AllFrames(contents + [[]]) == AllFrames(contents)
  {
    assert (contents + [[]])[..|contents|] == contents;
  }

  lemma FramesAfterAppend(contents: seq<seq<framed>>, f: framed)
    requires contents != []
    ensures AllFrames(Appended(contents, f)) == AllFrames(contents) + [f]
  {
    var n := |contents| - 1;
    assert Appended(contents, f)[..n] == contents[..n];
  }

  lemma LastInfo(contents: seq<seq<framed>>)
    requires contents != []
    ensures Infos(contents)[|contents| - 1] == InfoOf(|contents| - 1, contents[|contents| - 1])
  {}

  // ---- One write, on the frames alone ----

  predicate Rotates(contents: seq<seq<framed>>, timeUp: bool, chunkMaxBytes: nat)
  {
    contents == [] || timeUp || |Concat(contents[|contents| - 1])| >= chunkMaxBytes
  }

  function Rotated(contents: seq<seq<framed>>, timeUp: bool, chunkMaxBytes: nat): (r: seq<seq<framed>>)
    ensures r != []
  {
    if Rotates(contents, timeUp, chunkMaxBytes) then contents + [[]] else contents
  }

  function Written(contents: seq<seq<framed>>, frame: bytes, timeUp: bool, chunkMaxBytes: nat): seq<seq<framed>>
  {
    if |frame| < HEADER_SIZE then contents
    else
      var c := Rotated(contents, timeUp, chunkMaxBytes);
      if HeaderOf(frame[..HEADER_SIZE]).magic == FRAME_MAGIC then Appended(c, frame) else c
  }
}
