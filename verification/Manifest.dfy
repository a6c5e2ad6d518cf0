/** The session manifest `ego_manifest.json` as the runtime prints it. */
module Manifest {
  import opened Text

  datatype ChunkInfo = ChunkInfo(filename: string, size: nat, firstTs: nat, lastTs: nat, packetCount: nat)

  /** `std::to_string` of the chunk number between the fixed name parts. */
  function ChunkName(i: nat): string
  {
    "ego_" + Dec(i) + ".bin"
  }

  lemma ChunkNamesDiffer(i: nat, j: nat)
    requires ChunkName(i) == ChunkName(j)
    ensures i == j
  {
    var a, b := ChunkName(i), ChunkName(j);
    assert a[4..|a| - 4] == Dec(i) && b[4..|b| - 4] == Dec(j);
    DecIsInjective(i, j);
  }

  function EscapedChar(c: char): string
  {
    if c == '"' then "\\\""
    else if c == '\\' then "\\\\"
    else if c == '\n' then "\\n"
    else if c == '\r' then "\\r"
    else if c == '\t' then "\\t"
    else [c]
  }

  function Escaped(s: string): string
  {
    if s == [] then [] else Escaped(s[..|s| - 1]) + EscapedChar(s[|s| - 1])
  }

  method JsonEscape(s: string) returns (out: string)
    ensures out == Escaped(s)
  {
    out := [];
    for i := 0 to |s|
      invariant out == Escaped(s[..i])
    {
      var c := s[i];
      assert s[..i + 1][..i] == s[..i];
      if c == '"' {
        out := out + "\\\"";
      } else if c == '\\' {
        out := out + "\\\\";
      } else if c == '\n' {
        out := out + "\\n";
      } else if c == '\r' {
        out := out + "\\r";
      } else if c == '\t' {
        out := out + "\\t";
      } else {
        out := out + [c];
      }
    }
    assert s[..|s|] == s;
  }

  datatype FieldValue = Num(n: nat) | Str(s: string)
  datatype Field = Field(key: string, value: FieldValue)

  function ValueText(v: FieldValue): string
  {
    match v
    case Num(n) => Dec(n)
    case Str(s) => "\"" + Escaped(s) + "\""
  }

  function FieldText(f: Field): string
  {
    "      \"" + f.key + "\": " + ValueText(f.value)
  }

  /** The lines of an object, up to its closing brace. */
  function FieldLines(fields: seq<Field>): (text: string)
    ensures text != ""
  {
    if fields == [] then "    }"
    else FieldText(fields[0]) + ((if |fields| == 1 then "\n" else ",\n") + FieldLines(fields[1..]))
  }

  function ChunkFields(i: nat, c: ChunkInfo): seq<Field>
  {
    [Field("chunk_id", Num(i)), Field("file", Str(c.filename)), Field("bytes", Num(c.size)),
     Field("first_ts_ns", Num(c.firstTs)), Field("last_ts_ns", Num(c.lastTs)),
         Field("packet_count", Num(c.packetCount))]
  }

  /** The object printed for chunk i. */
  function ChunkText(i: nat, c: ChunkInfo): string
  {
    "    {\n" + FieldLines(ChunkFields(i, c))
  }

  /** The first n of the objects of chunks; every object but the last of all is followed by a comma. */
  function ChunkTexts(chunks: seq<ChunkInfo>, n: nat): string
    requires n <= |chunks|
  {
    if n == 0 then []
    else ChunkTexts(chunks, n - 1) + (ChunkText(n - 1, chunks[n - 1]) + (if n < |chunks| then "," else "") + "\n")
  }

  function ManifestText(chunks: seq<ChunkInfo>): string
  {
    "{\n  \"chunks\": [\n" + ChunkTexts(chunks, |chunks|) + "  ]\n}\n"
  }

  /** The text `UpdateManifest` prints. */
  method PrintManifest(chunks: seq<ChunkInfo>) returns (json: string)
    ensures json == ManifestText(chunks)
  {
    hide ChunkText;
    json := "{\n  \"chunks\": [\n";
    ghost var head := json;
    assert json + ChunkTexts(chunks, 0) == json;
    for i := 0 to |chunks|
      invariant json == head + ChunkTexts(chunks, i)
    {
      var entry := PrintChunk(i, chunks[i]);
      var line := entry + (if i + 1 < |chunks| then "," else "") + "\n";
      json := json + line;
      assert json == head + (ChunkTexts(chunks, i) + line);
    }
    json := json + "  ]\n}\n";
  }

  method PrintChunk(i: nat, c: ChunkInfo) returns (entry: string)
    ensures entry == ChunkText(i, c)
  {
    var name := JsonEscape(c.filename);
    var id := "      \"chunk_id\": " + Dec(i);
    var file := "      \"file\": \"" + name + "\"";
    var size := "      \"bytes\": " + Dec(c.size);
    var first := "      \"first_ts_ns\": " + Dec(c.firstTs);
    var last := "      \"last_ts_ns\": " + Dec(c.lastTs);
    var count := "      \"packet_count\": " + Dec(c.packetCount);
    FieldsPrinted(i, c);
    hide *;
    entry := "    {\n" + (id + ",\n") + (file + ",\n") + (size + ",\n") + (first + ",\n") + (last + ",\n")
        + (count + "\n") + "    }";
    var f := ChunkFields(i, c);
    assert entry == ChunkText(i, c) by {
      LinesOf(f);
      ChunkTextIs(i, c);
      NestRight("    {\n", id + ",\n", file + ",\n", size + ",\n", first + ",\n", last + ",\n", count + "\n", "    }");
    }
  }

  lemma ChunkTextIs(i: nat, c: ChunkInfo)
    ensures ChunkText(i, c) == "    {\n" + FieldLines(ChunkFields(i, c))
  {}

  lemma Labels()
    ensures "      \"chunk_id\": " == "      \"" + "chunk_id" + "\": "
    ensures "      \"file\": " == "      \"" + "file" + "\": "
    ensures "      \"bytes\": " == "      \"" + "bytes" + "\": "
    ensures "      \"first_ts_ns\": " == "      \"" + "first_ts_ns" + "\": "
    ensures "      \"last_ts_ns\": " == "      \"" + "last_ts_ns" + "\": "
    ensures "      \"packet_count\": " == "      \"" + "packet_count" + "\": "
  {}

  lemma FieldsPrinted(i: nat, c: ChunkInfo)
    ensures |ChunkFields(i, c)| == 6
    ensures FieldText(ChunkFields(i, c)[0]) == "      \"chunk_id\": " + Dec(i)
    ensures FieldText(ChunkFields(i, c)[1]) == "      \"file\": \"" + Escaped(c.filename) + "\""
    ensures FieldText(ChunkFields(i, c)[2]) == "      \"bytes\": " + Dec(c.size)
    ensures FieldText(ChunkFields(i, c)[3]) == "      \"first_ts_ns\": " + Dec(c.firstTs)
    ensures FieldText(ChunkFields(i, c)[4]) == "      \"last_ts_ns\": " + Dec(c.lastTs)
    ensures FieldText(ChunkFields(i, c)[5]) == "      \"packet_count\": " + Dec(c.packetCount)
  {
    hide Escaped, Dec;
    Labels();
    Quoted("      \"file\": ", Escaped(c.filename));
    assert "      \"file\": " + "\"" == "      \"file\": \"";
  }

  lemma Quoted(start: string, e: string)
    ensures start + ("\"" + e + "\"") == (start + "\"") + e + "\""
  {
    Regroup(start, "\"" + e, "\"");
    Regroup(start, "\"", e);
  }

  /** Six fields, written out. */
  lemma LinesOf(f: seq<Field>)
    requires |f| == 6
    ensures FieldLines(f) ==
              (FieldText(f[0]) + ",\n") + ((FieldText(f[1]) + ",\n")
                  + ((FieldText(f[2]) + ",\n") + ((FieldText(f[3]) + ",\n")
              + ((FieldText(f[4]) + ",\n") + ((FieldText(f[5]) + "\n") + "    }")))))
  {
    hide FieldText, FieldLines;
    FirstLine(f);
    FirstLine(f[1..]);
    FirstLine(f[2..]);
    FirstLine(f[3..]);
    FirstLine(f[4..]);
    FirstLine(f[5..]);
    assert f[1..][1..] == f[2..] && f[2..][1..] == f[3..] && f[3..][1..] == f[4..] && f[4..][1..] == f[5..]
           && f[5..][1..] == [];
    NoLines();
  }

  lemma NoLines()
    ensures FieldLines([]) == "    }"
  {}

  lemma FirstLine(f: seq<Field>)
    requires f != []
    ensures FieldLines(f) == (FieldText(f[0]) + (if |f| == 1 then "\n" else ",\n")) + FieldLines(f[1..])
  {
    hide FieldText;
    Regroup(FieldText(f[0]), if |f| == 1 then "\n" else ",\n", FieldLines(f[1..]));
  }

  /** The concatenation of eight pieces does not depend on how they are bracketed. */
  lemma NestRight(h: string, a: string, b: string, c: string, d: string, e: string, f: string, t: string)
    ensures h + a + b + c + d + e + f + t == h + (a + (b + (c + (d + (e + (f + t))))))
  {
    Regroup(h + a + b + c + d + e, f, t);
    Regroup(h + a + b + c + d, e, f + t);
    Regroup(h + a + b + c, d, e + (f + t));
    Regroup(h + a + b, c, d + (e + (f + t)));
    Regroup(h + a, b, c + (d + (e + (f + t))));
    Regroup(h, a, b + (c + (d + (e + (f + t)))));
  }
}
