/** The offline side of the session manifest: `EgoManifest::from_json`, and the proof that the
    text the runtime prints is read back as the chunk list it was printed from. */
module ManifestReader {
  import opened Bytes
  import opened Text
  import opened Manifest
  import opened Wrappers
  import opened Json

  // ---- Reading the fields of an object ----

  function Get(j: JsonValue, key: string): Option<JsonValue>
  {
    if j.Object? && key in j.obj then Some(j.obj[key]) else None
  }

  function IntOf(j: JsonValue, key: string): int
  {
    match Get(j, key)
    case Some(v) => if v.Int? then v.i else 0
    case None => 0
  }

  function StringOf(j: JsonValue, key: string): string
  {
    match Get(j, key)
    case Some(v) => if v.String? then v.s else ""
    case None => ""
  }

  /** Conversion of a 64-bit integer to `int`. */
  function ToInt32(x: int): (r: int)
    ensures -0x8000_0000 <= r < 0x8000_0000
    ensures -0x8000_0000 <= x < 0x8000_0000 ==> r == x
    ensures (r - x) % 0x1_0000_0000 == 0
  {
    (x + 0x8000_0000) % 0x1_0000_0000 - 0x8000_0000
  }

  function ToUint64(x: int): nat
  {
    x % TWO_64
  }

  datatype OfflineChunk = OfflineChunk(chunkId: int, name: string, firstTs: int, lastTs: int, packetCount: nat)

  datatype EgoManifest = EgoManifest(
    sessionId: string, firstTs: int, lastTs: int, packetCount: nat, chunks: seq<OfflineChunk>)

  function ChunkOf(j: JsonValue): OfflineChunk
  {
    var file := StringOf(j, "file");
    OfflineChunk(ToInt32(IntOf(j, "chunk_id")), if file == "" then StringOf(j, "filename") else file,
                 IntOf(j, "first_ts_ns"), IntOf(j, "last_ts_ns"), ToUint64(IntOf(j, "packet_count")))
  }

  function Items(j: JsonValue): seq<JsonValue>
  {
    match Get(j, "chunks")
    case Some(v) => if v.Array? then v.arr else []
    case None => []
  }

  function ChunksOf(items: seq<JsonValue>): (r: seq<OfflineChunk>)
    ensures |r| == |items|
  {
    seq(|items|, i requires 0 <= i < |items| => ChunkOf(items[i]))
  }

  /** The manifest of a parsed text; without a "chunks" member the chunks are those listed. */
  function ManifestOf(j: JsonValue, listed: seq<OfflineChunk>): EgoManifest
  {
    EgoManifest(StringOf(j, "session_id"), IntOf(j, "first_ts_ns"), IntOf(j, "last_ts_ns"),
                ToUint64(IntOf(j, "packet_count")),
                if Get(j, "chunks").Some? then ChunksOf(Items(j)) else listed)
  }

  /** A chunk object without members, and one with a "file" member or only a "filename" member. */
  lemma ChunkDefaults(file: string, filename: string)
    ensures ChunkOf(Object(map[])) == OfflineChunk(0, "", 0, 0, 0)
    ensures ChunkOf(Object(map["file" := String(file), "filename" := String(filename)])).name ==
              if file == "" then filename else file
    ensures ChunkOf(Object(map["filename" := String(filename)])).name == filename
    ensures ChunkOf(Object(map["first_ts_ns" := Null, "packet_count" := Int(-1)])) ==
              OfflineChunk(0, "", 0, 0, TWO_64 - 1)
  {}

  /** The members of a manifest, whatever else its object holds. */
  lemma ManifestMembers(obj: map<string, JsonValue>, id: string, first: int, last: int, count: nat, chunk: JsonValue,
                        listed: seq<OfflineChunk>)
    requires count < TWO_63 && "session_id" in obj && obj["session_id"] == String(id)
    requires "first_ts_ns" in obj && obj["first_ts_ns"] == Int(first)
    requires "last_ts_ns" in obj && obj["last_ts_ns"] == Int(last)
    requires "packet_count" in obj && obj["packet_count"] == Int(count)
    ensures "chunks" !in obj ==> ManifestOf(Object(obj), listed) == EgoManifest(id, first, last, count, listed)
    ensures "chunks" in obj && obj["chunks"] == Array([chunk]) ==>
              ManifestOf(Object(obj), listed) == EgoManifest(id, first, last, count, [ChunkOf(chunk)])
    ensures "chunks" in obj && !obj["chunks"].Array? ==>
              ManifestOf(Object(obj), listed) == EgoManifest(id, first, last, count, [])
  {
    hide ChunkOf;
  }

  /** The members of a chunk object, whatever else it holds. */
  lemma ChunkMembers(obj: map<string, JsonValue>, id: int, name: string, first: int, last: int, count: nat)
    requires -0x8000_0000 <= id < 0x8000_0000 && name != "" && count < TWO_63
    requires "chunk_id" in obj && obj["chunk_id"] == Int(id) && "file" in obj && obj["file"] == String(name)
    requires "first_ts_ns" in obj && obj["first_ts_ns"] == Int(first)
    requires "last_ts_ns" in obj && obj["last_ts_ns"] == Int(last)
    requires "packet_count" in obj && obj["packet_count"] == Int(count)
    ensures ChunkOf(Object(obj)) == OfflineChunk(id, name, first, last, count)
  {}

  function Numbered(n: nat): (r: seq<OfflineChunk>)
    ensures |r| == n
  {
    seq(n, i requires 0 <= i < n => OfflineChunk(i, ChunkName(i), 0, 0, 0))
  }

  /** The chunk files numbered from 0 up to the first number missing, or the one file ego.bin. */
  predicate IsListing(listed: seq<OfflineChunk>, names: set<string>)
  {
    if ChunkName(0) in names then
      && listed == Numbered(|listed|)
      && (forall i :: 0 <= i < |listed| ==> ChunkName(i) in names)
      && ChunkName(|listed|) !in names
    else if "ego.bin" in names then listed == [OfflineChunk(0, "ego.bin", 0, 0, 0)]
    else listed == []
  }

  method ListChunks(names: set<string>) returns (listed: seq<OfflineChunk>)
    ensures IsListing(listed, names)
  {
    hide ChunkName;
    listed := [];
    var i := 0;
    ghost var rest := names;
    while ChunkName(i) in names
      invariant listed == Numbered(i)
      invariant forall k :: 0 <= k < i ==> ChunkName(k) in names
      invariant forall k: nat :: i <= k && ChunkName(k) in names ==> ChunkName(k) in rest
      decreases rest
    {
      assert ChunkName(i) in rest;
      forall k: nat | i < k
        ensures ChunkName(k) != ChunkName(i)
      {
        if ChunkName(k) == ChunkName(i) {
          ChunkNamesDiffer(k, i);
        }
      }
      rest := rest - {ChunkName(i)};
      listed := listed + [OfflineChunk(i, ChunkName(i), 0, 0, 0)];
      i := i + 1;
    }
    if i == 0 && "ego.bin" in names {
      listed := [OfflineChunk(0, "ego.bin", 0, 0, 0)];
    }
  }

  /** names: the files beside the manifest. */
  method FromJson(text: string, names: set<string>) returns (m: Option<EgoManifest>)
    ensures match ParseText(text)
            case Ok(j, _) =>
              if Get(j, "chunks").Some? then m == Some(ManifestOf(j, []))
              else exists listed :: IsListing(listed, names) && m == Some(ManifestOf(j, listed))
            case Err => m == None
  {
    hide ParseText, IsListing;
    var parsed := JsonParse(text);
    if parsed == None {
      return None;
    }
    var j := parsed.value;
    var result := EgoManifest(StringOf(j, "session_id"), IntOf(j, "first_ts_ns"), IntOf(j, "last_ts_ns"),
                              ToUint64(IntOf(j, "packet_count")), []);
    if Get(j, "chunks").Some? {
      var items := Items(j);
      var chunks := [];
      for i := 0 to |items|
        invariant chunks == ChunksOf(items)[..i]
      {
        chunks := chunks + [ChunkOf(items[i])];
      }
      assert ChunksOf(items)[..|items|] == ChunksOf(items);
      result := result.(chunks := chunks);
    } else {
      var listed := ListChunks(names);
      result := result.(chunks := listed);
      assert result == ManifestOf(j, listed);
    }
    return Some(result);
  }

  // ---- Text at a position ----

  lemma StartsParts(src: string, pos: nat, a: string, b: string)
    ensures Starts(src, pos, a + b) <==> Starts(src, pos, a) && Starts(src, pos + |a|, b)
  {
    if pos + |a| + |b| <= |src| {
      var w := src[pos..pos + |a| + |b|];
      assert w[..|a|] == src[pos..pos + |a|];
      assert w[|a|..] == src[pos + |a|..pos + |a| + |b|];
      assert (a + b)[..|a|] == a && (a + b)[|a|..] == b;
      assert w == w[..|a|] + w[|a|..];
    }
  }

  lemma StartsAt(src: string, pos: nat, a: string, k: nat)
    requires Starts(src, pos, a) && k < |a|
    ensures pos + k < |src| && src[pos + k] == a[k]
  {
    assert src[pos..pos + |a|][k] == a[k];
  }

  predicate AllSpace(s: string)
  {
    forall i :: 0 <= i < |s| ==> IsSpace(s[i])
  }

  lemma {:induction false} SpacesSkipped(src: string, pos: nat, s: string)
    requires Starts(src, pos, s) && AllSpace(s)
    ensures SkipSpace(src, pos) == SkipSpace(src, pos + |s|)
    decreases |s|
  {
    if s == [] {
    } else {
      StartsAt(src, pos, s, 0);
      assert s == [s[0]] + s[1..];
      StartsParts(src, pos, [s[0]], s[1..]);
      SpacesSkipped(src, pos + 1, s[1..]);
    }
  }

  /** Spaces and then something that is not a space. */
  lemma SkipTo(src: string, pos: nat, s: string, c: char)
    requires Starts(src, pos, s + [c]) && AllSpace(s) && !IsSpace(c)
    ensures SkipSpace(src, pos) == pos + |s| && IsCharAt(src, pos + |s|, c)
  {
    StartsParts(src, pos, s, [c]);
    StartsAt(src, pos + |s|, [c], 0);
    SpacesSkipped(src, pos, s);
  }

  // ---- Strings ----

  lemma {:induction false} EscapedFromHead(s: string)
    requires s != []
    ensures Escaped(s) == EscapedChar(s[0]) + Escaped(s[1..])
  {
    hide EscapedChar;
    var n := |s| - 1;
    if n == 0 {
      assert s[..0] == [] && s[1..] == [];
    } else {
      EscapedFromHead(s[..n]);
      assert s[..n][1..] == s[1..][..n - 1];
      Regroup(EscapedChar(s[0]), Escaped(s[1..][..n - 1]), EscapedChar(s[n]));
    }
  }

  lemma UnescapedChar(src: string, pos: nat, c: char, out: string)
    requires Starts(src, pos, EscapedChar(c))
    ensures pos + |EscapedChar(c)| <= |src|
    ensures StringRest(src, pos, out) == StringRest(src, pos + |EscapedChar(c)|, out + [c])
  {
    var e := EscapedChar(c);
    StartsAt(src, pos, e, 0);
    if |e| == 2 {
      StartsAt(src, pos, e, 1);
    }
  }

  lemma {:induction false} UnescapedRest(src: string, pos: nat, s: string, out: string)
    requires Starts(src, pos, Escaped(s) + "\"")
    ensures StringRest(src, pos, out) == Ok(out + s, pos + |Escaped(s)| + 1)
    decreases |s|
  {
    hide EscapedChar;
    if s == [] {
      assert Escaped(s) + "\"" == "\"";
      StartsAt(src, pos, "\"", 0);
      assert out + s == out;
    } else {
      var e, r := EscapedChar(s[0]), Escaped(s[1..]);
      EscapedFromHead(s);
      Regroup(e, r, "\"");
      StartsParts(src, pos, e, r + "\"");
      UnescapedChar(src, pos, s[0], out);
      UnescapedRest(src, pos + |e|, s[1..], out + [s[0]]);
      assert s == [s[0]] + s[1..];
      Regroup(out, [s[0]], s[1..]);
    }
  }

  /** The parser's unescaping undoes the runtime's escaping, for every string and wherever in a
      text the string literal stands. */
  lemma StringReadsBack(src: string, pos: nat, s: string)
    requires Starts(src, pos, "\"" + Escaped(s) + "\"")
    ensures StringAt(src, pos) == Ok(s, pos + |Escaped(s)| + 2)
  {
    hide Escaped, StringRest;
    Regroup("\"", Escaped(s), "\"");
    StartsParts(src, pos, "\"", Escaped(s) + "\"");
    StartsAt(src, pos, "\"", 0);
    UnescapedRest(src, pos + 1, s, []);
    assert [] + s == s;
  }

  predicate Plain(c: char)
  {
    EscapedChar(c) == [c]
  }

  predicate AllPlain(s: string)
  {
    forall i :: 0 <= i < |s| ==> Plain(s[i])
  }

  lemma {:induction false} PlainIsNotEscaped(s: string)
    requires AllPlain(s)
    ensures Escaped(s) == s
  {
    if s == [] {
    } else {
      PlainIsNotEscaped(s[..|s| - 1]);
      assert Plain(s[|s| - 1]);
      assert s == s[..|s| - 1] + [s[|s| - 1]];
    }
  }

  // ---- Numbers ----

  lemma {:induction false} DigitsRead(src: string, pos: nat, s: string)
    requires Starts(src, pos, s) && AllDigits(s) && pos + |s| < |src| && !IsDigit(src[pos + |s|])
    ensures SkipDigits(src, pos) == pos + |s|
    decreases |s|
  {
    if s == [] {
    } else {
      StartsAt(src, pos, s, 0);
      assert s == [s[0]] + s[1..];
      StartsParts(src, pos, [s[0]], s[1..]);
      DigitsRead(src, pos + 1, s[1..]);
    }
  }

  predicate EndsField(c: char)
  {
    c == ',' || c == '\n'
  }

  /** A printed number is read back unless it does not fit a signed 64-bit integer. */
  lemma NumberReadsBack(src: string, pos: nat, n: nat)
    requires Starts(src, pos, Dec(n)) && pos + |Dec(n)| < |src| && EndsField(src[pos + |Dec(n)|])
    ensures NumberAt(src, pos) == if n < TWO_63 then Ok(Int(n), pos + |Dec(n)|) else Err
    ensures IsDigit(src[pos])
  {
    hide Dec, SkipDigits;
    ValueOfDec(n);
    StartsAt(src, pos, Dec(n), 0);
    DigitsRead(src, pos, Dec(n));
    NoExponent(src, pos);
  }

  // ---- Fields ----

  predicate ValueFits(v: FieldValue)
  {
    v.Num? ==> v.n < TWO_63
  }

  function JsonOf(v: FieldValue): JsonValue
  {
    match v
    case Num(n) => Int(n)
    case Str(s) => String(s)
  }

  lemma ValueReadsBack(src: string, pos: nat, v: FieldValue)
    requires Starts(src, pos, ValueText(v)) && pos + |ValueText(v)| < |src| && EndsField(src[pos + |ValueText(v)|])
    ensures ValueAt(src, pos) == if ValueFits(v) then Ok(JsonOf(v), pos + |ValueText(v)|) else Err
    ensures SkipSpace(src, pos) == pos
  {
    hide Dec, Escaped, NumberAt, StringAt;
    match v
    case Num(n) =>
      NumberReadsBack(src, pos, n);
    case Str(s) =>
      StringReadsBack(src, pos, s);
      StartsAt(src, pos, ValueText(v), 0);
  }

  lemma KeyPieces(key: string)
    ensures "      \"" + key + "\": " == "      " + ("\"" + key + "\"" + ": ")
    ensures "\"" + key + "\"" + ": " == ['"'] + (key + "\": ")
  {
    var q, c := "\"", ": ";
    assert "      \"" == "      " + q;
    assert "\": " == q + c;
    Regroup("      ", q, key);
    Regroup("      ", q + key, q + c);
    Regroup(q + key, q, c);
    Regroup(q, key, q + c);
  }

  lemma KeyReadsBack(src: string, pos: nat, key: string) returns (k: nat)
    requires Starts(src, pos, "      \"" + key + "\": ") && AllPlain(key)
    ensures k == pos + |key| + 10 && SkipSpace(src, pos) == pos + 6
    ensures StringAt(src, pos + 6) == Ok(key, k - 2)
    ensures SkipSpace(src, k - 2) == k - 2 && IsCharAt(src, k - 2, ':')
    ensures k <= |src| && SkipSpace(src, k - 1) == SkipSpace(src, k)
  {
    hide StringAt, Escaped, Plain, Starts, SkipSpace;
    k := pos + |key| + 10;
    var spaces := "      ";
    var literal := "\"" + key + "\"";
    KeyPieces(key);
    StartsParts(src, pos, spaces, literal + ": ");
    StartsParts(src, pos + 6, ['"'], key + "\": ");
    StartsParts(src, pos, spaces, ['"']);
    SkipTo(src, pos, spaces, '"');
    StartsParts(src, pos + 6, literal, ": ");
    PlainIsNotEscaped(key);
    StringReadsBack(src, pos + 6, key);
    ColonReadsBack(src, k - 2);
  }

  lemma ColonReadsBack(src: string, pos: nat)
    requires Starts(src, pos, ": ")
    ensures pos + 2 <= |src| && SkipSpace(src, pos) == pos && IsCharAt(src, pos, ':')
    ensures SkipSpace(src, pos + 1) == SkipSpace(src, pos + 2)
  {
    StartsAt(src, pos, ": ", 0);
    StartsAt(src, pos, ": ", 1);
  }

  lemma FieldReadsBack(src: string, pos: nat, f: Field, obj: map<string, JsonValue>)
    requires Starts(src, pos, FieldText(f)) && AllPlain(f.key)
    requires pos + |FieldText(f)| < |src| && EndsField(src[pos + |FieldText(f)|])
    ensures Members(src, pos, obj) ==
              if ValueFits(f.value) then AfterMember(src, SkipSpace(src, pos + |FieldText(f)|),
                  obj[f.key := JsonOf(f.value)])
              else Err
  {
    hide StringAt, ValueAt, SkipSpace, Members, AfterMember, AllPlain, ValueText;
    var start := "      \"" + f.key + "\": ";
    StartsParts(src, pos, start, ValueText(f.value));
    var k := KeyReadsBack(src, pos, f.key);
    ValueReadsBack(src, k, f.value);
    MembersStep(src, pos, obj, StringAt(src, pos + 6), ValueAt(src, k));
  }

  ghost predicate AllFit(fields: seq<Field>)
  {
    forall i :: 0 <= i < |fields| ==> ValueFits(fields[i].value)
  }

  function FieldMap(obj: map<string, JsonValue>, fields: seq<Field>): map<string, JsonValue>
    decreases |fields|
  {
    if fields == [] then obj else FieldMap(obj[fields[0].key := JsonOf(fields[0].value)], fields[1..])
  }

  /** After the last field comes the closing brace, after any other a comma and the next line. */
  lemma LastFieldEnds(src: string, end: nat, obj: map<string, JsonValue>)
    requires Starts(src, end, "\n    }")
    ensures end < |src| && EndsField(src[end])
    ensures AfterMember(src, SkipSpace(src, end), obj) == Ok(Object(obj), end + 6)
  {
    hide SkipSpace, Members, AfterMember;
    var tail := "\n    }";
    StartsAt(src, end, tail, 0);
    assert tail == "\n    " + ['}'];
    SkipTo(src, end, "\n    ", '}');
    AfterMemberIs(src, end + 5, obj);
  }

  lemma FieldGoesOn(src: string, end: nat, rest: string, obj: map<string, JsonValue>)
    requires rest != [] && Starts(src, end, ",\n" + rest)
    ensures end < |src| && EndsField(src[end]) && Starts(src, end + 2, rest)
    ensures AfterMember(src, SkipSpace(src, end), obj) == Members(src, end + 2, obj)
  {
    hide SkipSpace, Members, AfterMember;
    StartsParts(src, end, ",\n", rest);
    StartsAt(src, end, ",\n", 0);
    StartsAt(src, end, ",\n", 1);
    StartsAt(src, end + 2, rest, 0);
    SkipHere(src, end);
    SkipOne(src, end + 1);
    AfterMemberIs(src, end, obj);
    MembersSkip(src, end + 1, end + 2, obj);
  }

  lemma {:induction false} FieldsReadBack(src: string, pos: nat, fields: seq<Field>, obj: map<string, JsonValue>)
    requires fields != [] && Starts(src, pos, FieldLines(fields))
    requires forall i :: 0 <= i < |fields| ==> AllPlain(fields[i].key)
    ensures Members(src, pos, obj) ==
              if AllFit(fields) then Ok(Object(FieldMap(obj, fields)), pos + |FieldLines(fields)|) else Err
    decreases |fields|
  {
    hide FieldText, SkipSpace, Members, AfterMember, AllPlain, ValueFits, AllFit, Starts, EndsField;
    var f := fields[0];
    var end := pos + |FieldText(f)|;
    var obj' := obj[f.key := JsonOf(f.value)];
    FitSplits(fields);
    if |fields| == 1 {
      assert fields[1..] == [];
      NothingFits();
      var tail := "\n" + "    }";
      assert tail == "\n    }";
      StartsParts(src, pos, FieldText(f), tail);
      LastFieldEnds(src, end, obj');
      FieldReadsBack(src, pos, f, obj);
      assert FieldMap(obj', fields[1..]) == obj';
    } else {
      var rest := FieldLines(fields[1..]);
      StartsParts(src, pos, FieldText(f), ",\n" + rest);
      FieldGoesOn(src, end, rest, obj');
      FieldReadsBack(src, pos, f, obj);
      FieldsReadBack(src, end + 2, fields[1..], obj');
    }
  }

  lemma NothingFits()
    ensures AllFit([])
  {}

  lemma FitSplits(fields: seq<Field>)
    requires fields != []
    ensures AllFit(fields) <==> ValueFits(fields[0].value) && AllFit(fields[1..])
  {
    if ValueFits(fields[0].value) && AllFit(fields[1..]) {
      forall i | 0 <= i < |fields|
        ensures ValueFits(fields[i].value)
      {
        if i > 0 {
          assert fields[i] == fields[1..][i - 1];
        }
      }
    }
  }

  lemma SkipHere(src: string, pos: nat)
    requires pos < |src| && !IsSpace(src[pos])
    ensures SkipSpace(src, pos) == pos
  {}

  lemma SkipOne(src: string, pos: nat)
    requires pos < |src| && IsSpace(src[pos])
    ensures SkipSpace(src, pos) == SkipSpace(src, pos + 1)
  {}

  lemma MembersSkip(src: string, p: nat, q: nat, obj: map<string, JsonValue>)
    requires p < |src| && q < |src| && SkipSpace(src, p) == SkipSpace(src, q)
    ensures Members(src, p, obj) == Members(src, q, obj)
  {
    hide StringAt, ValueAt, SkipSpace;
  }

  // ---- Chunks ----

  /** The numbers printed for chunk i all fit a signed 64-bit integer. */
  predicate ChunkFits(i: nat, c: ChunkInfo)
  {
    i < TWO_63 && c.size < TWO_63 && c.firstTs < TWO_63 && c.lastTs < TWO_63 && c.packetCount < TWO_63
  }

  function ChunkJson(i: nat, c: ChunkInfo): JsonValue
  {
    Object(FieldMap(map[], ChunkFields(i, c)))
  }

  lemma ShortKeysArePlain()
    ensures AllPlain("chunk_id") && AllPlain("file") && AllPlain("bytes")
  {}

  lemma LongKeysArePlain()
    ensures AllPlain("first_ts_ns") && AllPlain("last_ts_ns") && AllPlain("packet_count")
  {}

  lemma KeysArePlain(i: nat, c: ChunkInfo)
    ensures forall k :: 0 <= k < |ChunkFields(i, c)| ==> AllPlain(ChunkFields(i, c)[k].key)
    ensures AllFit(ChunkFields(i, c)) <==> ChunkFits(i, c)
  {
    hide AllPlain;
    ShortKeysArePlain();
    LongKeysArePlain();
    var f := ChunkFields(i, c);
    if AllFit(f) {
      assert ValueFits(f[0].value) && ValueFits(f[2].value) && ValueFits(f[3].value) && ValueFits(f[4].value)
             && ValueFits(f[5].value);
    }
  }

  /** The object of chunk i, from its opening brace. */
  lemma ChunkReadsBack(src: string, pos: nat, i: nat, c: ChunkInfo)
    requires Starts(src, pos, ChunkText(i, c))
    ensures SkipSpace(src, pos) == pos + 4 && pos + 4 < |src|
    ensures ValueAt(src, pos + 4) == if ChunkFits(i, c) then Ok(ChunkJson(i, c), pos + |ChunkText(i, c)|) else Err
  {
    hide SkipSpace, Members, ValueAt, ObjectAt, FieldText, FieldLines, AllPlain, AllFit, ChunkFits, ChunkFields,
         FieldMap;
    var f := ChunkFields(i, c);
    var open := "    " + ['{'] + "\n";
    assert "    {\n" == open;
    StartsParts(src, pos, open, FieldLines(f));
    StartsParts(src, pos, "    " + ['{'], "\n");
    SkipTo(src, pos, "    ", '{');
    StartsAt(src, pos + 5, "\n", 0);
    SkipOne(src, pos + 5);
    KeysArePlain(i, c);
    SixFields(i, c);
    FieldsReadBack(src, pos + 6, f, map[]);
    FieldsOpen(src, pos + 6, f);
    ObjectStart(src, pos + 4);
    MembersSkip(src, SkipSpace(src, pos + 6), pos + 6, map[]);
    ObjectValue(src, pos + 4);
  }

  lemma SixFields(i: nat, c: ChunkInfo)
    ensures |ChunkFields(i, c)| == 6
  {}

  /** The first thing in an object is a quote. */
  lemma FieldsOpen(src: string, pos: nat, fields: seq<Field>)
    requires fields != [] && Starts(src, pos, FieldLines(fields)) && AllPlain(fields[0].key)
    ensures pos < |src| && SkipSpace(src, pos) == pos + 6 && IsCharAt(src, pos + 6, '"')
            && SkipSpace(src, pos + 6) == pos + 6
  {
    hide AllPlain, FieldLines, ValueText;
    var f := fields[0];
    FirstLine(fields);
    StartsParts(src, pos, FieldText(f) + (if |fields| == 1 then "\n" else ",\n"), FieldLines(fields[1..]));
    StartsParts(src, pos, FieldText(f), if |fields| == 1 then "\n" else ",\n");
    var start := "      \"" + f.key + "\": ";
    StartsParts(src, pos, start, ValueText(f.value));
    assert start == ("      " + ['"']) + (f.key + "\": ");
    StartsParts(src, pos, "      " + ['"'], f.key + "\": ");
    SkipTo(src, pos, "      ", '"');
  }

  lemma ObjectValue(src: string, pos: nat)
    requires pos < |src| && src[pos] == '{'
    ensures ValueAt(src, pos) == ObjectAt(src, pos)
  {}

  lemma ArrayValue(src: string, pos: nat)
    requires pos < |src| && src[pos] == '['
    ensures ValueAt(src, pos) == ArrayAt(src, pos)
  {}

  /** What is printed from chunk i on, up to the bracket that closes the list. */
  function ChunkLinesFrom(chunks: seq<ChunkInfo>, i: nat): string
    requires i < |chunks|
    decreases |chunks| - i
  {
    ChunkText(i, chunks[i]) + (if i + 1 == |chunks| then "\n  ]" else ",\n" + ChunkLinesFrom(chunks, i + 1))
  }

  lemma {:induction false} ListFromChunk(chunks: seq<ChunkInfo>, i: nat)
    requires i < |chunks|
    ensures ChunkTexts(chunks, |chunks|) + "  ]" == ChunkTexts(chunks, i) + ChunkLinesFrom(chunks, i)
    decreases |chunks| - i
  {
    hide ChunkText;
    var text, before := ChunkText(i, chunks[i]), ChunkTexts(chunks, i);
    if i + 1 == |chunks| {
      assert text + "" + "\n" == text + "\n";
      Regroup(before, text + "\n", "  ]");
      Regroup(text, "\n", "  ]");
      assert "\n" + "  ]" == "\n  ]";
    } else {
      ListFromChunk(chunks, i + 1);
      var rest := ChunkLinesFrom(chunks, i + 1);
      Regroup(text, ",", "\n");
      assert "," + "\n" == ",\n";
      Regroup(before, text + ",\n", rest);
      Regroup(text, ",\n", rest);
    }
  }

  function ChunkJsons(chunks: seq<ChunkInfo>, n: nat): (r: seq<JsonValue>)
    requires n <= |chunks|
    ensures |r| == n
  {
    seq(n, i requires 0 <= i < n => ChunkJson(i, chunks[i]))
  }

  ghost predicate AllChunksFit(chunks: seq<ChunkInfo>, i: nat)
  {
    forall k :: i <= k < |chunks| ==> ChunkFits(k, chunks[k])
  }

  /** After the last chunk comes the closing bracket, after any other a comma and the next line. */
  lemma LastChunkEnds(src: string, end: nat, done: seq<JsonValue>)
    requires Starts(src, end, "\n  ]")
    ensures AfterElement(src, SkipSpace(src, end), done) == Ok(Array(done), end + 4)
  {
    hide SkipSpace, Elements, AfterElement;
    assert "\n  ]" == "\n  " + [']'];
    SkipTo(src, end, "\n  ", ']');
    AfterElementIs(src, end + 3, done);
  }

  lemma ChunkGoesOn(src: string, end: nat, rest: string, done: seq<JsonValue>)
    requires rest != [] && Starts(src, end, ",\n" + rest)
    ensures Starts(src, end + 2, rest)
    ensures AfterElement(src, SkipSpace(src, end), done) == Elements(src, end + 2, done)
  {
    hide SkipSpace, Elements, AfterElement;
    StartsParts(src, end, ",\n", rest);
    StartsAt(src, end, ",\n", 0);
    StartsAt(src, end, ",\n", 1);
    StartsAt(src, end + 2, rest, 0);
    SkipHere(src, end);
    SkipOne(src, end + 1);
    AfterElementIs(src, end, done);
    ElementsSkip(src, end + 1, end + 2, done);
  }

  lemma ChunksFitFrom(chunks: seq<ChunkInfo>, i: nat)
    requires i < |chunks|
    ensures AllChunksFit(chunks, i) <==> ChunkFits(i, chunks[i]) && AllChunksFit(chunks, i + 1)
    ensures AllChunksFit(chunks, |chunks|)
    ensures ChunkJsons(chunks, i + 1) == ChunkJsons(chunks, i) + [ChunkJson(i, chunks[i])]
  {
    hide ChunkFits, ChunkJson;
  }

  lemma {:induction false} ChunksReadBack(src: string, pos: nat, chunks: seq<ChunkInfo>, i: nat)
    requires i < |chunks| && Starts(src, pos, ChunkLinesFrom(chunks, i))
    ensures pos < |src| && Elements(src, pos, ChunkJsons(chunks, i)) ==
              if AllChunksFit(chunks, i) then Ok(Array(ChunkJsons(chunks, |chunks|)),
                  pos + |ChunkLinesFrom(chunks, i)|) else Err
    decreases |chunks| - i
  {
    hide SkipSpace, Elements, AfterElement, ValueAt, ChunkText, ChunkFits, ChunkJson, ChunkJsons, AllChunksFit,
         Starts;
    var text := ChunkText(i, chunks[i]);
    var end := pos + |text|;
    var done := ChunkJsons(chunks, i + 1);
    ChunksFitFrom(chunks, i);
    if i + 1 == |chunks| {
      StartsParts(src, pos, text, "\n  ]");
      LastChunkEnds(src, end, done);
    } else {
      StartsParts(src, pos, text, ",\n" + ChunkLinesFrom(chunks, i + 1));
      ChunkGoesOn(src, end, ChunkLinesFrom(chunks, i + 1), done);
      ChunksReadBack(src, end + 2, chunks, i + 1);
    }
    ChunkReadsBack(src, pos, i, chunks[i]);
    ElementsStep(src, pos, ChunkJsons(chunks, i));
  }

  lemma ElementsSkip(src: string, p: nat, q: nat, arr: seq<JsonValue>)
    requires p < |src| && q < |src| && SkipSpace(src, p) == SkipSpace(src, q)
    ensures Elements(src, p, arr) == Elements(src, q, arr)
  {
    hide ValueAt, SkipSpace;
  }

  // ---- The whole manifest ----

  function ManifestJson(chunks: seq<ChunkInfo>): JsonValue
  {
    Object(map["chunks" := Array(ChunkJsons(chunks, |chunks|))])
  }

  /** The list of chunks, from its opening bracket. */
  lemma ListReadsBack(src: string, pos: nat, chunks: seq<ChunkInfo>)
    requires Starts(src, pos, "[\n" + (ChunkTexts(chunks, |chunks|) + "  ]"))
    ensures pos < |src| && SkipSpace(src, pos) == pos && ValueAt(src, pos) ==
              if AllChunksFit(chunks, 0) then Ok(Array(ChunkJsons(chunks, |chunks|)),
                  pos + 4 + |ChunkTexts(chunks, |chunks|)| + 1) else Err
  {
    hide SkipSpace, Elements, ValueAt, ChunkTexts, ChunkLinesFrom, ChunkFits, ChunkJson, ChunkText;
    var list := ChunkTexts(chunks, |chunks|) + "  ]";
    StartsParts(src, pos, "[\n", list);
    StartsAt(src, pos, "[\n", 0);
    StartsAt(src, pos, "[\n", 1);
    SkipHere(src, pos);
    SkipOne(src, pos + 1);
    ArrayValue(src, pos);
    ArrayStart(src, pos);
    if chunks == [] {
      NoChunkTexts(chunks);
      assert list == "  " + [']'];
      SkipTo(src, pos + 2, "  ", ']');
    } else {
      NoChunkTexts(chunks);
      ListFromChunk(chunks, 0);
      assert [] + ChunkLinesFrom(chunks, 0) == ChunkLinesFrom(chunks, 0);
      ChunksReadBack(src, pos + 2, chunks, 0);
      ListOpens(src, pos + 2, chunks);
      ElementsSkip(src, pos + 6, pos + 2, []);
    }
  }

  lemma NoChunkTexts(chunks: seq<ChunkInfo>)
    ensures ChunkTexts(chunks, 0) == [] && ChunkJsons(chunks, 0) == []
  {}

  lemma ListOpens(src: string, pos: nat, chunks: seq<ChunkInfo>)
    requires chunks != [] && Starts(src, pos, ChunkLinesFrom(chunks, 0))
    ensures SkipSpace(src, pos) == pos + 4 && IsCharAt(src, pos + 4, '{') && SkipSpace(src, pos + 4) == pos + 4
  {
    hide FieldLines;
    var text := ChunkText(0, chunks[0]);
    StartsParts(src, pos, text, if 1 == |chunks| then "\n  ]" else ",\n" + ChunkLinesFrom(chunks, 1));
    StartsParts(src, pos, "    {\n", FieldLines(ChunkFields(0, chunks[0])));
    assert "    {\n" == "    " + ['{'] + "\n";
    StartsParts(src, pos, "    " + ['{'], "\n");
    SkipTo(src, pos, "    ", '{');
  }

  lemma PrefixPieces(list: string)
    ensures "{\n  \"chunks\": [\n" + list + "  ]\n}\n" == ['{', '\n']
            + ("  \"chunks\": " + ("[\n" + (list + "  ]") + "\n}\n"))
    ensures "  \"chunks\": " == "  " + ("\"" + "chunks" + "\"" + ": ")
  {
    var p := "{\n  \"chunks\": ";
    assert "{\n  \"chunks\": [\n" == p + "[\n";
    assert "  ]\n}\n" == "  ]" + "\n}\n";
    Regroup(p, "[\n", list);
    Regroup(p, "[\n" + list, "  ]" + "\n}\n");
    Regroup("[\n" + list, "  ]", "\n}\n");
    Regroup("[\n", list, "  ]");
    assert p == ['{', '\n'] + "  \"chunks\": ";
    Regroup(['{', '\n'], "  \"chunks\": ", "[\n" + (list + "  ]") + "\n}\n");
  }

  lemma TopKeyReadsBack(src: string, pos: nat)
    requires Starts(src, pos, "  \"chunks\": ")
    ensures SkipSpace(src, pos) == pos + 2 && IsCharAt(src, pos + 2, '"') && SkipSpace(src, pos + 2) == pos + 2
    ensures StringAt(src, pos + 2) == Ok("chunks", pos + 10)
    ensures SkipSpace(src, pos + 10) == pos + 10 && IsCharAt(src, pos + 10, ':')
    ensures pos + 12 <= |src| && SkipSpace(src, pos + 11) == SkipSpace(src, pos + 12)
  {
    hide StringAt, SkipSpace, Starts, Escaped;
    PrefixPieces("");
    var key := "\"" + "chunks" + "\"";
    assert |key| == 8;
    StartsParts(src, pos, "  ", key + ": ");
    StartsParts(src, pos + 2, key, ": ");
    assert key == ['"'] + ("chunks" + "\"");
    StartsParts(src, pos + 2, ['"'], "chunks" + "\"");
    StartsParts(src, pos, "  ", ['"']);
    SkipTo(src, pos, "  ", '"');
    QuoteIsNoSpace(src, pos + 2);
    assert AllPlain("chunks");
    PlainIsNotEscaped("chunks");
    StringReadsBack(src, pos + 2, "chunks");
    ColonReadsBack(src, pos + 10);
  }

  lemma QuoteIsNoSpace(src: string, pos: nat)
    requires IsCharAt(src, pos, '"')
    ensures SkipSpace(src, pos) == pos
  {}

  /** Parsing the manifest the runtime prints gives the object it was printed from, for any number
      of chunks, unless a printed number needs more than 63 bits; then the parser throws. */
  lemma ManifestTextReadsBack(chunks: seq<ChunkInfo>)
    ensures AllChunksFit(chunks, 0) ==>
              ParseText(ManifestText(chunks)).Ok? && ParseText(ManifestText(chunks)).value == ManifestJson(chunks)
    ensures !AllChunksFit(chunks, 0) ==> ParseText(ManifestText(chunks)) == Err
  {
    hide SkipSpace, StringAt, Members, ValueAt, ObjectAt, ChunkTexts, ChunkFits, ChunkJson, AllChunksFit, Starts;
    var src := ManifestText(chunks);
    var list := "[\n" + (ChunkTexts(chunks, |chunks|) + "  ]");
    var key := "  \"chunks\": ";
    PrefixPieces(ChunkTexts(chunks, |chunks|));
    var obj: map<string, JsonValue> := map[];
    WholeText(src);
    StartsParts(src, 0, ['{', '\n'], key + (list + "\n}\n"));
    StartsParts(src, 2, key, list + "\n}\n");
    StartsParts(src, 14, list, "\n}\n");
    BraceAndNewline(src);
    TopKeyReadsBack(src, 2);
    ListReadsBack(src, 14, chunks);
    ObjectValue(src, 0);
    ObjectStart(src, 0);
    MembersStep(src, 4, obj, StringAt(src, 4), ValueAt(src, 14));
    if AllChunksFit(chunks, 0) {
      var end := 14 + |list|;
      var arr := Array(ChunkJsons(chunks, |chunks|));
      var obj' := obj["chunks" := arr];
      ClosingBrace(src, end);
      AfterMemberIs(src, end + 1, obj');
    }
  }

  lemma WholeText(src: string)
    ensures Starts(src, 0, src)
  {}

  lemma BraceAndNewline(src: string)
    requires Starts(src, 0, ['{', '\n'])
    ensures |src| >= 2 && src[0] == '{' && SkipSpace(src, 0) == 0 && SkipSpace(src, 1) == SkipSpace(src, 2)
  {
    StartsAt(src, 0, ['{', '\n'], 0);
    StartsAt(src, 0, ['{', '\n'], 1);
  }

  lemma ClosingBrace(src: string, pos: nat)
    requires Starts(src, pos, "\n}\n")
    ensures pos + 1 < |src| && SkipSpace(src, pos) == pos + 1 && IsCharAt(src, pos + 1, '}')
  {
    StartsAt(src, pos, "\n}\n", 0);
    StartsAt(src, pos, "\n}\n", 1);
  }

  // ---- What from_json makes of it ----

  /** The chunk the offline reader sees for chunk i of the runtime. */
  function Seen(i: nat, c: ChunkInfo): OfflineChunk
  {
    OfflineChunk(ToInt32(i), c.filename, c.firstTs, c.lastTs, c.packetCount)
  }

  lemma ChunkJsonFields(i: nat, c: ChunkInfo)
    ensures ChunkJson(i, c).obj ==
              map["chunk_id" := Int(i), "file" := String(c.filename), "bytes" := Int(c.size),
                  "first_ts_ns" := Int(c.firstTs), "last_ts_ns" := Int(c.lastTs), "packet_count" := Int(c.packetCount)]
  {
    hide FieldMap;
    var f := ChunkFields(i, c);
    var m1: map<string, JsonValue> := map["chunk_id" := Int(i)];
    var m2 := m1["file" := String(c.filename)];
    var m3 := m2["bytes" := Int(c.size)];
    var m4 := m3["first_ts_ns" := Int(c.firstTs)];
    var m5 := m4["last_ts_ns" := Int(c.lastTs)];
    var m6 := m5["packet_count" := Int(c.packetCount)];
    FieldMapStep(map[], f);
    FieldMapStep(m1, f[1..]);
    FieldMapStep(m2, f[2..]);
    FieldMapStep(m3, f[3..]);
    FieldMapStep(m4, f[4..]);
    FieldMapStep(m5, f[5..]);
    FieldMapEnd(m6);
    assert f[1..][1..] == f[2..] && f[2..][1..] == f[3..] && f[3..][1..] == f[4..] && f[4..][1..] == f[5..]
           && f[5..][1..] == [];
  }

  lemma FieldMapStep(obj: map<string, JsonValue>, f: seq<Field>)
    requires f != []
    ensures FieldMap(obj, f) == FieldMap(obj[f[0].key := JsonOf(f[0].value)], f[1..])
  {}

  lemma FieldMapEnd(obj: map<string, JsonValue>)
    ensures FieldMap(obj, []) == obj
  {}

  lemma ChunkSeen(i: nat, c: ChunkInfo)
    requires c.packetCount < TWO_63
    ensures ChunkOf(ChunkJson(i, c)) == Seen(i, c)
  {
    hide ChunkJson, ToInt32;
    ChunkJsonFields(i, c);
    IsObject(i, c);
  }

  lemma IsObject(i: nat, c: ChunkInfo)
    ensures ChunkJson(i, c).Object?
  {}

  /** The round trip of the manifest: the offline reader gets the chunk list back, in order, with
      the file names, times and counts the runtime printed. */
  lemma ManifestReadsBack(chunks: seq<ChunkInfo>)
    requires AllChunksFit(chunks, 0)
    ensures var j := ParseText(ManifestText(chunks));
            && j.Ok? && Get(j.value, "chunks").Some?
            && ManifestOf(j.value, []).chunks == seq(|chunks|, i requires 0 <= i < |chunks| => Seen(i, chunks[i]))
  {
    hide ParseText, ManifestText, ChunkJson, Seen, ChunkOf;
    ManifestTextReadsBack(chunks);
    var items := ChunkJsons(chunks, |chunks|);
    assert Items(ManifestJson(chunks)) == items;
    var seen := seq(|chunks|, i requires 0 <= i < |chunks| => Seen(i, chunks[i]));
    forall i | 0 <= i < |chunks|
      ensures ChunksOf(items)[i] == seen[i]
    {
      FitIsSmall(chunks, i);
      ChunkSeen(i, chunks[i]);
    }
    assert ChunksOf(items) == seen;
  }

  lemma FitIsSmall(chunks: seq<ChunkInfo>, i: nat)
    requires AllChunksFit(chunks, 0) && i < |chunks|
    ensures chunks[i].packetCount < TWO_63
  {}
}
