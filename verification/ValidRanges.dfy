/** The usable time ranges of a session: each stream split at its error events, the streams
    intersected, and the fraction of the session they cover. */
module ValidRanges {
  import opened Sorting
  import opened Validator

  datatype Stream = Ego | Source | Both

  datatype TimeRange = TimeRange(start: int, end: int, stream: Stream)

  /** A duration in nanoseconds against the configured minimum in seconds. */
  predicate LongEnough(duration: int, c: Config)
  {
    duration as real / 1_000_000_000.0 >= c.minValidSeconds
  }

  lemma LongerIsLongEnough(d: int, e: int, c: Config)
    requires LongEnough(d, c) && d <= e
    ensures LongEnough(e, c)
  {
    assert d as real <= e as real;
  }

  // ---- What the ranges of one stream should be ----

  /** Each range ends before the next begins, so they share no inner point. */
  predicate Ordered(ranges: seq<TimeRange>)
  {
    forall i, j :: 0 <= i < j < |ranges| ==> ranges[i].end <= ranges[j].start
  }

  predicate NoBreakInside(x: int, y: int, breaks: seq<int>)
  {
    forall i :: 0 <= i < |breaks| ==> !(x < breaks[i] < y)
  }

  ghost predicate Covered(x: int, y: int, ranges: seq<TimeRange>)
  {
    exists i :: 0 <= i < |ranges| && ranges[i].start <= x && y <= ranges[i].end
  }

  /** Every break-free interval between a and b that is long enough lies in a range. */
  ghost predicate CoversAll(ranges: seq<TimeRange>, a: int, b: int, breaks: seq<int>, c: Config)
  {
    forall x, y :: a <= x < y <= b && NoBreakInside(x, y, breaks) && LongEnough(y - x, c) ==> Covered(x, y, ranges)
  }

  /** A kept range: between breaks or ends of the stream, without a break inside, long enough. */
  predicate Kept(r: TimeRange, a: int, b: int, breaks: seq<int>, c: Config)
  {
    && (r.start == a || r.start in breaks) && (r.end == b || r.end in breaks)
    && a <= r.start && NoBreakInside(r.start, r.end, breaks) && LongEnough(r.end - r.start, c)
    && (r.end != b ==> r.start < r.end)
  }

  predicate AllKept(ranges: seq<TimeRange>, a: int, b: int, breaks: seq<int>, c: Config)
  {
    forall i :: 0 <= i < |ranges| ==> Kept(ranges[i], a, b, breaks, c)
  }

  /** What `build_ranges` must return for a stream. */
  ghost predicate RangesOf(ranges: seq<TimeRange>, sv: StreamValidation, c: Config)
  {
    if !sv.fileOk || sv.tLast <= sv.tFirst then ranges == []
    else
      && Ordered(ranges)
      && AllKept(ranges, sv.tFirst, sv.tLast, Breaks(sv.events), c)
      && CoversAll(ranges, sv.tFirst, sv.tLast, Breaks(sv.events), c)
  }

  // ---- Sorting the breaks ----

  predicate Sorted(s: seq<int>)
  {
    forall i, j :: 0 <= i < j < |s| ==> s[i] <= s[j]
  }

  method Sort(s: seq<int>) returns (r: seq<int>)
    ensures Sorted(r) && multiset(r) == multiset(s)
  {
    r := SortBy(s, x => x);
  }

  lemma SameBreaks(r: seq<int>, s: seq<int>, x: int, y: int)
    requires multiset(r) == multiset(s)
    ensures NoBreakInside(x, y, r) <==> NoBreakInside(x, y, s)
    ensures x in r <==> x in s
  {
    SameMember(r, s, x);
    if NoBreakInside(x, y, s) {
      forall i | 0 <= i < |r| ensures !(x < r[i] < y) { SameMember(r, s, r[i]); }
    }
    if NoBreakInside(x, y, r) {
      forall i | 0 <= i < |s| ensures !(x < s[i] < y) { SameMember(r, s, s[i]); }
    }
  }

  lemma SameMember(r: seq<int>, s: seq<int>, x: int)
    requires multiset(r) == multiset(s)
    ensures x in r <==> x in s
  {
    assert x in r <==> x in multiset(r);
    assert x in s <==> x in multiset(s);
  }

  lemma SameRanges(ranges: seq<TimeRange>, a: int, b: int, r: seq<int>, s: seq<int>, c: Config)
    requires multiset(r) == multiset(s)
    requires AllKept(ranges, a, b, r, c) && CoversAll(ranges, a, b, r, c)
    ensures AllKept(ranges, a, b, s, c) && CoversAll(ranges, a, b, s, c)
  {
    hide NoBreakInside, LongEnough, Covered;
    forall i | 0 <= i < |ranges| ensures Kept(ranges[i], a, b, s, c) {
      assert Kept(ranges[i], a, b, r, c);
      SameBreaks(r, s, ranges[i].start, ranges[i].end);
      SameBreaks(r, s, ranges[i].end, 0);
    }
    forall x, y | a <= x < y <= b && NoBreakInside(x, y, s) && LongEnough(y - x, c) ensures Covered(x, y, ranges) {
      SameBreaks(r, s, x, y);
    }
  }

  // ---- Splitting one stream ----

  /** A piece between breaks that was kept before the last piece of the stream. */
  predicate Piece(r: TimeRange, a: int, breaks: seq<int>, c: Config)
  {
    && (r.start == a || r.start in breaks) && r.end in breaks
    && a <= r.start < r.end && NoBreakInside(r.start, r.end, breaks) && LongEnough(r.end - r.start, c)
  }

  predicate AllPieces(ranges: seq<TimeRange>, a: int, breaks: seq<int>, c: Config)
  {
    forall i :: 0 <= i < |ranges| ==> Piece(ranges[i], a, breaks, c)
  }

  predicate EndBy(ranges: seq<TimeRange>, cur: int)
  {
    Ordered(ranges) && forall i :: 0 <= i < |ranges| ==> ranges[i].end <= cur
  }

  /** The k first breaks do not pass cur, which is the last of them to start a piece, or a. */
  predicate StartAfter(breaks: seq<int>, k: nat, a: int, cur: int)
    requires k <= |breaks|
  {
    a <= cur && (cur == a || cur in breaks[..k]) && forall i :: 0 <= i < k ==> breaks[i] <= cur
  }

  /** After the first k sorted breaks: cur is the last start, and everything up to cur is settled. */
  ghost predicate SplitUpTo(ranges: seq<TimeRange>, a: int, breaks: seq<int>, k: nat, cur: int, c: Config)
    requires k <= |breaks|
  {
    && StartAfter(breaks, k, a, cur)
    && EndBy(ranges, cur)
    && AllPieces(ranges, a, breaks, c)
    && CoversAll(ranges, a, cur, breaks, c)
  }

  lemma NoBreakBetween(breaks: seq<int>, k: nat, a: int, cur: int, end: int)
    requires k <= |breaks| && StartAfter(breaks, k, a, cur)
    requires forall i :: k <= i < |breaks| ==> breaks[i] >= end
    ensures NoBreakInside(cur, end, breaks)
  {}

  lemma EndByNext(ranges: seq<TimeRange>, cur: int, r: TimeRange)
    requires EndBy(ranges, cur) && r.start == cur
    ensures Ordered(ranges + [r])
    ensures r.start <= r.end ==> EndBy(ranges + [r], r.end)
  {}

  lemma StartsAfter(breaks: seq<int>, cur: int, x: int, y: int)
    requires NoBreakInside(x, y, breaks) && cur in breaks && cur < y
    ensures cur <= x
  {}

  /** Cutting at end keeps everything settled up to end, whether or not the piece is long enough. */
  lemma CoveredAfterCut(ranges: seq<TimeRange>, a: int, breaks: seq<int>, cur: int, end: int, c: Config, s: Stream)
    requires a <= cur && (cur == a || cur in breaks) && CoversAll(ranges, a, cur, breaks, c)
    ensures CoversAll(if LongEnough(end - cur, c) then ranges + [TimeRange(cur, end, s)] else ranges, a, end, breaks, c)
  {
    hide LongEnough;
    var out := if LongEnough(end - cur, c) then ranges + [TimeRange(cur, end, s)] else ranges;
    forall x, y | a <= x < y <= end && NoBreakInside(x, y, breaks) && LongEnough(y - x, c)
      ensures Covered(x, y, out)
    {
      if y <= cur {
        assert Covered(x, y, ranges);
        var i :| 0 <= i < |ranges| && ranges[i].start <= x && y <= ranges[i].end;
        assert out[i] == ranges[i];
      } else {
        if cur in breaks {
          StartsAfter(breaks, cur, x, y);
        }
        LongerIsLongEnough(y - x, end - cur, c);
        assert out[|ranges|].start <= x && y <= out[|ranges|].end;
      }
    }
  }

  method BuildRanges(sv: StreamValidation, s: Stream, c: Config) returns (ranges: seq<TimeRange>)
    ensures RangesOf(ranges, sv, c)
    ensures forall r :: r in ranges ==> r.stream == s
  {
    hide LongEnough, CoversAll, AllKept, Ordered, NoBreakInside, Breaks, Sorted, SplitUpTo;
    ranges := [];
    if !sv.fileOk || sv.tLast <= sv.tFirst {
      return;
    }
    var errors := ErrorTimes(sv.events);
    var breaks := Sort(errors);
    var curStart := sv.tFirst;
    NothingSplit(sv.tFirst, breaks, c);
    for k := 0 to |breaks|
      invariant SplitUpTo(ranges, sv.tFirst, breaks, k, curStart, c)
      invariant forall r :: r in ranges ==> r.stream == s
    {
      var bp := breaks[k];
      if bp <= curStart {
        SkipBreak(ranges, sv.tFirst, breaks, k, curStart, c);
        continue;
      }
      CutAtBreak(ranges, sv.tFirst, breaks, k, curStart, c, s);
      if LongEnough(bp - curStart, c) {
        ranges := ranges + [TimeRange(curStart, bp, s)];
      }
      curStart := bp;
    }
    LastPiece(ranges, sv.tFirst, sv.tLast, breaks, curStart, c, s);
    if LongEnough(sv.tLast - curStart, c) {
      ranges := ranges + [TimeRange(curStart, sv.tLast, s)];
    }
    SameRanges(ranges, sv.tFirst, sv.tLast, breaks, errors, c);
  }

  method ErrorTimes(events: seq<GapEvent>) returns (breaks: seq<int>)
    ensures breaks == Breaks(events)
  {
    breaks := [];
    for i := 0 to |events|
      invariant breaks == Breaks(events[..i])
    {
      assert events[..i + 1][..i] == events[..i];
      if events[i].severity == Error {
        breaks := breaks + [events[i].t];
      }
    }
    assert events[..|events|] == events;
  }

  lemma NothingSplit(a: int, breaks: seq<int>, c: Config)
    ensures SplitUpTo([], a, breaks, 0, a, c)
  {
    hide LongEnough;
  }

  lemma SkipBreak(ranges: seq<TimeRange>, a: int, breaks: seq<int>, k: nat, cur: int, c: Config)
    requires k < |breaks| && SplitUpTo(ranges, a, breaks, k, cur, c) && breaks[k] <= cur
    ensures SplitUpTo(ranges, a, breaks, k + 1, cur, c)
  {
    hide CoversAll, EndBy, AllPieces;
    assert breaks[..k + 1] == breaks[..k] + [breaks[k]];
  }

  lemma CutAtBreak(ranges: seq<TimeRange>, a: int, breaks: seq<int>, k: nat, cur: int, c: Config, s: Stream)
    requires k < |breaks| && Sorted(breaks) && SplitUpTo(ranges, a, breaks, k, cur, c) && cur < breaks[k]
    ensures var bp := breaks[k];
            var out := if LongEnough(bp - cur, c) then ranges + [TimeRange(cur, bp, s)] else ranges;
            SplitUpTo(out, a, breaks, k + 1, bp, c)
  {
    hide CoversAll, LongEnough, NoBreakInside, EndBy;
    var bp := breaks[k];
    CurIsBreak(breaks, k, a, cur);
    NoBreakBetween(breaks, k, a, cur, bp);
    CoveredAfterCut(ranges, a, breaks, cur, bp, c, s);
    EndByNext(ranges, cur, TimeRange(cur, bp, s));
    EndLater(ranges, cur, bp);
    StartAtNext(breaks, k, a, cur);
  }

  lemma CurIsBreak(breaks: seq<int>, k: nat, a: int, cur: int)
    requires k <= |breaks| && StartAfter(breaks, k, a, cur)
    ensures cur == a || cur in breaks
  {}

  lemma EndLater(ranges: seq<TimeRange>, cur: int, later: int)
    requires EndBy(ranges, cur) && cur <= later
    ensures EndBy(ranges, later)
  {
    hide Ordered;
  }

  lemma StartAtNext(breaks: seq<int>, k: nat, a: int, cur: int)
    requires k < |breaks| && StartAfter(breaks, k, a, cur) && cur < breaks[k]
    ensures StartAfter(breaks, k + 1, a, breaks[k]) && breaks[k] in breaks
  {
    assert breaks[..k + 1][k] == breaks[k];
  }

  lemma LastPiece(ranges: seq<TimeRange>, a: int, b: int, breaks: seq<int>, cur: int, c: Config, s: Stream)
    requires SplitUpTo(ranges, a, breaks, |breaks|, cur, c)
    ensures var out := if LongEnough(b - cur, c) then ranges + [TimeRange(cur, b, s)] else ranges;
            Ordered(out) && AllKept(out, a, b, breaks, c) && CoversAll(out, a, b, breaks, c)
  {
    hide CoversAll, LongEnough, NoBreakInside, EndBy;
    CurIsBreak(breaks, |breaks|, a, cur);
    NoBreakBetween(breaks, |breaks|, a, cur, b);
    CoveredAfterCut(ranges, a, breaks, cur, b, c, s);
    EndByNext(ranges, cur, TimeRange(cur, b, s));
    EndByIsOrdered(ranges, cur);
  }

  lemma EndByIsOrdered(ranges: seq<TimeRange>, cur: int)
    requires EndBy(ranges, cur)
    ensures Ordered(ranges)
  {}

  // ---- Both streams ----

  predicate Inside(r: TimeRange, o: TimeRange)
  {
    o.start <= r.start && r.end <= o.end
  }

  /** Non-empty and inside a range of each stream. */
  ghost predicate InBoth(r: TimeRange, ego: seq<TimeRange>, src: seq<TimeRange>, c: Config)
  {
    && r.start < r.end && LongEnough(r.end - r.start, c)
    && (exists i :: 0 <= i < |ego| && Inside(r, ego[i]))
    && (exists j :: 0 <= j < |src| && Inside(r, src[j]))
  }

  /** The overlap of two ranges, if it is long enough. */
  function Overlap(e: TimeRange, s: TimeRange, c: Config): seq<TimeRange>
  {
    var t0 := if e.start < s.start then s.start else e.start;
    var t1 := if s.end < e.end then s.end else e.end;
    if t1 > t0 && LongEnough(t1 - t0, c) then [TimeRange(t0, t1, Both)] else []
  }

  function OverlapsWith(e: TimeRange, src: seq<TimeRange>, c: Config): seq<TimeRange>
  {
    if src == [] then [] else OverlapsWith(e, src[..|src| - 1], c) + Overlap(e, src[|src| - 1], c)
  }

  function Overlaps(ego: seq<TimeRange>, src: seq<TimeRange>, c: Config): seq<TimeRange>
  {
    if ego == [] then [] else Overlaps(ego[..|ego| - 1], src, c) + OverlapsWith(ego[|ego| - 1], src, c)
  }

  /** A piece of e that lies in a range of src. */
  ghost predicate PieceOf(r: TimeRange, e: TimeRange, src: seq<TimeRange>, c: Config)
  {
    r.start < r.end && LongEnough(r.end - r.start, c) && Inside(r, e) && exists j :: 0 <= j < |src| && Inside(r, src[j])
  }

  lemma PieceOfMore(r: TimeRange, e: TimeRange, src: seq<TimeRange>, c: Config)
    requires src != [] && Ordered(src) && PieceOf(r, e, src[..|src| - 1], c)
    ensures PieceOf(r, e, src, c) && r.end <= src[|src| - 1].start
  {
    hide LongEnough;
    var n := |src| - 1;
    var j :| 0 <= j < n && Inside(r, src[..n][j]);
    assert Inside(r, src[j]);
  }

  lemma OverlapIsPiece(e: TimeRange, src: seq<TimeRange>, c: Config)
    requires src != []
    ensures forall r :: r in Overlap(e, src[|src| - 1], c) ==> PieceOf(r, e, src, c) && src[|src| - 1].start <= r.start
  {
    hide LongEnough;
    var n := |src| - 1;
    forall r | r in Overlap(e, src[n], c)
      ensures PieceOf(r, e, src, c)
    {
      assert Inside(r, src[n]);
    }
  }

  lemma OrderedConcat(p: seq<TimeRange>, q: seq<TimeRange>, t: int)
    requires Ordered(p) && Ordered(q)
    requires forall r :: r in p ==> r.end <= t
    requires forall r :: r in q ==> t <= r.start
    ensures Ordered(p + q)
  {}

  lemma {:induction false} OverlapsWithAreInside(e: TimeRange, src: seq<TimeRange>, c: Config)
    requires Ordered(src)
    ensures Ordered(OverlapsWith(e, src, c))
    ensures forall r :: r in OverlapsWith(e, src, c) ==> PieceOf(r, e, src, c)
  {
    hide LongEnough, PieceOf, Overlap;
    if src == [] {
    } else {
      var n := |src| - 1;
      OverlapsWithAreInside(e, src[..n], c);
      forall r | r in OverlapsWith(e, src[..n], c)
        ensures PieceOf(r, e, src, c) && r.end <= src[n].start
      {
        PieceOfMore(r, e, src, c);
      }
      OverlapIsPiece(e, src, c);
      OneOverlap(e, src[n], c);
      OrderedConcat(OverlapsWith(e, src[..n], c), Overlap(e, src[n], c), src[n].start);
    }
  }

  lemma OneOverlap(e: TimeRange, s: TimeRange, c: Config)
    ensures Ordered(Overlap(e, s, c))
  {
    hide LongEnough;
  }

  lemma PieceIsInBoth(r: TimeRange, ego: seq<TimeRange>, src: seq<TimeRange>, c: Config)
    requires ego != [] && PieceOf(r, ego[|ego| - 1], src, c)
    ensures InBoth(r, ego, src, c) && ego[|ego| - 1].start <= r.start
  {
    hide LongEnough;
    assert Inside(r, ego[|ego| - 1]);
  }

  lemma InBothOfMore(r: TimeRange, ego: seq<TimeRange>, src: seq<TimeRange>, c: Config)
    requires ego != [] && Ordered(ego) && InBoth(r, ego[..|ego| - 1], src, c)
    ensures InBoth(r, ego, src, c) && r.end <= ego[|ego| - 1].start
  {
    hide LongEnough;
    var n := |ego| - 1;
    var i :| 0 <= i < n && Inside(r, ego[..n][i]);
    assert Inside(r, ego[i]);
  }

  lemma {:induction false} OverlapsAreInside(ego: seq<TimeRange>, src: seq<TimeRange>, c: Config)
    requires Ordered(ego) && Ordered(src)
    ensures Ordered(Overlaps(ego, src, c))
    ensures forall r :: r in Overlaps(ego, src, c) ==> InBoth(r, ego, src, c)
  {
    hide LongEnough, InBoth, PieceOf, OverlapsWith;
    if ego == [] {
    } else {
      var n := |ego| - 1;
      OverlapsAreInside(ego[..n], src, c);
      OverlapsWithAreInside(ego[n], src, c);
      forall r | r in Overlaps(ego[..n], src, c)
        ensures InBoth(r, ego, src, c) && r.end <= ego[n].start
      {
        InBothOfMore(r, ego, src, c);
      }
      forall r | r in OverlapsWith(ego[n], src, c)
        ensures InBoth(r, ego, src, c) && ego[n].start <= r.start
      {
        PieceIsInBoth(r, ego, src, c);
      }
      OrderedConcat(Overlaps(ego[..n], src, c), OverlapsWith(ego[n], src, c), ego[n].start);
    }
  }

  lemma {:induction false} OverlapsWithContain(e: TimeRange, src: seq<TimeRange>, c: Config, x: int, y: int, j: nat)
    requires x < y && LongEnough(y - x, c) && j < |src|
    requires e.start <= x && y <= e.end && src[j].start <= x && y <= src[j].end
    ensures Covered(x, y, OverlapsWith(e, src, c))
  {
    hide LongEnough;
    var n := |src| - 1;
    var init, last := OverlapsWith(e, src[..n], c), Overlap(e, src[n], c);
    if j == n {
      var t0 := if e.start < src[n].start then src[n].start else e.start;
      var t1 := if src[n].end < e.end then src[n].end else e.end;
      LongerIsLongEnough(y - x, t1 - t0, c);
      assert (init + last)[|init|] == last[0];
    } else {
      OverlapsWithContain(e, src[..n], c, x, y, j);
      var i :| 0 <= i < |init| && init[i].start <= x && y <= init[i].end;
      assert (init + last)[i] == init[i];
    }
  }

  /** An interval inside a range of each stream, long enough, lies in a combined range. */
  lemma {:induction false} OverlapsContain(ego: seq<TimeRange>, src: seq<TimeRange>, c: Config, x: int, y: int,
      i: nat, j: nat)
    requires x < y && LongEnough(y - x, c) && i < |ego| && j < |src|
    requires ego[i].start <= x && y <= ego[i].end && src[j].start <= x && y <= src[j].end
    ensures Covered(x, y, Overlaps(ego, src, c))
  {
    hide LongEnough, OverlapsWith;
    var n := |ego| - 1;
    var init, last := Overlaps(ego[..n], src, c), OverlapsWith(ego[n], src, c);
    if i == n {
      OverlapsWithContain(ego[n], src, c, x, y, j);
      var k :| 0 <= k < |last| && last[k].start <= x && y <= last[k].end;
      assert (init + last)[|init| + k] == last[k];
    } else {
      OverlapsContain(ego[..n], src, c, x, y, i, j);
      var k :| 0 <= k < |init| && init[k].start <= x && y <= init[k].end;
      assert (init + last)[k] == init[k];
    }
  }

  /** The inner loop: one ego range against all ranges of the source. */
  method IntersectOne(e: TimeRange, src: seq<TimeRange>, c: Config) returns (found: seq<TimeRange>)
    ensures found == OverlapsWith(e, src, c)
  {
    hide LongEnough;
    found := [];
    for j := 0 to |src|
      invariant found == OverlapsWith(e, src[..j], c)
    {
      assert src[..j + 1][..j] == src[..j];
      var t0 := if e.start < src[j].start then src[j].start else e.start;
      var t1 := if src[j].end < e.end then src[j].end else e.end;
      if t1 > t0 {
        var r := TimeRange(t0, t1, Both);
        if LongEnough(r.end - r.start, c) {
          found := found + [r];
        }
      }
    }
    assert src[..|src|] == src;
  }

  /** The ranges of the report: the overlaps, or the ego ranges when there is none. */
  method ExtractValidRanges(ego: StreamValidation, src: StreamValidation, c: Config)
    returns (combined: seq<TimeRange>, ghost egoRanges: seq<TimeRange>, ghost srcRanges: seq<TimeRange>)
    ensures RangesOf(egoRanges, ego, c) && RangesOf(srcRanges, src, c)
    ensures combined == (if Overlaps(egoRanges, srcRanges, c) == [] then egoRanges
            else Overlaps(egoRanges, srcRanges, c))
    ensures Ordered(combined)
    ensures (forall r :: r in combined ==> InBoth(r, egoRanges, srcRanges, c)) || combined == egoRanges
  {
    hide LongEnough, RangesOf, Ordered, InBoth, OverlapsWith;
    var er := BuildRanges(ego, Ego, c);
    var sr := BuildRanges(src, Source, c);
    egoRanges, srcRanges := er, sr;
    RangesAreOrdered(er, ego, c);
    RangesAreOrdered(sr, src, c);
    combined := [];
    for i := 0 to |er|
      invariant combined == Overlaps(er[..i], sr, c)
    {
      assert er[..i + 1][..i] == er[..i];
      var found := IntersectOne(er[i], sr, c);
      combined := combined + found;
    }
    assert er[..|er|] == er;
    OverlapsAreInside(er, sr, c);
    if combined == [] && er != [] {
      combined := er;
    }
  }

  lemma RangesAreOrdered(ranges: seq<TimeRange>, sv: StreamValidation, c: Config)
    requires RangesOf(ranges, sv, c)
    ensures Ordered(ranges)
  {
    hide AllKept, CoversAll;
  }

  // ---- The valid fraction ----

  /** All ranges are proper and lie between a and b. */
  predicate Within(ranges: seq<TimeRange>, a: int, b: int)
  {
    forall i :: 0 <= i < |ranges| ==> a <= ranges[i].start <= ranges[i].end <= b
  }

  function TotalTime(ranges: seq<TimeRange>): int
  {
    if ranges == [] then 0
    else
      var n := |ranges| - 1;
      TotalTime(ranges[..n]) + (ranges[n].end - ranges[n].start)
  }

  /** Ordered ranges inside an interval are together no longer than it. */
  lemma {:induction false} TotalFits(ranges: seq<TimeRange>, a: int, b: int)
    requires a <= b && Ordered(ranges) && Within(ranges, a, b)
    ensures 0 <= TotalTime(ranges) <= b - a
    ensures ranges != [] ==> TotalTime(ranges) <= ranges[|ranges| - 1].end - a
  {
    if ranges == [] {
    } else {
      var n := |ranges| - 1;
      var init := ranges[..n];
      TotalFits(init, a, b);
      if n > 0 {
        assert init[n - 1].end <= ranges[n].start;
      }
    }
  }

  lemma {:induction false} BreaksInside(events: seq<GapEvent>, lo: int, hi: int)
    requires EventsInside(events, lo, hi)
    ensures forall x :: x in Breaks(events) ==> lo <= x <= hi
  {
    if events == [] {
    } else {
      BreaksInside(events[..|events| - 1], lo, hi);
    }
  }

  /** With all events inside the stream, as the accumulator makes them, all ranges are inside. */
  lemma RangesInside(ranges: seq<TimeRange>, sv: StreamValidation, c: Config)
    requires RangesOf(ranges, sv, c) && EventsInside(sv.events, sv.tFirst, sv.tLast)
    ensures Within(ranges, sv.tFirst, sv.tLast)
  {
    hide LongEnough, CoversAll, NoBreakInside, Ordered;
    BreaksInside(sv.events, sv.tFirst, sv.tLast);
    forall i | 0 <= i < |ranges|
      ensures sv.tFirst <= ranges[i].start <= ranges[i].end <= sv.tLast
    {
      assert Kept(ranges[i], sv.tFirst, sv.tLast, Breaks(sv.events), c);
    }
  }

  lemma CombinedInside(combined: seq<TimeRange>, er: seq<TimeRange>, sr: seq<TimeRange>, a: int, b: int, c: Config)
    requires Within(er, a, b)
    requires (forall r :: r in combined ==> InBoth(r, er, sr, c)) || combined == er
    ensures Within(combined, a, b)
  {
    hide LongEnough;
    if combined != er {
      forall k | 0 <= k < |combined|
        ensures a <= combined[k].start <= combined[k].end <= b
      {
        assert combined[k] in combined;
        var i :| 0 <= i < |er| && Inside(combined[k], er[i]);
      }
    }
  }

  /** Every range lasts the minimum number of seconds, a second being 10^9 nanoseconds. */
  predicate AllLong(ranges: seq<TimeRange>, seconds: real)
  {
    forall k :: 0 <= k < |ranges| ==> (ranges[k].end - ranges[k].start) as real / 1_000_000_000.0 >= seconds
  }

  /** Every stretch of a stream without a break inside that lasts the minimum number of seconds, or longer,
      lies in one of its ranges, and every range lasts that long. */
  lemma RangesByTheSecond(ranges: seq<TimeRange>, sv: StreamValidation, c: Config, x: int, y: int)
    requires RangesOf(ranges, sv, c) && sv.fileOk && sv.tFirst <= x < y <= sv.tLast
    requires forall i :: 0 <= i < |Breaks(sv.events)| ==> Breaks(sv.events)[i] <= x || Breaks(sv.events)[i] >= y
    ensures (y - x) as real / 1_000_000_000.0 >= c.minValidSeconds ==>
              exists i :: 0 <= i < |ranges| && ranges[i].start <= x && y <= ranges[i].end
    ensures AllLong(ranges, c.minValidSeconds)
  {
    hide Breaks;
    RangesAreLong(ranges, ranges, [], sv, c);
    assert NoBreakInside(x, y, Breaks(sv.events));
    if LongEnough(y - x, c) {
      assert Covered(x, y, ranges);
    }
  }

  lemma RangesAreLong(combined: seq<TimeRange>, er: seq<TimeRange>, sr: seq<TimeRange>, ego: StreamValidation,
      c: Config)
    requires RangesOf(er, ego, c)
    requires (forall r :: r in combined ==> InBoth(r, er, sr, c)) || combined == er
    ensures AllLong(combined, c.minValidSeconds)
  {
    hide CoversAll, NoBreakInside, Ordered;
    forall k | 0 <= k < |combined|
      ensures (combined[k].end - combined[k].start) as real / 1_000_000_000.0 >= c.minValidSeconds
    {
      if combined == er {
        assert Kept(er[k], ego.tFirst, ego.tLast, Breaks(ego.events), c);
      } else {
        assert combined[k] in combined;
      }
    }
  }

  lemma LongTime(total: int, d: int, seconds: real)
    requires total >= 0 && seconds >= 0.0 && d as real / 1_000_000_000.0 >= seconds
    ensures (total + d) as real / 1_000_000_000.0 >= seconds && total + d >= 0
  {}

  /** So together they last at least the minimum, if there is a range at all. */
  lemma {:induction false} TotalIsLong(ranges: seq<TimeRange>, seconds: real)
    requires AllLong(ranges, seconds) && seconds >= 0.0
    ensures TotalTime(ranges) >= 0
    ensures ranges != [] ==> TotalTime(ranges) as real / 1_000_000_000.0 >= seconds
  {
    if ranges == [] {
    } else {
      var n := |ranges| - 1;
      TotalIsLong(ranges[..n], seconds);
      LongTime(TotalTime(ranges[..n]), ranges[n].end - ranges[n].start, seconds);
    }
  }

  lemma FractionBound(total: int, span: int)
    requires 0 <= total <= span && span > 0
    ensures 0.0 <= (total as real / 1_000_000_000.0) / (span as real / 1_000_000_000.0) <= 1.0
  {
    var x, y := total as real / 1_000_000_000.0, span as real / 1_000_000_000.0;
    assert 0.0 <= x <= y && y > 0.0;
    QuotientBound(x, y);
  }

  lemma QuotientBound(x: real, y: real)
    requires 0.0 <= x <= y && y > 0.0
    ensures 0.0 <= x / y <= 1.0
  {}

  /** `Integrity` of the report: ok, warning, failed. */
  datatype Integrity = Intact | Doubtful | Failed

  method HasError(events: seq<GapEvent>) returns (found: bool)
    ensures found <==> exists e :: e in events && e.severity == Error
  {
    for i := 0 to |events|
      invariant forall k :: 0 <= k < i ==> events[k].severity == Warning
    {
      if events[i].severity == Error {
        assert events[i] in events;
        return true;
      }
    }
    return false;
  }

  method ComputeIntegrity(ego: StreamValidation, src: StreamValidation, totalValid: real, c: Config)
      returns (r: Integrity)
    ensures r == Failed <==> !ego.fileOk || totalValid < c.minValidSeconds
    ensures r == Intact <==>
              && r != Failed && ego.crcFailed == 0 && ego.monotonicViolations <= 5
              && (forall e :: e in ego.events + src.events ==> e.severity == Warning)
  {
    if !ego.fileOk || totalValid < c.minValidSeconds {
      return Failed;
    }
    var hasErrors := HasError(ego.events);
    if !hasErrors {
      hasErrors := HasError(src.events);
    }
    assert forall e :: e in ego.events + src.events <==> e in ego.events || e in src.events;
    if ego.crcFailed > 0 || ego.monotonicViolations > 5 {
      return Doubtful;
    }
    r := if hasErrors then Doubtful else Intact;
  }

  lemma NoTime()
    ensures TotalTime([]) as real / 1_000_000_000.0 == 0.0
  {}

  datatype Summary = Summary(
    ranges: seq<TimeRange>, totalValidSeconds: real, validFraction: real, integrity: Integrity)

  /** The range part of `build_report`. When every ego event lies between the first and last ego
      time, the ranges never add up to more than the session. */
  method BuildReport(ego: StreamValidation, src: StreamValidation, c: Config) returns (summary: Summary)
    ensures summary.totalValidSeconds == TotalTime(summary.ranges) as real / 1_000_000_000.0
    ensures ego.tLast <= ego.tFirst ==> summary.validFraction == 0.0
    ensures ego.tLast > ego.tFirst ==>
              summary.validFraction == summary.totalValidSeconds / ((ego.tLast - ego.tFirst) as real / 1_000_000_000.0)
    ensures EventsInside(ego.events, ego.tFirst, ego.tLast) ==> 0.0 <= summary.validFraction <= 1.0
    ensures AllLong(summary.ranges, c.minValidSeconds)
    ensures c.minValidSeconds >= 0.0 && summary.ranges != [] ==> summary.totalValidSeconds >= c.minValidSeconds
    ensures c.minValidSeconds > 0.0 ==> (summary.integrity == Failed <==> !ego.fileOk || summary.ranges == [])
    ensures summary.integrity == Intact <==>
              && summary.integrity != Failed && ego.crcFailed == 0 && ego.monotonicViolations <= 5
              && (forall e :: e in ego.events + src.events ==> e.severity == Warning)
    ensures EventsInside(ego.events, ego.tFirst, ego.tLast) && ego.tFirst <= ego.tLast ==>
              Within(summary.ranges, ego.tFirst, ego.tLast) && Ordered(summary.ranges)
  {
    hide LongEnough, RangesOf, Ordered, InBoth, Overlaps, Within, EventsInside, Breaks;
    var ranges, er, sr := ExtractValidRanges(ego, src, c);
    var span := ego.tLast - ego.tFirst;
    var valid := 0.0;
    for i := 0 to |ranges|
      invariant valid == TotalTime(ranges[..i]) as real / 1_000_000_000.0
    {
      assert ranges[..i + 1][..i] == ranges[..i];
      valid := valid + (ranges[i].end - ranges[i].start) as real / 1_000_000_000.0;
    }
    assert ranges[..|ranges|] == ranges;
    var total := span as real / 1_000_000_000.0;
    var fraction := if total > 0.0 then valid / total else 0.0;
    if EventsInside(ego.events, ego.tFirst, ego.tLast) {
      RangesInside(er, ego, c);
      CombinedInside(ranges, er, sr, ego.tFirst, ego.tLast, c);
      if span > 0 {
        TotalFits(ranges, ego.tFirst, ego.tLast);
        FractionBound(TotalTime(ranges), span);
      }
    }
    RangesAreLong(ranges, er, sr, ego, c);
    if c.minValidSeconds >= 0.0 {
      TotalIsLong(ranges, c.minValidSeconds);
    }
    NoTime();
    var integrity := ComputeIntegrity(ego, src, valid, c);
    summary := Summary(ranges, valid, fraction, integrity);
  }
}
