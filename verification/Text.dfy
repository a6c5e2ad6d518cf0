/** Text pieces the session files are made of: decimal numbers, lines and separated fields. */
module Text {

  function Digit(d: nat): char
    requires d < 10
  {
    ('0' as int + d) as char
  }

  predicate IsDigit(c: char)
  {
    '0' <= c <= '9'
  }

  /** Decimal digits of n, as `operator<<` prints an unsigned number. */
  function Dec(n: nat): (s: string)
    ensures s != []
  {
    if n < 10 then [Digit(n)] else Dec(n / 10) + [Digit(n % 10)]
  }

  predicate AllDigits(s: string)
  {
    forall i :: 0 <= i < |s| ==> IsDigit(s[i])
  }

  /** The number a string of digits stands for. */
  function ValueOf(s: string): nat
    requires AllDigits(s)
  {
    if s == [] then 0 else 10 * ValueOf(s[..|s| - 1]) + (s[|s| - 1] as int - '0' as int)
  }

  lemma {:induction false} DecIsDigits(n: nat)
    ensures AllDigits(Dec(n))
  {
    if n < 10 {
    } else {
      DecIsDigits(n / 10);
    }
  }

  lemma {:induction false} ValueOfDec(n: nat)
    ensures AllDigits(Dec(n)) && ValueOf(Dec(n)) == n
  {
    DecIsDigits(n);
    if n >= 10 {
      ValueOfDec(n / 10);
      assert Dec(n)[..|Dec(n)| - 1] == Dec(n / 10);
    } else {
      assert Dec(n)[..0] == [];
    }
  }

  lemma DecIsInjective(a: nat, b: nat)
    requires Dec(a) == Dec(b)
    ensures a == b
  {
    ValueOfDec(a);
    ValueOfDec(b);
  }

  // ---- Separated fields ----

  /** The pieces of s between occurrences of sep, as repeated `std::getline` calls return them:
      a final separator does not start another piece. */
  function Split(s: string, sep: char): seq<string>
    decreases |s|
  {
    if s == [] then []
    else
      var k := IndexOf(s, sep);
      [s[..k]] + (if k < |s| then Split(s[k + 1..], sep) else [])
  }

  /** The position of the first sep, or |s|. */
  function IndexOf(s: string, sep: char): (k: nat)
    ensures k <= |s| && (k < |s| ==> s[k] == sep) && sep !in s[..k]
  {
    if s == [] || s[0] == sep then 0
    else
      var k := IndexOf(s[1..], sep);
      assert s[..k + 1] == [s[0]] + s[1..][..k];
      k + 1
  }

  lemma {:induction false} IndexOfPiece(p: string, sep: char, rest: string)
    requires sep !in p
    ensures IndexOf(p + [sep] + rest, sep) == |p|
  {
    var s := p + [sep] + rest;
    if p == [] {
    } else {
      IndexOfPiece(p[1..], sep, rest);
      assert s[1..] == p[1..] + [sep] + rest;
      assert s[0] == p[0] && p[0] in p;
    }
  }

  lemma SplitPiece(p: string, sep: char, rest: string)
    requires sep !in p
    ensures Split(p + [sep] + rest, sep) == [p] + Split(rest, sep)
  {
    var s := p + [sep] + rest;
    IndexOfPiece(p, sep, rest);
    assert s[..|p|] == p && s[|p| + 1..] == rest;
  }

  lemma SplitLast(p: string, sep: char)
    requires sep !in p && p != []
    ensures Split(p, sep) == [p]
  {
    var k := IndexOf(p, sep);
    assert k == |p|;
    assert p[..k] == p;
  }

  /** Each line followed by a newline. */
  function Unlines(lines: seq<string>): string
  {
    if lines == [] then [] else Unlines(lines[..|lines| - 1]) + (lines[|lines| - 1] + ['\n'])
  }

  lemma {:induction false} UnlinesFromHead(lines: seq<string>)
    requires lines != []
    ensures Unlines(lines) == lines[0] + ['\n'] + Unlines(lines[1..])
  {
    var n := |lines| - 1;
    if n == 0 {
      assert lines[..0] == [] && lines[1..] == [];
    } else {
      UnlinesFromHead(lines[..n]);
      var tail := lines[1..];
      assert lines[..n][1..] == tail[..n - 1] && tail[n - 1] == lines[n] && |tail| == n;
      Regroup(lines[0] + ['\n'], Unlines(tail[..n - 1]), lines[n] + ['\n']);
    }
  }

  lemma Regroup(a: string, b: string, c: string)
    ensures (a + b) + c == a + (b + c)
  {}

  /** Reading lines back. */
  lemma {:induction false} SplitOfUnlines(lines: seq<string>)
    requires forall l :: l in lines ==> '\n' !in l
    ensures Split(Unlines(lines), '\n') == lines
  {
    if lines == [] {
    } else {
      UnlinesFromHead(lines);
      SplitPiece(lines[0], '\n', Unlines(lines[1..]));
      SplitOfUnlines(lines[1..]);
    }
  }
}
