/** Every text in JSON notation, with any white space between its tokens, is read as the value it
    denotes. */
module JsonTexts {
  import opened Json
  import opened Manifest
  import opened ManifestReader
  import opened Text

  /** An exponent: its letter, its sign if any, and its digits. */
  datatype Power = NoPower | Power(letter: char, sign: string, digits: string)

  datatype Doc =
    | Nothing
    | Flag(b: bool)
    | Whole(i: int)
    | Decimal(negative: bool, digits: string, point: bool, fraction: string, power: Power)
    | Words(s: string)
    | List(items: seq<Doc>)
    | Record(members: seq<Entry>)

  datatype Entry = Entry(key: string, value: Doc)

  // ---- How a document is written ----

  function Minus(negative: bool): string
  {
    if negative then "-" else ""
  }

  function PowerText(e: Power): string
  {
    match e
    case NoPower => ""
    case Power(letter, sign, digits) => [letter] + sign + digits
  }

  function Quoted(s: string): string
  {
    "\"" + Escaped(s) + "\""
  }

  /** The document with the white space w between any two tokens. */
  function Written(d: Doc, w: string): (r: string)
    decreases d, 1, 0
  {
    match d
    case Nothing => "null"
    case Flag(b) => if b then "true" else "false"
    case Whole(i) => Minus(i < 0) + Dec(if i < 0 then -i else i)
    case Decimal(negative, digits, point, fraction, e) =>
      Minus(negative) + digits + (if point then "." + fraction else "") + PowerText(e)
    case Words(s) => Quoted(s)
    case List(items) => "[" + w + (if items == [] then "]" else WrittenItems(d, 0, w))
    case Record(members) => "{" + w + (if members == [] then "}" else WrittenEntries(d, 0, w))
  }

  function WrittenItems(d: Doc, i: nat, w: string): string
    requires d.List? && i < |d.items|
    decreases d, 0, |d.items| - i
  {
    Written(d.items[i], w) + (w + (if i + 1 == |d.items| then "]" else "," + w + WrittenItems(d, i + 1, w)))
  }

  function WrittenEntries(d: Doc, i: nat, w: string): string
    requires d.Record? && i < |d.members|
    decreases d, 0, |d.members| - i
  {
    Quoted(d.members[i].key) + (w + (":" + (w + (Written(d.members[i].value, w)
      + (w + (if i + 1 == |d.members| then "}" else "," + w + WrittenEntries(d, i + 1, w)))))))
  }

  predicate ProperPower(e: Power)
  {
    e.Power? ==>
      && (e.letter == 'e' || e.letter == 'E') && (e.sign == "" || e.sign == "+" || e.sign == "-")
      && AllDigits(e.digits) && e.digits != ""
  }

  /** Decimals have digits before the point, and a point or an exponent; other documents are any. */
  predicate Proper(d: Doc)
  {
    match d
    case Decimal(_, digits, point, fraction, e) =>
      && digits != "" && AllDigits(digits) && AllDigits(fraction) && (point || e.Power?)
      && ProperPower(e)
    case List(items) => forall i :: 0 <= i < |items| ==> Proper(items[i])
    case Record(members) => forall i :: 0 <= i < |members| ==> Proper(members[i].value)
    case _ => true
  }

  // ---- What it denotes ----

  /** Of several members with one key the last counts. */
  function Denoted(d: Doc): JsonValue
    decreases d, 1, 0
  {
    match d
    case Nothing => Null
    case Flag(b) => Bool(b)
    case Whole(i) => Int(i)
    case Decimal(_, _, _, _, _) => Double(Written(d, ""))
    case Words(s) => String(s)
    case List(items) => Array(DenotedItems(d, 0))
    case Record(members) => Object(DenotedEntries(d, 0, map[]))
  }

  function DenotedItems(d: Doc, i: nat): seq<JsonValue>
    requires d.List? && i <= |d.items|
    decreases d, 0, |d.items| - i
  {
    if i == |d.items| then [] else [Denoted(d.items[i])] + DenotedItems(d, i + 1)
  }

  function DenotedEntries(d: Doc, i: nat, obj: map<string, JsonValue>): map<string, JsonValue>
    requires d.Record? && i <= |d.members|
    decreases d, 0, |d.members| - i
  {
    if i == |d.members| then obj
    else DenotedEntries(d, i + 1, obj[d.members[i].key := Denoted(d.members[i].value)])
  }

  /** Every whole number in it fits a signed 64-bit integer. */
  predicate NumbersFit(d: Doc)
  {
    match d
    case Whole(i) => -0x8000_0000_0000_0000 <= i < 0x8000_0000_0000_0000
    case List(items) => forall i :: 0 <= i < |items| ==> NumbersFit(items[i])
    case Record(members) => forall i :: 0 <= i < |members| ==> NumbersFit(members[i].value)
    case _ => true
  }

  predicate ItemsFit(d: Doc, i: nat)
    requires d.List?
  {
    forall k :: i <= k < |d.items| ==> NumbersFit(d.items[k])
  }

  predicate EntriesFit(d: Doc, i: nat)
    requires d.Record?
  {
    forall k :: i <= k < |d.members| ==> NumbersFit(d.members[k].value)
  }

  // ---- Numbers ----

  /** What stands at pos does not continue a number. */
  predicate Ends(src: string, pos: nat)
  {
    pos == |src| || (pos < |src| && !IsDigit(src[pos]) && src[pos] != '.' && src[pos] != 'e' && src[pos] != 'E')
  }

  lemma {:induction false} DigitsEnd(src: string, pos: nat, s: string)
    requires Starts(src, pos, s) && AllDigits(s) && (pos + |s| < |src| ==> !IsDigit(src[pos + |s|]))
    ensures SkipDigits(src, pos) == pos + |s|
    decreases |s|
  {
    if s == [] {
    } else {
      StartsAt(src, pos, s, 0);
      assert s == [s[0]] + s[1..];
      StartsParts(src, pos, [s[0]], s[1..]);
      DigitsEnd(src, pos + 1, s[1..]);
    }
  }

  lemma DigitsAreFirst(src: string, pos: nat, s: string)
    requires Starts(src, pos, s) && AllDigits(s) && s != ""
    ensures pos < |src| && IsDigit(src[pos]) && src[pos] != '-'
  {
    StartsAt(src, pos, s, 0);
  }

  /** A sign and then digits. */
  lemma SignIsRead(src: string, pos: nat, negative: bool, digits: string, rest: string)
    requires Starts(src, pos, Minus(negative) + (digits + rest)) && AllDigits(digits) && digits != ""
    ensures var start := pos + |Minus(negative)|;
            && Starts(src, start, digits) && Starts(src, start + |digits|, rest)
            && start == (if IsCharAt(src, pos, '-') then pos + 1 else pos)
            && pos < |src| && (src[pos] == '-' || IsDigit(src[pos])) && !IsSpace(src[pos])
  {
    StartsParts(src, pos, Minus(negative), digits + rest);
    StartsParts(src, pos + |Minus(negative)|, digits, rest);
    DigitsAreFirst(src, pos + |Minus(negative)|, digits);
    if negative {
      StartsAt(src, pos, "-", 0);
    }
  }

  /** An integer, once its digits have been read. */
  lemma IntegerPieces(src: string, pos: nat, start: nat, p: nat)
    requires pos <= start < p <= |src| && start == (if IsCharAt(src, pos, '-') then pos + 1 else pos)
    requires SkipDigits(src, start) == p && Ends(src, p) && AllDigits(src[start..p])
    ensures NumberAt(src, pos) == IntToken(start > pos, src[start..p], p)
  {
    NoExponent(src, start);
    hide SkipDigits, FractionEnd, ExponentEnd, IntToken;
  }

  lemma IntegerValue(negative: bool, n: nat, next: nat)
    ensures AllDigits(Dec(n))
    ensures var i: int := if negative then -(n as int) else n as int;
            IntToken(negative, Dec(n), next) ==
              if -0x8000_0000_0000_0000 <= i < 0x8000_0000_0000_0000 then Ok(Int(i), next) else Err
  {
    hide Dec, ValueOf;
    ValueOfDec(n);
  }

  lemma WholeText(i: int, w: string)
    ensures var n: nat := if i < 0 then -i else i;
            Written(Whole(i), w) == Minus(i < 0) + (Dec(n) + "")
  {
    hide Dec;
  }

  lemma WholeIsRead(src: string, pos: nat, i: int)
    requires Starts(src, pos, Written(Whole(i), "")) && Ends(src, pos + |Written(Whole(i), "")|)
    ensures NumberAt(src, pos) ==
              if -0x8000_0000_0000_0000 <= i < 0x8000_0000_0000_0000 then Ok(Int(i), pos + |Written(Whole(i), "")|)
              else Err
    ensures pos < |src| && (src[pos] == '-' || IsDigit(src[pos])) && !IsSpace(src[pos])
  {
    hide *;
    var n: nat := if i < 0 then -i else i;
    WholeText(i, "");
    IntegerValue(i < 0, n, pos + |Minus(i < 0)| + |Dec(n)|);
    SignIsRead(src, pos, i < 0, Dec(n), "");
    var start := pos + |Minus(i < 0)|;
    var p := start + |Dec(n)|;
    WhatStarts(src, start, Dec(n));
    NoDigitAtEnd(src, p);
    DigitsEnd(src, start, Dec(n));
    IntegerPieces(src, pos, start, p);
    MinusIsOne(i < 0);
  }

  lemma MinusIsOne(negative: bool)
    ensures |Minus(negative)| == if negative then 1 else 0
  {}

  lemma NoDigitAtEnd(src: string, p: nat)
    requires Ends(src, p)
    ensures p < |src| ==> !IsDigit(src[p])
  {}

  lemma WhatStarts(src: string, pos: nat, text: string)
    requires Starts(src, pos, text)
    ensures pos + |text| <= |src| && src[pos..pos + |text|] == text
  {}

  lemma FractionIsRead(src: string, p: nat, point: bool, fraction: string, rest: string)
    requires p <= |src| && Starts(src, p, (if point then "." + fraction else "") + rest)
    requires AllDigits(fraction)
    requires p < |src| ==> !IsDigit(src[p])
    requires var q := p + |if point then "." + fraction else ""|;
             && (q < |src| ==> !IsDigit(src[q])) && (!point ==> !IsCharAt(src, p, '.'))
    ensures FractionEnd(src, p) == p + |if point then "." + fraction else ""|
    ensures Starts(src, FractionEnd(src, p), rest) && (IsCharAt(src, p, '.') <==> point)
  {
    var f := if point then "." + fraction else "";
    StartsParts(src, p, f, rest);
    if point {
      StartsParts(src, p, ".", fraction);
      StartsAt(src, p, ".", 0);
      DigitsEnd(src, p + 1, fraction);
    } else {
      DigitsEnd(src, p, "");
    }
  }

  lemma PowerPieces(src: string, q: nat, e: Power)
    requires e.Power? && ProperPower(e) && Starts(src, q, PowerText(e))
    ensures q < |src| && src[q] == e.letter && Starts(src, q + 1 + |e.sign|, e.digits)
    ensures |PowerText(e)| == 1 + |e.sign| + |e.digits|
    ensures (IsCharAt(src, q + 1, '+') || IsCharAt(src, q + 1, '-')) <==> e.sign != ""
  {
    assert PowerText(e) == [e.letter] + (e.sign + e.digits);
    StartsParts(src, q, [e.letter], e.sign + e.digits);
    StartsAt(src, q, [e.letter], 0);
    StartsParts(src, q + 1, e.sign, e.digits);
    hide AllDigits, Starts;
    if e.sign != "" {
      StartsAt(src, q + 1, e.sign, 0);
    } else {
      DigitsAreFirst(src, q + 1, e.digits);
      NotASign(src[q + 1]);
    }
  }

  lemma NotASign(c: char)
    requires IsDigit(c)
    ensures c != '+' && c != '-'
  {}

  lemma PowerIsRead(src: string, q: nat, e: Power)
    requires q <= |src| && Starts(src, q, PowerText(e)) && Ends(src, q + |PowerText(e)|) && ProperPower(e)
    ensures ExponentEnd(src, q) == q + |PowerText(e)| && (IsExponent(src, q) <==> e.Power?)
    ensures q < |src| ==> !IsDigit(src[q]) && src[q] != '.'
  {
    hide Starts, SkipDigits, AllDigits, PowerText;
    if e.Power? {
      PowerPieces(src, q, e);
      DigitsEnd(src, q + 1 + |e.sign|, e.digits);
    } else {
      assert PowerText(e) == "" by { NoPowerText(e); }
    }
  }

  lemma NoPowerText(e: Power)
    requires e == NoPower
    ensures PowerText(e) == ""
  {}

  /** A number with a point or an exponent, once its pieces have been read. */
  lemma NumberPieces(src: string, pos: nat, start: nat, p: nat, q: nat, end: nat)
    requires pos <= start < p <= q <= end <= |src| && start == (if IsCharAt(src, pos, '-') then pos + 1 else pos)
    requires SkipDigits(src, start) == p && FractionEnd(src, p) == q && ExponentEnd(src, q) == end
    requires IsCharAt(src, p, '.') || IsExponent(src, q)
    ensures NumberAt(src, pos) == Ok(Double(src[pos..end]), end)
  {
    hide SkipDigits, FractionEnd, ExponentEnd, IsExponent, IsCharAt;
  }

  lemma DecimalPieces(d: Doc)
    requires d.Decimal?
    ensures var f := if d.point then "." + d.fraction else "";
            Written(d, "") == Minus(d.negative) + (d.digits + (f + PowerText(d.power)))
  {
    var f := if d.point then "." + d.fraction else "";
    var e := PowerText(d.power);
    Regroup(Minus(d.negative) + d.digits, f, e);
    Regroup(Minus(d.negative), d.digits, f + e);
  }

  lemma DecimalIsRead(src: string, pos: nat, d: Doc)
    requires d.Decimal? && Proper(d) && Starts(src, pos, Written(d, "")) && Ends(src, pos + |Written(d, "")|)
    ensures NumberAt(src, pos) == Ok(Double(Written(d, "")), pos + |Written(d, "")|)
    ensures pos < |src| && (src[pos] == '-' || IsDigit(src[pos])) && !IsSpace(src[pos])
  {
    hide *;
    var f := if d.point then "." + d.fraction else "";
    var e := PowerText(d.power);
    DecimalPieces(d);
    ProperDecimal(d);
    WhatStarts(src, pos, Written(d, ""));
    SignIsRead(src, pos, d.negative, d.digits, f + e);
    var start := pos + |Minus(d.negative)|;
    var p := start + |d.digits|;
    StartsParts(src, p, f, e);
    PowerIsRead(src, p + |f|, d.power);
    RestIsRead(src, p, d.point, d.fraction, e);
    DigitsEnd(src, start, d.digits);
    NumberPieces(src, pos, start, p, p + |f|, p + |f| + |e|);
  }

  lemma ProperDecimal(d: Doc)
    requires d.Decimal? && Proper(d)
    ensures d.digits != "" && AllDigits(d.digits) && AllDigits(d.fraction) && ProperPower(d.power)
    ensures d.point || d.power.Power?
  {}

  lemma RestIsRead(src: string, p: nat, point: bool, fraction: string, e: string)
    requires p <= |src| && Starts(src, p, (if point then "." + fraction else "") + e) && AllDigits(fraction)
    requires var q := p + |if point then "." + fraction else ""|;
             q < |src| ==> !IsDigit(src[q]) && src[q] != '.'
    ensures FractionEnd(src, p) == p + |if point then "." + fraction else ""|
    ensures IsCharAt(src, p, '.') <==> point
    ensures p < |src| ==> !IsDigit(src[p])
  {
    hide Starts, SkipDigits, FractionEnd;
    if point {
      StartsParts(src, p, "." + fraction, e);
      StartsParts(src, p, ".", fraction);
      StartsAt(src, p, ".", 0);
    }
    FractionIsRead(src, p, point, fraction, e);
  }

  // ---- Values ----

  lemma FirstIs(src: string, pos: nat, word: string)
    requires word != ""
    ensures Starts(src, pos, word) ==> pos < |src| && src[pos] == word[0]
  {
    if Starts(src, pos, word) {
      StartsAt(src, pos, word, 0);
    }
  }

  lemma TrueIsRead(src: string, pos: nat)
    requires Starts(src, pos, "true")
    ensures pos < |src| && src[pos] == 't' && ValueAt(src, pos) == Ok(Bool(true), pos + 4)
  {
    hide NumberAt, StringAt, ObjectAt, ArrayAt;
    StartsAt(src, pos, "true", 0);
    SkipHere(src, pos);
    hide Starts, SkipSpace;
  }

  lemma FalseIsRead(src: string, pos: nat)
    requires Starts(src, pos, "false")
    ensures pos < |src| && src[pos] == 'f' && ValueAt(src, pos) == Ok(Bool(false), pos + 5)
  {
    hide NumberAt, StringAt, ObjectAt, ArrayAt;
    StartsAt(src, pos, "false", 0);
    SkipHere(src, pos);
    FirstIs(src, pos, "true");
    hide Starts, SkipSpace;
  }

  lemma NullIsRead(src: string, pos: nat)
    requires Starts(src, pos, "null")
    ensures pos < |src| && src[pos] == 'n' && ValueAt(src, pos) == Ok(Null, pos + 4)
  {
    hide NumberAt, StringAt, ObjectAt, ArrayAt;
    StartsAt(src, pos, "null", 0);
    SkipHere(src, pos);
    FirstIs(src, pos, "true");
    FirstIs(src, pos, "false");
    hide Starts, SkipSpace;
  }

  lemma QuotedIsRead(src: string, pos: nat, s: string)
    requires Starts(src, pos, Quoted(s))
    ensures StringAt(src, pos) == Ok(s, pos + |Quoted(s)|) && IsCharAt(src, pos, '"')
    ensures ValueAt(src, pos) == Ok(String(s), pos + |Quoted(s)|)
  {
    hide Escaped, StringAt, NumberAt, ObjectAt, ArrayAt;
    StringReadsBack(src, pos, s);
    StartsAt(src, pos, Quoted(s), 0);
  }

  lemma NumberIsValue(src: string, pos: nat)
    requires pos < |src| && (src[pos] == '-' || IsDigit(src[pos]))
    ensures ValueAt(src, pos) == NumberAt(src, pos)
  {
    hide NumberAt, StringAt, ObjectAt, ArrayAt;
  }

  /** White space and a character after a value: the value ends there, and so does a number. */
  lemma SpaceThen(src: string, end: nat, w: string, c: char, rest: string)
    requires AllSpace(w) && (c == ',' || c == ']' || c == '}' || c == ':') && Starts(src, end, w + ([c] + rest))
    ensures Ends(src, end) && SkipSpace(src, end) == end + |w| && IsCharAt(src, end + |w|, c)
    ensures Starts(src, end + |w| + 1, rest)
  {
    StartsParts(src, end, w, [c] + rest);
    StartsParts(src, end + |w|, [c], rest);
    StartsAt(src, end + |w|, [c], 0);
    SpacesSkipped(src, end, w);
    if w != "" {
      StartsAt(src, end, w, 0);
    }
  }

  /** White space is skipped before a token. */
  lemma SpaceBefore(src: string, pos: nat, w: string, text: string)
    requires AllSpace(w) && Starts(src, pos, w + text) && text != ""
    ensures Starts(src, pos + |w|, text) && pos + |w| < |src|
    ensures !IsSpace(src[pos + |w|]) ==> SkipSpace(src, pos) == pos + |w| == SkipSpace(src, pos + |w|)
  {
    StartsParts(src, pos, w, text);
    StartsAt(src, pos + |w|, text, 0);
    SpacesSkipped(src, pos, w);
  }

  lemma ItemsStep(d: Doc, i: nat)
    requires d.List? && i < |d.items|
    ensures ItemsFit(d, i) <==> NumbersFit(d.items[i]) && ItemsFit(d, i + 1)
    ensures DenotedItems(d, i) == [Denoted(d.items[i])] + DenotedItems(d, i + 1)
    ensures ItemsFit(d, |d.items|) && DenotedItems(d, |d.items|) == []
    ensures NumbersFit(d) <==> ItemsFit(d, 0)
  {
    hide Denoted;
  }

  /** One item, and what follows it. */
  lemma ItemIsRead(src: string, pos: nat, d: Doc, i: nat, w: string, done: seq<JsonValue>, c: char, more: string)
    requires d.List? && i < |d.items| && Proper(d) && AllSpace(w) && (c == ',' || c == ']')
    requires WrittenItems(d, i, w) == Written(d.items[i], w) + (w + ([c] + more))
    requires Starts(src, pos, WrittenItems(d, i, w))
    ensures pos < |src| && !IsSpace(src[pos]) && src[pos] != ']'
    ensures var at := pos + |Written(d.items[i], w)| + |w|;
            && at < |src| && Starts(src, at + 1, more)
            && (!NumbersFit(d.items[i]) ==> Elements(src, pos, done) == Err)
            && (NumbersFit(d.items[i]) && c == ']' ==>
                  Elements(src, pos, done) == Ok(Array(done + [Denoted(d.items[i])]), at + 1))
            && (NumbersFit(d.items[i]) && c == ',' ==>
                  Elements(src, pos, done) == Elements(src, at + 1, done + [Denoted(d.items[i])]))
    decreases d, 0, 0
  {
    hide *;
    var v := Written(d.items[i], w);
    ProperItem(d, i);
    StartsParts(src, pos, v, w + ([c] + more));
    SpaceThen(src, pos + |v|, w, c, more);
    ValueIsRead(src, pos, d.items[i], w);
    SkipHere(src, pos);
    ElementsStep(src, pos, done);
    AfterElementIs(src, pos + |v| + |w|, done + [Denoted(d.items[i])]);
    NotBoth(src, pos + |v| + |w|);
  }

  lemma LastItemText(d: Doc, i: nat, w: string)
    requires d.List? && i + 1 == |d.items|
    ensures WrittenItems(d, i, w) == Written(d.items[i], w) + (w + ([']'] + ""))
    ensures |WrittenItems(d, i, w)| == |Written(d.items[i], w)| + |w| + 1
  {
    hide Written;
    assert "]" == [']'] + "";
  }

  lemma NextItemText(d: Doc, i: nat, w: string)
    requires d.List? && i + 1 < |d.items|
    ensures WrittenItems(d, i, w) == Written(d.items[i], w) + (w + ([','] + (w + WrittenItems(d, i + 1, w))))
    ensures |WrittenItems(d, i, w)| == |Written(d.items[i], w)| + 2 * |w| + 1 + |WrittenItems(d, i + 1, w)|
  {
    hide Written;
    assert "," == [','];
    Regroup(",", w, WrittenItems(d, i + 1, w));
  }

  lemma ItemsAreText(d: Doc, i: nat, w: string)
    requires d.List? && i < |d.items|
    ensures WrittenItems(d, i, w) != ""
  {
    hide Written;
  }

  lemma JoinedItems(done: seq<JsonValue>, v: JsonValue, rest: seq<JsonValue>)
    ensures done + [v] + rest == done + ([v] + rest) && done + [v] + [] == done + [v]
  {}

  lemma {:induction false} ItemsAreRead(src: string, pos: nat, d: Doc, i: nat, w: string, done: seq<JsonValue>)
    requires d.List? && i < |d.items| && Proper(d) && AllSpace(w) && Starts(src, pos, WrittenItems(d, i, w))
    ensures pos < |src| && !IsSpace(src[pos]) && src[pos] != ']'
    ensures Elements(src, pos, done) ==
              if ItemsFit(d, i) then Ok(Array(done + DenotedItems(d, i)), pos + |WrittenItems(d, i, w)|) else Err
    decreases d, 0, |d.items| - i
  {
    hide *;
    ItemsStep(d, i);
    var v := Denoted(d.items[i]);
    JoinedItems(done, v, DenotedItems(d, i + 1));
    if i + 1 == |d.items| {
      LastItemText(d, i, w);
      ItemIsRead(src, pos, d, i, w, done, ']', "");
    } else {
      NextItemText(d, i, w);
      ItemIsRead(src, pos, d, i, w, done, ',', w + WrittenItems(d, i + 1, w));
      var at := pos + |Written(d.items[i], w)| + |w| + 1;
      ItemsAreText(d, i + 1, w);
      SpaceBefore(src, at, w, WrittenItems(d, i + 1, w));
      ItemsAreRead(src, at + |w|, d, i + 1, w, done + [v]);
      ElementsSkip(src, at, at + |w|, done + [v]);
    }
  }

  lemma NotBoth(src: string, pos: nat)
    ensures !(IsCharAt(src, pos, ',') && IsCharAt(src, pos, ']'))
    ensures !(IsCharAt(src, pos, ',') && IsCharAt(src, pos, '}'))
  {}

  lemma ProperItem(d: Doc, i: nat)
    requires d.List? && Proper(d) && i < |d.items|
    ensures Proper(d.items[i])
  {}

  lemma ProperEntry(d: Doc, i: nat)
    requires d.Record? && Proper(d) && i < |d.members|
    ensures Proper(d.members[i].value)
  {}

  lemma EmptyListText(d: Doc, w: string)
    requires d.List? && d.items == []
    ensures Written(d, w) == "[" + (w + "]") && |Written(d, w)| == |w| + 2
    ensures NumbersFit(d) && Denoted(d) == Array([])
  {}

  lemma ListText(d: Doc, w: string)
    requires d.List? && d.items != []
    ensures Written(d, w) == "[" + (w + WrittenItems(d, 0, w))
    ensures |Written(d, w)| == 1 + |w| + |WrittenItems(d, 0, w)|
    ensures Denoted(d) == Array(DenotedItems(d, 0))
  {
    hide WrittenItems, DenotedItems;
    Regroup("[", w, WrittenItems(d, 0, w));
  }

  lemma ListIsRead(src: string, pos: nat, d: Doc, w: string)
    requires d.List? && Proper(d) && AllSpace(w) && Starts(src, pos, Written(d, w))
    ensures pos < |src| && !IsSpace(src[pos]) && src[pos] != ']'
    ensures ValueAt(src, pos) == if NumbersFit(d) then Ok(Denoted(d), pos + |Written(d, w)|) else Err
    decreases d, 0, |d.items| + 1
  {
    hide *;
    if d.items == [] {
      EmptyListText(d, w);
      OpenList(src, pos, w, "]");
    } else {
      ListText(d, w);
      ItemsAreText(d, 0, w);
      ItemsStep(d, 0);
      OpenList(src, pos, w, WrittenItems(d, 0, w));
      var q := pos + 1 + |w|;
      ItemsAreRead(src, q, d, 0, w, []);
      NotACloser(src, q, ']');
      assert [] + DenotedItems(d, 0) == DenotedItems(d, 0);
    }
  }

  lemma NotACloser(src: string, pos: nat, c: char)
    requires pos < |src| && src[pos] != c
    ensures !IsCharAt(src, pos, c)
  {}

  lemma IsThere(src: string, pos: nat, c: char)
    requires Starts(src, pos, [c])
    ensures IsCharAt(src, pos, c) && pos < |src| && src[pos] == c
  {
    StartsAt(src, pos, [c], 0);
  }

  /** What follows an opening bracket. */
  lemma OpenList(src: string, pos: nat, w: string, rest: string)
    requires AllSpace(w) && Starts(src, pos, "[" + (w + rest)) && rest != ""
    ensures var q := pos + 1 + |w|;
            && q < |src| && src[pos] == '[' && !IsSpace('[') && Starts(src, q, rest)
            && (rest == "]" ==> ValueAt(src, pos) == Ok(Array([]), q + 1))
            && (!IsSpace(src[q]) && !IsCharAt(src, q, ']') ==> ValueAt(src, pos) == Elements(src, q, []))
  {
    hide SkipSpace, Elements, ValueAt, Starts, ArrayAt, AllSpace;
    StartsParts(src, pos, "[", w + rest);
    IsThere(src, pos, '[');
    ArrayValue(src, pos);
    ArrayStart(src, pos);
    SpaceBefore(src, pos + 1, w, rest);
    if rest == "]" {
      IsThere(src, pos + 1 + |w|, ']');
    }
  }

  lemma OpenRecord(src: string, pos: nat, w: string, rest: string)
    requires AllSpace(w) && Starts(src, pos, "{" + (w + rest)) && rest != ""
    ensures var q := pos + 1 + |w|;
            && q < |src| && src[pos] == '{' && !IsSpace('{') && Starts(src, q, rest)
            && (rest == "}" ==> ValueAt(src, pos) == Ok(Object(map[]), q + 1))
            && (!IsSpace(src[q]) && !IsCharAt(src, q, '}') ==> ValueAt(src, pos) == Members(src, q, map[]))
  {
    hide SkipSpace, Members, ValueAt, Starts, ObjectAt, AllSpace;
    StartsParts(src, pos, "{", w + rest);
    IsThere(src, pos, '{');
    ObjectValue(src, pos);
    ObjectStart(src, pos);
    SpaceBefore(src, pos + 1, w, rest);
    if rest == "}" {
      IsThere(src, pos + 1 + |w|, '}');
    }
  }

  lemma EntriesStep(d: Doc, i: nat, obj: map<string, JsonValue>)
    requires d.Record? && i < |d.members|
    ensures EntriesFit(d, i) <==> NumbersFit(d.members[i].value) && EntriesFit(d, i + 1)
    ensures DenotedEntries(d, i, obj)
            == DenotedEntries(d, i + 1, obj[d.members[i].key := Denoted(d.members[i].value)])
    ensures EntriesFit(d, |d.members|) && DenotedEntries(d, |d.members|, obj) == obj
    ensures NumbersFit(d) <==> EntriesFit(d, 0)
  {
    hide Denoted;
  }

  lemma NoEntriesLeft(d: Doc, obj: map<string, JsonValue>)
    requires d.Record?
    ensures DenotedEntries(d, |d.members|, obj) == obj
  {}

  lemma QuotedIsText(s: string)
    ensures Quoted(s) != ""
  {}

  /** A key, a colon, and where its value begins. */
  lemma KeyIsRead(src: string, pos: nat, key: string, w: string, rest: string)
    requires AllSpace(w) && Starts(src, pos, Quoted(key) + (w + ([':'] + (w + rest)))) && rest != ""
    ensures var at := pos + |Quoted(key)| + 2 * |w| + 1;
            && pos < at < |src| && src[pos] == '"' && Starts(src, at, rest)
            && StringAt(src, SkipSpace(src, pos)) == Ok(key, pos + |Quoted(key)|)
            && IsCharAt(src, SkipSpace(src, pos + |Quoted(key)|), ':')
            && (!IsSpace(src[at]) ==> SkipSpace(src, SkipSpace(src, pos + |Quoted(key)|) + 1) == at)
  {
    hide SkipSpace, StringAt, ValueAt, Starts, Quoted;
    StartsParts(src, pos, Quoted(key), w + ([':'] + (w + rest)));
    QuotedIsRead(src, pos, key);
    SkipHere(src, pos);
    SpaceThen(src, pos + |Quoted(key)|, w, ':', w + rest);
    SpaceBefore(src, pos + |Quoted(key)| + |w| + 1, w, rest);
  }

  /** One member, and what follows it. */
  lemma EntryIsRead(src: string, pos: nat, d: Doc, i: nat, w: string, obj: map<string, JsonValue>, c: char,
      more: string)
    requires d.Record? && i < |d.members| && Proper(d) && AllSpace(w) && (c == ',' || c == '}')
    requires Starts(src, pos, Quoted(d.members[i].key)
               + (w + ([':'] + (w + (Written(d.members[i].value, w) + (w + ([c] + more)))))))
    ensures pos < |src| && src[pos] == '"'
    ensures var m := d.members[i]; var at := pos + |Quoted(m.key)| + |Written(m.value, w)| + 3 * |w| + 1;
            && at < |src| && Starts(src, at + 1, more)
            && (!NumbersFit(m.value) ==> Members(src, pos, obj) == Err)
            && (NumbersFit(m.value) && c == '}' ==>
                  Members(src, pos, obj) == Ok(Object(obj[m.key := Denoted(m.value)]), at + 1))
            && (NumbersFit(m.value) && c == ',' ==>
                  Members(src, pos, obj) == Members(src, at + 1, obj[m.key := Denoted(m.value)]))
    decreases d, 0, 0
  {
    hide *;
    var key, v := d.members[i].key, Written(d.members[i].value, w);
    ProperEntry(d, i);
    WrittenIsText(d.members[i].value, w);
    KeyIsRead(src, pos, key, w, v + (w + ([c] + more)));
    var at := pos + |Quoted(key)| + 2 * |w| + 1;
    StartsParts(src, at, v, w + ([c] + more));
    SpaceThen(src, at + |v|, w, c, more);
    ValueIsRead(src, at, d.members[i].value, w);
    MembersStep(src, pos, obj, StringAt(src, SkipSpace(src, pos)), ValueAt(src, at));
    AfterMemberIs(src, at + |v| + |w|, obj[key := Denoted(d.members[i].value)]);
    NotBoth(src, at + |v| + |w|);
  }

  lemma LastEntryText(d: Doc, i: nat, w: string)
    requires d.Record? && i + 1 == |d.members|
    ensures var m := d.members[i];
            && WrittenEntries(d, i, w)
               == Quoted(m.key) + (w + ([':'] + (w + (Written(m.value, w) + (w + (['}'] + ""))))))
            && |WrittenEntries(d, i, w)| == |Quoted(m.key)| + |Written(m.value, w)| + 3 * |w| + 2
  {
    hide Written, Quoted;
    assert "}" == ['}'] + "" && ":" == [':'];
  }

  lemma NextEntryText(d: Doc, i: nat, w: string)
    requires d.Record? && i + 1 < |d.members|
    ensures var m := d.members[i]; var rest := WrittenEntries(d, i + 1, w);
            && WrittenEntries(d, i, w)
               == Quoted(m.key) + (w + ([':'] + (w + (Written(m.value, w) + (w + ([','] + (w + rest)))))))
            && |WrittenEntries(d, i, w)| == |Quoted(m.key)| + |Written(m.value, w)| + 4 * |w| + 2 + |rest|
  {
    hide Written, Quoted;
    assert "," == [','] && ":" == [':'];
    Regroup(",", w, WrittenEntries(d, i + 1, w));
  }

  lemma EntriesAreText(d: Doc, i: nat, w: string)
    requires d.Record? && i < |d.members|
    ensures WrittenEntries(d, i, w) != ""
  {
    hide Written;
    QuotedIsText(d.members[i].key);
    hide Quoted;
  }

  lemma {:induction false} EntriesAreRead(src: string, pos: nat, d: Doc, i: nat, w: string,
      obj: map<string, JsonValue>)
    requires d.Record? && i < |d.members| && Proper(d) && AllSpace(w) && Starts(src, pos, WrittenEntries(d, i, w))
    ensures pos < |src| && src[pos] == '"'
    ensures Members(src, pos, obj) ==
              if EntriesFit(d, i) then Ok(Object(DenotedEntries(d, i, obj)), pos + |WrittenEntries(d, i, w)|) else Err
    decreases d, 0, |d.members| - i
  {
    hide *;
    EntriesStep(d, i, obj);
    var m := d.members[i];
    var obj' := obj[m.key := Denoted(m.value)];
    if i + 1 == |d.members| {
      LastEntryText(d, i, w);
      EntryIsRead(src, pos, d, i, w, obj, '}', "");
      NoEntriesLeft(d, obj');
    } else {
      NextEntryText(d, i, w);
      EntryIsRead(src, pos, d, i, w, obj, ',', w + WrittenEntries(d, i + 1, w));
      var at := pos + |Quoted(m.key)| + |Written(m.value, w)| + 3 * |w| + 2;
      EntriesAreText(d, i + 1, w);
      SpaceBefore(src, at, w, WrittenEntries(d, i + 1, w));
      EntriesAreRead(src, at + |w|, d, i + 1, w, obj');
      QuoteIsNotSpace();
      MembersSkip(src, at, at + |w|, obj');
    }
  }

  lemma WrittenIsText(d: Doc, w: string)
    requires Proper(d)
    ensures Written(d, w) != ""
  {
    hide Dec, Quoted, WrittenItems, WrittenEntries, PowerText;
    match d
    case Whole(_) =>
    case Words(s) => QuotedIsText(s);
    case Decimal(_, _, _, _, _) =>
    case _ =>
  }

  lemma EmptyRecordText(d: Doc, w: string)
    requires d.Record? && d.members == []
    ensures Written(d, w) == "{" + (w + "}") && |Written(d, w)| == |w| + 2
    ensures NumbersFit(d) && Denoted(d) == Object(map[])
  {}

  lemma RecordText(d: Doc, w: string)
    requires d.Record? && d.members != []
    ensures Written(d, w) == "{" + (w + WrittenEntries(d, 0, w))
    ensures |Written(d, w)| == 1 + |w| + |WrittenEntries(d, 0, w)|
    ensures Denoted(d) == Object(DenotedEntries(d, 0, map[]))
  {
    hide WrittenEntries, DenotedEntries;
    Regroup("{", w, WrittenEntries(d, 0, w));
  }

  lemma RecordIsRead(src: string, pos: nat, d: Doc, w: string)
    requires d.Record? && Proper(d) && AllSpace(w) && Starts(src, pos, Written(d, w))
    ensures pos < |src| && !IsSpace(src[pos]) && src[pos] != ']'
    ensures ValueAt(src, pos) == if NumbersFit(d) then Ok(Denoted(d), pos + |Written(d, w)|) else Err
    decreases d, 0, |d.members| + 1
  {
    hide *;
    if d.members == [] {
      EmptyRecordText(d, w);
      OpenRecord(src, pos, w, "}");
    } else {
      RecordText(d, w);
      EntriesAreText(d, 0, w);
      EntriesStep(d, 0, map[]);
      OpenRecord(src, pos, w, WrittenEntries(d, 0, w));
      var q := pos + 1 + |w|;
      EntriesAreRead(src, q, d, 0, w, map[]);
      NotACloser(src, q, '}');
      QuoteIsNotSpace();
    }
  }

  lemma QuoteIsNotSpace()
    ensures !IsSpace('"')
  {}

  /** A document is read wherever it stands, exactly if its whole numbers fit; otherwise the parser throws. */
  lemma {:induction false} ValueIsRead(src: string, pos: nat, d: Doc, w: string)
    requires Proper(d) && AllSpace(w) && Starts(src, pos, Written(d, w)) && Ends(src, pos + |Written(d, w)|)
    ensures pos < |src| && !IsSpace(src[pos]) && src[pos] != ']'
    ensures ValueAt(src, pos) == if NumbersFit(d) then Ok(Denoted(d), pos + |Written(d, w)|) else Err
    decreases d, 1, 0
  {
    hide ValueAt, NumberAt, Starts, Ends, WrittenItems, WrittenEntries, DenotedItems, DenotedEntries, Quoted, Dec,
         PowerText, SkipSpace;
    match d
    case Nothing => NullIsRead(src, pos);
    case Flag(b) =>
      if b {
        TrueIsRead(src, pos);
      } else {
        FalseIsRead(src, pos);
      }
    case Whole(i) =>
      WholeIsRead(src, pos, i);
      NumberIsValue(src, pos);
    case Decimal(_, _, _, _, _) =>
      DecimalIsRead(src, pos, d);
      NumberIsValue(src, pos);
    case Words(s) => QuotedIsRead(src, pos, s);
    case List(_) => ListIsRead(src, pos, d, w);
    case Record(_) => RecordIsRead(src, pos, d, w);
  }

  /** A whole text: white space, a document with white space between its tokens, and anything that does
      not continue a number. */
  lemma TextIsRead(d: Doc, lead: string, w: string, trail: string)
    requires Proper(d) && AllSpace(lead) && AllSpace(w)
    requires trail == "" || (!IsDigit(trail[0]) && trail[0] != '.' && trail[0] != 'e' && trail[0] != 'E')
    ensures ParseText(lead + (Written(d, w) + trail)) ==
              if NumbersFit(d) then Ok(Denoted(d), |lead| + |Written(d, w)|) else Err
  {
    hide ValueAt, Written, Denoted, NumbersFit, Proper, SkipSpace;
    var src := lead + (Written(d, w) + trail);
    WrittenIsText(d, w);
    assert src[0..|src|] == src;
    SpaceBefore(src, 0, lead, Written(d, w) + trail);
    StartsParts(src, |lead|, Written(d, w), trail);
    ValueIsRead(src, |lead|, d, w);
  }
}
