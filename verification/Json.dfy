/** The offline JSON reader: a recursive-descent parser over a text and a position. */
module Json {
  import opened Bytes
  import opened Text
  import opened Wrappers

  /** Numbers with a fraction or an exponent keep their text; their rounding is not modelled. */
  datatype JsonValue =
    | Null
    | Bool(b: bool)
    | Int(i: int)
    | Double(text: string)
    | String(s: string)
    | Array(arr: seq<JsonValue>)
    | Object(obj: map<string, JsonValue>)

  /** A parsed value and the position after it, or the exception. */
  datatype Parsed<+T> = Ok(value: T, next: nat) | Err

  predicate IsSpace(c: char)
  {
    c == ' ' || c == '\t' || c == '\n' || c == '\r'
  }

  function SkipSpace(src: string, pos: nat): (r: nat)
    requires pos <= |src|
    ensures pos <= r <= |src|
    decreases |src| - pos
  {
    if pos < |src| && IsSpace(src[pos]) then SkipSpace(src, pos + 1) else pos
  }

  function Unescape(e: char): char
  {
    if e == 'n' then '\n' else if e == 'r' then '\r' else if e == 't' then '\t' else e
  }

  // ---- What each parser function reads ----

  /** The rest of a string literal whose opening quote has been read. */
  function StringRest(src: string, pos: nat, out: string): (r: Parsed<string>)
    requires pos <= |src|
    ensures r.Ok? ==> pos < r.next <= |src|
    decreases |src| - pos
  {
    if pos == |src| then Err
    else if src[pos] == '"' then Ok(out, pos + 1)
    else if src[pos] == '\\' then
      if pos + 1 == |src| then Err else StringRest(src, pos + 2, out + [Unescape(src[pos + 1])])
    else StringRest(src, pos + 1, out + [src[pos]])
  }

  function StringAt(src: string, pos: nat): (r: Parsed<string>)
    requires pos <= |src|
    ensures r.Ok? ==> pos < r.next <= |src|
  {
    if pos < |src| && src[pos] == '"' then StringRest(src, pos + 1, []) else Err
  }

  function SkipDigits(src: string, pos: nat): (r: nat)
    requires pos <= |src|
    ensures pos <= r <= |src| && AllDigits(src[pos..r])
    ensures r < |src| ==> !IsDigit(src[r])
    decreases |src| - pos
  {
    if pos < |src| && IsDigit(src[pos]) then
      var r := SkipDigits(src, pos + 1);
      assert src[pos..r] == [src[pos]] + src[pos + 1..r];
      r
    else pos
  }

  predicate IsCharAt(src: string, pos: nat, c: char)
  {
    pos < |src| && src[pos] == c
  }

  /** `std::stoll` on an optional minus and digits: no digits or a value outside 64 bits throws. */
  function IntToken(negative: bool, digits: string, next: nat): (r: Parsed<JsonValue>)
    requires AllDigits(digits)
    ensures r.Ok? ==> r.next == next
  {
    var n: int := ValueOf(digits);
    var v := if negative then -n else n;
    var limit: int := TWO_63;
    if digits == [] || v < -limit || v >= limit then Err else Ok(Int(v), next)
  }

  function FractionEnd(src: string, p: nat): (r: nat)
    requires p <= |src|
    ensures p <= r <= |src|
  {
    SkipDigits(src, if IsCharAt(src, p, '.') then p + 1 else p)
  }

  predicate IsExponent(src: string, q: nat)
  {
    IsCharAt(src, q, 'e') || IsCharAt(src, q, 'E')
  }

  function ExponentEnd(src: string, q: nat): (r: nat)
    requires q <= |src|
    ensures q <= r <= |src|
  {
    if !IsExponent(src, q) then q
    else if IsCharAt(src, q + 1, '+') || IsCharAt(src, q + 1, '-') then SkipDigits(src, q + 2)
    else SkipDigits(src, q + 1)
  }

  lemma NoExponent(src: string, pos: nat)
    requires pos <= |src|
    ensures var p := SkipDigits(src, pos);
            && (!IsCharAt(src, p, '.') ==> FractionEnd(src, p) == p)
            && (!IsExponent(src, FractionEnd(src, p)) ==> ExponentEnd(src, FractionEnd(src, p)) == FractionEnd(src, p))
  {}

  /** `std::stod` needs a digit before or after the point. */
  function FloatToken(token: string, hasDigit: bool, next: nat): (r: Parsed<JsonValue>)
    ensures r.Ok? ==> r.next == next
  {
    if hasDigit then Ok(Double(token), next) else Err
  }

  function NumberAt(src: string, pos: nat): (r: Parsed<JsonValue>)
    requires pos <= |src|
    ensures r.Ok? ==> pos <= r.next <= |src|
    ensures r.Ok? && pos < |src| && (src[pos] == '-' || IsDigit(src[pos])) ==> pos < r.next
  {
    var start := if IsCharAt(src, pos, '-') then pos + 1 else pos;
    var p := SkipDigits(src, start);
    var q := FractionEnd(src, p);
    var end := ExponentEnd(src, q);
    if IsCharAt(src, p, '.') || IsExponent(src, q) then FloatToken(src[pos..end], p > start || q > p + 1, end)
    else IntToken(start > pos, src[start..p], p)
  }

  predicate Starts(src: string, pos: nat, word: string)
  {
    pos + |word| <= |src| && src[pos..pos + |word|] == word
  }

  function ValueAt(src: string, pos: nat): (r: Parsed<JsonValue>)
    requires pos <= |src|
    ensures r.Ok? ==> pos < r.next <= |src|
    decreases |src| - pos, 3
  {
    var p := SkipSpace(src, pos);
    if p == |src| then Err
    else if src[p] == '"' then
      match StringAt(src, p)
      case Ok(s, n) => Ok(String(s), n)
      case Err => Err
    else if src[p] == '{' then ObjectAt(src, p)
    else if src[p] == '[' then ArrayAt(src, p)
    else if src[p] == '-' || IsDigit(src[p]) then NumberAt(src, p)
    else if Starts(src, p, "true") then Ok(Bool(true), p + 4)
    else if Starts(src, p, "false") then Ok(Bool(false), p + 5)
    else if Starts(src, p, "null") then Ok(Null, p + 4)
    else Err
  }

  function ObjectAt(src: string, pos: nat): (r: Parsed<JsonValue>)
    requires pos < |src| && src[pos] == '{'
    ensures r.Ok? ==> pos < r.next <= |src|
    decreases |src| - pos, 2
  {
    var p := SkipSpace(src, pos + 1);
    if IsCharAt(src, p, '}') then Ok(Object(map[]), p + 1) else Members(src, p, map[])
  }

  /** The member loop: it also ends, without an error, where the text ends. */
  function Members(src: string, pos: nat, obj: map<string, JsonValue>): (r: Parsed<JsonValue>)
    requires pos <= |src|
    ensures r.Ok? ==> pos <= r.next <= |src|
    decreases |src| - pos, 4
  {
    if pos == |src| then Ok(Object(obj), pos)
    else
      match StringAt(src, SkipSpace(src, pos))
      case Err => Err
      case Ok(key, k) =>
        var colon := SkipSpace(src, k);
        if !IsCharAt(src, colon, ':') then Err
        else
          match ValueAt(src, SkipSpace(src, colon + 1))
          case Err => Err
          case Ok(v, n) =>
            var sep := SkipSpace(src, n);
            if IsCharAt(src, sep, ',') then Members(src, sep + 1, obj[key := v])
            else if IsCharAt(src, sep, '}') then Ok(Object(obj[key := v]), sep + 1)
            else Err
  }

  function ArrayAt(src: string, pos: nat): (r: Parsed<JsonValue>)
    requires pos < |src| && src[pos] == '['
    ensures r.Ok? ==> pos < r.next <= |src|
    decreases |src| - pos, 2
  {
    var p := SkipSpace(src, pos + 1);
    if IsCharAt(src, p, ']') then Ok(Array([]), p + 1) else Elements(src, p, [])
  }

  function Elements(src: string, pos: nat, arr: seq<JsonValue>): (r: Parsed<JsonValue>)
    requires pos <= |src|
    ensures r.Ok? ==> pos <= r.next <= |src|
    decreases |src| - pos, 4
  {
    if pos == |src| then Ok(Array(arr), pos)
    else
      match ValueAt(src, SkipSpace(src, pos))
      case Err => Err
      case Ok(v, n) =>
        var sep := SkipSpace(src, n);
        if IsCharAt(src, sep, ',') then Elements(src, sep + 1, arr + [v])
        else if IsCharAt(src, sep, ']') then Ok(Array(arr + [v]), sep + 1)
        else Err
  }

  /** `json_parse`: text after the value is ignored. */
  function ParseText(src: string): Parsed<JsonValue>
  {
    ValueAt(src, SkipSpace(src, 0))
  }

  // ---- One turn of each loop ----

  lemma ObjectStart(src: string, pos: nat)
    requires pos < |src| && src[pos] == '{'
    ensures ObjectAt(src, pos) ==
              var p := SkipSpace(src, pos + 1);
              if IsCharAt(src, p, '}') then Ok(Object(map[]), p + 1) else Members(src, p, map[])
  {}

  function AfterMember(src: string, pos: nat, obj: map<string, JsonValue>): (r: Parsed<JsonValue>)
    requires pos <= |src|
  {
    if IsCharAt(src, pos, ',') then Members(src, pos + 1, obj)
    else if IsCharAt(src, pos, '}') then Ok(Object(obj), pos + 1)
    else Err
  }

  /** A turn of the member loop that reads a key and a colon. */
  lemma MembersStep(src: string, pos: nat, obj: map<string, JsonValue>, key: Parsed<string>, v: Parsed<JsonValue>)
    requires pos < |src| && key == StringAt(src, SkipSpace(src, pos)) && key.Ok?
    requires IsCharAt(src, SkipSpace(src, key.next), ':')
    requires v == ValueAt(src, SkipSpace(src, SkipSpace(src, key.next) + 1))
    ensures v.Err? ==> Members(src, pos, obj) == Err
    ensures v.Ok? ==> Members(src, pos, obj) == AfterMember(src, SkipSpace(src, v.next), obj[key.value := v.value])
  {
    hide SkipSpace, StringAt, ValueAt;
  }

  datatype Member = Member(key: string, value: JsonValue)

  /** One key, colon and value. */
  function MemberAt(src: string, pos: nat): (r: Parsed<Member>)
    requires pos <= |src|
    ensures r.Ok? ==> pos < r.next <= |src|
  {
    match StringAt(src, SkipSpace(src, pos))
    case Err => Err
    case Ok(key, k) =>
      var colon := SkipSpace(src, k);
      if !IsCharAt(src, colon, ':') then Err
      else
        match ValueAt(src, SkipSpace(src, colon + 1))
        case Err => Err
        case Ok(v, n) => Ok(Member(key, v), n)
  }

  lemma MembersTurn(src: string, pos: nat, obj: map<string, JsonValue>)
    requires pos < |src|
    ensures Members(src, pos, obj) ==
              match MemberAt(src, pos)
              case Err => Err
              case Ok(m, n) => AfterMember(src, SkipSpace(src, n), obj[m.key := m.value])
  {
    hide SkipSpace, StringAt, ValueAt;
  }

  lemma AfterMemberIs(src: string, pos: nat, obj: map<string, JsonValue>)
    requires pos <= |src|
    ensures IsCharAt(src, pos, ',') ==> pos < |src| && AfterMember(src, pos, obj) == Members(src, pos + 1, obj)
    ensures !IsCharAt(src, pos, ',') && IsCharAt(src, pos, '}') ==>
            pos < |src| && AfterMember(src, pos, obj) == Ok(Object(obj), pos + 1)
    ensures !IsCharAt(src, pos, ',') && !IsCharAt(src, pos, '}') ==> AfterMember(src, pos, obj) == Err
  {}

  lemma MembersEnd(src: string, obj: map<string, JsonValue>)
    ensures Members(src, |src|, obj) == Ok(Object(obj), |src|)
  {}

  lemma ArrayStart(src: string, pos: nat)
    requires pos < |src| && src[pos] == '['
    ensures ArrayAt(src, pos) ==
              var p := SkipSpace(src, pos + 1);
              if IsCharAt(src, p, ']') then Ok(Array([]), p + 1) else Elements(src, p, [])
  {}

  function AfterElement(src: string, pos: nat, arr: seq<JsonValue>): (r: Parsed<JsonValue>)
    requires pos <= |src|
  {
    if IsCharAt(src, pos, ',') then Elements(src, pos + 1, arr)
    else if IsCharAt(src, pos, ']') then Ok(Array(arr), pos + 1)
    else Err
  }

  lemma ElementsStep(src: string, pos: nat, arr: seq<JsonValue>)
    requires pos < |src|
    ensures var v := ValueAt(src, SkipSpace(src, pos));
            if v.Err? then Elements(src, pos, arr) == Err
            else Elements(src, pos, arr) == AfterElement(src, SkipSpace(src, v.next), arr + [v.value])
  {
    hide SkipSpace, ValueAt;
  }

  lemma AfterElementIs(src: string, pos: nat, arr: seq<JsonValue>)
    requires pos <= |src|
    ensures IsCharAt(src, pos, ',') ==> pos < |src| && AfterElement(src, pos, arr) == Elements(src, pos + 1, arr)
    ensures !IsCharAt(src, pos, ',') && IsCharAt(src, pos, ']') ==>
            pos < |src| && AfterElement(src, pos, arr) == Ok(Array(arr), pos + 1)
    ensures !IsCharAt(src, pos, ',') && !IsCharAt(src, pos, ']') ==> AfterElement(src, pos, arr) == Err
  {}

  lemma ElementsEnd(src: string, arr: seq<JsonValue>)
    ensures Elements(src, |src|, arr) == Ok(Array(arr), |src|)
  {}

  // ---- The parser object ----

  ghost predicate Returns<T>(r: Option<T>, pos: nat, spec: Parsed<T>)
  {
    match spec
    case Ok(v, n) => r == Some(v) && pos == n
    case Err => r == None
  }

  /** An exception is returned as None; the parser is then not used again. */
  class Parser {
    const src: string
    var pos: nat

    constructor (src: string)
      ensures this.src == src && pos == 0
    {
      this.src, pos := src, 0;
    }

    method SkipWs()
      requires pos <= |src|
      modifies this
      ensures pos == SkipSpace(src, old(pos))
    {
      while pos < |src| && IsSpace(src[pos])
        invariant pos <= |src| && SkipSpace(src, pos) == SkipSpace(src, old(pos))
        decreases |src| - pos
      {
        pos := pos + 1;
      }
    }

    method ParseString() returns (r: Option<string>)
      requires pos <= |src|
      modifies this
      ensures pos <= |src| && Returns(r, pos, StringAt(src, old(pos)))
    {
      if pos == |src| || src[pos] != '"' {
        return None;
      }
      pos := pos + 1;
      var out := [];
      while pos < |src|
        invariant old(pos) < pos <= |src| && StringRest(src, pos, out) == StringRest(src, old(pos) + 1, [])
        decreases |src| - pos
      {
        var c := src[pos];
        pos := pos + 1;
        if c == '"' {
          return Some(out);
        }
        if c == '\\' {
          if pos == |src| {
            return None;
          }
          var e := src[pos];
          pos := pos + 1;
          out := out + [Unescape(e)];
        } else {
          out := out + [c];
        }
      }
      return None;
    }

    method SkipDigitRun()
      requires pos <= |src|
      modifies this
      ensures pos == SkipDigits(src, old(pos))
    {
      while pos < |src| && IsDigit(src[pos])
        invariant pos <= |src| && SkipDigits(src, pos) == SkipDigits(src, old(pos))
        decreases |src| - pos
      {
        pos := pos + 1;
      }
    }

    method SkipFraction() returns (isFloat: bool)
      requires pos <= |src|
      modifies this
      ensures pos == FractionEnd(src, old(pos)) && isFloat == IsCharAt(src, old(pos), '.')
    {
      isFloat := IsCharAt(src, pos, '.');
      if isFloat {
        pos := pos + 1;
      }
      SkipDigitRun();
    }

    method SkipExponent() returns (isFloat: bool)
      requires pos <= |src|
      modifies this
      ensures pos == ExponentEnd(src, old(pos)) && isFloat == IsExponent(src, old(pos))
    {
      isFloat := IsExponent(src, pos);
      if isFloat {
        pos := pos + 1;
        if IsCharAt(src, pos, '+') || IsCharAt(src, pos, '-') {
          pos := pos + 1;
        }
        SkipDigitRun();
      }
    }

    method ParseNumber() returns (r: Option<JsonValue>)
      requires pos <= |src|
      modifies this
      ensures pos <= |src| && Returns(r, pos, NumberAt(src, old(pos)))
    {
      hide IntToken, FloatToken, AllDigits, IsDigit, FractionEnd, ExponentEnd, IsExponent, SkipDigits;
      var start := pos;
      if IsCharAt(src, pos, '-') {
        pos := pos + 1;
      }
      var digits := pos;
      SkipDigitRun();
      var p := pos;
      var point := SkipFraction();
      var q := pos;
      var exponent := SkipExponent();
      NoExponent(src, digits);
      var token := if point || exponent then FloatToken(src[start..pos], p > digits || q > p + 1, pos)
                   else IntToken(digits > start, src[digits..p], p);
      r := if token.Ok? then Some(token.value) else None;
    }

    method ParseValue() returns (r: Option<JsonValue>)
      requires pos <= |src|
      modifies this
      ensures pos <= |src| && Returns(r, pos, ValueAt(src, old(pos)))
      decreases |src| - pos, 3
    {
      SkipWs();
      if pos == |src| {
        return None;
      }
      var c := src[pos];
      if c == '"' {
        var s := ParseString();
        return if s == None then None else Some(String(s.value));
      }
      if c == '{' {
        r := ParseObject();
      } else if c == '[' {
        r := ParseArray();
      } else if c == '-' || IsDigit(c) {
        r := ParseNumber();
      } else if Starts(src, pos, "true") {
        pos, r := pos + 4, Some(Bool(true));
      } else if Starts(src, pos, "false") {
        pos, r := pos + 5, Some(Bool(false));
      } else if Starts(src, pos, "null") {
        pos, r := pos + 4, Some(Null);
      } else {
        r := None;
      }
    }

    method ParseObject() returns (r: Option<JsonValue>)
      requires pos < |src| && src[pos] == '{'
      modifies this
      ensures pos <= |src| && Returns(r, pos, ObjectAt(src, old(pos)))
      decreases |src| - pos, 2
    {
      hide SkipSpace, MemberAt, ObjectAt, Members, AfterMember, IsSpace;
      ObjectStart(src, pos);
      pos := pos + 1;
      SkipWs();
      if IsCharAt(src, pos, '}') {
        pos := pos + 1;
        return Some(Object(map[]));
      }
      var obj: map<string, JsonValue> := map[];
      while pos < |src|
        invariant old(pos) < pos <= |src|
        invariant ObjectAt(src, old(pos)) == Members(src, pos, obj)
        decreases |src| - pos
      {
        MembersTurn(src, pos, obj);
        var m := ParseMember();
        if m == None {
          return None;
        }
        obj := obj[m.value.key := m.value.value];
        SkipWs();
        AfterMemberIs(src, pos, obj);
        if IsCharAt(src, pos, ',') {
          pos := pos + 1;
        } else if IsCharAt(src, pos, '}') {
          pos := pos + 1;
          return Some(Object(obj));
        } else {
          return None;
        }
      }
      MembersEnd(src, obj);
      r := Some(Object(obj));
    }

    /** The part of the member loop up to the value. */
    method ParseMember() returns (r: Option<Member>)
      requires pos <= |src|
      modifies this
      ensures pos <= |src| && Returns(r, pos, MemberAt(src, old(pos)))
      decreases |src| - pos, 4
    {
      hide SkipSpace, StringAt, ValueAt, IsSpace;
      SkipWs();
      var key := ParseString();
      if key == None {
        return None;
      }
      SkipWs();
      if !IsCharAt(src, pos, ':') {
        return None;
      }
      pos := pos + 1;
      SkipWs();
      var v := ParseValue();
      r := if v == None then None else Some(Member(key.value, v.value));
    }

    method ParseArray() returns (r: Option<JsonValue>)
      requires pos < |src| && src[pos] == '['
      modifies this
      ensures pos <= |src| && Returns(r, pos, ArrayAt(src, old(pos)))
      decreases |src| - pos, 2
    {
      hide SkipSpace, ValueAt, ArrayAt, Elements, AfterElement, IsSpace;
      ArrayStart(src, pos);
      pos := pos + 1;
      SkipWs();
      if IsCharAt(src, pos, ']') {
        pos := pos + 1;
        return Some(Array([]));
      }
      var arr: seq<JsonValue> := [];
      while pos < |src|
        invariant old(pos) < pos <= |src|
        invariant ArrayAt(src, old(pos)) == Elements(src, pos, arr)
        decreases |src| - pos
      {
        ElementsStep(src, pos, arr);
        SkipWs();
        var v := ParseValue();
        if v == None {
          return None;
        }
        arr := arr + [v.value];
        SkipWs();
        AfterElementIs(src, pos, arr);
        if IsCharAt(src, pos, ',') {
          pos := pos + 1;
        } else if IsCharAt(src, pos, ']') {
          pos := pos + 1;
          return Some(Array(arr));
        } else {
          return None;
        }
      }
      ElementsEnd(src, arr);
      r := Some(Array(arr));
    }
  }

  method JsonParse(text: string) returns (r: Option<JsonValue>)
    ensures match ParseText(text)
            case Ok(v, _) => r == Some(v)
            case Err => r == None
  {
    var p := new Parser(text);
    p.SkipWs();
    r := p.ParseValue();
  }
}
