// The compact JSON text inside a cursor, for all values but fractions: written
// the way json.dumps writes them (ASCII only, no spaces) and read back.

module Decimal {
  import opened Options

  predicate IsDigit(c: char) {
    '0' <= c <= '9'
  }

  function DigitChar(n: nat): char
    requires n < 10
  {
    '0' + n as char
  }

  function DigitValue(c: char): nat
    requires IsDigit(c)
  {
    c as int - '0' as int
  }

  function Value(s: string): int
    requires forall c :: c in s ==> IsDigit(c)
  {
    if s == "" then 0 else Value(s[..|s| - 1]) * 10 + DigitValue(s[|s| - 1])
  }

  // A number of at most `width` digits, padded with zeros on the left.
  function Fixed(n: nat, width: nat): (s: string)
    ensures |s| == width
    ensures forall c :: c in s ==> IsDigit(c)
  {
    if width == 0 then "" else Fixed(n / 10, width - 1) + [DigitChar(n % 10)]
  }

  function Bound(width: nat): nat {
    if width == 0 then 1 else 10 * Bound(width - 1)
  }

  lemma {:induction false} FixedRoundTrip(n: nat, width: nat)
    requires n < Bound(width)
    ensures Value(Fixed(n, width)) == n
  {
    if width == 0 {
    } else {
      var s := Fixed(n, width);
      FixedRoundTrip(n / 10, width - 1);
      assert s[..|s| - 1] == Fixed(n / 10, width - 1);
    }
  }

  // Shortest decimal form.
  function Natural(n: nat): (s: string)
    ensures s != "" && forall c :: c in s ==> IsDigit(c)
  {
    if n < 10 then [DigitChar(n)] else Natural(n / 10) + [DigitChar(n % 10)]
  }

  lemma {:induction false} NaturalRoundTrip(n: nat)
    ensures Value(Natural(n)) == n
  {
    var s := Natural(n);
    if n >= 10 {
      NaturalRoundTrip(n / 10);
      assert s[..|s| - 1] == Natural(n / 10);
    } else {
      assert s[..0] == "";
      assert Value("") == 0;
    }
  }

  lemma {:induction false} NoLeadingZero(n: nat)
    requires n > 0
    ensures Natural(n)[0] != '0'
  {
    if n >= 10 {
      NoLeadingZero(n / 10);
    }
  }

  // The digits of a number at the front: nothing follows a leading zero.
  function NumberLength(s: string): (k: nat)
    ensures k <= |s|
  {
    if s != "" && s[0] == '0' then 1 else LeadingDigits(s)
  }

  // The longest run of digits at the front.
  function LeadingDigits(s: string): (k: nat)
    ensures k <= |s|
    ensures forall c :: c in s[..k] ==> IsDigit(c)
  {
    if s != "" && IsDigit(s[0]) then
      var k := 1 + LeadingDigits(s[1..]);
      assert s[..k] == [s[0]] + s[1..][..k - 1];
      k
    else 0
  }

  lemma {:induction false} LeadingDigitsOf(digits: string, rest: string)
    requires forall c :: c in digits ==> IsDigit(c)
    requires rest == "" || !IsDigit(rest[0])
    ensures LeadingDigits(digits + rest) == |digits|
  {
    if digits == "" {
      assert digits + rest == rest;
    } else {
      assert (digits + rest)[1..] == digits[1..] + rest;
      LeadingDigitsOf(digits[1..], rest);
    }
  }
}

module Json {
  import opened Options
  import Decimal

  datatype Json =
    | Null | Bool(flag: bool) | Str(text: string) | Num(number: int)
    | Arr(items: Items) | Obj(members: Members)
  datatype Items = Stop | Item(value: Json, rest: Items)
  datatype Members = End | More(key: string, value: Json, rest: Members)

  // ---- writing

  function HexChar(n: nat): char
    requires n < 16
  {
    if n < 10 then '0' + n as char else 'a' + (n - 10) as char
  }

  function Hex(n: nat, width: nat): (s: string)
    ensures |s| == width
  {
    if width == 0 then "" else Hex(n / 16, width - 1) + [HexChar(n % 16)]
  }

  function EscapeChar(c: char): (s: string)
    ensures s != "" && s[0] != '"'
  {
    if c == '"' then "\\\""
    else if c == '\\' then "\\\\"
    else if c == '\n' then "\\n"
    else if c == '\r' then "\\r"
    else if c == '\t' then "\\t"
    else if c == '\U{0008}' then "\\b"
    else if c == '\U{000C}' then "\\f"
    else if ' ' <= c <= '~' then [c]
    else if c as int < 0x10000 then "\\u" + Hex(c as int, 4)
    else
      var n := c as int - 0x10000;
      "\\u" + Hex(0xD800 + n / 1024, 4) + "\\u" + Hex(0xDC00 + n % 1024, 4)
  }

  // Each writer puts its text in front of `rest`.

  function WriteString(s: string, rest: string): string {
    if s == "" then ['"'] + rest else EscapeChar(s[0]) + WriteString(s[1..], rest)
  }

  function WriteInt(n: int, rest: string): string {
    if n < 0 then ['-'] + (Decimal.Natural(-n) + rest) else Decimal.Natural(n) + rest
  }

  function Write(j: Json, rest: string): string {
    match j
    case Null => "null" + rest
    case Bool(flag) => (if flag then "true" else "false") + rest
    case Str(text) => ['"'] + WriteString(text, rest)
    case Num(number) => WriteInt(number, rest)
    case Arr(items) => ['['] + WriteItems(items, rest)
    case Obj(members) => ['{'] + WriteMembers(members, rest)
  }

  // The items and the closing bracket.
  function WriteItems(items: Items, rest: string): string {
    match items
    case Stop => [']'] + rest
    case Item(value, more) => Write(value, if more.Stop? then [']'] + rest else [','] + WriteItems(more, rest))
  }

  // The members and the closing brace.
  function WriteMembers(ms: Members, rest: string): string {
    match ms
    case End => ['}'] + rest
    case More(key, value, more) =>
      ['"'] + WriteString(key, [':'] + Write(value,
        if more.End? then ['}'] + rest else [','] + WriteMembers(more, rest)))
  }

  function Dump(j: Json): string {
    Write(j, "")
  }

  // Zero has no sign.
  lemma NumberTexts()
    ensures Dump(Num(0)) == "0" && Dump(Num(7)) == "7" && Dump(Num(-12)) == "-12"
  {
    assert Decimal.Natural(12) == Decimal.Natural(1) + ['2'];
  }

  // ---- reading

  predicate IsHex(c: char) {
    '0' <= c <= '9' || 'a' <= c <= 'f' || 'A' <= c <= 'F'
  }

  function HexDigitValue(c: char): (v: nat)
    requires IsHex(c)
    ensures v < 16
  {
    if '0' <= c <= '9' then c as int - '0' as int
    else if 'a' <= c <= 'f' then c as int - 'a' as int + 10
    else c as int - 'A' as int + 10
  }

  function HexBound(width: nat): nat {
    if width == 0 then 1 else 16 * HexBound(width - 1)
  }

  function HexValue(s: string): (v: nat)
    requires forall c :: c in s ==> IsHex(c)
    ensures v < HexBound(|s|)
  {
    if s == "" then 0 else HexValue(s[..|s| - 1]) * 16 + HexDigitValue(s[|s| - 1])
  }

  // The value of four hexadecimal digits at the front, or -1.
  function ReadHex4(s: string): (v: int)
    ensures -1 <= v < 0x10000 && (v >= 0 ==> |s| >= 4)
  {
    if |s| < 4 || exists c :: c in s[..4] && !IsHex(c) then -1
    else
      assert HexBound(4) == 0x10000;
      HexValue(s[..4])
  }

  datatype Parsed<+T> = Fail | Got(value: T, rest: string)

  function ReadEscape(s: string): (r: Parsed<char>)
    requires |s| >= 2
    ensures r.Got? ==> |r.rest| < |s|
  {
    var c := s[1];
    if c == '"' || c == '\\' || c == '/' then Got(c, s[2..])
    else if c == 'n' then Got('\n', s[2..])
    else if c == 'r' then Got('\r', s[2..])
    else if c == 't' then Got('\t', s[2..])
    else if c == 'b' then Got('\U{0008}', s[2..])
    else if c == 'f' then Got('\U{000C}', s[2..])
    else if c == 'u' then
      var code := ReadHex4(s[2..]);
      if code < 0 then Fail
      else if code < 0xD800 || code >= 0xE000 then Got(code as char, s[6..])
      else if code < 0xDC00 && |s| >= 12 && s[6] == '\\' && s[7] == 'u' && 0xDC00 <= ReadHex4(s[8..]) < 0xE000 then
        Got((0x10000 + (code - 0xD800) * 1024 + (ReadHex4(s[8..]) - 0xDC00)) as char, s[12..])
      else Fail
    else Fail
  }

  function ReadChar(s: string): (r: Parsed<char>)
    ensures r.Got? ==> |r.rest| < |s|
  {
    if s == "" || s[0] < ' ' then Fail
    else if s[0] != '\\' then Got(s[0], s[1..])
    else if |s| < 2 then Fail
    else ReadEscape(s)
  }

  // A string after its opening quote.
  function ReadString(s: string): (r: Parsed<string>)
    ensures r.Got? ==> |r.rest| < |s|
    decreases |s|
  {
    if s == "" then Fail
    else if s[0] == '"' then Got("", s[1..])
    else
      match ReadChar(s)
      case Fail => Fail
      case Got(c, rest) =>
        match ReadString(rest)
        case Fail => Fail
        case Got(text, rest') => Got([c] + text, rest')
  }

  function ReadInt(s: string): (r: Parsed<int>)
    ensures r.Got? ==> |r.rest| < |s|
  {
    if s != "" && s[0] == '-' then
      var k := Decimal.NumberLength(s[1..]);
      if k == 0 then Fail else Got(-Decimal.Value(s[1..][..k]), s[1..][k..])
    else
      var k := Decimal.NumberLength(s);
      if k == 0 then Fail else Got(Decimal.Value(s[..k]), s[k..])
  }

  function ReadWord(s: string): (r: Parsed<Json>)
    ensures r.Got? ==> |r.rest| < |s|
  {
    if |s| >= 4 && s[..4] == "null" then Got(Null, s[4..])
    else if |s| >= 4 && s[..4] == "true" then Got(Bool(true), s[4..])
    else if |s| >= 5 && s[..5] == "false" then Got(Bool(false), s[5..])
    else Fail
  }

  function Read(s: string): (r: Parsed<Json>)
    ensures r.Got? ==> |r.rest| < |s|
    decreases |s|, 0
  {
    if s == "" then Fail
    else if s[0] == '"' then
      match ReadString(s[1..])
      case Fail => Fail
      case Got(text, rest) => Got(Str(text), rest)
    else if s[0] == '{' then
      match ReadMembers(s[1..])
      case Fail => Fail
      case Got(ms, rest) => Got(Obj(ms), rest)
    else if s[0] == '[' then
      match ReadItems(s[1..])
      case Fail => Fail
      case Got(items, rest) => Got(Arr(items), rest)
    else if s[0] in "ntf" then ReadWord(s)
    else
      match ReadInt(s)
      case Fail => Fail
      case Got(n, rest) => Got(Num(n), rest)
  }

  // The items of an array up to and including its closing bracket.
  function ReadItems(s: string): (r: Parsed<Items>)
    ensures r.Got? ==> |r.rest| < |s|
    decreases |s|, 1
  {
    if s == "" then Fail
    else if s[0] == ']' then Got(Stop, s[1..])
    else
      match Read(s)
      case Fail => Fail
      case Got(value, s2) =>
        if s2 == "" then Fail
        else if s2[0] == ']' then Got(Item(value, Stop), s2[1..])
        else if s2[0] != ',' || |s2| < 2 || s2[1] == ']' then Fail
        else
          match ReadItems(s2[1..])
          case Fail => Fail
          case Got(rest, s3) => Got(Item(value, rest), s3)
  }

  // The members of an object up to and including its closing brace.
  function ReadMembers(s: string): (r: Parsed<Members>)
    ensures r.Got? ==> |r.rest| < |s|
    decreases |s|, 1
  {
    if s == "" then Fail
    else if s[0] == '}' then Got(End, s[1..])
    else if s[0] != '"' then Fail
    else
      match ReadString(s[1..])
      case Fail => Fail
      case Got(key, s1) =>
        if s1 == "" || s1[0] != ':' then Fail
        else
          match Read(s1[1..])
          case Fail => Fail
          case Got(value, s2) =>
            if s2 == "" then Fail
            else if s2[0] == '}' then Got(More(key, value, End), s2[1..])
            else if s2[0] != ',' || |s2| < 2 || s2[1] != '"' then Fail
            else
              match ReadMembers(s2[1..])
              case Fail => Fail
              case Got(rest, s3) => Got(More(key, value, rest), s3)
  }

  // The whole text must be one value.
  function Load(s: string): Option<Json> {
    match Read(s)
    case Fail => None
    case Got(j, rest) => if rest == "" then Some(j) else None
  }

  // The member with the given key; of several, the last one counts.
  function Lookup(ms: Members, key: string): Option<Json> {
    match ms
    case End => None
    case More(k, v, rest) =>
      var later := Lookup(rest, key);
      if later.Some? then later else if k == key then Some(v) else None
  }

  // ---- reading back what was written

  lemma {:induction false} HexRoundTrip(n: nat, width: nat)
    requires n < HexBound(width)
    ensures forall c :: c in Hex(n, width) ==> IsHex(c)
    ensures HexValue(Hex(n, width)) == n
  {
    if width == 0 {
    } else {
      var s := Hex(n, width);
      HexRoundTrip(n / 16, width - 1);
      assert s[..|s| - 1] == Hex(n / 16, width - 1);
    }
  }

  lemma ReadHex4Of(n: nat, rest: string)
    requires n < 0x10000
    ensures ReadHex4(Hex(n, 4) + rest) == n
  {
    assert HexBound(4) == 0x10000;
    HexRoundTrip(n, 4);
    assert (Hex(n, 4) + rest)[..4] == Hex(n, 4);
  }

  lemma ReadUnit(n: nat, rest: string)
    requires n < 0xD800 || 0xE000 <= n < 0x10000
    ensures ReadEscape("\\u" + Hex(n, 4) + rest) == Got(n as char, rest)
  {
    var s := "\\u" + Hex(n, 4) + rest;
    ReadHex4Of(n, rest);
    assert s[2..] == Hex(n, 4) + rest;
    assert s[6..] == rest;
  }

  lemma ReadSurrogates(hi: nat, lo: nat, rest: string)
    requires 0xD800 <= hi < 0xDC00 <= lo < 0xE000
    ensures ReadEscape("\\u" + Hex(hi, 4) + "\\u" + Hex(lo, 4) + rest) ==
            Got((0x10000 + (hi - 0xD800) * 1024 + (lo - 0xDC00)) as char, rest)
  {
    var after := "\\u" + Hex(lo, 4) + rest;
    var s := "\\u" + Hex(hi, 4) + after;
    assert s == "\\u" + Hex(hi, 4) + "\\u" + Hex(lo, 4) + rest;
    EscapeParts(Hex(hi, 4), after);
    EscapeParts(Hex(lo, 4), rest);
    ReadHex4Of(hi, after);
    ReadHex4Of(lo, rest);
    assert s[8..] == s[6..][2..] && s[12..] == s[6..][6..];
  }

  lemma EscapeParts(hex: string, rest: string)
    requires |hex| == 4
    ensures var s := "\\u" + hex + rest; s[2..] == hex + rest && s[6..] == rest
  {
  }

  lemma ReadCharOf(c: char, rest: string)
    ensures ReadChar(EscapeChar(c) + rest) == Got(c, rest)
  {
    var s := EscapeChar(c) + rest;
    if c in "\"\\\n\r\t\U{0008}\U{000C}" {
      assert s[2..] == rest;
    } else if ' ' <= c <= '~' {
      assert s[1..] == rest;
    } else if c as int < 0x10000 {
      ReadUnit(c as int, rest);
      assert s == "\\u" + Hex(c as int, 4) + rest;
    } else {
      var n := c as int - 0x10000;
      ReadSurrogates(0xD800 + n / 1024, 0xDC00 + n % 1024, rest);
      assert s == "\\u" + Hex(0xD800 + n / 1024, 4) + "\\u" + Hex(0xDC00 + n % 1024, 4) + rest;
    }
  }

  lemma {:induction false} ReadStringOf(text: string, rest: string)
    ensures ReadString(WriteString(text, rest)) == Got(text, rest)
  {
    if text == "" {
    } else {
      ReadCharOf(text[0], WriteString(text[1..], rest));
      ReadStringOf(text[1..], rest);
      assert [text[0]] + text[1..] == text;
    }
  }

  predicate NoDigitFirst(rest: string) {
    rest == "" || !Decimal.IsDigit(rest[0])
  }

  lemma ReadNatural(n: nat, rest: string)
    requires NoDigitFirst(rest)
    ensures var s := Decimal.Natural(n) + rest;
            var k := Decimal.NumberLength(s);
            k > 0 && Decimal.Value(s[..k]) == n && s[k..] == rest && Decimal.IsDigit(s[0])
  {
    var digits := Decimal.Natural(n);
    Decimal.LeadingDigitsOf(digits, rest);
    Decimal.NaturalRoundTrip(n);
    if n > 0 {
      Decimal.NoLeadingZero(n);
    }
    assert (digits + rest)[..|digits|] == digits;
    assert digits[0] in digits;
  }

  lemma ReadIntOf(n: int, rest: string)
    requires NoDigitFirst(rest)
    ensures ReadInt(WriteInt(n, rest)) == Got(n, rest)
    ensures WriteInt(n, rest) != "" && (WriteInt(n, rest)[0] == '-' || Decimal.IsDigit(WriteInt(n, rest)[0]))
  {
    if n < 0 {
      ReadNatural(-n, rest);
      assert WriteInt(n, rest)[1..] == Decimal.Natural(-n) + rest;
    } else {
      ReadNatural(n, rest);
    }
  }

  // One member of an object, then a closing brace or the remaining members.
  lemma ReadMembersStep(s: string, key: string, s1: string, value: Json, s2: string)
    requires s != "" && s[0] == '"' && ReadString(s[1..]) == Got(key, s1)
    requires s1 != "" && s1[0] == ':' && Read(s1[1..]) == Got(value, s2)
    requires s2 != ""
    ensures s2[0] == '}' ==> ReadMembers(s) == Got(More(key, value, End), s2[1..])
    ensures s2[0] == ',' && |s2| >= 2 && s2[1] == '"' && ReadMembers(s2[1..]).Got? ==>
              var more := ReadMembers(s2[1..]);
              ReadMembers(s) == Got(More(key, value, more.value), more.rest)
  {
  }

  lemma ReadWordOf(word: string, value: Json, rest: string)
    requires (word, value) in {("null", Null), ("true", Bool(true)), ("false", Bool(false))}
    ensures Read(word + rest) == Got(value, rest)
  {
    assert (word + rest)[..|word|] == word && (word + rest)[|word|..] == rest;
    assert (word + rest)[0] == word[0];
    if word == "false" {
      assert (word + rest)[..4] != "null" && (word + rest)[..4] != "true" by { assert (word + rest)[..4][0] == 'f'; }
    } else if word == "true" {
      assert (word + rest)[..4] != "null" by { assert word[0] == 't'; }
    }
  }

  // No value begins with a closing bracket.
  lemma WriteHead(j: Json, rest: string)
    ensures Write(j, rest) != "" && Write(j, rest)[0] != ']'
  {
    if j.Num? {
      ReadIntHead(j.number, rest);
    }
  }

  lemma ReadIntHead(n: int, rest: string)
    ensures WriteInt(n, rest) != "" && WriteInt(n, rest)[0] != ']'
  {
    var digits := Decimal.Natural(if n < 0 then -n else n);
    Decimal.NaturalRoundTrip(if n < 0 then -n else n);
    assert digits[0] in digits;
  }

  lemma ReadItemsStep(s: string, value: Json, s2: string)
    requires s != "" && s[0] != ']' && Read(s) == Got(value, s2) && s2 != ""
    ensures s2[0] == ']' ==> ReadItems(s) == Got(Item(value, Stop), s2[1..])
    ensures s2[0] == ',' && |s2| >= 2 && s2[1] != ']' && ReadItems(s2[1..]).Got? ==>
              var more := ReadItems(s2[1..]);
              ReadItems(s) == Got(Item(value, more.value), more.rest)
  {
  }

  lemma ReadEnclosed(text: string)
    ensures ReadString(text).Got? ==>
              Read(['"'] + text) == Got(Str(ReadString(text).value), ReadString(text).rest)
    ensures ReadItems(text).Got? ==>
              Read(['['] + text) == Got(Arr(ReadItems(text).value), ReadItems(text).rest)
    ensures ReadMembers(text).Got? ==>
              Read(['{'] + text) == Got(Obj(ReadMembers(text).value), ReadMembers(text).rest)
  {
    assert (['"'] + text)[1..] == (['['] + text)[1..] == (['{'] + text)[1..] == text;
  }

  lemma {:induction false} ReadOf(j: Json, rest: string)
    requires NoDigitFirst(rest)
    ensures Read(Write(j, rest)) == Got(j, rest)
    decreases j, 0
  {
    match j {
      case Null => ReadWordOf("null", j, rest);
      case Bool(flag) => ReadWordOf(if flag then "true" else "false", j, rest);
      case Str(text) =>
        ReadStringOf(text, rest);
        ReadEnclosed(WriteString(text, rest));
      case Num(number) =>
        ReadIntOf(number, rest);
      case Arr(items) =>
        ReadItemsOf(items, rest);
        ReadEnclosed(WriteItems(items, rest));
      case Obj(members) =>
        ReadMembersOf(members, rest);
        ReadEnclosed(WriteMembers(members, rest));
    }
  }

  lemma {:induction false} ReadItemsOf(items: Items, rest: string)
    ensures ReadItems(WriteItems(items, rest)) == Got(items, rest)
    ensures items.Item? ==> WriteItems(items, rest) != "" && WriteItems(items, rest)[0] != ']'
    decreases items, 1
  {
    match items {
      case Stop =>
        assert WriteItems(items, rest)[1..] == rest;
      case Item(value, more) =>
        var s2 := if more.Stop? then [']'] + rest else [','] + WriteItems(more, rest);
        ReadOf(value, s2);
        WriteHead(value, s2);
        ReadItemsOf(more, rest);
        assert s2[1..] == if more.Stop? then rest else WriteItems(more, rest);
        ReadItemsStep(WriteItems(items, rest), value, s2);
    }
  }

  lemma {:induction false} ReadMembersOf(ms: Members, rest: string)
    ensures ReadMembers(WriteMembers(ms, rest)) == Got(ms, rest)
    decreases ms, 1
  {
    match ms {
      case End =>
        assert WriteMembers(ms, rest)[1..] == rest;
      case More(key, value, more) =>
        var s2 := if more.End? then ['}'] + rest else [','] + WriteMembers(more, rest);
        var s1 := [':'] + Write(value, s2);
        ReadStringOf(key, s1);
        ReadOf(value, s2);
        ReadMembersOf(more, rest);
        assert WriteMembers(ms, rest)[1..] == WriteString(key, s1);
        assert s1[1..] == Write(value, s2);
        assert s2[1..] == if more.End? then rest else WriteMembers(more, rest);
        ReadMembersStep(WriteMembers(ms, rest), key, s1, value, s2);
    }
  }

  // Loading inverts dumping.
  lemma RoundTrip(j: Json)
    ensures Load(Dump(j)) == Some(j)
  {
    ReadOf(j, "");
  }

  // ---- the written text is ASCII

  predicate Ascii(s: string) {
    forall i :: 0 <= i < |s| ==> s[i] as int < 128
  }

  lemma {:induction false} HexIsAscii(n: nat, width: nat)
    ensures Ascii(Hex(n, width))
  {
    if width == 0 {
    } else {
      HexIsAscii(n / 16, width - 1);
    }
  }

  lemma EscapeIsAscii(c: char)
    ensures Ascii(EscapeChar(c))
  {
    if c as int < 0x10000 {
      HexIsAscii(c as int, 4);
    } else {
      var n := c as int - 0x10000;
      HexIsAscii(0xD800 + n / 1024, 4);
      HexIsAscii(0xDC00 + n % 1024, 4);
    }
  }

  lemma {:induction false} StringIsAscii(s: string, rest: string)
    requires Ascii(rest)
    ensures Ascii(WriteString(s, rest))
  {
    if s == "" {
    } else {
      EscapeIsAscii(s[0]);
      StringIsAscii(s[1..], rest);
    }
  }

  lemma {:induction false} WriteIsAscii(j: Json, rest: string)
    requires Ascii(rest)
    ensures Ascii(Write(j, rest))
    decreases j, 0
  {
    match j {
      case Null =>
      case Bool(_) =>
      case Arr(items) => ItemsAreAscii(items, rest);
      case Str(text) => StringIsAscii(text, rest);
      case Num(number) =>
        var digits := Decimal.Natural(if number < 0 then -number else number);
        assert forall i :: 0 <= i < |digits| ==> digits[i] in digits;
        assert Ascii(digits + rest);
      case Obj(members) => MembersAreAscii(members, rest);
    }
  }

  lemma {:induction false} ItemsAreAscii(items: Items, rest: string)
    requires Ascii(rest)
    ensures Ascii(WriteItems(items, rest))
    decreases items, 1
  {
    match items {
      case Stop =>
      case Item(value, more) =>
        ItemsAreAscii(more, rest);
        WriteIsAscii(value, if more.Stop? then [']'] + rest else [','] + WriteItems(more, rest));
    }
  }

  lemma {:induction false} MembersAreAscii(ms: Members, rest: string)
    requires Ascii(rest)
    ensures Ascii(WriteMembers(ms, rest))
    decreases ms, 1
  {
    match ms {
      case End =>
      case More(key, value, more) =>
        MembersAreAscii(more, rest);
        var s2 := if more.End? then ['}'] + rest else [','] + WriteMembers(more, rest);
        WriteIsAscii(value, s2);
        StringIsAscii(key, [':'] + Write(value, s2));
    }
  }
}
