// The base64url coding behind pagination cursors and unpadded OAuth tokens
// (section 5 of RFC 4648), with the decoder as lenient as the library one:
// characters outside the alphabet are skipped, '+' and '/' are still accepted,
// and input after a complete padding sequence is ignored.

module Base64Url {
  import opened Options

  type Byte = b: int | 0 <= b < 256
  type Digit = d: int | 0 <= d < 64

  function CharOf(d: Digit): char {
    if d < 26 then 'A' + d as char
    else if d < 52 then 'a' + (d - 26) as char
    else if d < 62 then '0' + (d - 52) as char
    else if d == 62 then '-'
    else '_'
  }

  function DigitOf(c: char): Option<Digit> {
    if 'A' <= c <= 'Z' then Some(c as int - 'A' as int)
    else if 'a' <= c <= 'z' then Some(c as int - 'a' as int + 26)
    else if '0' <= c <= '9' then Some(c as int - '0' as int + 52)
    else if c == '-' || c == '+' then Some(62)
    else if c == '_' || c == '/' then Some(63)
    else None
  }

  lemma DigitRoundTrip(d: Digit)
    ensures DigitOf(CharOf(d)) == Some(d)
    ensures CharOf(d) != '=' && CharOf(d) as int < 128
  {
  }

  // Three bytes become four digits; a last group of one or two bytes becomes
  // two or three digits and is padded.
  function Group3(a: Byte, b: Byte, c: Byte): (s: string)
    ensures |s| == 4
  {
    [CharOf(a / 4), CharOf(a % 4 * 16 + b / 16), CharOf(b % 16 * 4 + c / 64), CharOf(c % 64)]
  }

  function Group2(a: Byte, b: Byte): (s: string)
    ensures |s| == 3
  {
    [CharOf(a / 4), CharOf(a % 4 * 16 + b / 16), CharOf(b % 16 * 4)]
  }

  function Group1(a: Byte): (s: string)
    ensures |s| == 2
  {
    [CharOf(a / 4), CharOf(a % 4 * 16)]
  }

  function Encode(bytes: seq<Byte>): string {
    if bytes == [] then ""
    else if |bytes| == 1 then Group1(bytes[0]) + "=="
    else if |bytes| == 2 then Group2(bytes[0], bytes[1]) + "="
    else Group3(bytes[0], bytes[1], bytes[2]) + Encode(bytes[3..])
  }

  function Cons(b: int, rest: Option<seq<Byte>>): Option<seq<Byte>> {
    if rest.Some? && 0 <= b < 256 then Some([b as Byte] + rest.value) else None
  }

  // The decoder reads digits in groups of four: `quad` is the position in the
  // group, `left` the bits kept from the previous digit, `pads` the padding
  // characters seen since the last digit.
  function Scan(s: string, quad: nat, left: nat, pads: nat): Option<seq<Byte>> {
    if s == "" then
      if quad == 0 then Some([]) else None
    else if s[0] == '=' then
      if quad >= 2 && quad + pads + 1 >= 4 then Some([])
      else Scan(s[1..], quad, left, if quad >= 2 then pads + 1 else pads)
    else
      match DigitOf(s[0])
      case None => Scan(s[1..], quad, left, pads)
      case Some(d) =>
        if quad == 0 then Scan(s[1..], 1, d, 0)
        else if quad == 1 then Cons(left * 4 + d / 16, Scan(s[1..], 2, d % 16, 0))
        else if quad == 2 then Cons(left * 16 + d / 4, Scan(s[1..], 3, d % 4, 0))
        else Cons(left * 64 + d, Scan(s[1..], 0, 0, 0))
  }

  function Decode(s: string): Option<seq<Byte>> {
    Scan(s, 0, 0, 0)
  }

  // Reading one digit.
  lemma ScanDigit(d: Digit, rest: string, quad: nat, left: nat, pads: nat)
    ensures Scan([CharOf(d)] + rest, quad, left, pads) ==
            if quad == 0 then Scan(rest, 1, d, 0)
            else if quad == 1 then Cons(left * 4 + d / 16, Scan(rest, 2, d % 16, 0))
            else if quad == 2 then Cons(left * 16 + d / 4, Scan(rest, 3, d % 4, 0))
            else Cons(left * 64 + d, Scan(rest, 0, 0, 0))
  {
    DigitRoundTrip(d);
    assert ([CharOf(d)] + rest)[1..] == rest;
  }

  lemma ScanGroup3(a: Byte, b: Byte, c: Byte, rest: string)
    ensures Scan(Group3(a, b, c) + rest, 0, 0, 0) == Cons(a, Cons(b, Cons(c, Scan(rest, 0, 0, 0))))
  {
    var d1, d2, d3 := a % 4 * 16 + b / 16, b % 16 * 4 + c / 64, c % 64;
    var s3 := [CharOf(d3)] + rest;
    var s2 := [CharOf(d2)] + s3;
    var s1 := [CharOf(d1)] + s2;
    assert Group3(a, b, c) + rest == [CharOf(a / 4)] + s1;
    ScanDigit(a / 4, s1, 0, 0, 0);
    ScanDigit(d1, s2, 1, a / 4, 0);
    ScanDigit(d2, s3, 2, d1 % 16, 0);
    ScanDigit(d3, rest, 3, d2 % 4, 0);
    assert a / 4 * 4 + d1 / 16 == a;
    assert d1 % 16 * 16 + d2 / 4 == b;
    assert d2 % 4 * 64 + d3 == c;
  }

  lemma ScanGroup2(a: Byte, b: Byte)
    ensures Scan(Group2(a, b) + "=", 0, 0, 0) == Some([a, b])
  {
    var d1, d2 := a % 4 * 16 + b / 16, b % 16 * 4;
    var s2 := [CharOf(d2)] + "=";
    var s1 := [CharOf(d1)] + s2;
    assert Group2(a, b) + "=" == [CharOf(a / 4)] + s1;
    ScanDigit(a / 4, s1, 0, 0, 0);
    ScanDigit(d1, s2, 1, a / 4, 0);
    ScanDigit(d2, "=", 2, d1 % 16, 0);
    assert a / 4 * 4 + d1 / 16 == a;
    assert d1 % 16 * 16 + d2 / 4 == b;
    assert [a] + ([b] + []) == [a, b];
  }

  lemma ScanGroup1(a: Byte)
    ensures Scan(Group1(a) + "==", 0, 0, 0) == Some([a])
  {
    var d1 := a % 4 * 16;
    var s1 := [CharOf(d1)] + "==";
    assert Group1(a) + "==" == [CharOf(a / 4)] + s1;
    ScanDigit(a / 4, s1, 0, 0, 0);
    ScanDigit(d1, "==", 1, a / 4, 0);
    assert "=="[1..] == "=";
    assert Scan("=", 2, d1 % 16, 1) == Some([]);
    assert Scan("==", 2, d1 % 16, 0) == Some([]);
    assert a / 4 * 4 + d1 / 16 == a;
    assert [a] + [] == [a];
  }

  // Decoding inverts encoding, for every byte string.
  lemma {:induction false} RoundTrip(bytes: seq<Byte>)
    ensures Decode(Encode(bytes)) == Some(bytes)
  {
    if bytes == [] {
    } else if |bytes| == 1 {
      ScanGroup1(bytes[0]);
      assert bytes == [bytes[0]];
    } else if |bytes| == 2 {
      ScanGroup2(bytes[0], bytes[1]);
      assert bytes == [bytes[0], bytes[1]];
    } else {
      RoundTrip(bytes[3..]);
      ScanGroup3(bytes[0], bytes[1], bytes[2], Encode(bytes[3..]));
      assert bytes == [bytes[0]] + ([bytes[1]] + ([bytes[2]] + bytes[3..]));
    }
  }

  // The first test vectors of section 10 of RFC 4648: "f", "fo", "foo", "foob";
  // and a group that needs both characters of the URL-safe alphabet.
  lemma TestVectors()
    ensures Encode([102]) == "Zg==" && Encode([102, 111]) == "Zm8=" && Encode([102, 111, 111]) == "Zm9v"
    ensures Encode([102, 111, 111, 98]) == "Zm9vYg=="
    ensures Encode([251, 255, 254]) == "-__-"
  {
    assert [102, 111, 111][3..] == [] && [251, 255, 254][3..] == [];
    assert [102, 111, 111, 98][3..] == [98];
  }

  lemma {:induction false} EncodedIsAscii(bytes: seq<Byte>)
    ensures forall i :: 0 <= i < |Encode(bytes)| ==> Encode(bytes)[i] as int < 128
  {
    if |bytes| >= 3 {
      EncodedIsAscii(bytes[3..]);
    }
  }

  // ---- stripping and restoring the padding

  // str.rstrip("=")
  function StripPads(s: string): string {
    if s != "" && s[|s| - 1] == '=' then StripPads(s[..|s| - 1]) else s
  }

  function Pads(n: nat): string {
    if n == 0 then "" else Pads(n - 1) + "="
  }

  // -n % 4
  function Missing(n: nat): nat {
    if n % 4 == 0 then 0 else 4 - n % 4
  }

  // payload + "=" * (-len(payload) % 4)
  function RestorePads(s: string): string {
    s + Pads(Missing(|s|))
  }

  predicate Unpadded(s: string) {
    forall c :: c in s ==> c != '='
  }

  lemma {:induction false} StripAppended(body: string, n: nat)
    requires Unpadded(body)
    ensures StripPads(body + Pads(n)) == body
  {
    var s := body + Pads(n);
    if n > 0 {
      assert s[..|s| - 1] == body + Pads(n - 1);
      StripAppended(body, n - 1);
    } else {
      assert s == body;
      assert body != "" ==> body[|body| - 1] in body;
    }
  }

  // Every encoding is an unpadded body of some length that is not one more
  // than a multiple of four, and the padding that its length asks for.
  function Body(bytes: seq<Byte>): string {
    if bytes == [] then ""
    else if |bytes| == 1 then Group1(bytes[0])
    else if |bytes| == 2 then Group2(bytes[0], bytes[1])
    else Group3(bytes[0], bytes[1], bytes[2]) + Body(bytes[3..])
  }

  lemma {:induction false} BodyUnpadded(bytes: seq<Byte>)
    ensures Unpadded(Body(bytes))
  {
    if |bytes| >= 3 {
      BodyUnpadded(bytes[3..]);
    }
  }

  predicate Shaped(text: string, body: string) {
    && |body| % 4 != 1
    && text == body + Pads(Missing(|body|))
  }

  lemma ShapedAfterGroup(head: string, text: string, body: string)
    requires |head| == 4 && Shaped(text, body)
    ensures Shaped(head + text, head + body)
  {
    assert (4 + |body|) % 4 == |body| % 4;
  }

  lemma {:induction false} EncodedShape(bytes: seq<Byte>)
    ensures Shaped(Encode(bytes), Body(bytes))
  {
    if bytes == [] {
    } else if |bytes| == 1 {
      assert Pads(2) == "==";
    } else if |bytes| == 2 {
      assert Pads(1) == "=";
    } else {
      EncodedShape(bytes[3..]);
      ShapedAfterGroup(Group3(bytes[0], bytes[1], bytes[2]), Encode(bytes[3..]), Body(bytes[3..]));
    }
  }

  // Stripping the padding and restoring it by length gives back the same text,
  // so an unpadded token decodes to the original bytes (Appendix C of RFC 7515).
  lemma UnpaddedRoundTrip(bytes: seq<Byte>)
    ensures Unpadded(StripPads(Encode(bytes)))
    ensures RestorePads(StripPads(Encode(bytes))) == Encode(bytes)
    ensures Decode(RestorePads(StripPads(Encode(bytes)))) == Some(bytes)
  {
    BodyUnpadded(bytes);
    EncodedShape(bytes);
    StripAppended(Body(bytes), Missing(|Body(bytes)|));
    RoundTrip(bytes);
  }

  // ---- what is refused

  lemma {:induction false} PadsFirst(n: nat)
    requires n > 0
    ensures Pads(n) == "=" + Pads(n - 1)
  {
    if n > 1 {
      PadsFirst(n - 1);
    }
  }

  lemma {:induction false} ScanPads(n: nat, quad: nat, left: nat, pads: nat)
    requires quad < 4 && (quad >= 2 ==> quad + pads < 4)
    ensures Scan(Pads(n), quad, left, pads).Some? <==> quad == 0 || (quad >= 2 && quad + pads + n >= 4)
  {
    if n > 0 {
      PadsFirst(n);
      assert Pads(n)[1..] == Pads(n - 1);
      if !(quad >= 2 && quad + pads + 1 >= 4) {
        ScanPads(n - 1, quad, left, if quad >= 2 then pads + 1 else pads);
      }
    }
  }

  predicate Pending(quad: nat, left: nat) {
    quad < 4 && (quad == 1 ==> left < 64) && (quad == 2 ==> left < 16) && (quad == 3 ==> left < 4)
  }

  // After a digit the decoder is one place further, and has kept what is left of it.
  lemma ScanOneDigit(s: string, quad: nat, left: nat, pads: nat) returns (left': nat)
    requires s != "" && DigitOf(s[0]).Some? && Pending(quad, left)
    ensures Pending((quad + 1) % 4, left')
    ensures Scan(s, quad, left, pads).Some? <==> Scan(s[1..], (quad + 1) % 4, left', 0).Some?
  {
    var d := DigitOf(s[0]).value;
    left' := if quad == 0 then d else if quad == 1 then d % 16 else if quad == 2 then d % 4 else 0;
  }

  predicate Reads(s: string, quad: nat, left: nat, pads: nat) {
    Scan(s, quad, left, pads).Some?
  }

  predicate Whole(digits: nat, pads: nat) {
    digits % 4 == 0 || (digits % 4 >= 2 && digits % 4 + pads >= 4)
  }

  lemma OneMoreDigit(quad: nat, more: nat, pads: nat)
    ensures Whole((quad + 1) % 4 + more, pads) <==> Whole(quad + (more + 1), pads)
  {
  }

  lemma ReadsPads(n: nat, quad: nat, left: nat)
    requires quad < 4
    ensures Reads(Pads(n), quad, left, 0) <==> Whole(quad, n)
  {
    ScanPads(n, quad, left, 0);
  }

  lemma ReadsDigit(s: string, n: nat, quad: nat, left: nat, pads: nat) returns (left': nat)
    requires s != "" && DigitOf(s[0]).Some? && Pending(quad, left)
    ensures Pending((quad + 1) % 4, left')
    ensures Reads(s + Pads(n), quad, left, pads) <==> Reads(s[1..] + Pads(n), (quad + 1) % 4, left', 0)
  {
    assert (s + Pads(n))[1..] == s[1..] + Pads(n);
    left' := ScanOneDigit(s + Pads(n), quad, left, pads);
  }

  lemma {:induction false} ReadsPadded(s: string, n: nat, quad: nat, left: nat, pads: nat)
    requires (forall c :: c in s ==> DigitOf(c).Some?) && Pending(quad, left) && (s == "" ==> pads == 0)
    ensures Reads(s + Pads(n), quad, left, pads) <==> Whole(quad + |s|, n)
  {
    if s == "" {
      assert s + Pads(n) == Pads(n);
      ReadsPads(n, quad, left);
    } else {
      assert s[0] in s;
      var left' := ReadsDigit(s, n, quad, left, pads);
      ReadsPadded(s[1..], n, (quad + 1) % 4, left', 0);
      OneMoreDigit(quad, |s[1..]|, n);
    }
  }

  // A text of digits and padding decodes if and only if the digits are whole
  // groups of four, or the last group has two or three and is padded to four.
  lemma DigitsDecodeExactly(s: string, n: nat)
    requires forall c :: c in s ==> DigitOf(c).Some?
    ensures Decode(s + Pads(n)).Some? <==> |s| % 4 == 0 || (|s| % 4 >= 2 && |s| % 4 + n >= 4)
  {
    ReadsPadded(s, n, 0, 0, 0);
  }
}
