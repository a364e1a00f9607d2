// Opaque pagination cursors: a sort value and an id, written as compact JSON,
// then as base64url (services/api-gateway/app/pagination.py).

module CursorCodec {
  import opened Options
  import opened Timestamps
  import Decimal
  import Json
  import Base64Url

  datatype SortValue = At(instant: Instant) | Raw(value: Json.Json)

  datatype Cursor = Cursor(sort: SortValue, id: Json.Json)

  datatype Decoded = Invalid | Valid(cursor: Cursor)

  function Bytes(s: string): seq<Base64Url.Byte>
    requires Json.Ascii(s)
  {
    if s == "" then [] else [s[0] as int] + Bytes(s[1..])
  }

  // UTF-8 decoding of ASCII bytes; None when a byte is not ASCII.
  function Text(bytes: seq<Base64Url.Byte>): Option<string> {
    if bytes == [] then Some("")
    else if bytes[0] >= 128 then None
    else
      var rest := Text(bytes[1..]);
      if rest.None? then None else Some([bytes[0] as char] + rest.value)
  }

  lemma {:induction false} TextOfBytes(s: string)
    requires Json.Ascii(s)
    ensures Text(Bytes(s)) == Some(s)
  {
    if s == "" {
    } else {
      TextOfBytes(s[1..]);
      assert [s[0]] + s[1..] == s;
    }
  }

  function Document(sort: SortValue, id: string): Json.Json {
    var repr := match sort
      case At(instant) => Json.More("t", Json.Str("dt"), Json.More("v", Json.Str(IsoFormat(instant)), Json.End))
      case Raw(value) => Json.More("t", Json.Str("raw"), Json.More("v", value, Json.End));
    Json.Obj(Json.More("s", Json.Obj(repr), Json.More("i", Json.Str(id), Json.End)))
  }

  function Encode(sort: SortValue, id: string): string {
    Json.WriteIsAscii(Document(sort, id), "");
    Base64Url.Encode(Bytes(Json.Dump(Document(sort, id))))
  }

  // The checks after the JSON text is loaded: every missing key and every
  // value of the wrong kind makes the cursor invalid.
  function FromDocument(data: Json.Json): Decoded {
    if !data.Obj? then Invalid else
    var s := Json.Lookup(data.members, "s");
    if s.None? || !s.value.Obj? then Invalid else
    var t, v := Json.Lookup(s.value.members, "t"), Json.Lookup(s.value.members, "v");
    var i := Json.Lookup(data.members, "i");
    if t.None? || v.None? || i.None? then Invalid
    else if t.value != Json.Str("dt") then Valid(Cursor(Raw(v.value), i.value))
    else if !v.value.Str? then Invalid
    else
      match FromIso(v.value.text)
      case None => Invalid
      case Some(instant) => Valid(Cursor(At(instant), i.value))
  }

  function Decode(cursor: string): Decoded {
    if !Json.Ascii(cursor) then Invalid else
    var bytes := Base64Url.Decode(cursor);
    if bytes.None? then Invalid else
    var text := Text(bytes.value);
    if text.None? then Invalid else
    var data := Json.Load(text.value);
    if data.None? then Invalid else FromDocument(data.value)
  }

  lemma DocumentRoundTrip(sort: SortValue, id: string)
    ensures FromDocument(Document(sort, id)) == Valid(Cursor(sort, Json.Str(id)))
  {
    if sort.At? {
      IsoRoundTrip(sort.instant);
    }
    var outer := Document(sort, id).members;
    assert Json.Lookup(outer.rest, "s") == Json.Lookup(outer.rest.rest, "s") == None;
    assert Json.Lookup(outer, "s") == Some(outer.value);
    assert Json.Lookup(outer.rest, "i") == Some(Json.Str(id));
    var inner := outer.value.members;
    assert Json.Lookup(inner.rest, "t") == Json.Lookup(inner.rest.rest, "t") == None;
    assert Json.Lookup(inner, "t") == Some(inner.value);
    assert Json.Lookup(inner.rest, "v") == Some(inner.rest.value);
  }

  // A cursor decodes to the sort value and id it was made from.
  lemma RoundTrip(sort: SortValue, id: string)
    ensures Decode(Encode(sort, id)) == Valid(Cursor(sort, Json.Str(id)))
  {
    var document := Document(sort, id);
    Json.WriteIsAscii(document, "");
    var bytes := Bytes(Json.Dump(document));
    Base64Url.RoundTrip(bytes);
    Base64Url.EncodedIsAscii(bytes);
    TextOfBytes(Json.Dump(document));
    Json.RoundTrip(document);
    DocumentRoundTrip(sort, id);
  }

  // So different positions never share a cursor, and no cursor is empty.
  lemma Injective(sort: SortValue, id: string, sort': SortValue, id': string)
    requires Encode(sort, id) == Encode(sort', id')
    ensures sort == sort' && id == id'
  {
    RoundTrip(sort, id);
    RoundTrip(sort', id');
  }

  // The text inside a cursor, for an id without characters to escape (as the
  // generated ids are).
  predicate Unescaped(s: string) {
    forall i :: 0 <= i < |s| ==> ' ' <= s[i] <= '~' && s[i] != '"' && s[i] != '\\'
  }

  lemma {:induction false} WriteUnescaped(s: string, rest: string)
    requires Unescaped(s)
    ensures Json.WriteString(s, rest) == s + "\"" + rest
  {
    if s == "" {
      assert "" + "\"" + rest == ['"'] + rest;
    } else {
      WriteUnescaped(s[1..], rest);
      assert [s[0]] + (s[1..] + "\"" + rest) == s + "\"" + rest;
    }
  }

  lemma DigitsUnescaped(n: nat, width: nat)
    ensures Unescaped(Decimal.Fixed(n, width))
  {
    var s := Decimal.Fixed(n, width);
    assert forall i :: 0 <= i < |s| ==> s[i] in s;
  }

  lemma LocalIsUnescaped(t: Instant)
    ensures Unescaped(LocalFormat(t))
  {
    DigitsUnescaped(t.year, 4);
    DigitsUnescaped(t.month, 2);
    DigitsUnescaped(t.day, 2);
    DigitsUnescaped(t.hour, 2);
    DigitsUnescaped(t.minute, 2);
    DigitsUnescaped(t.second, 2);
    DigitsUnescaped(t.micro, 6);
  }

  lemma OffsetIsUnescaped(minutes: int)
    ensures Unescaped(OffsetFormat(minutes))
  {
    var size := if minutes < 0 then -minutes else minutes;
    DigitsUnescaped(size / 60, 2);
    DigitsUnescaped(size % 60, 2);
  }

  lemma JoinUnescaped(a: string, b: string)
    requires Unescaped(a) && Unescaped(b)
    ensures Unescaped(a + b)
  {
  }

  lemma IsoIsUnescaped(t: Instant)
    ensures Unescaped(IsoFormat(t))
  {
    LocalIsUnescaped(t);
    match t.offset {
      case None => JoinUnescaped(LocalFormat(t), "");
      case Some(minutes) =>
        OffsetIsUnescaped(minutes);
        JoinUnescaped(LocalFormat(t), OffsetFormat(minutes));
    }
  }

  // "key":"text"
  function Pair(key: string, text: string): string {
    "\"" + key + "\":\"" + text + "\""
  }

  lemma WritePair(key: string, text: string, after: string)
    requires Unescaped(key) && Unescaped(text)
    ensures Json.WriteString(key, [':'] + (['"'] + Json.WriteString(text, after))) == Pair(key, text)[1..] + after
  {
    WriteUnescaped(text, after);
    WriteUnescaped(key, [':'] + (['"'] + Json.WriteString(text, after)));
  }

  lemma LastStringMember(key: string, text: string, rest: string)
    requires Unescaped(key) && Unescaped(text)
    ensures Json.WriteMembers(Json.More(key, Json.Str(text), Json.End), rest) == Pair(key, text) + ("}" + rest)
  {
    WritePair(key, text, ['}'] + rest);
  }

  lemma StringMember(key: string, text: string, more: Json.Members, rest: string)
    requires Unescaped(key) && Unescaped(text) && more.More?
    ensures Json.WriteMembers(Json.More(key, Json.Str(text), more), rest) ==
            Pair(key, text) + ("," + Json.WriteMembers(more, rest))
  {
    WritePair(key, text, [','] + Json.WriteMembers(more, rest));
  }

  // "key":{
  function Opening(key: string): string {
    "\"" + key + "\":{"
  }

  lemma ObjectMember(key: string, members: Json.Members, more: Json.Members, rest: string)
    requires Unescaped(key) && more.More?
    ensures Json.WriteMembers(Json.More(key, Json.Obj(members), more), rest) ==
            Opening(key) + Json.WriteMembers(members, "," + Json.WriteMembers(more, rest))
  {
    var after := [','] + Json.WriteMembers(more, rest);
    WriteUnescaped(key, [':'] + (['{'] + Json.WriteMembers(members, after)));
  }

  lemma KeysUnescaped()
    ensures Unescaped("s") && Unescaped("t") && Unescaped("dt") && Unescaped("v") && Unescaped("i")
  {
  }

  lemma CursorText(iso: string, id: string)
    requires Unescaped(iso) && Unescaped(id)
    ensures var position := Json.More("t", Json.Str("dt"), Json.More("v", Json.Str(iso), Json.End));
            Json.WriteMembers(Json.More("s", Json.Obj(position), Json.More("i", Json.Str(id), Json.End)), "") ==
            Opening("s") + (Pair("t", "dt") + ("," + (Pair("v", iso) + ("}" + ("," + (Pair("i", id) + "}"))))))
  {
    KeysUnescaped();
    assert "}" + "" == "}";
    var last := Json.More("i", Json.Str(id), Json.End);
    var value := Json.More("v", Json.Str(iso), Json.End);
    var position := Json.More("t", Json.Str("dt"), value);
    LastStringMember("i", id, "");
    var after := "," + Json.WriteMembers(last, "");
    ObjectMember("s", position, last, "");
    StringMember("t", "dt", value, after);
    LastStringMember("v", iso, after);
  }

  lemma WireText(t: Instant, id: string)
    requires Unescaped(id)
    ensures Json.Dump(Document(At(t), id)) ==
            "{" + (Opening("s") + (Pair("t", "dt") +
              ("," + (Pair("v", IsoFormat(t)) + ("}" + ("," + (Pair("i", id) + "}")))))))
  {
    IsoIsUnescaped(t);
    CursorText(IsoFormat(t), id);
  }

  // A cursor cut off inside a group of four digits is refused.
  lemma TruncatedIsInvalid(text: string)
    requires |text| % 4 != 0 && forall c :: c in text ==> Base64Url.DigitOf(c).Some?
    ensures Decode(text) == Invalid
  {
    Base64Url.DigitsDecodeExactly(text, 0);
    assert text + Base64Url.Pads(0) == text;
  }

  // What a cursor must hold: an object with an id and a typed sort value, and a
  // text that is a timestamp where the type says so.
  lemma ValidDocuments(data: Json.Json)
    ensures FromDocument(data).Valid? <==>
              && data.Obj? && Json.Lookup(data.members, "i").Some?
              && match Json.Lookup(data.members, "s")
                 case None => false
                 case Some(s) =>
                   && s.Obj? && Json.Lookup(s.members, "t").Some? && Json.Lookup(s.members, "v").Some?
                   && (Json.Lookup(s.members, "t") == Some(Json.Str("dt")) ==>
                         && Json.Lookup(s.members, "v").value.Str?
                         && FromIso(Json.Lookup(s.members, "v").value.text).Some?)
  {
  }

  lemma EmptyIsInvalid()
    ensures Decode("") == Invalid
  {
    assert Base64Url.Decode("") == Some([]);
    assert Json.Load("") == None;
  }

  lemma NeverEmpty(sort: SortValue, id: string)
    ensures Encode(sort, id) != ""
  {
    RoundTrip(sort, id);
    EmptyIsInvalid();
  }
}
