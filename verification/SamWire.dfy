/** The wire format in literal characters, and what the decoder answers to a header
    (libexio/exio/sam.h, libexio/sam.cc, libexio/SamBuffer.cc). */
module SamWire {
  import opened Framing
  import opened SamText
  import opened SamTree
  import opened SamCodec

  /** The two lists of special characters in the source agree. */
  lemma SpecialCharacters(c: char)
    ensures IsSpecial(c) <==> c in "{}\n[],=:\\"
  {
    var all := "{}\n[],=:\\";
    assert all[0] == '{' && all[1] == '}' && all[2] == '\n' && all[3] == '[' && all[4] == ']';
    assert all[5] == ',' && all[6] == '=' && all[7] == ':' && all[8] == '\\';
  }

  /** A value is written character by character, a backslash before each special one. */
  lemma {:induction false} EscapedText(v: string, i: nat)
    requires i < |v|
    ensures Escape(v) == Escape(v[..i]) + (if v[i] in "{}\n[],=:\\" then "\\" + [v[i]] else [v[i]]) + Escape(v[i + 1..])
  {
    SpecialCharacters(v[i]);
    assert v == v[..i] + ([v[i]] + v[i + 1..]);
    EscapeConcat(v[..i], [v[i]] + v[i + 1..]);
    assert ([v[i]] + v[i + 1..])[1..] == v[i + 1..];
    ConcatAssociates(Escape(v[..i]), EscapeChar(v[i]), Escape(v[i + 1..]));
  }

  /** Each item is a name, an equals sign, a value or bracketed items, and a comma; items follow one
      another in order. */
  lemma {:induction false} ItemsText(items: seq<Item>, i: nat)
    requires i < |items|
    ensures EncodeItems(items) == EncodeItems(items[..i]) + ItemText(items[i]) + EncodeItems(items[i + 1..])
  {
    var rest := [items[i]] + items[i + 1..];
    assert items == items[..i] + rest;
    EncodeItemsConcat(items[..i], rest);
    assert rest[1..] == items[i + 1..];
    ItemTextIs(items[i]);
    ConcatAssociates(EncodeItems(items[..i]), ItemText(items[i]), EncodeItems(items[i + 1..]));
  }

  function ItemText(it: Item): string {
    match it
    case Field(n, v) => n + "=" + Escape(v) + ","
    case Node(n, kids) => n + "=[" + EncodeItems(kids) + "],"
  }

  lemma ItemTextIs(it: Item)
    ensures EncodeItem(it) == ItemText(it)
  {
    match it
    case Field(n, v) =>
    case Node(n, kids) =>
      var k := EncodeItems(kids);
      assert EncodeValue(it) == Brackets(kids);
      NodeText(n, k);
  }

  lemma NodeText(n: string, k: string)
    ensures n + "=" + ("[" + k + "]") + "," == n + "=[" + k + "],"
  {
  }

  /** A whole message, in literal characters: the tag is SAM0100 up to 99999 bytes, and the number
      is the length of the message itself. */
  lemma MessageText(m: Message)
    ensures var e := Encode(m);
      e == (if |e| <= 99999 then "{SAM0100:" else "{SAM0101:") + Dec(|e|) + ":" + m.mtype + ":[" + EncodeItems(m.items) + "]}\n"
  {
    HeaderLength(m);
    var L := |Encode(m)|;
    Assembled(Tag(L), Dec(L), m.mtype, EncodeItems(m.items));
    assert Tag(L) == if L <= 99999 then "SAM0100" else "SAM0101";
    assert "{" + "SAM0100" + ":" == "{SAM0100:" && "{" + "SAM0101" + ":" == "{SAM0101:";
  }

  lemma Assembled(tag: string, digits: string, mtype: string, items: string)
    ensures ("{" + tag + ":" + digits) + (":" + mtype + ":" + ("[" + items + "]") + "}" + "\n")
         == "{" + tag + ":" + digits + ":" + mtype + ":[" + items + "]}\n"
  {
    var l := ("{" + tag + ":" + digits) + (":" + mtype + ":" + ("[" + items + "]") + "}" + "\n");
    var r := "{" + tag + ":" + digits + ":" + mtype + ":[" + items + "]}\n";
    assert |l| == |r|;
    assert forall i :: 0 <= i < |l| ==> l[i] == r[i];
  }

  /** Where the characters of a message stand. */
  lemma MessageEnds(m: Message)
    ensures var e := Encode(m);
      && |e| >= 16 && e[0] == '{' && e[8] == ':'
      && e[|e| - 3] == ']' && e[|e| - 2] == '}' && e[|e| - 1] == '\n'
  {
    MessageText(m);
    var e := Encode(m);
    var h := if |e| <= 99999 then "{SAM0100:" else "{SAM0101:";
    var body := Dec(|e|) + ":" + m.mtype + ":[" + EncodeItems(m.items);
    assert e == h + body + "]}\n" by { ConcatAll(h, Dec(|e|), m.mtype, EncodeItems(m.items)); }
    assert h[0] == '{' && h[8] == ':' && |h| == 9;
  }

  lemma ConcatAll(h: string, d: string, t: string, items: string)
    ensures h + d + ":" + t + ":[" + items + "]}\n" == h + (d + ":" + t + ":[" + items) + "]}\n"
  {
  }

  /** What the decoder makes of a header: a wrong opening, a wrong separator or a length over the
      limit is refused; a good one asks for more until the message is complete, and is then
      answered. */
  lemma HeaderDecides(buf: string, L: nat)
    requires |buf| >= 9
    ensures buf[0] != '{' || buf[8] != ':' ==> Decode(buf).Bad?
    ensures var p := 9 + |Dec(L)|;
      buf[0] == '{' && buf[8] == ':' && At(buf, 9, Dec(L)) && p < |buf| && !IsDigit(buf[p]) ==>
        if L > 2147483647 || buf[p] != ':' then Decode(buf).Bad?
        else if |buf| < L then Decode(buf) == NeedMore
        else if buf[1..8] == "SAM0100" || buf[1..8] == "SAM0101" then !Decode(buf).NeedMore?
        else L > 0 ==> Decode(buf) == Got(L, Message("", []))
  {
    var p := 9 + |Dec(L)|;
    if buf[0] == '{' && buf[8] == ':' && At(buf, 9, Dec(L)) && p < |buf| && !IsDigit(buf[p]) {
      ScanDec(buf, 9, L);
    }
  }
}
