/** The growing encode buffer and the encoder that writes into it
    (libexio/SamBuffer.cc, the encode half of libexio/sam.cc). */
module SamBuffer {
  import Framing
  import opened SamText
  import opened SamTree
  import opened SamCodec

  /** Bytes kept free in front of the body for the header. */
  const RESERVE := 100

  /** Range of an unsigned int. */
  const UINT_RANGE := 0x1_0000_0000

  /** `count_digits`, whose argument is an unsigned int: a larger size is cut to 32 bits. */
  method CountDigits(size: nat) returns (count: nat)
    ensures count == NumDigits(size % UINT_RANGE)
  {
    var i: nat := size % UINT_RANGE;
    count, i := 1, i / 10;
    while i != 0
      invariant count + (if i == 0 then 0 else NumDigits(i)) == NumDigits(size % UINT_RANGE)
      decreases i
    {
      count, i := count + 1, i / 10;
    }
  }

  // ----- The header computation -----

  function Digits32(n: nat): nat {
    NumDigits(n % UINT_RANGE)
  }

  /** Width reserved for the length digits, given the length without them. */
  function LengthWidth(part: nat): nat {
    var d := Digits32(part);
    if Digits32(part + d) > d then d + 1 else d
  }

  /** Whether the sanity checks of `encode_header` pass: the printed length has the width reserved. */
  predicate HeaderChecks(part: nat) {
    NumDigits(part + LengthWidth(part)) == LengthWidth(part)
  }

  lemma Pow10Values()
    ensures Pow10(9) == 1_000_000_000
    ensures Pow10(10) == 10_000_000_000
  {
    assert Pow10(3) == 1000;
    assert Pow10(6) == 1000 * Pow10(3);
    assert Pow10(9) == 1000 * Pow10(6);
  }

  /** Below 2^32 the checks never fire. */
  lemma SmallHeaderChecks(part: nat)
    requires part < UINT_RANGE
    ensures HeaderChecks(part) && part + LengthWidth(part) == WithDigits(part)
  {
    var d := NumDigits(part);
    NoTruncation(part);
    if part + d < UINT_RANGE {
      NoTruncation(part + d);
      CarriesOnce(part);
    } else {
      WrappedCount(part);
    }
  }

  lemma NoTruncation(n: nat)
    requires n < UINT_RANGE
    ensures Digits32(n) == NumDigits(n)
  {
    assert n % UINT_RANGE == n;
  }

  lemma CarriesOnce(part: nat)
    ensures var d := NumDigits(part);
            if NumDigits(part + d) > d then NumDigits(part + d + 1) == d + 1 else NumDigits(part + d) == d
  {
    var d := NumDigits(part);
    DigitsGrowSlowly(part);
    NumDigitsMono(part + d, part + d + 1);
  }

  /** The second count wraps around to a small number, but then the width is already ten. */
  lemma WrappedCount(part: nat)
    requires part < UINT_RANGE <= part + NumDigits(part)
    ensures NumDigits(part) == NumDigits(part + NumDigits(part)) == 10
    ensures Digits32(part + NumDigits(part)) <= 10
  {
    var d := NumDigits(part);
    Pow10Values();
    NumDigitsAtMost(part, 10);
    NumDigitsAtMost(part, 9);
    NumDigitsAtMost(part + d, 10);
    NumDigitsAtMost(part + d, 9);
    NumDigitsAtMost((part + d) % UINT_RANGE, 10);
  }

  /** From 2^32 on they pass only where the low 32 bits happen to have ten digits as well. */
  lemma LargeHeaderChecks(part: nat)
    requires part >= UINT_RANGE
    ensures HeaderChecks(part) <==> part + 10 < 10_000_000_000 && part % UINT_RANGE >= 999_999_991
    ensures HeaderChecks(part) ==> part + LengthWidth(part) == WithDigits(part)
  {
    var low := part % UINT_RANGE;
    var d := NumDigits(low);
    var w := LengthWidth(part);
    Pow10Values();
    NumDigitsAtMost(low, 10);
    NumDigitsAtMost(low, 9);
    NumDigitsAtMost((part + d) % UINT_RANGE, 10);
    NumDigitsAtMost((part + d) % UINT_RANGE, 9);
    assert w <= 10;
    NumDigitsAtMost(part + w, 9);
    NumDigitsAtMost(part + w, 10);
    assert HeaderChecks(part) <==> w == 10 && part + 10 < 10_000_000_000;
    WidthIsTen(part);
    if HeaderChecks(part) {
      NumDigitsAtMost(part, 9);
      NumDigitsAtMost(part, 10);
      NumDigitsAtMost(part + 10, 10);
    }
  }

  lemma WidthIsTen(part: nat)
    requires part >= UINT_RANGE
    ensures LengthWidth(part) == 10 <==> part % UINT_RANGE >= 999_999_991
  {
    var low := part % UINT_RANGE;
    var d := NumDigits(low);
    Pow10Values();
    NumDigitsAtMost(low, 10);
    NumDigitsAtMost(low, 9);
    var low2 := (part + d) % UINT_RANGE;
    NumDigitsAtMost(low2, 10);
    NumDigitsAtMost(low2, 9);
    assert Pow10(8) == 100_000_000 by { assert Pow10(9) == 10 * Pow10(8); }
    NumDigitsAtMost(low, 8);
    NumDigitsAtMost(low2, 8);
    if d <= 9 {
      assert low2 == low + d by { WrapFree(part, d); }
    }
  }

  lemma WrapFree(part: nat, d: nat)
    requires part % UINT_RANGE + d < UINT_RANGE
    ensures (part + d) % UINT_RANGE == part % UINT_RANGE + d
  {
  }

  /** When the sanity checks of `encode_header` pass, for every body length. */
  predicate HeaderFits(body: nat) {
    var part := body + 9;
    part < UINT_RANGE || (part + 10 < 10_000_000_000 && part % UINT_RANGE >= 999_999_991)
  }

  lemma HeaderChecksIff(body: nat)
    ensures HeaderChecks(body + 9) <==> HeaderFits(body)
    ensures HeaderFits(body) ==> body + 9 + LengthWidth(body + 9) == FullLength(body)
  {
    if body + 9 < UINT_RANGE { SmallHeaderChecks(body + 9); } else { LargeHeaderChecks(body + 9); }
  }

  /** The checks do fire: a body of 2^32 bytes gets a two digit width. */
  lemma HeaderCanFail()
    ensures !HeaderChecks(UINT_RANGE + 9)
  {
    HeaderChecksIff(UINT_RANGE);
  }

  lemma WidthAtMostEleven(part: nat)
    ensures 1 <= LengthWidth(part) <= 11
  {
    Pow10Values();
    NumDigitsAtMost(part % UINT_RANGE, 10);
  }

  // ----- The buffer -----

  class DynamicSamBuffer {
    var buf: array<char>
    var msgStart: nat
    var wptr: nat
    ghost var text: string  // what msg_start and msg_size describe

    ghost predicate Valid()
      reads this, buf
    {
      && msgStart <= wptr <= buf.Length
      && |text| == wptr - msgStart
      && forall k :: 0 <= k < |text| ==> text[k] == buf[msgStart + k]
    }

    /** No header has been written yet. */
    ghost predicate Open()
      reads this, buf
    {
      Valid() && msgStart == RESERVE
    }

    constructor (reserve: nat)
      ensures Open() && text == "" && fresh(buf)
    {
      var size := if reserve < RESERVE then reserve + RESERVE else reserve;
      buf := new char[size](_ => '\0');
      msgStart, wptr, text := RESERVE, RESERVE, "";
    }

    /** Grows to at least the needed size and at least double, keeping every byte. */
    method CheckSpace(n: nat)
      requires Valid()
      modifies this`buf
      ensures Valid()
      ensures wptr + n <= buf.Length
      ensures buf == old(buf) || (fresh(buf) && buf.Length >= 2 * old(buf.Length))
      ensures old(wptr + n <= buf.Length) ==> buf == old(buf)
    {
      var remain := buf.Length - wptr;
      if n > remain {
        var newsize := if buf.Length + n - remain > 2 * buf.Length then buf.Length + n - remain else 2 * buf.Length;
        var bigger := new char[newsize](_ => '\0');
        for i := 0 to buf.Length
          invariant forall k :: 0 <= k < i ==> bigger[k] == buf[k]
          modifies bigger
        {
          bigger[i] := buf[i];
        }
        buf := bigger;
      }
    }

    /** append(src, len). */
    method Append(src: string)
      requires Valid()
      modifies this, buf
      ensures Valid() && msgStart == old(msgStart) && (buf == old(buf) || fresh(buf))
      ensures text == old(text) + src
    {
      CheckSpace(|src|);
      for i := 0 to |src|
        invariant Valid()
        invariant forall k :: 0 <= k < i ==> buf[wptr + k] == src[k]
        modifies buf
      {
        buf[wptr + i] := src[i];
      }
      ghost var more := text + src;
      forall k | 0 <= k < |more| ensures more[k] == buf[msgStart + k] {
        if k >= |text| { assert buf[wptr + (k - |text|)] == src[k - |text|]; }
      }
      wptr, text := wptr + |src|, more;
    }

    /** append(char). */
    method AppendChar(c: char)
      requires Valid()
      modifies this, buf
      ensures Valid() && msgStart == old(msgStart) && (buf == old(buf) || fresh(buf))
      ensures text == old(text) + [c]
    {
      CheckSpace(1);
      buf[wptr] := c;
      wptr, text := wptr + 1, text + [c];
    }

    /** encode_header: writes the header in front of the body, or fails its sanity checks. */
    method EncodeHeader() returns (ok: bool)
      requires Open()
      modifies this`msgStart, this`text, buf
      ensures ok <==> HeaderFits(old(|text|))
      ensures ok ==> Valid() && text == Header(FullLength(old(|text|))) + old(text)
    {
      var header: string;
      ok, header := HeaderText(wptr - msgStart);
      if ok { Prepend(header); }
    }

    /** Copies a header into the reserved bytes in front of the message. */
    method Prepend(header: string)
      requires Valid() && |header| <= msgStart
      modifies this`msgStart, this`text, buf
      ensures Valid() && text == header + old(text)
    {
      var start := msgStart - |header|;
      for i := 0 to |header|
        invariant Valid()
        invariant forall k :: 0 <= k < i ==> buf[start + k] == header[k]
        modifies buf
      {
        buf[start + i] := header[i];
      }
      ghost var more := header + text;
      forall k | 0 <= k < |more| ensures more[k] == buf[start + k] {
        if k >= |header| { assert buf[msgStart + (k - |header|)] == text[k - |header|]; }
      }
      msgStart, text := start, more;
    }
  }

  /** The header for a body of the given size: the width of the length is estimated first, and
      the printed length must have that width. */
  method HeaderText(body: nat) returns (ok: bool, header: string)
    ensures ok <==> HeaderFits(body)
    ensures ok ==> header == Header(FullLength(body)) && |header| <= RESERVE
  {
    HeaderChecksIff(body);
    var partlen := body + 9;
    var width := CountDigits(partlen);
    var full := partlen + width;
    var again := CountDigits(full);
    if again > width {
      width, full := width + 1, full + 1;
    }
    WidthAtMostEleven(partlen);
    var digits := Dec(full);
    if |digits| != width {
      return false, "";
    }
    SmallTag(full);
    var tag := if full <= MAX_MSG_LEN && |digits| <= 5 then SAM0100 else SAM0101;
    ok, header := true, [MSG_START] + tag + [META_DELIM] + digits;
  }

  lemma SmallTag(full: nat)
    ensures full <= MAX_MSG_LEN ==> NumDigits(full) <= 5
  {
    assert Pow10(5) == 100_000;
    NumDigitsAtMost(full, 5);
  }

  // ----- The encoder -----

  /** Length of the initial part of a C string without special characters: it also ends at a
      NUL character. */
  function Strcspn(s: string): (n: nat)
    ensures n <= |s|
    ensures forall i :: 0 <= i < n ==> !IsSpecial(s[i]) && s[i] != '\0'
    ensures n < |s| ==> IsSpecial(s[n]) || s[n] == '\0'
  {
    if s == [] || IsSpecial(s[0]) || s[0] == '\0' then 0 else 1 + Strcspn(s[1..])
  }

  /** write_str: copies the plain start in one go and escapes the rest character by character. */
  method WriteStr(sb: DynamicSamBuffer, str: string)
    requires sb.Valid()
    modifies sb, sb.buf
    ensures sb.Valid() && sb.msgStart == old(sb.msgStart) && (sb.buf == old(sb.buf) || fresh(sb.buf))
    ensures sb.text == old(sb.text) + Escape(str)
  {
    var accept := Strcspn(str);
    EscapeOfPlain(str[..accept]);
    sb.Append(str[..accept]);
    for i := accept to |str|
      invariant sb.Valid() && sb.msgStart == old(sb.msgStart) && (sb.buf == old(sb.buf) || fresh(sb.buf))
      invariant sb.text == old(sb.text) + Escape(str[..i])
    {
      WriteChar(sb, str[i]);
      EscapeNext(str, i);
      Framing.ConcatAssociates(old(sb.text), Escape(str[..i]), EscapeChar(str[i]));
    }
    assert str[..|str|] == str;
  }

  /** One character, behind an escape if it is special. */
  method WriteChar(sb: DynamicSamBuffer, c: char)
    requires sb.Valid()
    modifies sb, sb.buf
    ensures sb.Valid() && sb.msgStart == old(sb.msgStart) && (sb.buf == old(sb.buf) || fresh(sb.buf))
    ensures sb.text == old(sb.text) + EscapeChar(c)
  {
    if IsSpecial(c) { sb.AppendChar(ESCAPE); }
    sb.AppendChar(c);
  }

  lemma EscapeNext(str: string, i: nat)
    requires i < |str|
    ensures Escape(str[..i + 1]) == Escape(str[..i]) + EscapeChar(str[i])
  {
    assert str[..i + 1] == str[..i] + [str[i]];
    EscapeConcat(str[..i], [str[i]]);
    assert Escape([str[i]]) == EscapeChar(str[i]);
  }

  /** encode_contents: brackets around the items. */
  method EncodeContents(sb: DynamicSamBuffer, items: seq<Item>)
    requires sb.Valid()
    modifies sb, sb.buf
    ensures sb.Valid() && sb.msgStart == old(sb.msgStart) && (sb.buf == old(sb.buf) || fresh(sb.buf))
    ensures sb.text == old(sb.text) + Brackets(items)
    decreases items
  {
    sb.AppendChar(SEQ_START);
    ghost var start := sb.text;
    for i := 0 to |items|
      invariant sb.Valid() && sb.msgStart == old(sb.msgStart) && (sb.buf == old(sb.buf) || fresh(sb.buf))
      invariant sb.text == start + EncodeItems(items[..i])
    {
      EncodeOne(sb, items[i]);
      ItemAppended(items, i);
    }
    assert items[..|items|] == items;
    sb.AppendChar(SEQ_END);
  }

  /** One item: its name unescaped, then a nested container or an escaped value. */
  method EncodeOne(sb: DynamicSamBuffer, it: Item)
    requires sb.Valid()
    modifies sb, sb.buf
    ensures sb.Valid() && sb.msgStart == old(sb.msgStart) && (sb.buf == old(sb.buf) || fresh(sb.buf))
    ensures sb.text == old(sb.text) + EncodeItem(it)
    decreases it
  {
    sb.Append(it.name);
    sb.AppendChar(VALUE_DELIM);
    if it.Node? {
      EncodeContents(sb, it.items);
    } else {
      WriteStr(sb, it.value);
    }
    sb.AppendChar(FIELD_DELIM);
    assert sb.text == old(sb.text) + it.name + [VALUE_DELIM] + EncodeValue(it) + [FIELD_DELIM];
  }

  lemma ItemAppended(items: seq<Item>, i: nat)
    requires i < |items|
    ensures EncodeItems(items[..i + 1]) == EncodeItems(items[..i]) + EncodeItem(items[i])
  {
    assert items[..i + 1] == items[..i] + [items[i]];
    EncodeItemsConcat(items[..i], [items[i]]);
  }

  /** encodeMsg into a new buffer: the buffer ends up holding exactly the encoding, whatever
      resizes happened, unless the length header cannot be formed. */
  method EncodeMsg(sb: DynamicSamBuffer, m: Message) returns (ok: bool, bytes: nat)
    requires sb.Open() && sb.text == ""
    modifies sb, sb.buf
    ensures ok <==> HeaderFits(|Body(m)|)
    ensures ok ==> sb.Valid() && sb.text == Encode(m) && bytes == |Encode(m)|
  {
    EncodeBody(sb, m);
    ok := sb.EncodeHeader();
    bytes := if ok then sb.wptr - sb.msgStart else 0;
  }

  /** encodeMsg up to the header. */
  method EncodeBody(sb: DynamicSamBuffer, m: Message)
    requires sb.Open() && sb.text == ""
    modifies sb, sb.buf
    ensures sb.Open() && sb.text == Body(m) && (sb.buf == old(sb.buf) || fresh(sb.buf))
  {
    WriteType(sb, m.mtype);
    EncodeContents(sb, m.items);
    sb.AppendChar(MSG_END);
    sb.AppendChar(MSG_DELIM);
  }

  method WriteType(sb: DynamicSamBuffer, mtype: string)
    requires sb.Open() && sb.text == ""
    modifies sb, sb.buf
    ensures sb.Open() && (sb.buf == old(sb.buf) || fresh(sb.buf))
    ensures sb.text == [META_DELIM] + mtype + [META_DELIM]
  {
    sb.AppendChar(META_DELIM);
    sb.Append(mtype);
    sb.AppendChar(META_DELIM);
  }

  /** A message the decoder would accept is always encodable. */
  lemma DecodableIsEncodable(m: Message)
    requires |Encode(m)| <= MAX_DECODE_LEN
    ensures HeaderFits(|Body(m)|)
  {
    HeaderLength(m);
  }
}
