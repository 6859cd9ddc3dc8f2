/** The SAM wire format as functions: encoding, the length header, the size calculator and
    decoding, with the laws that tie them together (libexio/sam.cc, libexio/SamBuffer.cc). */
module SamCodec {
  import opened SamText
  import opened SamTree
  import opened Framing

  const SAM0100 := "SAM0100"
  const SAM0101 := "SAM0101"

  /** Largest message written with the SAM0100 tag. */
  const MAX_MSG_LEN := 99999

  /** Largest length the decoder accepts. */
  const MAX_DECODE_LEN := 2147483647

  // ----- Encoding -----

  /** The items between the brackets of one container. */
  function EncodeItems(items: seq<Item>): string
    decreases items, 0
  {
    if items == [] then "" else EncodeItem(items[0]) + EncodeItems(items[1..])
  }

  function EncodeItem(it: Item): string
    decreases it, 1
  {
    it.name + [VALUE_DELIM] + EncodeValue(it) + [FIELD_DELIM]
  }

  function EncodeValue(it: Item): string
    decreases it, 0
  {
    match it
    case Field(_, v) => Escape(v)
    case Node(_, kids) => Brackets(kids)
  }

  /** One container. */
  function Brackets(items: seq<Item>): string
    decreases items, 1
  {
    [SEQ_START] + EncodeItems(items) + [SEQ_END]
  }

  /** Everything after the length digits. */
  function Body(m: Message): string {
    [META_DELIM] + m.mtype + [META_DELIM] + Brackets(m.items) + [MSG_END] + [MSG_DELIM]
  }

  /** `L` is a length that counts its own digits: nine characters of header, the digits, the body. */
  predicate CountsItself(body: nat, L: nat) {
    L == body + 9 + NumDigits(L)
  }

  /** The two-step estimate of `encode_header`: digits of the partial length, one more if adding
      them carries over. */
  function WithDigits(part: nat): nat {
    var d := NumDigits(part);
    if NumDigits(part + d) > d then part + d + 1 else part + d
  }

  function FullLength(body: nat): nat {
    WithDigits(body + 9)
  }

  function Tag(L: nat): string {
    if L <= MAX_MSG_LEN then SAM0100 else SAM0101
  }

  function Header(L: nat): string {
    [MSG_START] + Tag(L) + [META_DELIM] + Dec(L)
  }

  function Encode(m: Message): string {
    Header(FullLength(|Body(m)|)) + Body(m)
  }

  lemma {:induction false} EncodeItemsConcat(a: seq<Item>, b: seq<Item>)
    ensures EncodeItems(a + b) == EncodeItems(a) + EncodeItems(b)
    decreases |a|
  {
    if a == [] {
      assert a + b == b;
    } else {
      EncodeItemsConcat(a[1..], b);
      assert (a + b)[1..] == a[1..] + b;
    }
  }

  // ----- The length header -----

  /** Adding the digit count of a number to it lengthens it by at most one digit. */
  lemma {:induction false} DigitsGrowSlowly(n: nat)
    ensures NumDigits(n) <= NumDigits(n + NumDigits(n)) <= NumDigits(n) + 1
    ensures NumDigits(n + NumDigits(n) + 1) <= NumDigits(n) + 1
  {
    var d := NumDigits(n);
    NumDigitsMono(n, n + d);
    DigitsBelowPow(d);
    NumDigitsBounds(n);
    NumDigitsAtMost(n + d, d + 1);
    NumDigitsAtMost(n + d + 1, d + 1);
  }

  lemma {:induction false} DigitsBelowPow(d: nat)
    requires d >= 1
    ensures d < Pow10(d)
  {
    if d > 1 { DigitsBelowPow(d - 1); }
  }

  /** The header length is the least number that counts itself. */
  lemma FullLengthIsLeast(body: nat)
    ensures CountsItself(body, FullLength(body))
    ensures forall L :: CountsItself(body, L) ==> FullLength(body) <= L
  {
    var part := body + 9;
    var d := NumDigits(part);
    DigitsGrowSlowly(part);
    var L0 := FullLength(body);
    if NumDigits(part + d) > d {
      NumDigitsMono(part + d, part + d + 1);
    }
    forall L | CountsItself(body, L) ensures L0 <= L {
      NumDigitsMono(part, L);
    }
  }

  lemma HeaderLength(m: Message)
    ensures |Encode(m)| == FullLength(|Body(m)|)
    ensures CountsItself(|Body(m)|, |Encode(m)|)
  {
    FullLengthIsLeast(|Body(m)|);
  }

  // ----- The size calculator -----

  /** `write_str_calc`, `encode_contents_calc`: the sum the calculator forms. */
  function ItemsSize(items: seq<Item>): nat {
    if items == [] then 0 else ItemSize(items[0]) + ItemsSize(items[1..])
  }

  function ItemSize(it: Item): nat {
    |it.name| + 1 + (match it
                     case Field(_, v) => |v| + SpecialCount(v)
                     case Node(_, kids) => 1 + ItemsSize(kids) + 1) + 1
  }

  /** `calc_encoded_size`: always reserves five digits for the length. */
  function CalcSize(m: Message): nat {
    1 + 7 + 1 + 5 + 1 + |m.mtype| + 1 + (1 + ItemsSize(m.items) + 1) + 1 + 1
  }

  predicate CheckEncSize(m: Message, margin: nat) {
    CalcSize(m) + margin <= MAX_MSG_LEN
  }

  lemma {:induction false} ItemsSizeIsLength(items: seq<Item>)
    ensures ItemsSize(items) == |EncodeItems(items)|
    decreases items
  {
    if items != [] {
      ItemSizeIsLength(items[0]);
      ItemsSizeIsLength(items[1..]);
    }
  }

  lemma {:induction false} ItemSizeIsLength(it: Item)
    ensures ItemSize(it) == |EncodeItem(it)|
    decreases it
  {
    match it
    case Field(_, v) => EscapeLength(v);
    case Node(_, kids) =>
      assert |EncodeValue(it)| == |Brackets(kids)|;
      ItemsSizeIsLength(kids);
  }

  /** The calculator is off by exactly the digits of the length header. */
  lemma CalcTracksEncoder(m: Message)
    ensures CalcSize(m) + NumDigits(|Encode(m)|) == |Encode(m)| + 5
  {
    ItemsSizeIsLength(m.items);
    HeaderLength(m);
  }

  /** A message the calculator accepts encodes within the SAM0100 limit, margin included; and
      without a margin it accepts exactly the messages that fit. */
  lemma CheckedFits(m: Message, margin: nat)
    ensures CheckEncSize(m, margin) ==> |Encode(m)| + margin <= MAX_MSG_LEN
    ensures CheckEncSize(m, 0) <==> |Encode(m)| <= MAX_MSG_LEN
  {
    CalcTracksEncoder(m);
    var L := |Encode(m)|;
    assert Pow10(5) == 100_000 && Pow10(4) == 10_000;
    NumDigitsAtMost(L, 4);
    NumDigitsAtMost(L, 5);
    if CheckEncSize(m, margin) { CheckedIsShort(m); }
    if CheckEncSize(m, 0) { CheckedIsShort(m); }
  }

  lemma CalcIsBody(m: Message)
    ensures CalcSize(m) == |Body(m)| + 14
  {
    ItemsSizeIsLength(m.items);
  }

  lemma WithDigitsShort(part: nat)
    requires part + 5 < 100_000
    ensures WithDigits(part) <= part + 5
  {
    assert Pow10(5) == 100_000;
    NumDigitsAtMost(part + 5, 5);
    NumDigitsMono(part, part + 5);
    NumDigitsMono(part + NumDigits(part), part + 5);
  }

  lemma CheckedIsShort(m: Message)
    requires CalcSize(m) <= MAX_MSG_LEN
    ensures NumDigits(|Encode(m)|) <= 5
  {
    CalcIsBody(m);
    HeaderLength(m);
    WithDigitsShort(|Body(m)| + 9);
    assert Pow10(5) == 100_000;
    NumDigitsAtMost(|Encode(m)|, 5);
  }

  // ----- Decoding a container -----

  datatype ContainerResult = Done(items: seq<Item>, pos: nat) | Broken(error: string)

  const ERR_NO_VALUE := "ran out of data, expected field-value-delim"
  const ERR_NO_DELIM := "ran out of data when expecting field delim"
  const ERR_BAD_DELIM := "expected field delim"

  /** `decode` at the head of its loop: `p` is behind the opening bracket and everything
      decoded so far is in `parent`. */
  function DecodeItems(parent: seq<Item>, s: string, p: nat): (r: ContainerResult)
    ensures r.Done? ==> r.pos >= p
    decreases |s| - p
  {
    if p >= |s| then Done(parent, p)
    else if s[p] == SEQ_END then Done(parent, p + 1)
    else
      var (name, q) := ReadToken(s, p, VALUE_DELIM);
      if q >= |s| then Broken(ERR_NO_VALUE)
      else
        var v := DecodeValue(parent, name, s, q + 1);
        if v.Broken? then v
        else if v.pos >= |s| then Broken(ERR_NO_DELIM)
        else if s[v.pos] != FIELD_DELIM then Broken(ERR_BAD_DELIM)
        else DecodeItems(v.items, s, v.pos + 1)
  }

  /** Behind the value delimiter: a nested container or a plain value, stored under `name`. */
  function DecodeValue(parent: seq<Item>, name: string, s: string, p: nat): (r: ContainerResult)
    ensures r.Done? ==> r.pos >= p
    decreases |s| - p
  {
    if p < |s| && s[p] == SEQ_START then
      var sub := DecodeItems(Kids(parent, name), s, p + 1);
      if sub.Broken? then sub else Done(PutKids(parent, name, sub.items), sub.pos)
    else
      var (value, e) := ReadToken(s, p, FIELD_DELIM);
      Done(PutField(parent, name, value), e)
  }

  // ----- Decoding a message -----

  datatype LengthScan = Scanned(len: nat, pos: nat) | TooBig

  /** The digit loop of `decodeMsg`. */
  function ScanLength(s: string, p: nat, acc: nat): (r: LengthScan)
    requires acc <= MAX_DECODE_LEN
    ensures r.Scanned? ==> r.pos >= p && r.len <= MAX_DECODE_LEN
    ensures r.Scanned? && r.pos < |s| ==> !IsDigit(s[r.pos])
    decreases |s| - p
  {
    if p < |s| && IsDigit(s[p]) then
      var acc' := acc * 10 + DigitValue(s[p]);
      if acc' > MAX_DECODE_LEN then TooBig else ScanLength(s, p + 1, acc')
    else Scanned(acc, p)
  }

  type Decoded = Frame<Message>

  const ERR_HEADER := "bad SAM header"
  const ERR_TOO_BIG := "SAM message exceeds maximum length"
  const ERR_MSGLEN := "SAM header bad msglen"
  const ERR_TYPE := "SAM header missing message type"

  /** `decodeMsg`: returns how many bytes were used, or the exception. */
  function Decode(buf: string): (r: Decoded)
    ensures r.Got? ==> 0 < r.consumed <= |buf|
  {
    if |buf| < 9 then NeedMore
    else if buf[0] != MSG_START || buf[8] != META_DELIM then Bad(ERR_HEADER)
    else
      match ScanLength(buf, 9, 0)
      case TooBig => Bad(ERR_TOO_BIG)
      case Scanned(len, p) =>
        if p >= |buf| then NeedMore
        else if buf[p] != META_DELIM then Bad(ERR_MSGLEN)
        else if |buf| < len then NeedMore
        else if buf[1..8] == SAM0100 || buf[1..8] == SAM0101 then DecodeBody(buf[..len], p + 1)
        else if len == 0 then NeedMore
        else Got(len, EmptyMessage)
  }

  /** The part of `decodeMsg` behind the length; `s` is cut at the end of the message. */
  function DecodeBody(s: string, p: nat): (r: Decoded)
    ensures r.Got? ==> 0 < r.consumed == |s|
    ensures !r.NeedMore?
  {
    var (mtype, q) := ReadToken(s, p, META_DELIM);
    if q >= |s| then Bad(ERR_TYPE)
    else
      match DecodeItems([], s, q + 2)
      case Broken(e) => Bad(e)
      case Done(items, _) => Got(|s|, Message(mtype, items))
  }

  /** Decoding looks only at the message's own bytes: once it has an answer, more input
      behind does not change it. This holds of every byte string, malformed or not. */
  lemma DecodeExtend(a: string, b: string)
    requires !Decode(a).NeedMore?
    ensures Decode(a + b) == Decode(a)
  {
    var s := a + b;
    assert s[1..8] == a[1..8];
    if a[0] == MSG_START && a[8] == META_DELIM {
      ScanExtend(a, b, 9, 0);
      var scan := ScanLength(a, 9, 0);
      if scan.Scanned? && scan.pos < |a| && scan.len <= |a| {
        assert s[..scan.len] == a[..scan.len];
      }
    }
  }

  lemma {:induction false} ScanExtend(a: string, b: string, p: nat, acc: nat)
    requires acc <= MAX_DECODE_LEN
    requires ScanLength(a, p, acc).TooBig? || ScanLength(a, p, acc).pos < |a|
    ensures ScanLength(a + b, p, acc) == ScanLength(a, p, acc)
    decreases |a| - p
  {
    if p < |a| && IsDigit(a[p]) {
      var acc' := acc * 10 + DigitValue(a[p]);
      if acc' <= MAX_DECODE_LEN { ScanExtend(a, b, p + 1, acc'); }
    }
  }

  // ----- Round trip -----

  predicate CleanName(n: string) {
    Clean(n, VALUE_DELIM) && (n != [] ==> n[0] != SEQ_END)
  }

  predicate CleanNames(items: seq<Item>) {
    forall i :: 0 <= i < |items| ==>
      CleanName(items[i].name) && (items[i].Node? ==> CleanNames(items[i].items))
  }

  /** What the encoder relies on, because it writes names and the type unescaped. */
  predicate WellFormed(m: Message) {
    && Consistent(m.items)
    && CleanNames(m.items)
    && Clean(m.mtype, META_DELIM)
    && |Encode(m)| <= MAX_DECODE_LEN
  }

  /** The encoding of one item stands in `s` at `p`, part by part. */
  predicate ItemAt(s: string, p: nat, it: Item)
    decreases it
  {
    && Before(s, p, it.name, VALUE_DELIM)
    && ValueAt(s, p + |it.name| + 1, it)
    && p + ItemSize(it) <= |s|
    && s[p + ItemSize(it) - 1] == FIELD_DELIM
  }

  predicate ValueAt(s: string, p: nat, it: Item)
    decreases it, 0
  {
    match it
    case Field(_, v) => At(s, p, Escape(v))
    case Node(_, kids) => p < |s| && s[p] == SEQ_START && ContainerAt(s, p + 1, kids)
  }

  /** The items and the closing bracket. */
  predicate ContainerAt(s: string, p: nat, items: seq<Item>)
    decreases items
  {
    if items == [] then p < |s| && s[p] == SEQ_END
    else ItemAt(s, p, items[0]) && ContainerAt(s, p + ItemSize(items[0]), items[1..])
  }

  lemma {:induction false} TextIsContainer(items: seq<Item>, s: string, p: nat)
    requires At(s, p, EncodeItems(items)) && p + |EncodeItems(items)| < |s|
    requires s[p + |EncodeItems(items)|] == SEQ_END
    ensures ContainerAt(s, p, items)
    decreases items
  {
    if items != [] {
      ItemsSizeIsLength(items);
      ItemSizeIsLength(items[0]);
      AtSplit(s, p, EncodeItem(items[0]), EncodeItems(items[1..]));
      TextIsItem(items[0], s, p);
      TextIsContainer(items[1..], s, p + ItemSize(items[0]));
    }
  }

  lemma {:induction false} TextIsItem(it: Item, s: string, p: nat)
    requires At(s, p, EncodeItem(it))
    ensures ItemAt(s, p, it)
    decreases it
  {
    ItemSizeIsLength(it);
    var val := EncodeValue(it);
    AtSplit(s, p, it.name + [VALUE_DELIM] + val, [FIELD_DELIM]);
    AtSplit(s, p, it.name + [VALUE_DELIM], val);
    AtSplit(s, p, it.name, [VALUE_DELIM]);
    match it
    case Field(_, v) =>
    case Node(_, kids) =>
      assert val == Brackets(kids);
      var q := p + |it.name| + 1;
      AtSplit(s, q, [SEQ_START] + EncodeItems(kids), [SEQ_END]);
      AtSplit(s, q, [SEQ_START], EncodeItems(kids));
      TextIsContainer(kids, s, q + 1);
  }

  /** The item's name is still free in `before`. */
  predicate IsNew(before: seq<Item>, it: Item) {
    forall k :: 0 <= k < |before| && before[k].name == it.name ==> before[k].Field? != it.Field?
  }

  /** Reading back the items of one container, when `before` has already been read. */
  lemma {:induction false} DecodeContainerAt(before: seq<Item>, items: seq<Item>, s: string, p: nat)
    requires Consistent(before + items) && CleanNames(items)
    requires ContainerAt(s, p, items)
    ensures DecodeItems(before, s, p) == Done(before + items, p + ItemsSize(items) + 1)
    decreases items
  {
    if items == [] {
      assert before + items == before;
    } else {
      FirstIsNew(before, items);
      FirstIsClean(items);
      DecodeItemAt(before, items[0], s, p);
      DecodeContainerAt(before + [items[0]], items[1..], s, p + ItemSize(items[0]));
      SizeOfRest(items);
    }
  }

  lemma SizeOfRest(items: seq<Item>)
    requires items != []
    ensures ItemsSize(items) == ItemSize(items[0]) + ItemsSize(items[1..])
  {
  }

  /** One item is read and the loop stands behind it. */
  lemma {:induction false} DecodeItemAt(before: seq<Item>, it: Item, s: string, p: nat)
    requires IsNew(before, it) && CleanName(it.name)
    requires it.Node? ==> Consistent(it.items) && CleanNames(it.items)
    requires ItemAt(s, p, it)
    ensures DecodeItems(before, s, p) == DecodeItems(before + [it], s, p + ItemSize(it))
    decreases it, 1
  {
    DecodeValueAt(before, it, s, p + |it.name| + 1);
    DecodeStep(before, s, p, it, p + ItemSize(it) - 1);
  }

  /** One value is stored as the item it came from. */
  lemma {:induction false} DecodeValueAt(before: seq<Item>, it: Item, s: string, p: nat)
    requires IsNew(before, it)
    requires it.Node? ==> Consistent(it.items) && CleanNames(it.items)
    requires ValueAt(s, p, it)
    requires p + ItemSize(it) - |it.name| - 1 <= |s| && s[p + ItemSize(it) - |it.name| - 2] == FIELD_DELIM
    ensures DecodeValue(before, it.name, s, p) == Done(before + [it], p + ItemSize(it) - |it.name| - 2)
    decreases it, 0
  {
    match it
    case Field(_, v) =>
      EscapeLength(v);
      assert v != [] ==> Escape(v)[0] != SEQ_START;
      ReadEscaped(s, p, v, FIELD_DELIM);
    case Node(_, kids) =>
      assert [] + kids == kids;
      DecodeContainerAt([], kids, s, p + 1);
  }

  /** One round of the decoding loop. */
  lemma DecodeStep(before: seq<Item>, s: string, p: nat, it: Item, e: nat)
    requires CleanName(it.name) && Before(s, p, it.name, VALUE_DELIM)
    requires DecodeValue(before, it.name, s, p + |it.name| + 1) == Done(before + [it], e)
    requires e < |s| && s[e] == FIELD_DELIM
    ensures DecodeItems(before, s, p) == DecodeItems(before + [it], s, e + 1)
  {
    ReadRaw(s, p, it.name, VALUE_DELIM);
  }

  lemma FirstIsClean(items: seq<Item>)
    requires items != [] && CleanNames(items)
    ensures CleanName(items[0].name) && (items[0].Node? ==> CleanNames(items[0].items))
    ensures CleanNames(items[1..])
  {
    forall i | 0 <= i < |items[1..]|
      ensures CleanName(items[1..][i].name) && (items[1..][i].Node? ==> CleanNames(items[1..][i].items))
    {
      assert items[1..][i] == items[i + 1];
    }
  }

  lemma FirstIsNew(before: seq<Item>, items: seq<Item>)
    requires items != [] && Consistent(before + items)
    ensures IsNew(before, items[0])
    ensures items[0].Node? ==> Consistent(items[0].items)
    ensures before + items == (before + [items[0]]) + items[1..]
  {
    var all := before + items;
    assert all[|before|] == items[0];
    forall k | 0 <= k < |before| && before[k].name == items[0].name ensures before[k].Field? != items[0].Field? {
      assert all[k] == before[k];
    }
  }

  /** The digits of a number scan back to it, or are refused when it is too large. */
  lemma {:induction false} ScanDec(s: string, p: nat, n: nat)
    requires At(s, p, Dec(n))
    requires p + |Dec(n)| < |s| && !IsDigit(s[p + |Dec(n)|])
    ensures ScanLength(s, p, 0) == if n <= MAX_DECODE_LEN then Scanned(n, p + |Dec(n)|) else TooBig
  {
    ScanDecPrefix(s, p, n);
  }

  /** Having scanned the digits of `n`, the accumulator is `n`. */
  lemma {:induction false} ScanDecPrefix(s: string, p: nat, n: nat)
    requires At(s, p, Dec(n))
    ensures ScanLength(s, p, 0) == if n <= MAX_DECODE_LEN then ScanLength(s, p + |Dec(n)|, n) else TooBig
    decreases n
  {
    if n < 10 {
      ScanFirst(s, p, n);
    } else {
      SplitLast(s, p, n);
      ScanDecPrefix(s, p, n / 10);
      ScanNext(s, p, n);
    }
  }

  lemma ScanFirst(s: string, p: nat, n: nat)
    requires n < 10 && At(s, p, Dec(n))
    ensures ScanLength(s, p, 0) == ScanLength(s, p + |Dec(n)|, n)
  {
    OnlyDigit(s, p, n);
    ScanOneMore(s, p, 0, 0, n);
  }

  lemma ScanNext(s: string, p: nat, n: nat)
    requires n >= 10 && At(s, p, Dec(n))
    requires ScanLength(s, p, 0) == if n / 10 <= MAX_DECODE_LEN then ScanLength(s, p + |Dec(n / 10)|, n / 10) else TooBig
    ensures ScanLength(s, p, 0) == if n <= MAX_DECODE_LEN then ScanLength(s, p + |Dec(n)|, n) else TooBig
  {
    SplitLast(s, p, n);
    ScanOneMore(s, p, |Dec(n / 10)|, n / 10, n % 10);
  }

  lemma OnlyDigit(s: string, p: nat, n: nat)
    requires n < 10 && At(s, p, Dec(n))
    ensures |Dec(n)| == 1 && p < |s| && s[p] == DigitChar(n)
  {
    AtIsSlice(s, p, Dec(n));
    assert s[p..p + 1][0] == DigitChar(n);
  }

  /** Having scanned `h` in `k` digits, one more digit. */
  lemma ScanOneMore(s: string, p: nat, k: nat, h: nat, d: nat)
    requires d < 10 && p + k < |s| && s[p + k] == DigitChar(d)
    requires ScanLength(s, p, 0) == if h <= MAX_DECODE_LEN then ScanLength(s, p + k, h) else TooBig
    ensures var n := h * 10 + d;
      ScanLength(s, p, 0) == if n <= MAX_DECODE_LEN then ScanLength(s, p + k + 1, n) else TooBig
  {
    if h <= MAX_DECODE_LEN { ScanDigit(s, p + k, h, d); }
  }

  lemma SplitLast(s: string, p: nat, n: nat)
    requires n >= 10 && At(s, p, Dec(n))
    ensures var h, d := n / 10, n % 10;
      && n == h * 10 + d && At(s, p, Dec(h)) && |Dec(n)| == |Dec(h)| + 1
      && p + |Dec(h)| < |s| && s[p + |Dec(h)|] == DigitChar(d)
  {
    var h, d := n / 10, n % 10;
    assert Dec(n) == Dec(h) + [DigitChar(d)];
    AtSplit(s, p, Dec(h), [DigitChar(d)]);
    AtIsSlice(s, p + |Dec(h)|, [DigitChar(d)]);
    assert s[p + |Dec(h)|..p + |Dec(h)| + 1][0] == DigitChar(d);
  }

  lemma ScanDigit(s: string, p: nat, acc: nat, d: nat)
    requires acc <= MAX_DECODE_LEN && d < 10
    requires p < |s| && s[p] == DigitChar(d)
    ensures ScanLength(s, p, acc) == if acc * 10 + d > MAX_DECODE_LEN then TooBig else ScanLength(s, p + 1, acc * 10 + d)
  {
    DigitInverse(d);
  }

  /** The body of an encoded message stands in `s` at `p`, part by part. */
  predicate BodyAt(s: string, p: nat, m: Message) {
    && p < |s| && s[p] == META_DELIM
    && Before(s, p + 1, m.mtype, META_DELIM)
    && ContainerAt(s, p + |m.mtype| + 3, m.items)
  }

  lemma TextIsBody(m: Message, s: string, p: nat)
    requires At(s, p, Body(m))
    ensures BodyAt(s, p, m)
  {
    var a := [META_DELIM] + m.mtype + [META_DELIM];
    AtSplit(s, p, a + Brackets(m.items) + [MSG_END], [MSG_DELIM]);
    AtSplit(s, p, a + Brackets(m.items), [MSG_END]);
    AtSplit(s, p, a, Brackets(m.items));
    TextIsType(m.mtype, s, p);
    TextIsRoot(m.items, s, p + |a|);
  }

  lemma TextIsType(mtype: string, s: string, p: nat)
    requires At(s, p, [META_DELIM] + mtype + [META_DELIM])
    ensures p < |s| && s[p] == META_DELIM && Before(s, p + 1, mtype, META_DELIM)
  {
    AtSplit(s, p, [META_DELIM] + mtype, [META_DELIM]);
    AtSplit(s, p, [META_DELIM], mtype);
  }

  lemma TextIsRoot(items: seq<Item>, s: string, p: nat)
    requires At(s, p, Brackets(items))
    ensures ContainerAt(s, p + 1, items)
  {
    AtSplit(s, p, [SEQ_START] + EncodeItems(items), [SEQ_END]);
    AtSplit(s, p, [SEQ_START], EncodeItems(items));
    TextIsContainer(items, s, p + 1);
  }

  /** The header of an encoded message is recognised whatever follows it. */
  lemma ScanHeader(m: Message, buf: string)
    requires At(buf, 0, Encode(m))
    ensures Recognised(buf, |Encode(m)|)
    ensures BodyAt(buf, 9 + |Dec(|Encode(m)|)|, m)
  {
    var L := FullLength(|Body(m)|);
    HeaderLength(m);
    AtSplit(buf, 0, Header(L), Body(m));
    TextIsBody(m, buf, 9 + |Dec(L)|);
    HeaderScans(L, buf);
  }

  /** The decoder sees a known tag and the length `L`. */
  predicate Recognised(buf: string, L: nat) {
    && |buf| >= 9 && buf[0] == MSG_START && buf[8] == META_DELIM
    && (buf[1..8] == SAM0100 || buf[1..8] == SAM0101)
    && ScanLength(buf, 9, 0) == if L <= MAX_DECODE_LEN then Scanned(L, 9 + |Dec(L)|) else TooBig
  }

  lemma HeaderScans(L: nat, buf: string)
    requires At(buf, 0, Header(L))
    requires 9 + |Dec(L)| < |buf| && buf[9 + |Dec(L)|] == META_DELIM
    ensures Recognised(buf, L)
  {
    SplitHeader(L, buf);
    ScanDec(buf, 9, L);
  }

  lemma SplitHeader(L: nat, buf: string)
    requires At(buf, 0, Header(L))
    ensures |buf| >= 9 && buf[0] == MSG_START && buf[8] == META_DELIM && buf[1..8] == Tag(L)
    ensures At(buf, 9, Dec(L))
  {
    var h := [MSG_START] + Tag(L) + [META_DELIM];
    assert Header(L) == h + Dec(L);
    AtSplit(buf, 0, h, Dec(L));
    AtIsSlice(buf, 0, h);
    assert buf[..9] == h;
    assert h[1..8] == Tag(L);
    assert buf[1..8] == buf[..9][1..8];
  }

  /** Decoding an encoded message in front of any other bytes yields the message, with the item
      order kept, and consumes exactly its bytes. The conditions on the type and on the length are
      exact: a message with clean item names survives if and only if its type needs no escaping
      and its length is accepted; if only the length is at fault it is refused as too long. */
  lemma RoundTripIff(m: Message, rest: string)
    requires Consistent(m.items) && CleanNames(m.items)
    ensures Decode(Encode(m) + rest) == Got(|Encode(m)|, m)
            <==> Clean(m.mtype, META_DELIM) && |Encode(m)| <= MAX_DECODE_LEN
    ensures |Encode(m)| > MAX_DECODE_LEN ==> Decode(Encode(m) + rest) == Bad(ERR_TOO_BIG)
  {
    var p := EncodedIsBody(m, rest);
    DecodeBodyIff(m, Encode(m), p);
  }

  lemma RoundTrip(m: Message, rest: string)
    requires WellFormed(m)
    ensures Decode(Encode(m) + rest) == Got(|Encode(m)|, m)
  {
    RoundTripIff(m, rest);
  }

  /** In front of any bytes, decoding an encoding comes down to its body. */
  lemma EncodedIsBody(m: Message, rest: string) returns (p: nat)
    ensures p >= 1 && BodyAt(Encode(m), p - 1, m)
    ensures |Encode(m)| <= MAX_DECODE_LEN ==> Decode(Encode(m) + rest) == DecodeBody(Encode(m), p)
    ensures |Encode(m)| > MAX_DECODE_LEN ==> Decode(Encode(m) + rest) == Bad(ERR_TOO_BIG)
  {
    p := 9 + |Dec(|Encode(m)|)| + 1;
    EncodedHere(m);
    DecodeEncoded(m, rest);
  }

  lemma EncodedHere(m: Message)
    ensures BodyAt(Encode(m), 9 + |Dec(|Encode(m)|)|, m)
  {
    InFront(Encode(m), "");
    assert Encode(m) + "" == Encode(m);
    ScanHeader(m, Encode(m));
  }

  lemma DecodeEncoded(m: Message, rest: string)
    ensures |Encode(m)| <= MAX_DECODE_LEN ==> Decode(Encode(m) + rest) == DecodeBody(Encode(m), 9 + |Dec(|Encode(m)|)| + 1)
    ensures |Encode(m)| > MAX_DECODE_LEN ==> Decode(Encode(m) + rest) == Bad(ERR_TOO_BIG)
  {
    EncodedScans(m, rest);
    DecodeRecognised(Encode(m), rest, m);
  }

  lemma EncodedScans(m: Message, rest: string)
    ensures Recognised(Encode(m) + rest, |Encode(m)|) && BodyAt(Encode(m) + rest, 9 + |Dec(|Encode(m)|)|, m)
  {
    InFront(Encode(m), rest);
    ScanHeader(m, Encode(m) + rest);
  }

  lemma DecodeRecognised(e: string, rest: string, m: Message)
    requires Recognised(e + rest, |e|) && BodyAt(e + rest, 9 + |Dec(|e|)|, m)
    ensures |e| <= MAX_DECODE_LEN ==> Decode(e + rest) == DecodeBody(e, 9 + |Dec(|e|)| + 1)
    ensures |e| > MAX_DECODE_LEN ==> Decode(e + rest) == Bad(ERR_TOO_BIG)
  {
    assert (e + rest)[..|e|] == e;
  }

  lemma InFront(e: string, rest: string)
    ensures At(e + rest, 0, e)
  {
    AtIsSlice(e + rest, 0, e);
  }

  /** Behind the length: the type is recovered exactly when it needs no escaping. */
  lemma DecodeBodyIff(m: Message, s: string, p: nat)
    requires Consistent(m.items) && CleanNames(m.items)
    requires p >= 1 && BodyAt(s, p - 1, m)
    ensures Clean(m.mtype, META_DELIM) ==> DecodeBody(s, p) == Got(|s|, m)
    ensures !Clean(m.mtype, META_DELIM) ==> DecodeBody(s, p).Bad? || DecodeBody(s, p).msg.mtype != m.mtype
  {
    RawReadIff(s, p, m.mtype, META_DELIM);
    if Clean(m.mtype, META_DELIM) {
      ReadRaw(s, p, m.mtype, META_DELIM);
      assert [] + m.items == m.items;
      DecodeContainerAt([], m.items, s, p + |m.mtype| + 2);
    }
  }

  /** The decoder never renames or moves the first item it has read. */
  lemma {:induction false} DecodeKeepsFirst(parent: seq<Item>, s: string, p: nat)
    requires parent != [] && DecodeItems(parent, s, p).Done?
    ensures DecodeItems(parent, s, p).items != []
    ensures DecodeItems(parent, s, p).items[0].name == parent[0].name
    decreases |s| - p
  {
    if p < |s| && s[p] != SEQ_END {
      var (name, q) := ReadToken(s, p, VALUE_DELIM);
      var v := DecodeValue(parent, name, s, q + 1);
      DecodeKeepsFirst(v.items, s, v.pos + 1);
    }
  }

  /** Names cannot be arbitrary: whatever the rest of the message holds, it can survive only if
      the name of its first item is clean. */
  lemma FirstNameMustBeClean(m: Message, rest: string)
    requires m.items != [] && Clean(m.mtype, META_DELIM)
    ensures Decode(Encode(m) + rest) == Got(|Encode(m)|, m) ==> CleanName(m.items[0].name)
  {
    var p := EncodedIsBody(m, rest);
    FirstNameInBody(m, Encode(m), p);
  }

  lemma FirstNameInBody(m: Message, s: string, p: nat)
    requires m.items != [] && Clean(m.mtype, META_DELIM)
    requires p >= 1 && BodyAt(s, p - 1, m)
    ensures DecodeBody(s, p) == Got(|s|, m) ==> CleanName(m.items[0].name)
  {
    ReadRaw(s, p, m.mtype, META_DELIM);
    FirstNameRead(m.items, s, p + |m.mtype| + 2);
  }

  lemma FirstNameRead(items: seq<Item>, s: string, p: nat)
    requires items != [] && ContainerAt(s, p, items)
    ensures DecodeItems([], s, p).Done? && DecodeItems([], s, p).items == items ==> CleanName(items[0].name)
  {
    RawReadIff(s, p, items[0].name, VALUE_DELIM);
    if DecodeItems([], s, p).Done? && DecodeItems([], s, p).items == items { FirstDecodedName(s, p); }
  }

  lemma FirstDecodedName(s: string, p: nat)
    requires p < |s| && DecodeItems([], s, p).Done? && DecodeItems([], s, p).items != []
    ensures s[p] != SEQ_END
    ensures DecodeItems([], s, p).items[0].name == ReadToken(s, p, VALUE_DELIM).0
  {
    var (name, q) := ReadToken(s, p, VALUE_DELIM);
    var v := DecodeValue([], name, s, q + 1);
    DecodeKeepsFirst(v.items, s, v.pos + 1);
  }

  /** A concrete loss: the field `a=b` with value `c` comes back as field `a` with value `b=c`. */
  lemma NameWithDelimiterIsLost(rest: string)
    ensures var m := Message("t", [Field("a=b", "c")]);
      Decode(Encode(m) + rest) == Got(|Encode(m)|, Message("t", [Field("a", "b=c")]))
  {
    var m := Message("t", [Field("a=b", "c")]);
    LostIsShort(m);
    var p := EncodedIsBody(m, rest);
    LostBody(m, Encode(m), p);
  }

  lemma LostIsShort(m: Message)
    requires m == Message("t", [Field("a=b", "c")])
    ensures |Encode(m)| <= MAX_DECODE_LEN
  {
    PlainC();
    assert m.items[1..] == [];
    assert ItemsSize(m.items) == 6;
    CheckedFits(m, 0);
  }

  lemma LostBody(m: Message, s: string, p: nat)
    requires m == Message("t", [Field("a=b", "c")]) && p >= 1 && BodyAt(s, p - 1, m)
    ensures DecodeBody(s, p) == Got(|s|, Message("t", [Field("a", "b=c")]))
  {
    ReadRaw(s, p, "t", META_DELIM);
    DelimiterSplits(s, p + 3);
  }

  lemma PlainC()
    ensures Escape("c") == "c" && SpecialCount("c") == 0
  {
    assert "c"[1..] == "";
    assert Escape("") == "";
  }

  lemma ContainerText(s: string, p: nat)
    requires ContainerAt(s, p, [Field("a=b", "c")])
    ensures Before(s, p, "a", VALUE_DELIM) && Before(s, p + 2, "b=c", FIELD_DELIM)
    ensures p + 6 < |s| && s[p + 6] == SEQ_END
  {
    PlainC();
    assert [Field("a=b", "c")][1..] == [];
    AtIsSlice(s, p, "a=b");
    AtIsSlice(s, p + 4, "c");
    AtIsSlice(s, p, "a");
    AtIsSlice(s, p + 2, "b=c");
    assert s[p..p + 3] == "a=b" && s[p + 4..p + 5] == "c";
    assert s[p] == s[p..p + 3][0] && s[p + 1] == s[p..p + 3][1] && s[p + 2] == s[p..p + 3][2];
    assert s[p + 4] == s[p + 4..p + 5][0];
    assert s[p + 2..p + 5] == "b=c";
  }

  lemma DelimiterSplits(s: string, p: nat)
    requires ContainerAt(s, p, [Field("a=b", "c")])
    ensures DecodeItems([], s, p) == Done([Field("a", "b=c")], p + 7)
  {
    ContainerText(s, p);
    ReadRaw(s, p, "a", VALUE_DELIM);
    ReadRaw(s, p + 2, "b=c", FIELD_DELIM);
    assert DecodeValue([], "a", s, p + 2) == Done([Field("a", "b=c")], p + 5);
    assert DecodeItems([Field("a", "b=c")], s, p + 6) == Done([Field("a", "b=c")], p + 7);
  }
  // ----- Prefixes -----

  /** Every proper prefix of an encoding asks for more, whatever the names and the type. */
  lemma PrefixNeedsMore(m: Message, k: nat)
    requires |Encode(m)| <= MAX_DECODE_LEN && k < |Encode(m)|
    ensures Decode(Encode(m)[..k]) == NeedMore
  {
    var e := Encode(m);
    var a := e[..k];
    var L := |e|;
    AtIsSlice(e, 0, e);
    ScanHeader(m, e);
    if k >= 9 {
      assert a[0] == e[0] && a[8] == e[8];
      assert a + e[k..] == e;
      var d := 9 + |Dec(L)|;
      if k > d {
        ScanPrefixDone(a, e[k..], 9, 0, d);
      } else {
        ScanPrefixOpen(a, e[k..], 9, 0);
      }
    }
  }

  lemma {:induction false} ScanPrefixDone(a: string, b: string, p: nat, acc: nat, d: nat)
    requires acc <= MAX_DECODE_LEN && d < |a|
    requires ScanLength(a + b, p, acc).Scanned? && ScanLength(a + b, p, acc).pos == d
    ensures ScanLength(a, p, acc) == ScanLength(a + b, p, acc)
    decreases |a| - p
  {
    if p < |a| && IsDigit(a[p]) {
      ScanPrefixDone(a, b, p + 1, acc * 10 + DigitValue(a[p]), d);
    }
  }

  lemma {:induction false} ScanPrefixOpen(a: string, b: string, p: nat, acc: nat)
    requires acc <= MAX_DECODE_LEN && p <= |a|
    requires ScanLength(a + b, p, acc).Scanned? && ScanLength(a + b, p, acc).pos >= |a|
    ensures ScanLength(a, p, acc).Scanned? && ScanLength(a, p, acc).pos >= |a|
    decreases |a| - p
  {
    if p < |a| && IsDigit(a[p]) {
      ScanPrefixOpen(a, b, p + 1, acc * 10 + DigitValue(a[p]));
    }
  }

  // ----- The stream of a connection -----

  lemma DecodeIsStable()
    ensures Stable(Decode)
    ensures forall s :: Decode(s).Got? ==> Progress(Decode(s), s)
  {
    forall a: string, b: string | !Decode(a).NeedMore? ensures Decode(a + b) == Decode(a) {
      DecodeExtend(a, b);
    }
  }

  lemma WellFormedFrames(m: Message)
    requires WellFormed(m)
    ensures Frames(Encode, Decode, m)
  {
    forall rest: string ensures Decode(Encode(m) + rest) == Got(|Encode(m)|, m) {
      RoundTrip(m, rest);
    }
    forall k | 0 <= k < |Encode(m)| ensures Decode(Encode(m)[..k]) == NeedMore {
      PrefixNeedsMore(m, k);
    }
  }

  /** SAM messages reach the other side whatever the chunks: at any time exactly the messages that
      have arrived completely have been delivered, in order. */
  lemma SamStream(ms: seq<Message>, calls: seq<seq<string>>)
    requires forall i :: 0 <= i < |ms| ==> WellFormed(ms[i])
    requires FlattenAll(calls) <= EncodeAll(Encode, ms)
    ensures var n := |FlattenAll(calls)|;
            var j := Complete(Encode, ms, n);
            && WorkAll(Decode, Receiver("", []), calls) == Receiver(Started(Encode, ms, n), ms[..j])
            && FlattenAll(calls) == EncodeAll(Encode, ms[..j]) + Started(Encode, ms, n)
            && (FlattenAll(calls) == EncodeAll(Encode, ms) ==> j == |ms|)
  {
    DecodeIsStable();
    forall i | 0 <= i < |ms| ensures Frames(Encode, Decode, ms[i]) { WellFormedFrames(ms[i]); }
    ChunkingDoesNotMatter(Encode, Decode, ms, calls);
  }
}
