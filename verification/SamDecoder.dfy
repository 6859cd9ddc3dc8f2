/** The decoder as it runs: a position moved by loops over the received bytes, filling a
    container on the way (libexio/sam.cc, `decodeMsg` and `decode`). */
module SamDecoder {
  import opened SamText
  import opened SamTree
  import opened Framing
  import opened SamCodec

  /** What the token loop still has to produce when it stands at `p` with `value` collected. */
  ghost function Rest(value: string, s: string, p: nat, delim: char): (string, nat) {
    (value + ReadToken(s, p, delim).0, ReadToken(s, p, delim).1)
  }

  lemma RestStep(value: string, s: string, p: nat, delim: char)
    requires p < |s| && s[p] != delim
    ensures Rest(value, s, p, delim) ==
            if s[p] != ESCAPE then Rest(value + [s[p]], s, p + 1, delim)
            else if p + 1 < |s| then Rest(value + [s[p + 1]], s, p + 2, delim)
            else Rest(value, s, p + 2, delim)
  {
    var tail := ReadToken(s, p, delim).0;
    if s[p] != ESCAPE || p + 1 < |s| {
      assert tail == [tail[0]] + tail[1..];
      assert value + tail == (value + [tail[0]]) + tail[1..];
    }
  }

  /** One of the token loops: copy up to the delimiter, dropping escapes. The end of `s` is
      the end of the message. */
  method ScanToken(s: string, start: nat, delim: char) returns (value: string, p: nat)
    ensures (value, p) == ReadToken(s, start, delim)
  {
    p, value := start, "";
    ghost var whole := ReadToken(s, start, delim);
    assert "" + whole.0 == whole.0;
    while p < |s| && s[p] != delim
      invariant start <= p
      invariant whole == Rest(value, s, p, delim)
      decreases |s| - p
    {
      RestStep(value, s, p, delim);
      if s[p] == ESCAPE { p := p + 1; }
      if p < |s| { value := value + [s[p]]; }
      p := p + 1;
    }
    assert value + "" == value;
  }

  /** `decode`: `start` is at the opening bracket. */
  method DecodeContainer(parent: seq<Item>, s: string, start: nat) returns (r: ContainerResult)
    ensures r == DecodeItems(parent, s, start + 1)
    decreases |s| - start, 0
  {
    var p := start + 1;
    var items := parent;
    ghost var whole := DecodeItems(parent, s, start + 1);
    while p < |s|
      invariant start < p
      invariant whole == DecodeItems(items, s, p)
      decreases |s| - p
    {
      if s[p] == SEQ_END { return Done(items, p + 1); }
      var name, q := ScanToken(s, p, VALUE_DELIM);
      if q >= |s| { return Broken(ERR_NO_VALUE); }
      var v := DecodeFieldValue(items, name, s, q + 1);
      if v.Broken? { return v; }
      if v.pos >= |s| { return Broken(ERR_NO_DELIM); }
      if s[v.pos] != FIELD_DELIM { return Broken(ERR_BAD_DELIM); }
      items, p := v.items, v.pos + 1;
    }
    r := Done(items, p);
  }

  /** The value part of `decode`: descends into a sub container or copies a plain value. */
  method DecodeFieldValue(parent: seq<Item>, name: string, s: string, p: nat) returns (r: ContainerResult)
    ensures r == DecodeValue(parent, name, s, p)
    decreases |s| - p, 1
  {
    if p < |s| && s[p] == SEQ_START {
      r := DecodeContainer(Kids(parent, name), s, p);
      if r.Done? { r := Done(PutKids(parent, name, r.items), r.pos); }
    } else {
      var value, e := ScanToken(s, p, FIELD_DELIM);
      r := Done(PutField(parent, name, value), e);
    }
  }

  /** `decodeMsg` on the bytes available. */
  method DecodeMsg(buf: string) returns (r: Decoded)
    ensures r == Decode(buf)
  {
    if |buf| < 9 { return NeedMore; }
    if buf[0] != MSG_START || buf[8] != META_DELIM { return Bad(ERR_HEADER); }
    var supported := buf[1..8] == SAM0100 || buf[1..8] == SAM0101;
    var p, msglen: nat := 9, 0;
    while p < |buf| && IsDigit(buf[p])
      invariant 9 <= p <= |buf| && msglen <= MAX_DECODE_LEN
      invariant ScanLength(buf, 9, 0) == ScanLength(buf, p, msglen)
    {
      msglen := msglen * 10 + DigitValue(buf[p]);
      if msglen > MAX_DECODE_LEN { return Bad(ERR_TOO_BIG); }
      p := p + 1;
    }
    if p >= |buf| { return NeedMore; }
    if buf[p] != META_DELIM { return Bad(ERR_MSGLEN); }
    if |buf| < msglen { return NeedMore; }
    if supported {
      r := DecodeMsgBody(buf[..msglen], p + 1);
      return;
    }
    return if msglen == 0 then NeedMore else Got(msglen, EmptyMessage);
  }

  /** The type and the root container, in a string that ends where the message ends. */
  method DecodeMsgBody(s: string, p: nat) returns (r: Decoded)
    ensures r == DecodeBody(s, p)
  {
    var mtype, q := ScanToken(s, p, META_DELIM);
    if q >= |s| { return Bad(ERR_TYPE); }
    var root := DecodeContainer([], s, q + 1);
    r := if root.Broken? then Bad(root.error) else Got(|s|, Message(mtype, root.items));
  }
}
