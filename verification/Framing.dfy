/** Receiving framed messages from a byte stream, for any decoder: what a receiver should make of
    a stream, and why it does not matter how the stream is cut into chunks. */
module Framing {

  /** NeedMore stands for "returns 0", Got for a return value above 0, Bad for an exception. */
  datatype Frame<+M> =
    | NeedMore
    | Got(consumed: nat, msg: M)
    | Bad(error: string)

  /** The messages at the front of a stream and the bytes that are left. */
  datatype Parsed<+M> = Parsed(msgs: seq<M>, rest: string)

  predicate Progress<M>(f: Frame<M>, s: string) {
    f.Got? && 0 < f.consumed <= |s|
  }

  /** Decode as often as possible. */
  function Parse<M>(dec: string -> Frame<M>, s: string): Parsed<M>
    decreases |s|
  {
    var f := dec(s);
    if Progress(f, s) then
      var p := Parse(dec, s[f.consumed..]);
      Parsed([f.msg] + p.msgs, p.rest)
    else Parsed([], s)
  }

  /** Once the decoder has an answer, bytes behind it do not change it. */
  ghost predicate Stable<M>(dec: string -> Frame<M>) {
    forall a: string, b: string {:trigger dec(a + b)} :: !dec(a).NeedMore? ==> dec(a + b) == dec(a)
  }

  /** Parsing may stop anywhere and go on when more bytes arrive. */
  lemma {:induction false} ParseExtend<M>(dec: string -> Frame<M>, a: string, b: string)
    requires Stable(dec) && forall s :: dec(s).Got? ==> Progress(dec(s), s)
    ensures var p := Parse(dec, a);
            var q := Parse(dec, p.rest + b);
            Parse(dec, a + b) == Parsed(p.msgs + q.msgs, q.rest)
    decreases |a|
  {
    var f := dec(a);
    if f.Got? {
      var n := f.consumed;
      assert dec(a + b) == f;
      assert (a + b)[n..] == a[n..] + b;
      ParseExtend(dec, a[n..], b);
      var p := Parse(dec, a[n..]);
      var q := Parse(dec, p.rest + b);
      assert [f.msg] + (p.msgs + q.msgs) == ([f.msg] + p.msgs) + q.msgs;
    } else {
      assert [] + Parse(dec, a + b).msgs == Parse(dec, a + b).msgs;
    }
  }

  /** Nothing that could be decoded stays behind. */
  lemma {:induction false} ParseExhausts<M>(dec: string -> Frame<M>, s: string)
    ensures !Progress(dec(Parse(dec, s).rest), Parse(dec, s).rest)
    decreases |s|
  {
    var f := dec(s);
    if Progress(f, s) { ParseExhausts(dec, s[f.consumed..]); }
  }

  // ----- A receiver that is handed chunks -----

  function Flatten(chunks: seq<string>): string {
    if chunks == [] then "" else chunks[0] + Flatten(chunks[1..])
  }

  lemma {:induction false} FlattenConcat(a: seq<string>, b: seq<string>)
    ensures Flatten(a + b) == Flatten(a) + Flatten(b)
    decreases |a|
  {
    if a == [] {
      assert a + b == b;
    } else {
      FlattenConcat(a[1..], b);
      assert (a + b)[1..] == a[1..] + b;
    }
  }

  datatype Receiver<+M> = Receiver(rest: string, delivered: seq<M>)

  /** One work call: all waiting chunks are appended, then everything decodable is delivered. */
  function Work<M>(dec: string -> Frame<M>, r: Receiver<M>, chunks: seq<string>): Receiver<M> {
    var p := Parse(dec, r.rest + Flatten(chunks));
    Receiver(p.rest, r.delivered + p.msgs)
  }

  function WorkAll<M>(dec: string -> Frame<M>, r: Receiver<M>, calls: seq<seq<string>>): Receiver<M>
    decreases |calls|
  {
    if calls == [] then r else WorkAll(dec, Work(dec, r, calls[0]), calls[1..])
  }

  function FlattenAll(calls: seq<seq<string>>): string {
    if calls == [] then "" else Flatten(calls[0]) + FlattenAll(calls[1..])
  }

  /** One call followed by more bytes is the same as all the bytes in one call. */
  lemma WorkThenMore<M>(dec: string -> Frame<M>, r: Receiver<M>, chunks: seq<string>, more: string)
    requires var p := Parse(dec, r.rest + Flatten(chunks));
             var q := Parse(dec, p.rest + more);
             Parse(dec, r.rest + Flatten(chunks) + more) == Parsed(p.msgs + q.msgs, q.rest)
    ensures var r' := Work(dec, r, chunks);
            var p := Parse(dec, r'.rest + more);
            var whole := Parse(dec, r.rest + (Flatten(chunks) + more));
            && whole.rest == p.rest
            && r.delivered + whole.msgs == r'.delivered + p.msgs
  {
    ConcatAssociates(r.rest, Flatten(chunks), more);
    var p := Parse(dec, r.rest + Flatten(chunks));
    ConcatAssociates(r.delivered, p.msgs, Parse(dec, p.rest + more).msgs);
  }

  lemma ConcatAssociates<T>(a: seq<T>, b: seq<T>, c: seq<T>)
    ensures (a + b) + c == a + (b + c)
  {
  }

  /** Any number of calls with any chunks amount to parsing all the bytes at once. */
  lemma {:induction false} WorkIsParse<M>(dec: string -> Frame<M>, r: Receiver<M>, calls: seq<seq<string>>)
    requires Stable(dec) && forall s :: dec(s).Got? ==> Progress(dec(s), s)
    requires !dec(r.rest).Got?
    ensures var p := Parse(dec, r.rest + FlattenAll(calls));
            WorkAll(dec, r, calls) == Receiver(p.rest, r.delivered + p.msgs)
    decreases |calls|
  {
    if calls == [] {
      assert r.rest + "" == r.rest;
      assert r.delivered + [] == r.delivered;
    } else {
      ParseExtend(dec, r.rest + Flatten(calls[0]), FlattenAll(calls[1..]));
      WorkThenMore(dec, r, calls[0], FlattenAll(calls[1..]));
      ParseExhausts(dec, r.rest + Flatten(calls[0]));
      WorkIsParse(dec, Work(dec, r, calls[0]), calls[1..]);
    }
  }

  // ----- Streams of encoded messages -----

  function EncodeAll<M>(enc: M -> string, ms: seq<M>): string {
    if ms == [] then "" else enc(ms[0]) + EncodeAll(enc, ms[1..])
  }

  /** Every encoding is recognised in front of any bytes, and no proper prefix of it is. */
  ghost predicate Frames<M>(enc: M -> string, dec: string -> Frame<M>, m: M) {
    && (forall rest: string {:trigger dec(enc(m) + rest)} :: dec(enc(m) + rest) == Got(|enc(m)|, m))
    && (forall k {:trigger enc(m)[..k]} :: 0 <= k < |enc(m)| ==> dec(enc(m)[..k]) == NeedMore)
    && |enc(m)| > 0
  }

  ghost predicate FramesAll<M>(enc: M -> string, dec: string -> Frame<M>, ms: seq<M>) {
    forall i :: 0 <= i < |ms| ==> Frames(enc, dec, ms[i])
  }

  /** How many of the messages are complete in the first `n` bytes. */
  function Complete<M>(enc: M -> string, ms: seq<M>, n: nat): (j: nat)
    ensures j <= |ms|
    decreases |ms|
  {
    if ms == [] || n < |enc(ms[0])| then 0 else 1 + Complete(enc, ms[1..], n - |enc(ms[0])|)
  }

  lemma {:induction false} CompleteFits<M>(enc: M -> string, ms: seq<M>, n: nat)
    requires n <= |EncodeAll(enc, ms)|
    ensures |EncodeAll(enc, ms[..Complete(enc, ms, n)])| <= n
    ensures n == |EncodeAll(enc, ms)| ==> Complete(enc, ms, n) == |ms|
    decreases |ms|
  {
    if ms != [] && n >= |enc(ms[0])| {
      var j := Complete(enc, ms[1..], n - |enc(ms[0])|);
      CompleteFits(enc, ms[1..], n - |enc(ms[0])|);
      assert ms[..j + 1][1..] == ms[1..][..j];
    }
  }

  /** The bytes of the message that has only started to arrive. */
  function Started<M>(enc: M -> string, ms: seq<M>, n: nat): string
    requires n <= |EncodeAll(enc, ms)|
    decreases |ms|
  {
    if ms == [] then ""
    else if n < |enc(ms[0])| then enc(ms[0])[..n]
    else Started(enc, ms[1..], n - |enc(ms[0])|)
  }

  /** What has arrived is the complete messages and the started one. */
  lemma {:induction false} CutIsCompleteAndStarted<M>(enc: M -> string, ms: seq<M>, n: nat)
    requires n <= |EncodeAll(enc, ms)|
    ensures EncodeAll(enc, ms)[..n] == EncodeAll(enc, ms[..Complete(enc, ms, n)]) + Started(enc, ms, n)
    decreases |ms|
  {
    if ms == [] {
    } else {
      var e, tail := enc(ms[0]), ms[1..];
      if n < |e| {
        assert EncodeAll(enc, ms)[..n] == e[..n];
        assert ms[..0] == [];
      } else {
        var j := Complete(enc, tail, n - |e|);
        CutIsCompleteAndStarted(enc, tail, n - |e|);
        assert EncodeAll(enc, ms)[..n] == e + EncodeAll(enc, tail)[..n - |e|];
        assert ms[..j + 1][0] == ms[0] && ms[..j + 1][1..] == tail[..j];
      }
    }
  }

  /** After any number of bytes, exactly the complete messages have been parsed. */
  lemma {:induction false} ParseCut<M>(enc: M -> string, dec: string -> Frame<M>, ms: seq<M>, n: nat)
    requires FramesAll(enc, dec, ms) && n <= |EncodeAll(enc, ms)|
    requires !dec("").Got?
    ensures Parse(dec, EncodeAll(enc, ms)[..n]) == Parsed(ms[..Complete(enc, ms, n)], Started(enc, ms, n))
    decreases |ms|
  {
    var s := EncodeAll(enc, ms)[..n];
    if ms == [] {
      assert s == "";
    } else {
      assert Frames(enc, dec, ms[0]);
      var e, tail := enc(ms[0]), ms[1..];
      if n < |e| {
        assert s == e[..n];
        assert ms[..0] == [];
      } else {
        var cut := EncodeAll(enc, tail)[..n - |e|];
        assert FramesAll(enc, dec, tail);
        ParseCut(enc, dec, tail, n - |e|);
        assert s == e + cut;
        assert dec(s) == Got(|e|, ms[0]);
        assert s[|e|..] == cut;
        var j := Complete(enc, tail, n - |e|);
        assert ms[..j + 1] == [ms[0]] + tail[..j];
      }
    }
  }

  /** For every list of messages and every way of cutting their encodings into chunks spread over
      any number of work calls: whatever part of the stream has arrived, exactly the messages that
      are complete in it have been delivered, in order, and what is kept is the started one. */
  lemma ChunkingDoesNotMatter<M>(enc: M -> string, dec: string -> Frame<M>, ms: seq<M>, calls: seq<seq<string>>)
    requires Stable(dec) && forall s :: dec(s).Got? ==> Progress(dec(s), s)
    requires FramesAll(enc, dec, ms)
    requires FlattenAll(calls) <= EncodeAll(enc, ms)
    ensures var n := |FlattenAll(calls)|;
            var j := Complete(enc, ms, n);
            && WorkAll(dec, Receiver("", []), calls) == Receiver(Started(enc, ms, n), ms[..j])
            && FlattenAll(calls) == EncodeAll(enc, ms[..j]) + Started(enc, ms, n)
            && (FlattenAll(calls) == EncodeAll(enc, ms) ==> j == |ms|)
  {
    var s := FlattenAll(calls);
    assert !dec("").Got?;
    WorkIsParse(dec, Receiver("", []), calls);
    assert "" + s == s == EncodeAll(enc, ms)[..|s|];
    ParseCut(enc, dec, ms, |s|);
    CutIsCompleteAndStarted(enc, ms, |s|);
    CompleteFits(enc, ms, |s|);
    assert [] + Parse(dec, s).msgs == Parse(dec, s).msgs;
  }
}
