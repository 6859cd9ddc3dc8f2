/** The receiving half of a connection: chunks read from the socket wait in a queue, a worker
    copies them into a growing buffer and hands complete messages to the session
    (libexio/exio/ReactorReadBuffer.h, libexio/ReactorReadBuffer.cc, libexio/Client.cc,
    libexio/AdminSession.cc). */
module Inbound {
  import opened Framing
  import opened SamTree
  import opened SamCodec
  import SamDecoder

  class ReadBuffer {
    var buf: array<char>
    var avail: nat
    var rp: nat
    ghost var text: string  // the bytes between the read position and the write position

    ghost predicate Valid()
      reads this, buf
    {
      && rp + avail <= buf.Length
      && |text| == avail
      && forall k :: 0 <= k < avail ==> text[k] == buf[rp + k]
    }

    constructor (cap: nat)
      ensures Valid() && text == "" && rp == 0 && fresh(buf)
    {
      buf := new char[cap](_ => '\0');
      avail, rp, text := 0, 0, "";
    }

    /** grow: half as much again, and at least one byte more. */
    method Grow()
      requires Valid()
      modifies this`buf
      ensures Valid() && fresh(buf) && buf.Length > old(buf.Length)
      ensures buf.Length == old(buf.Length) + if old(buf.Length) < 2 then 1 else old(buf.Length) / 2
    {
      var extra := if buf.Length / 2 == 0 then 1 else buf.Length / 2;
      var bigger := new char[buf.Length + extra](_ => '\0');
      for i := 0 to buf.Length
        invariant forall k :: 0 <= k < i ==> bigger[k] == buf[k]
        modifies bigger
      {
        bigger[i] := buf[i];
      }
      buf := bigger;
    }

    /** Grows until there is room for `n` bytes behind the pending ones. */
    method MakeRoom(n: nat)
      requires Valid() && rp == 0
      modifies this`buf
      ensures Valid() && (buf == old(buf) || fresh(buf)) && avail + n <= buf.Length
    {
      while buf.Length - avail < n
        invariant Valid() && (buf == old(buf) || fresh(buf))
        decreases avail + n - buf.Length
      {
        Grow();
      }
    }

    /** Makes room for a chunk and copies it to the write position. The write position ignores the
        read position, so nothing may have been consumed since the last shift. */
    method Put(chunk: string)
      requires Valid() && rp == 0
      modifies this, buf
      ensures Valid() && rp == 0 && (buf == old(buf) || fresh(buf))
      ensures text == old(text) + chunk
    {
      MakeRoom(|chunk|);
      for i := 0 to |chunk|
        invariant Valid()
        invariant forall k :: 0 <= k < i ==> buf[avail + k] == chunk[k]
        modifies buf
      {
        buf[avail + i] := chunk[i];
      }
      ghost var more := text + chunk;
      forall k | 0 <= k < |more| ensures more[k] == buf[k] {
        if k >= |text| { assert buf[avail + (k - |text|)] == chunk[k - |text|]; }
      }
      avail, text := avail + |chunk|, more;
    }

    method Consume(n: nat)
      requires Valid() && n <= avail
      modifies this`avail, this`rp, this`text
      ensures Valid() && text == old(text)[n..]
    {
      rp, avail, text := rp + n, avail - n, text[n..];
    }

    /** shift_pending_to_array_start. */
    method Shift()
      requires Valid()
      modifies this`rp, buf
      ensures Valid() && rp == 0
    {
      if avail > 0 && rp > 0 {
        for i := 0 to avail
          invariant forall k :: 0 <= k < i ==> buf[k] == text[k]
          invariant forall k :: i <= k < avail ==> buf[rp + k] == text[k]
          modifies buf
        {
          buf[i] := buf[rp + i];
        }
      }
      rp := 0;
    }

    /** The bytes handed to the callback. */
    method Bytes() returns (s: string)
      requires Valid()
      ensures s == text
    {
      s := buf[rp..rp + avail];
    }
  }

  // ----- The waiting chunks -----

  /** The empty chunk is the close sentinel. */
  const SENTINEL := ""

  /** The chunks in front of the sentinel. */
  function Taken(fifo: seq<string>): seq<string> {
    if fifo == [] || fifo[0] == SENTINEL then [] else [fifo[0]] + Taken(fifo[1..])
  }

  /** Largest chunk one read produces. */
  const CHUNK_SIZE := 1024

  /** What handle_input asks of the reactor. */
  datatype ReadAnswer = ReadDefault | ReadAgain | ReadClose

  predicate GotBytes(read: Option<string>) {
    read.Some? && read.value != ""
  }

  /** The reply to bytes that cannot be decoded. */
  function BadMsg(error: string): Message {
    Message("badmsg", [Field("msg", error)])
  }

  /** The replies the undecoded bytes call for. */
  function ErrorReplies(f: Decoded): seq<Message> {
    if f.Bad? then [BadMsg(f.error)] else []
  }

  class InboundClient {
    var fifo: seq<string>
    var ioClosed: bool
    var callbacks: bool            // the callback pointer is set
    var rb: ReadBuffer
    var delivered: seq<Message>    // what the session's listener has been given
    var replies: seq<Message>      // error replies queued for sending
    var closeAsked: bool           // the outbound queue has been asked to close behind them
    var closeCalls: nat            // process_close callbacks made

    ghost predicate Valid()
      reads this, rb, rb.buf
    {
      rb.Valid() && rb.rp == 0
    }

    constructor ()
      ensures Valid() && fresh(rb) && fresh(rb.buf)
      ensures fifo == [] && !ioClosed && callbacks && rb.text == "" && delivered == [] && replies == [] && !closeAsked && closeCalls == 0
    {
      rb := new ReadBuffer(4096);
      fifo, ioClosed, callbacks, delivered, replies, closeAsked, closeCalls := [], false, true, [], [], false, 0;
    }

    /** handle_input with what `read` returned: bytes, nothing at the end of the stream, or an error.
        A full chunk asks for another read; the end and an error ask for a close. */
    method HandleInput(read: Option<string>) returns (answer: ReadAnswer)
      requires read.Some? ==> |read.value| <= CHUNK_SIZE
      modifies this`fifo
      ensures ioClosed ==> fifo == old(fifo) && answer == ReadDefault
      ensures !ioClosed && !GotBytes(read) ==> fifo == old(fifo) && answer == ReadClose
      ensures !ioClosed && GotBytes(read) ==>
                fifo == old(fifo) + [read.value] && answer == if |read.value| == CHUNK_SIZE then ReadAgain else ReadDefault
    {
      if ioClosed { return ReadDefault; }
      if read.None? || read.value == "" { return ReadClose; }
      fifo := fifo + [read.value];
      answer := if |read.value| == CHUNK_SIZE then ReadAgain else ReadDefault;
    }

    /** handle_close: only the first call has an effect. */
    method HandleClose()
      modifies this`fifo, this`ioClosed
      ensures ioClosed
      ensures fifo == if old(ioClosed) then old(fifo) else old(fifo) + [SENTINEL]
    {
      if !ioClosed {
        ioClosed := true;
        fifo := fifo + [SENTINEL];
      }
    }

    /** process_input of the session: decodes one message and reports the bytes used; bytes that
        cannot be decoded are answered with a reply and a request to close. */
    method ProcessInput(src: string) returns (consumed: nat)
      modifies this`delivered, this`replies, this`closeAsked
      ensures var f := Decode(src);
              && consumed == (if f.Got? then f.consumed else 0)
              && delivered == old(delivered) + (if f.Got? then [f.msg] else [])
              && replies == old(replies) + ErrorReplies(f)
              && closeAsked == (old(closeAsked) || f.Bad?)
    {
      var f := SamDecoder.DecodeMsg(src);
      match f
      case Got(n, m) =>
        assert replies + [] == replies;
        consumed, delivered := n, delivered + [m];
      case NeedMore =>
        assert replies + [] == replies && delivered + [] == delivered;
        consumed := 0;
      case Bad(error) =>
        assert PutField([], "msg", error) == [Field("msg", error)];
        consumed, replies, closeAsked := 0, replies + [Message("badmsg", PutField([], "msg", error))], true;
    }

    /** do_work: takes everything up to the sentinel, delivers every complete message and keeps
        the undecoded tail; the sentinel makes it call process_close once and for all. */
    method DoWork()
      requires Valid()
      modifies this, rb, rb.buf
      ensures Valid() && rb == old(rb) && ioClosed == old(ioClosed) && fifo == []
      ensures !old(callbacks) ==>
                && !callbacks && rb.text == old(rb.text) && delivered == old(delivered)
                && replies == old(replies) && closeAsked == old(closeAsked) && closeCalls == old(closeCalls)
      ensures old(callbacks) ==>
                && Receiver(rb.text, delivered) == Work(Decode, Receiver(old(rb.text), old(delivered)), Taken(old(fifo)))
                && callbacks == (SENTINEL !in old(fifo))
                && closeCalls == old(closeCalls) + (if SENTINEL in old(fifo) then 1 else 0)
                && replies == old(replies) + ErrorReplies(Decode(rb.text))
                && closeAsked == (old(closeAsked) || Decode(rb.text).Bad?)
    {
      if !callbacks {
        fifo := [];
        return;
      }
      var close := TakeAndDeliver();
      if close {
        closeCalls := closeCalls + 1;
        callbacks := false;
        fifo := [];
      }
    }

    /** Both loops of do_work and the shift that follows. */
    method TakeAndDeliver() returns (close: bool)
      requires Valid()
      modifies this`fifo, this`delivered, this`replies, this`closeAsked, rb, rb.buf
      ensures Valid() && rb == old(rb)
      ensures Receiver(rb.text, delivered) == Work(Decode, Receiver(old(rb.text), old(delivered)), Taken(old(fifo)))
      ensures close <==> SENTINEL in old(fifo)
      ensures !close ==> fifo == []
      ensures replies == old(replies) + ErrorReplies(Decode(rb.text))
      ensures closeAsked == (old(closeAsked) || Decode(rb.text).Bad?)
    {
      close := TakeChunks();
      Deliver();
      rb.Shift();
    }

    /** The first loop of do_work: copies the waiting chunks into the buffer. */
    method TakeChunks() returns (close: bool)
      requires Valid()
      modifies this`fifo, rb, rb.buf
      ensures Valid() && rb == old(rb) && (rb.buf == old(rb.buf) || fresh(rb.buf))
      ensures rb.text == old(rb.text) + Flatten(Taken(old(fifo)))
      ensures close <==> SENTINEL in old(fifo)
      ensures !close ==> fifo == []
    {
      close := false;
      ghost var all := old(rb.text) + Flatten(Taken(fifo));
      while fifo != [] && !close
        invariant Valid() && rb == old(rb) && (rb.buf == old(rb.buf) || fresh(rb.buf))
        invariant !close ==> all == rb.text + Flatten(Taken(fifo))
        invariant close ==> all == rb.text
        invariant (SENTINEL in old(fifo)) <==> close || SENTINEL in fifo
        decreases |fifo|
      {
        if fifo[0] == SENTINEL {
          close := true;
          assert rb.text + Flatten([]) == rb.text;
        } else {
          ghost var before := rb.text;
          rb.Put(fifo[0]);
          ConcatAssociates(before, fifo[0], Flatten(Taken(fifo[1..])));
        }
        fifo := fifo[1..];
      }
      assert rb.text + Flatten([]) == rb.text;
    }

    /** One offer of the pending bytes: `done` when nothing was consumed. */
    method OfferOnce() returns (done: bool)
      requires rb.Valid()
      modifies this`delivered, this`replies, this`closeAsked, rb
      ensures rb.Valid() && rb.buf == old(rb.buf)
      ensures done ==> rb.text == old(rb.text) && delivered == old(delivered) && !Decode(rb.text).Got?
      ensures done ==> replies == old(replies) + ErrorReplies(Decode(rb.text)) && closeAsked == (old(closeAsked) || Decode(rb.text).Bad?)
      ensures !done ==> replies == old(replies) && closeAsked == old(closeAsked) && |rb.text| < |old(rb.text)|
      ensures !done ==> var f := Decode(old(rb.text));
                f.Got? && f.consumed <= |old(rb.text)| && rb.text == old(rb.text)[f.consumed..] && delivered == old(delivered) + [f.msg]
    {
      var src := rb.Bytes();
      var consumed := ProcessInput(src);
      done := consumed == 0;
      assert replies + [] == replies && delivered + [] == delivered;
      if !done { rb.Consume(consumed); }
    }

    /** The second loop of do_work: offers the bytes until nothing more is consumed. */
    method Deliver()
      requires Valid()
      modifies this`delivered, this`replies, this`closeAsked, rb
      ensures rb.Valid() && rb.buf == old(rb.buf)
      ensures var p := Parse(Decode, old(rb.text));
              rb.text == p.rest && delivered == old(delivered) + p.msgs
      ensures replies == old(replies) + ErrorReplies(Decode(rb.text))
      ensures closeAsked == (old(closeAsked) || Decode(rb.text).Bad?)
    {
      ghost var p := Parse(Decode, rb.text);
      ghost var got: seq<Message> := [];
      var done := false;
      assert [] + p.msgs == p.msgs && delivered + [] == delivered && replies + [] == replies;
      while rb.avail > 0 && !done
        invariant rb.Valid() && rb.buf == old(rb.buf)
        invariant delivered == old(delivered) + got
        invariant p == Parsed(got + Parse(Decode, rb.text).msgs, Parse(Decode, rb.text).rest)
        invariant !done ==> replies == old(replies) && closeAsked == old(closeAsked)
        invariant done ==> !Decode(rb.text).Got?
        invariant done ==> replies == old(replies) + ErrorReplies(Decode(rb.text)) && closeAsked == (old(closeAsked) || Decode(rb.text).Bad?)
        decreases rb.avail, !done
      {
        ghost var before := rb.text;
        done := OfferOnce();
        if !done {
          ParseOne(Decode, before);
          got := Grown(old(delivered), got, Decode(before).msg, Parse(Decode, rb.text).msgs);
        }
      }
      assert got + [] == got;
    }
  }

  lemma ParseOne(dec: string -> Frame<Message>, text: string)
    requires dec(text).Got? && Progress(dec(text), text)
    ensures var p := Parse(dec, text[dec(text).consumed..]); Parse(dec, text) == Parsed([dec(text).msg] + p.msgs, p.rest)
  {
  }

  lemma Grown(before: seq<Message>, got: seq<Message>, m: Message, rest: seq<Message>) returns (more: seq<Message>)
    ensures more == got + [m] && (before + got) + [m] == before + more && got + ([m] + rest) == more + rest
  {
    more := got + [m];
  }
}
