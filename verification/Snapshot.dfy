/** The snapshot batcher: batches that adapt to the encoder's limit
    (libexio/Table.cc, libexio/sam.cc). */
module Snapshot {
  import opened SamText
  import opened SamTree
  import opened SamCodec
  import opened TableModel
  import opened TableMessages

  /** `room_for_snap_fields`. */
  const ROOM := 50

  /** The contents of one row of a message. */
  type Cells = seq<Item>

  /** The batcher accepts these rows in one message. */
  predicate Fits(name: string, rows: seq<Cells>) {
    CheckEncSize(TableUpdate(name, rows, []), ROOM)
  }

  // ----- Sizes -----

  lemma {:induction false} ItemsSizeConcat(a: seq<Item>, b: seq<Item>)
    ensures ItemsSize(a + b) == ItemsSize(a) + ItemsSize(b)
    decreases |a|
  {
    if a == [] {
      assert a + b == b;
    } else {
      ItemsSizeConcat(a[1..], b);
      assert (a + b)[1..] == a[1..] + b;
    }
  }

  lemma {:induction false} PlainHasNoSpecials(s: string)
    requires forall c :: c in s ==> !IsSpecial(c)
    ensures SpecialCount(s) == 0
  {
    if s != [] { PlainHasNoSpecials(s[1..]); }
  }

  lemma NumberFieldSize(n: string, i: int)
    ensures ItemSize(Field(n, ToStr(i))) == |n| + 2 + |ToStr(i)|
  {
    ToStrAtMost11(i);
    PlainHasNoSpecials(ToStr(i));
  }

  lemma TwoItems(a: Item, b: Item)
    ensures ItemsSize([a, b]) == ItemSize(a) + ItemSize(b)
  {
    assert [a, b][1..] == [b];
    assert [b][1..] == [];
    assert ItemsSize([b]) == ItemSize(b);
  }

  /** What of an update message's size depends on the table's name only. */
  function Overhead(name: string): nat {
    CalcSize(Message(TABLE_UPDATE, [Node("head", HeadItems(name)), Node("body", [])]))
  }

  lemma UpdateSize(name: string, rows: seq<seq<Item>>, extra: seq<Item>)
    ensures CalcSize(TableUpdate(name, rows, extra))
         == Overhead(name) + ItemsSize(extra) + |ToStr(|rows|)| + 6 + ItemsSize(RowNodes(rows))
  {
    ItemsSizeConcat(HeadItems(name), extra);
    ItemsSizeConcat([Field("rows", ToStr(|rows|))], RowNodes(rows));
    NumberFieldSize("rows", |rows|);
    var count := Field("rows", ToStr(|rows|));
    assert ItemsSize([count]) == ItemSize(count) by { assert [count][1..] == []; }
    TwoItems(Node("head", HeadItems(name) + extra), Node("body", BodyItems(rows)));
    TwoItems(Node("head", HeadItems(name)), Node("body", []));
  }

  /** What acceptance means for the bytes: with the length counted as five digits, the encoding
      leaves fifty bytes below the limit. */
  lemma FitsMeans(name: string, rows: seq<Cells>)
    ensures var L := |Encode(TableUpdate(name, rows, []))|;
      Fits(name, rows) <==> L + 5 - NumDigits(L) + 50 <= 99999
  {
    CalcTracksEncoder(TableUpdate(name, rows, []));
  }

  /** The two numbering fields never need more than the room kept for them. */
  lemma SnapFieldsFitTheRoom(i: int, n: int)
    ensures ItemsSize(SnapFields(i, n)) <= ROOM
  {
    NumberFieldSize("snapi", i);
    NumberFieldSize("snapn", n);
    ToStrAtMost11(i);
    ToStrAtMost11(n);
    TwoItems(Field("snapi", ToStr(i)), Field("snapn", ToStr(n)));
  }

  /** Every accepted batch, once numbered, still encodes under the limit and so carries the
      short-message tag. */
  lemma NumberedBatchFits(name: string, rows: seq<Cells>, i: int, n: int)
    requires Fits(name, rows)
    ensures var m := TableUpdate(name, rows, SnapFields(i, n));
      && |Encode(m)| <= MAX_MSG_LEN
      && Encode(m)[1..8] == SAM0100
  {
    var m := TableUpdate(name, rows, SnapFields(i, n));
    UpdateSize(name, rows, []);
    UpdateSize(name, rows, SnapFields(i, n));
    SnapFieldsFitTheRoom(i, n);
    CheckedFits(m, 0);
    ShortTag(m);
  }

  lemma ShortTag(m: Message)
    ensures |Encode(m)| <= MAX_MSG_LEN ==> |Encode(m)| >= 8 && Encode(m)[1..8] == SAM0100
  {
    HeaderLength(m);
    var L := FullLength(|Body(m)|);
    HeaderTag(L, Body(m));
  }

  lemma HeaderTag(L: nat, body: string)
    ensures |Header(L) + body| >= 8 && (Header(L) + body)[1..8] == Tag(L)
  {
    assert Header(L) == [MSG_START] + Tag(L) + ([META_DELIM] + Dec(L));
    assert Header(L) + body == [MSG_START] + Tag(L) + ([META_DELIM] + Dec(L) + body);
  }

  lemma {:induction false} OneOfMany(items: seq<Item>, i: nat)
    requires i < |items|
    ensures ItemSize(items[i]) <= ItemsSize(items)
  {
    if i > 0 { OneOfMany(items[1..], i - 1); }
  }

  lemma {:induction false} ItemsTakeRoom(items: seq<Item>)
    ensures |items| <= ItemsSize(items)
  {
    if items != [] { ItemsTakeRoom(items[1..]); }
  }

  lemma FewRows(name: string, rows: seq<Cells>)
    requires Fits(name, rows)
    ensures |rows| <= MAX_MSG_LEN
  {
    UpdateSize(name, rows, []);
    ItemsTakeRoom(RowNodes(rows));
  }

  /** A row of an accepted batch is accepted on its own. */
  lemma FitsAlone(name: string, rows: seq<Cells>, i: nat)
    requires Fits(name, rows) && i < |rows|
    ensures Fits(name, [rows[i]])
  {
    var all, one := rows, [rows[i]];
    UpdateSize(name, all, []);
    UpdateSize(name, one, []);
    OneOfMany(RowNodes(all), i);
    ToStrAtMost11(|rows|);
    OneIsOne();
    var node := Node(RowName(0), rows[i]);
    assert RowNodes(one) == [node];
    assert ItemsSize([node]) == ItemSize(node) by { assert [node][1..] == []; }
  }

  // ----- Batching -----

  function Joined(batches: seq<seq<Cells>>): seq<Cells> {
    if batches == [] then [] else Joined(batches[..|batches| - 1]) + batches[|batches| - 1]
  }

  /** No batch is empty and the batcher accepts each. */
  predicate GoodBatches(name: string, batches: seq<seq<Cells>>) {
    batches == [] || (var l := |batches| - 1; GoodBatches(name, batches[..l]) && batches[l] != [] && Fits(name, batches[l]))
  }

  lemma {:induction false} GoodBatch(name: string, batches: seq<seq<Cells>>, i: nat)
    requires GoodBatches(name, batches) && i < |batches|
    ensures batches[i] != [] && Fits(name, batches[i])
  {
    if i < |batches| - 1 { GoodBatch(name, batches[..|batches| - 1], i); }
  }

  /** Each row is accepted on its own. */
  predicate AllFitAlone(name: string, rows: seq<Cells>) {
    rows == [] || (AllFitAlone(name, rows[..|rows| - 1]) && Fits(name, [rows[|rows| - 1]]))
  }

  lemma {:induction false} AllFitAloneMeans(name: string, rows: seq<Cells>)
    ensures AllFitAlone(name, rows) <==> forall i :: 0 <= i < |rows| ==> Fits(name, [rows[i]])
  {
    if rows != [] {
      var front := rows[..|rows| - 1];
      AllFitAloneMeans(name, front);
      assert forall i :: 0 <= i < |front| ==> front[i] == rows[i];
    }
  }

  /** The first `k` batches as messages, numbered among `n`. */
  function SomeMessages(name: string, batches: seq<seq<Cells>>, k: nat, n: nat): (r: seq<Message>)
    requires k <= |batches|
    ensures |r| == k
    ensures forall i :: 0 <= i < k ==> r[i] == TableUpdate(name, batches[i], SnapFields(i, n))
  {
    if k == 0 then []
    else SomeMessages(name, batches, k - 1, n) + [TableUpdate(name, batches[k - 1], SnapFields(k - 1, n))]
  }

  function SnapshotMessages(name: string, batches: seq<seq<Cells>>): seq<Message> {
    SomeMessages(name, batches, |batches|, |batches|)
  }

  /** `cells` are the contents of `rows`. */
  predicate Rendered(cells: seq<Cells>, rows: seq<Row>) {
    |cells| == |rows| && (rows == [] || (cells[0] == RowItems(rows[0]) && Rendered(cells[1..], rows[1..])))
  }

  lemma {:induction false} ItemsAreRendered(rows: seq<Row>)
    ensures Rendered(ItemsOf(rows), rows)
  {
    if rows != [] { ItemsAreRendered(rows[1..]); }
  }

  lemma {:induction false} RenderedAt(cells: seq<Cells>, rows: seq<Row>, k: nat)
    requires Rendered(cells, rows) && k < |rows|
    ensures cells[k] == RowItems(rows[k])
  {
    if k > 0 { RenderedAt(cells[1..], rows[1..], k - 1); }
  }

  lemma NextCells(rows: seq<Row>, cells: seq<Cells>, next: nat, row: nat)
    requires Rendered(cells, rows) && next <= row < |rows|
    ensures cells[next..row] + [RowItems(rows[row])] == cells[next..row + 1]
  {
    RenderedAt(cells, rows, row);
    SliceGrows(cells, next, row);
  }

  lemma SliceGrows<T>(s: seq<T>, i: nat, j: nat)
    requires i <= j < |s|
    ensures s[i..j] + [s[j]] == s[i..j + 1]
  {
  }

  /** One batch: up to `size` rows from `next` on. */
  method BuildBatch(name: string, rows: seq<Row>, next: nat, size: nat, ghost cells: seq<Cells>) returns (m: Message, row: nat)
    requires next <= |rows| && Rendered(cells, rows)
    ensures row == if next + size < |rows| then next + size else |rows|
    ensures m == TableUpdate(name, cells[next..row], [])
  {
    row := next;
    m := StartSnapshot(name);
    ghost var got := [];
    var i := 0;
    while i < size && row < |rows|
      invariant i <= size && row == next + i <= |rows|
      invariant m == TableUpdate(name, got, []) && got == cells[next..row]
    {
      m, got := AddNextRow(m, rows, row, name, next, cells, got);
      i, row := i + 1, row + 1;
    }
  }

  method AddNextRow(m: Message, rows: seq<Row>, row: nat, ghost name: string, ghost next: nat, ghost cells: seq<Cells>, ghost got: seq<Cells>)
    returns (m': Message, ghost got': seq<Cells>)
    requires Rendered(cells, rows) && next <= row < |rows| && got == cells[next..row] && m == TableUpdate(name, got, [])
    ensures got' == cells[next..row + 1] && m' == TableUpdate(name, got', [])
  {
    m' := AddSnapshotRow(m, rows[row], name, got);
    got' := got + [RowItems(rows[row])];
    NextCells(rows, cells, next, row);
  }

  lemma BatchFitsAlone(name: string, rows: seq<Cells>, next: nat, row: nat)
    requires next <= row <= |rows| && Fits(name, rows[next..row])
    ensures forall k :: next <= k < row ==> Fits(name, [rows[k]])
  {
    forall k | next <= k < row ensures Fits(name, [rows[k]]) {
      FitsAlone(name, rows[next..row], k - next);
    }
  }

  lemma AllFitExtends(name: string, rows: seq<Cells>, next: nat, row: nat)
    requires next <= row <= |rows| && AllFitAlone(name, rows[..next]) && Fits(name, rows[next..row])
    ensures AllFitAlone(name, rows[..row])
  {
    AllFitAloneMeans(name, rows[..next]);
    AllFitAloneMeans(name, rows[..row]);
    BatchFitsAlone(name, rows, next, row);
    forall i | 0 <= i < row ensures Fits(name, [rows[..row][i]]) {
      if i < next { assert rows[..row][i] == rows[..next][i]; } else { assert rows[..row][i] == rows[i]; }
    }
  }

  lemma OneMisfit(name: string, rows: seq<Cells>, i: nat)
    requires i < |rows| && !Fits(name, [rows[i]])
    ensures !AllFitAlone(name, rows)
  {
    AllFitAloneMeans(name, rows);
  }

  /** The batches that make up the first `next` rows, not yet numbered. */
  ghost predicate Queued(name: string, rows: seq<Cells>, next: nat, msgs: seq<Message>, batches: seq<seq<Cells>>) {
    && next <= |rows| && Joined(batches) == rows[..next] && |msgs| == |batches|
    && GoodBatches(name, batches)
    && (forall i :: 0 <= i < |msgs| ==> msgs[i] == TableUpdate(name, batches[i], []))
  }

  lemma QueueOne(name: string, rows: seq<Cells>, next: nat, row: nat, msgs: seq<Message>, batches: seq<seq<Cells>>)
    requires Queued(name, rows, next, msgs, batches) && next < row <= |rows| && Fits(name, rows[next..row])
    ensures Queued(name, rows, row, msgs + [TableUpdate(name, rows[next..row], [])], batches + [rows[next..row]])
  {
    var b := batches + [rows[next..row]];
    assert b[..|batches|] == batches;
    assert rows[..next] + rows[next..row] == rows[..row];
  }

  // ----- The batch size -----

  /** Half the size, but at least one. */
  function Halve(z: nat): nat {
    if z / 2 > 1 then z / 2 else 1
  }

  /** `size` comes from `start` by halving. */
  predicate Reached(start: nat, size: nat) {
    size == start || (start > 1 && Reached(Halve(start), size))
  }

  lemma {:induction false} ReachedStep(start: nat, size: nat)
    requires Reached(start, size) && size > 1
    ensures Reached(start, Halve(size))
  {
    if size == start {
      assert Reached(Halve(start), Halve(start));
    } else {
      ReachedStep(Halve(start), size);
    }
  }

  /** The encoder's limit refuses `z` rows, or as many as there are, from `next` on. */
  predicate Refused(name: string, rows: seq<Cells>, next: nat, z: nat) {
    next < |rows| && !Fits(name, rows[next..if next + z < |rows| then next + z else |rows|])
  }

  /** The size went down only because the size before was refused somewhere. */
  ghost predicate Shrunk(name: string, rows: seq<Cells>, start: nat, size: nat) {
    size == start || exists next: nat, z: nat :: Refused(name, rows, next, z) && Reached(start, z) && 1 < z && size == Halve(z)
  }

  /** The lengths of the batches lie between the bounds. */
  predicate Between(batches: seq<seq<Cells>>, lo: nat, hi: nat) {
    batches == [] || (var l := |batches| - 1; Between(batches[..l], lo, hi) && lo <= |batches[l]| <= hi)
  }

  lemma {:induction false} BetweenLower(batches: seq<seq<Cells>>, lo: nat, lo': nat, hi: nat)
    requires Between(batches, lo, hi) && lo' <= lo
    ensures Between(batches, lo', hi)
  {
    if batches != [] { BetweenLower(batches[..|batches| - 1], lo, lo', hi); }
  }

  /** No batch is over `hi`, and only the one that reaches the end of the table is under `lo`. */
  predicate Full(batches: seq<seq<Cells>>, lo: nat, hi: nat, atEnd: bool) {
    if batches == [] then true
    else var l := |batches| - 1; Between(batches[..l], lo, hi) && |batches[l]| <= hi && (atEnd || lo <= |batches[l]|)
  }

  lemma FullGrows(batches: seq<seq<Cells>>, b: seq<Cells>, lo: nat, hi: nat, atEnd: bool)
    requires Full(batches, lo, hi, false) && |b| <= hi && (atEnd || lo <= |b|)
    ensures Full(batches + [b], lo, hi, atEnd)
  {
    assert (batches + [b])[..|batches|] == batches;
  }

  lemma FullLower(batches: seq<seq<Cells>>, lo: nat, lo': nat, hi: nat)
    requires Full(batches, lo, hi, false) && lo' <= lo
    ensures Full(batches, lo', hi, false)
  {
    if batches != [] { BetweenLower(batches[..|batches| - 1], lo, lo', hi); }
  }

  /** What the cutting loop keeps: the batches queued so far, and what is known of the size. */
  ghost predicate Cutting(name: string, rows: seq<Cells>, next: nat, msgs: seq<Message>, batches: seq<seq<Cells>>,
                          start: nat, size: nat) {
    && Queued(name, rows, next, msgs, batches) && AllFitAlone(name, rows[..next])
    && 1 <= size <= start && Reached(start, size) && Shrunk(name, rows, start, size)
    && Full(batches, size, start, next == |rows|)
  }

  lemma AcceptKeeps(name: string, rows: seq<Cells>, next: nat, row: nat, msgs: seq<Message>, batches: seq<seq<Cells>>,
                    start: nat, size: nat)
    requires Cutting(name, rows, next, msgs, batches, start, size) && next < |rows|
    requires row == (if next + size < |rows| then next + size else |rows|) && Fits(name, rows[next..row])
    ensures Cutting(name, rows, row, msgs + [TableUpdate(name, rows[next..row], [])], batches + [rows[next..row]], start, size)
  {
    AllFitExtends(name, rows, next, row);
    QueueOne(name, rows, next, row, msgs, batches);
    FullGrows(batches, rows[next..row], size, start, row == |rows|);
  }

  lemma RefuseKeeps(name: string, rows: seq<Cells>, next: nat, msgs: seq<Message>, batches: seq<seq<Cells>>, start: nat, size: nat)
    requires Cutting(name, rows, next, msgs, batches, start, size) && Refused(name, rows, next, size) && size > 1
    ensures Cutting(name, rows, next, msgs, batches, start, Halve(size))
  {
    ReachedStep(start, size);
    FullLower(batches, size, Halve(size), start);
  }

  /** The next batch of `size` rows, and whether it is accepted. */
  method TryBatch(name: string, rows: seq<Row>, next: nat, size: nat, ghost cells: seq<Cells>)
    returns (fits: bool, m: Message, row: nat)
    requires next < |rows| && Rendered(cells, rows)
    ensures row == if next + size < |rows| then next + size else |rows|
    ensures m == TableUpdate(name, cells[next..row], [])
    ensures fits <==> Fits(name, cells[next..row])
    ensures !fits <==> Refused(name, cells, next, size)
  {
    m, row := BuildBatch(name, rows, next, size, cells);
    fits := CheckEncSize(m, ROOM);
  }

  lemma Hopeless(name: string, rows: seq<Cells>, next: nat)
    requires Refused(name, rows, next, 1)
    ensures !AllFitAlone(name, rows)
  {
    assert rows[next..next + 1] == [rows[next]];
    OneMisfit(name, rows, next);
  }

  /** One turn of the cutting loop: a batch is queued, or the size is halved, or it is hopeless. */
  method CutTurn(name: string, rows: seq<Row>, next: nat, msgs: seq<Message>, start: nat, size: nat,
                 ghost cells: seq<Cells>, ghost batches: seq<seq<Cells>>)
    returns (ok: bool, next': nat, msgs': seq<Message>, size': nat, ghost batches': seq<seq<Cells>>)
    requires Rendered(cells, rows) && Cutting(name, cells, next, msgs, batches, start, size) && next < |rows|
    ensures !ok ==> !AllFitAlone(name, cells) && next' == next && size' == size
    ensures ok ==> Cutting(name, cells, next', msgs', batches', start, size')
    ensures ok ==> (next < next' <= |rows| && size' == size) || (next' == next && size' < size)
  {
    var fits, m, row := TryBatch(name, rows, next, size, cells);
    if fits {
      AcceptKeeps(name, cells, next, row, msgs, batches, start, size);
      return true, row, msgs + [m], size, batches + [cells[next..row]];
    }
    if size == 1 {
      Hopeless(name, cells, next);
      return false, next, msgs, size, batches;
    }
    RefuseKeeps(name, cells, next, msgs, batches, start, size);
    return true, next, msgs, Halve(size), batches;
  }

  lemma CuttingStarts(name: string, rows: seq<Cells>, start: nat)
    requires start >= 1
    ensures Cutting(name, rows, 0, [], [], start, start)
  {
    assert rows[..0] == [];
  }

  /** Cutting the rows into accepted batches, halving the batch size at each refusal. It gives
      up exactly when some row does not fit on its own. The size that remains is one that
      halving reaches, and the size before it was refused; every batch but the last has at least
      that many rows. */
  method CutBatches(name: string, rows: seq<Row>, start: nat, ghost cells: seq<Cells>)
    returns (ok: bool, msgs: seq<Message>, size: nat, ghost batches: seq<seq<Cells>>)
    requires start >= 1 && Rendered(cells, rows)
    ensures ok <==> AllFitAlone(name, cells)
    ensures ok ==> Cutting(name, cells, |rows|, msgs, batches, start, size) && Joined(batches) == cells
  {
    var next := 0;
    ok, msgs, size, batches := true, [], start, [];
    CuttingStarts(name, cells, start);
    while next < |rows| && ok
      invariant next <= |rows|
      invariant ok ==> Cutting(name, cells, next, msgs, batches, start, size)
      invariant !ok ==> !AllFitAlone(name, cells)
      decreases |rows| - next, size, ok
    {
      ok, next, msgs, size, batches := CutTurn(name, rows, next, msgs, start, size, cells, batches);
    }
    assert cells[..|rows|] == cells;
  }

  /** Every message is within the limit and carries the short-message tag. */
  predicate AllShort(msgs: seq<Message>) {
    forall m :: m in msgs ==> |Encode(m)| <= MAX_MSG_LEN && Encode(m)[1..8] == SAM0100
  }

  /** Message i says that it is number i, and how many there are. */
  predicate Numbered(msgs: seq<Message>) {
    |msgs| < 0x8000_0000 ==>
      forall i :: 0 <= i < |msgs| ==>
        && FindField(msgs[i].items, ["head", "snapi"]) == Some(Dec(i))
        && FindField(msgs[i].items, ["head", "snapn"]) == Some(Dec(|msgs|))
  }

  lemma SnapshotIsNumbered(name: string, batches: seq<seq<Cells>>)
    ensures Numbered(SnapshotMessages(name, batches))
  {
    var msgs := SnapshotMessages(name, batches);
    if |msgs| < 0x8000_0000 {
      forall i | 0 <= i < |msgs|
        ensures FindField(msgs[i].items, ["head", "snapi"]) == Some(Dec(i))
        ensures FindField(msgs[i].items, ["head", "snapn"]) == Some(Dec(|msgs|))
      {
        NumbersAreRead(name, batches[i], i, |batches|);
      }
    }
  }

  /** The snapshot of a table: on success the batches concatenate to the rows in order, message
      i carries batch i and the numbers i and n, and each message encodes under the limit. It
      fails exactly when some row on its own does not fit. */
  method TakeSnapshot(name: string, rows: seq<Row>, start: nat)
    returns (ok: bool, msgs: seq<Message>, size: nat, ghost batches: seq<seq<Cells>>)
    requires start >= 1
    ensures ok <==> AllFitAlone(name, ItemsOf(rows))
    ensures ok ==> 1 <= size <= start
    ensures !ok ==> msgs == []
    ensures ok ==> Joined(batches) == ItemsOf(rows) && GoodBatches(name, batches) && msgs == SnapshotMessages(name, batches)
    ensures ok ==> Shrunk(name, ItemsOf(rows), start, size) && Full(batches, size, start, true)
    ensures AllShort(msgs) && Numbered(msgs)
  {
    ItemsAreRendered(rows);
    var plain;
    ok, plain, size, batches := CutBatches(name, rows, start, ItemsOf(rows));
    msgs := [];
    if ok {
      msgs := NumberAll(name, plain, batches);
      SnapshotIsNumbered(name, batches);
    }
  }

  /** The numbering loop. */
  method NumberAll(name: string, plain: seq<Message>, ghost batches: seq<seq<Cells>>) returns (msgs: seq<Message>)
    requires |plain| == |batches| && GoodBatches(name, batches)
    requires forall i :: 0 <= i < |plain| ==> plain[i] == TableUpdate(name, batches[i], [])
    ensures msgs == SnapshotMessages(name, batches) && AllShort(msgs)
  {
    msgs := [];
    var snapi := 0;
    while snapi < |plain|
      invariant snapi <= |plain| && msgs == SomeMessages(name, batches, snapi, |plain|) && AllShort(msgs)
    {
      var m := NumberSnapshot(plain[snapi], snapi, |plain|, name, batches[snapi]);
      GoodBatch(name, batches, snapi);
      NumberedBatchFits(name, batches[snapi], snapi, |plain|);
      msgs, snapi := msgs + [m], snapi + 1;
    }
  }
}
