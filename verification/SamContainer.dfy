/** The container with its two lookup maps, and why searching through the maps is the same as
    searching the item list (txContainer in libexio/sam.cc). */
module SamContainer {
  import opened SamTree

  datatype Entry =
    | Leaf(name: string, value: string)
    | Branch(name: string, box: Box)

  /** The item list and, for each of the two kinds, the position an item name leads to. */
  datatype Box = Box(items: seq<Entry>, fields: map<string, nat>, children: map<string, nat>)

  const EmptyBox := Box([], map[], map[])

  // ----- What a container stands for -----

  function ItemsOf(entries: seq<Entry>): (r: seq<Item>)
    ensures |r| == |entries|
    decreases entries
  {
    if entries == [] then [] else [ItemOf(entries[0])] + ItemsOf(entries[1..])
  }

  function ItemOf(e: Entry): Item
    decreases e
  {
    match e
    case Leaf(n, v) => Field(n, v)
    case Branch(n, b) => Node(n, ItemsOf(b.items))
  }

  function Tree(b: Box): seq<Item> {
    ItemsOf(b.items)
  }

  lemma {:induction false} ItemsAt(entries: seq<Entry>, i: nat)
    requires i < |entries|
    ensures ItemsOf(entries)[i] == ItemOf(entries[i])
    decreases i
  {
    if i > 0 { ItemsAt(entries[1..], i - 1); }
  }

  lemma {:induction false} ItemsConcat(a: seq<Entry>, b: seq<Entry>)
    ensures ItemsOf(a + b) == ItemsOf(a) + ItemsOf(b)
    decreases |a|
  {
    if a == [] {
      assert a + b == b;
    } else {
      ItemsConcat(a[1..], b);
      assert (a + b)[1..] == a[1..] + b;
    }
  }

  lemma ItemsUpdate(entries: seq<Entry>, i: nat, e: Entry)
    requires i < |entries|
    ensures ItemsOf(entries[i := e]) == ItemsOf(entries)[i := ItemOf(e)]
  {
    var l, r := ItemsOf(entries[i := e]), ItemsOf(entries)[i := ItemOf(e)];
    forall j | 0 <= j < |entries| ensures l[j] == r[j] {
      ItemsAt(entries[i := e], j);
      ItemsAt(entries, j);
    }
  }

  // ----- The maps agree with the list -----

  predicate FieldsAgree(b: Box) {
    && (forall n :: n in b.fields ==> b.fields[n] < |b.items| && b.items[b.fields[n]].Leaf? && b.items[b.fields[n]].name == n)
    && (forall i :: 0 <= i < |b.items| && b.items[i].Leaf? ==> b.items[i].name in b.fields && b.fields[b.items[i].name] == i)
  }

  predicate ChildrenAgree(b: Box) {
    && (forall n :: n in b.children ==> b.children[n] < |b.items| && b.items[b.children[n]].Branch? && b.items[b.children[n]].name == n)
    && (forall i :: 0 <= i < |b.items| && b.items[i].Branch? ==> b.items[i].name in b.children && b.children[b.items[i].name] == i)
  }

  /** Both maps lead to exactly the items of their kind, at every level. */
  predicate Sound(b: Box) {
    && FieldsAgree(b) && ChildrenAgree(b)
    && forall i :: 0 <= i < |b.items| && b.items[i].Branch? ==> Sound(b.items[i].box)
  }

  /** The map finds what a search of the list would find first. */
  lemma FieldPosIs(b: Box, n: string)
    requires FieldsAgree(b)
    ensures FieldPos(Tree(b), n) == if n in b.fields then b.fields[n] else |b.items|
  {
    var p := FieldPos(Tree(b), n);
    if p < |b.items| { ItemsAt(b.items, p); }
    if n in b.fields { ItemsAt(b.items, b.fields[n]); }
  }

  lemma NodePosIs(b: Box, n: string)
    requires ChildrenAgree(b)
    ensures NodePos(Tree(b), n) == if n in b.children then b.children[n] else |b.items|
  {
    var p := NodePos(Tree(b), n);
    if p < |b.items| { ItemsAt(b.items, p); }
    if n in b.children { ItemsAt(b.items, b.children[n]); }
  }

  lemma {:induction false} SoundIsConsistent(b: Box)
    requires Sound(b)
    ensures Consistent(Tree(b))
    decreases b
  {
    var t := Tree(b);
    forall i, j | 0 <= i < j < |t| && t[i].name == t[j].name ensures t[i].Field? != t[j].Field? {
      ItemsAt(b.items, i);
      ItemsAt(b.items, j);
    }
    forall i | 0 <= i < |t| && t[i].Node? ensures Consistent(t[i].items) {
      ItemsAt(b.items, i);
      SoundIsConsistent(b.items[i].box);
    }
  }

  // ----- Lookups and updates through the maps -----

  function FindLeaf(b: Box, n: string): Option<string>
    requires FieldsAgree(b)
  {
    if n in b.fields then Some(b.items[b.fields[n]].value) else None
  }

  function FindBranch(b: Box, n: string): Option<Box>
    requires ChildrenAgree(b)
  {
    if n in b.children then Some(b.items[b.children[n]].box) else None
  }

  /** A name already in the map keeps its old position, as `std::map::insert` does. */
  function Insert(m: map<string, nat>, n: string, p: nat): map<string, nat> {
    if n in m then m else m[n := p]
  }

  /** `add_internally`. */
  function Add(b: Box, e: Entry): Box {
    Box(b.items + [e],
        if e.Leaf? then Insert(b.fields, e.name, |b.items|) else b.fields,
        if e.Leaf? then b.children else Insert(b.children, e.name, |b.items|))
  }

  /** `put_field(name, value)`. */
  function PutLeaf(b: Box, n: string, v: string): Box
    requires FieldsAgree(b)
  {
    if n in b.fields then b.(items := b.items[b.fields[n] := Leaf(n, v)]) else Add(b, Leaf(n, v))
  }

  /** `put_child(name)`, and then the returned container becomes `kid`. */
  function PutBranch(b: Box, n: string, kid: Box): Box
    requires ChildrenAgree(b)
  {
    if n in b.children then b.(items := b.items[b.children[n] := Branch(n, kid)]) else Add(b, Branch(n, kid))
  }

  lemma FindLeafIs(b: Box, n: string)
    requires FieldsAgree(b)
    ensures FindLeaf(b, n) == FieldVal(Tree(b), n)
  {
    FieldPosIs(b, n);
    if n in b.fields { ItemsAt(b.items, b.fields[n]); }
  }

  lemma FindBranchIs(b: Box, n: string)
    requires Sound(b)
    ensures FindBranch(b, n).Some? == Child(Tree(b), n).Some?
    ensures FindBranch(b, n).Some? ==> Tree(FindBranch(b, n).value) == Child(Tree(b), n).value && Sound(FindBranch(b, n).value)
  {
    NodePosIs(b, n);
    if n in b.children { ItemsAt(b.items, b.children[n]); }
  }

  /** Replacing an entry by one of the same kind and name keeps both maps right. */
  lemma ReplaceSound(b: Box, i: nat, e: Entry)
    requires Sound(b) && i < |b.items| && e.name == b.items[i].name && e.Leaf? == b.items[i].Leaf?
    requires e.Branch? ==> Sound(e.box)
    ensures Sound(b.(items := b.items[i := e]))
  {
  }

  /** Appending an entry whose name is new among its kind keeps both maps right. */
  lemma AddSound(b: Box, e: Entry)
    requires Sound(b) && (if e.Leaf? then e.name !in b.fields else e.name !in b.children && Sound(e.box))
    ensures Sound(Add(b, e))
  {
    var r := Add(b, e);
    assert forall i :: 0 <= i < |b.items| ==> r.items[i] == b.items[i];
    assert FieldsAgree(r);
    assert ChildrenAgree(r);
  }

  lemma PutLeafIs(b: Box, n: string, v: string)
    requires Sound(b)
    ensures Sound(PutLeaf(b, n, v)) && Tree(PutLeaf(b, n, v)) == PutField(Tree(b), n, v)
  {
    FieldPosIs(b, n);
    if n in b.fields {
      ReplaceSound(b, b.fields[n], Leaf(n, v));
      ItemsUpdate(b.items, b.fields[n], Leaf(n, v));
    } else {
      AddSound(b, Leaf(n, v));
      ItemsConcat(b.items, [Leaf(n, v)]);
    }
  }

  lemma PutBranchIs(b: Box, n: string, kid: Box)
    requires Sound(b) && Sound(kid)
    ensures Sound(PutBranch(b, n, kid)) && Tree(PutBranch(b, n, kid)) == PutKids(Tree(b), n, Tree(kid))
  {
    NodePosIs(b, n);
    if n in b.children {
      ReplaceSound(b, b.children[n], Branch(n, kid));
      ItemsUpdate(b.items, b.children[n], Branch(n, kid));
    } else {
      AddSound(b, Branch(n, kid));
      ItemsConcat(b.items, [Branch(n, kid)]);
    }
  }

  // ----- Qualified names -----

  /** `find_field(qname)`: down the child maps, then one look in a field map. */
  method FindLeafAt(b: Box, q: seq<string>) returns (r: Option<string>)
    requires Sound(b)
    ensures r == FindField(Tree(b), q)
  {
    if q == [] {
      FindLeafIs(b, "");
      return FindLeaf(b, "");
    }
    var current := b;
    var i := 0;
    while i < |q| - 1
      invariant 0 <= i < |q| && Sound(current)
      invariant FindField(Tree(b), q) == FindField(Tree(current), q[i..])
    {
      var c := FindBranch(current, q[i]);
      FindBranchIs(current, q[i]);
      assert q[i..][1..] == q[i + 1..];
      if c.None? { return None; }
      current := c.value;
      i := i + 1;
    }
    FindLeafIs(current, q[i]);
    assert q[i..] == [q[i]];
    r := FindLeaf(current, q[i]);
  }

  /** `put_field(qname, value)`: missing containers are made on the way down. */
  method PutLeafAt(b: Box, q: seq<string>, v: string) returns (r: Box)
    requires Sound(b)
    ensures Sound(r) && Tree(r) == PutPath(Tree(b), q, v)
    decreases |q|
  {
    if |q| < 2 {
      var n := if q == [] then "" else q[0];
      PutLeafIs(b, n, v);
      r := PutLeaf(b, n, v);
    } else {
      FindBranchIs(b, q[0]);
      var c := FindBranch(b, q[0]);
      var kid := PutLeafAt(if c.Some? then c.value else EmptyBox, q[1..], v);
      PutBranchIs(b, q[0], kid);
      r := PutBranch(b, q[0], kid);
    }
  }

  // ----- Merge -----

  lemma {:induction false} MergeSnoc(a: seq<Item>, b: seq<Item>, it: Item)
    ensures Merge(a, b + [it]) == MergeItem(Merge(a, b), it)
    decreases |b|
  {
    if b == [] {
      assert b + [it] == [it];
    } else {
      MergeSnoc(MergeItem(a, b[0]), b[1..], it);
      assert (b + [it])[1..] == b[1..] + [it];
    }
  }

  lemma NextEntry(entries: seq<Entry>, i: nat)
    requires i < |entries|
    ensures ItemsOf(entries[..i + 1]) == ItemsOf(entries[..i]) + [ItemOf(entries[i])]
  {
    assert entries[..i + 1] == entries[..i] + [entries[i]];
    ItemsConcat(entries[..i], [entries[i]]);
  }

  /** `merge`: item by item in the order of the source, through the maps of the target. */
  method MergeInto(dst: Box, src: Box) returns (r: Box)
    requires Sound(dst) && Sound(src)
    ensures Sound(r) && Tree(r) == Merge(Tree(dst), Tree(src))
    decreases src
  {
    r := dst;
    var i := 0;
    while i < |src.items|
      invariant i <= |src.items| && Sound(r)
      invariant Tree(r) == Merge(Tree(dst), ItemsOf(src.items[..i]))
    {
      NextEntry(src.items, i);
      MergeSnoc(Tree(dst), ItemsOf(src.items[..i]), ItemOf(src.items[i]));
      r := MergeEntry(r, src.items[i], src);
      i := i + 1;
    }
    assert src.items[..i] == src.items;
  }

  method MergeEntry(dst: Box, e: Entry, ghost src: Box) returns (r: Box)
    requires Sound(dst) && (e.Branch? ==> Sound(e.box)) && e in src.items
    ensures Sound(r) && Tree(r) == MergeItem(Tree(dst), ItemOf(e))
    decreases src, 0
  {
    match e
    case Leaf(n, v) =>
      PutLeafIs(dst, n, v);
      r := PutLeaf(dst, n, v);
    case Branch(n, b) =>
      FindBranchIs(dst, n);
      var c := FindBranch(dst, n);
      if c.Some? {
        var kid := MergeInto(c.value, b);
        PutBranchIs(dst, n, kid);
        r := PutBranch(dst, n, kid);
      } else {
        PutBranchIs(dst, n, b);
        NodePosIs(dst, n);
        r := PutBranch(dst, n, b);
      }
  }
}
