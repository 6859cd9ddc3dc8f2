/** Message trees: ordered items, fields and child containers looked up separately,
    and the recursive merge (txContainer in libexio/sam.cc). */
module SamTree {

  datatype Option<+T> = None | Some(value: T)

  datatype Item =
    | Field(name: string, value: string)
    | Node(name: string, items: seq<Item>)

  datatype Message = Message(mtype: string, items: seq<Item>)

  const EmptyMessage := Message("", [])

  predicate IsField(it: Item, n: string) {
    it.Field? && it.name == n
  }

  predicate IsNode(it: Item, n: string) {
    it.Node? && it.name == n
  }

  /** The position the field map leads to, or the length when the name is absent. */
  function FieldPos(items: seq<Item>, n: string): (i: nat)
    ensures i <= |items|
    ensures i < |items| ==> IsField(items[i], n)
    ensures forall k :: 0 <= k < i ==> !IsField(items[k], n)
  {
    if items == [] || IsField(items[0], n) then 0 else 1 + FieldPos(items[1..], n)
  }

  /** The position the child map leads to, or the length when the name is absent. */
  function NodePos(items: seq<Item>, n: string): (i: nat)
    ensures i <= |items|
    ensures i < |items| ==> IsNode(items[i], n)
    ensures forall k :: 0 <= k < i ==> !IsNode(items[k], n)
  {
    if items == [] || IsNode(items[0], n) then 0 else 1 + NodePos(items[1..], n)
  }

  /** Field names are distinct, child names are distinct, at every level. A field and a
      child may share a name. */
  predicate Consistent(items: seq<Item>) {
    && (forall i, j :: 0 <= i < j < |items| && items[i].name == items[j].name ==> items[i].Field? != items[j].Field?)
    && (forall i :: 0 <= i < |items| && items[i].Node? ==> Consistent(items[i].items))
  }

  function FieldVal(items: seq<Item>, n: string): Option<string> {
    var i := FieldPos(items, n);
    if i < |items| then Some(items[i].value) else None
  }

  function Child(items: seq<Item>, n: string): Option<seq<Item>> {
    var i := NodePos(items, n);
    if i < |items| then Some(items[i].items) else None
  }

  // ----- Updates -----

  /** put_field(name, value): overwrite in place or append. */
  function PutField(items: seq<Item>, n: string, v: string): seq<Item> {
    var i := FieldPos(items, n);
    if i < |items| then items[i := Field(n, v)] else items + [Field(n, v)]
  }

  /** The contents of the child a put_child(name) returns. */
  function Kids(items: seq<Item>, n: string): seq<Item> {
    var c := Child(items, n);
    if c.Some? then c.value else []
  }

  /** put_child(name) followed by giving that child the contents `kids`. */
  function PutKids(items: seq<Item>, n: string, kids: seq<Item>): seq<Item> {
    var i := NodePos(items, n);
    if i < |items| then items[i := Node(n, kids)] else items + [Node(n, kids)]
  }

  // ----- Qualified names -----

  /** find_field(qname): the empty qualified name means the field called "". */
  function FindField(items: seq<Item>, q: seq<string>): Option<string>
    decreases |q|
  {
    if |q| == 0 then FieldVal(items, "")
    else if |q| == 1 then FieldVal(items, q[0])
    else match Child(items, q[0])
      case None => None
      case Some(kids) => FindField(kids, q[1..])
  }

  /** find_child(qname). */
  function FindChild(items: seq<Item>, q: seq<string>): Option<seq<Item>>
    decreases |q|
  {
    if |q| == 0 then Child(items, "")
    else if |q| == 1 then Child(items, q[0])
    else match Child(items, q[0])
      case None => None
      case Some(kids) => FindChild(kids, q[1..])
  }

  /** put_field(qname, value): builds the containers on the way. */
  function PutPath(items: seq<Item>, q: seq<string>, v: string): seq<Item>
    decreases |q|
  {
    if |q| == 0 then PutField(items, "", v)
    else if |q| == 1 then PutField(items, q[0], v)
    else PutKids(items, q[0], PutPath(Kids(items, q[0]), q[1..], v))
  }

  // ----- Merge -----

  function MergeItem(dst: seq<Item>, it: Item): seq<Item>
    decreases it
  {
    match it
    case Field(n, v) => PutField(dst, n, v)
    case Node(n, kids) =>
      var c := Child(dst, n);
      if c.Some? then PutKids(dst, n, Merge(c.value, kids)) else dst + [it]
  }

  /** merge(src): item by item, in the order of `src`. */
  function Merge(dst: seq<Item>, src: seq<Item>): seq<Item>
    decreases src
  {
    if src == [] then dst else Merge(MergeItem(dst, src[0]), src[1..])
  }

  // ----- What an update does to the lookups -----

  lemma PutFieldLookup(a: seq<Item>, n: string, v: string, m: string)
    ensures FieldVal(PutField(a, n, v), m) == if m == n then Some(v) else FieldVal(a, m)
    ensures Child(PutField(a, n, v), m) == Child(a, m)
  {
    var r := PutField(a, n, v);
    SameField(a, r, n, m);
    SameNode(a, r, m);
  }

  lemma PutKidsLookup(a: seq<Item>, n: string, kids: seq<Item>, m: string)
    ensures FieldVal(PutKids(a, n, kids), m) == FieldVal(a, m)
    ensures Child(PutKids(a, n, kids), m) == if m == n then Some(kids) else Child(a, m)
  {
    var r := PutKids(a, n, kids);
    var i, j := FieldPos(a, m), FieldPos(r, m);
    if i < |a| { assert r[i] == a[i]; }
    if j < |a| { assert IsField(a[j], m) || j == |a|; }
    var x, y := NodePos(a, m), NodePos(r, m);
    if x < |a| { assert IsNode(r[x], m); }
    if m == n { assert IsNode(r[NodePos(a, n)], n); }
    if y < |a| { assert IsNode(a[y], m); }
  }

  lemma SameField(a: seq<Item>, r: seq<Item>, n: string, m: string)
    requires exists v :: r == PutField(a, n, v)
    ensures FieldPos(r, m) == if m == n || FieldPos(a, m) < |a| then FieldPos(a, m) else |r|
  {
    var i, j := FieldPos(a, m), FieldPos(r, m);
    if i < |a| { assert IsField(r[i], m); }
    if m == n { assert IsField(r[FieldPos(a, n)], n); }
    if j < |a| { assert IsField(a[j], m); }
  }

  lemma SameNode(a: seq<Item>, r: seq<Item>, m: string)
    requires exists n, v :: r == PutField(a, n, v)
    ensures NodePos(r, m) == if NodePos(a, m) < |a| then NodePos(a, m) else |r|
  {
    var i, j := NodePos(a, m), NodePos(r, m);
    if i < |a| { assert r[i] == a[i]; }
    if j < |a| { assert IsNode(a[j], m); }
  }

  /** Every update keeps the two name spaces duplicate-free. */
  lemma PutFieldConsistent(a: seq<Item>, n: string, v: string)
    requires Consistent(a)
    ensures Consistent(PutField(a, n, v))
  {
  }

  lemma PutKidsConsistent(a: seq<Item>, n: string, kids: seq<Item>)
    requires Consistent(a) && Consistent(kids)
    ensures Consistent(PutKids(a, n, kids))
  {
  }

  lemma {:induction false} PutPathFinds(a: seq<Item>, q: seq<string>, v: string)
    ensures FindField(PutPath(a, q, v), q) == Some(v)
    decreases |q|
  {
    if |q| == 0 {
      PutFieldLookup(a, "", v, "");
    } else if |q| == 1 {
      PutFieldLookup(a, q[0], v, q[0]);
    } else {
      var kids := PutPath(Kids(a, q[0]), q[1..], v);
      PutKidsLookup(a, q[0], kids, q[0]);
      PutPathFinds(Kids(a, q[0]), q[1..], v);
    }
  }

  /** The field a qualified name means: the empty one means the field called "". */
  function Target(q: seq<string>): seq<string> {
    if q == [] then [""] else q
  }

  /** Putting a field under a qualified name leaves every other field as it was, at every level. */
  lemma {:induction false} PutPathFrame(a: seq<Item>, q: seq<string>, v: string, p: seq<string>)
    requires Target(p) != Target(q)
    ensures FindField(PutPath(a, q, v), p) == FindField(a, p)
    decreases |q|
  {
    var n := Target(q)[0];
    var m := Target(p)[0];
    if |q| < 2 {
      PutFieldLookup(a, n, v, m);
      if |p| < 2 { assert Target(p) == [m] && Target(q) == [n]; }
    } else {
      PutKidsLookup(a, n, PutPath(Kids(a, n), q[1..], v), m);
      if |p| >= 2 && m == n {
        assert p == [m] + p[1..] && q == [n] + q[1..];
        PutPathFrame(Kids(a, n), q[1..], v, p[1..]);
        if Child(a, n).None? { NothingInNothing(p[1..]); }
      }
    }
  }

  lemma NothingInNothing(p: seq<string>)
    ensures FindField([], p) == None
  {
  }

  lemma {:induction false} PutPathConsistent(a: seq<Item>, q: seq<string>, v: string)
    requires Consistent(a)
    ensures Consistent(PutPath(a, q, v))
    decreases |q|
  {
    if |q| < 2 {
      PutFieldConsistent(a, if |q| == 0 then "" else q[0], v);
    } else {
      PutPathConsistent(Kids(a, q[0]), q[1..], v);
      PutKidsConsistent(a, q[0], PutPath(Kids(a, q[0]), q[1..], v));
    }
  }

  // ----- Merge: keeps consistency -----

  lemma {:induction false} MergeConsistent(a: seq<Item>, b: seq<Item>)
    requires Consistent(a) && Consistent(b)
    ensures Consistent(Merge(a, b))
    decreases b
  {
    if b != [] {
      MergeItemConsistent(a, b[0]);
      TailConsistent(b);
      MergeConsistent(MergeItem(a, b[0]), b[1..]);
    }
  }

  lemma {:induction false} MergeItemConsistent(a: seq<Item>, it: Item)
    requires Consistent(a) && (it.Node? ==> Consistent(it.items))
    ensures Consistent(MergeItem(a, it))
    decreases it
  {
    match it
    case Field(n, v) => PutFieldConsistent(a, n, v);
    case Node(n, kids) =>
      var c := Child(a, n);
      if c.Some? {
        MergeConsistent(c.value, kids);
        PutKidsConsistent(a, n, Merge(c.value, kids));
      }
  }

  lemma TailConsistent(b: seq<Item>)
    requires Consistent(b) && b != []
    ensures Consistent(b[1..])
    ensures b[0].Field? ==> FieldVal(b[1..], b[0].name).None?
    ensures b[0].Node? ==> Child(b[1..], b[0].name).None? && Consistent(b[0].items)
  {
    var t := b[1..];
    forall i, j | 0 <= i < j < |t| && t[i].name == t[j].name ensures t[i].Field? != t[j].Field? {
      assert t[i] == b[i + 1] && t[j] == b[j + 1];
    }
    forall k | 0 <= k < |t| ensures t[k].name == b[0].name ==> t[k].Field? != b[0].Field? {
      assert t[k] == b[k + 1];
    }
  }

  // ----- Merge: right-biased union at one level, then at every path -----

  function Either<T>(right: Option<T>, left: Option<T>): Option<T> {
    if right.Some? then right else left
  }

  lemma {:induction false} MergeField(a: seq<Item>, b: seq<Item>, n: string)
    requires Consistent(b)
    ensures FieldVal(Merge(a, b), n) == Either(FieldVal(b, n), FieldVal(a, n))
    decreases |b|
  {
    if b != [] {
      TailConsistent(b);
      MergeField(MergeItem(a, b[0]), b[1..], n);
      MergeItemLookup(a, b[0], n);
    }
  }

  /** One merged item: the lookups change only at its own name. */
  lemma MergeItemLookup(a: seq<Item>, it: Item, n: string)
    ensures FieldVal(MergeItem(a, it), n) == if IsField(it, n) then Some(it.value) else FieldVal(a, n)
    ensures Child(MergeItem(a, it), n) == if IsNode(it, n) then MergedChild(Child(a, n), Some(it.items)) else Child(a, n)
  {
    match it
    case Field(m, v) => PutFieldLookup(a, m, v, n);
    case Node(m, kids) =>
      var c := Child(a, m);
      if c.Some? {
        PutKidsLookup(a, m, Merge(c.value, kids), n);
      } else {
        assert it == Node(m, kids);
        PutKidsLookup(a, m, kids, n);
      }
  }

  function MergedChild(left: Option<seq<Item>>, right: Option<seq<Item>>): Option<seq<Item>> {
    if left.Some? && right.Some? then Some(Merge(left.value, right.value)) else Either(right, left)
  }

  lemma {:induction false} MergeChild(a: seq<Item>, b: seq<Item>, n: string)
    requires Consistent(b)
    ensures Child(Merge(a, b), n) == MergedChild(Child(a, n), Child(b, n))
    decreases |b|
  {
    if b != [] {
      TailConsistent(b);
      MergeChild(MergeItem(a, b[0]), b[1..], n);
      MergeItemLookup(a, b[0], n);
    }
  }

  lemma ChildConsistent(a: seq<Item>, n: string)
    requires Consistent(a)
    ensures Child(a, n).Some? ==> Consistent(Child(a, n).value)
  {
  }

  /** merge is a right-biased deep union: at every qualified name the merged value is the
      source's if it has one and the old value otherwise. */
  lemma {:induction false} MergeFindField(a: seq<Item>, b: seq<Item>, q: seq<string>)
    requires Consistent(b)
    ensures FindField(Merge(a, b), q) == Either(FindField(b, q), FindField(a, q))
    decreases |q|
  {
    if |q| < 2 {
      MergeField(a, b, if |q| == 0 then "" else q[0]);
    } else {
      MergeChild(a, b, q[0]);
      ChildConsistent(b, q[0]);
      if Child(a, q[0]).Some? && Child(b, q[0]).Some? {
        MergeFindField(Child(a, q[0]).value, Child(b, q[0]).value, q[1..]);
      }
    }
  }

  /** The containers of the merge are those of either side. */
  lemma {:induction false} MergeFindChild(a: seq<Item>, b: seq<Item>, q: seq<string>)
    requires Consistent(b)
    ensures FindChild(Merge(a, b), q) == MergedChild(FindChild(a, q), FindChild(b, q))
    decreases |q|
  {
    if |q| < 2 {
      MergeChild(a, b, if |q| == 0 then "" else q[0]);
    } else {
      MergeChild(a, b, q[0]);
      ChildConsistent(b, q[0]);
      if Child(a, q[0]).Some? && Child(b, q[0]).Some? {
        MergeFindChild(Child(a, q[0]).value, Child(b, q[0]).value, q[1..]);
      }
    }
  }

  // ----- Merge: order -----

  /** Name and kind of an item. */
  function Key(it: Item): (bool, string) {
    (it.Field?, it.name)
  }

  function Keys(items: seq<Item>): (r: seq<(bool, string)>)
    ensures |r| == |items| && forall i :: 0 <= i < |r| ==> r[i] == Key(items[i])
  {
    if items == [] then [] else [Key(items[0])] + Keys(items[1..])
  }

  /** The keys of `b` that `known` does not hold, in the order of `b`. */
  function NewKeys(known: seq<(bool, string)>, b: seq<Item>): seq<(bool, string)>
    decreases |b|
  {
    if b == [] then []
    else if Key(b[0]) in known then NewKeys(known, b[1..])
    else [Key(b[0])] + NewKeys(known + [Key(b[0])], b[1..])
  }

  lemma MergeItemKeys(a: seq<Item>, it: Item)
    ensures Keys(MergeItem(a, it)) == if Key(it) in Keys(a) then Keys(a) else Keys(a) + [Key(it)]
  {
    var ks := Keys(a);
    var r := MergeItem(a, it);
    if it.Field? {
      var i := FieldPos(a, it.name);
      assert i < |a| ==> ks[i] == Key(it);
      assert Key(it) in ks ==> exists k :: 0 <= k < |a| && ks[k] == Key(it) && IsField(a[k], it.name);
    } else {
      var i := NodePos(a, it.name);
      assert i < |a| ==> ks[i] == Key(it);
      assert Key(it) in ks ==> exists k :: 0 <= k < |a| && ks[k] == Key(it) && IsNode(a[k], it.name);
    }
    assert Keys(r) == if Key(it) in ks then ks else ks + [Key(it)];
  }

  /** Old items keep their places; new ones follow in the order of the source. */
  lemma {:induction false} MergeOrder(a: seq<Item>, b: seq<Item>)
    ensures Keys(Merge(a, b)) == Keys(a) + NewKeys(Keys(a), b)
    decreases |b|
  {
    if b != [] {
      MergeItemKeys(a, b[0]);
      MergeOrder(MergeItem(a, b[0]), b[1..]);
    }
  }

  // ----- Merge: idempotent -----

  /** `m` already says everything `b` says. */
  predicate Covers(m: seq<Item>, b: seq<Item>)
    decreases b
  {
    forall i :: 0 <= i < |b| ==> CoversItem(m, b[i])
  }

  predicate CoversItem(m: seq<Item>, it: Item)
    decreases it
  {
    match it
    case Field(n, v) => FieldVal(m, n) == Some(v)
    case Node(n, kids) => var c := Child(m, n); c.Some? && Covers(c.value, kids)
  }

  lemma {:induction false} MergeCovered(m: seq<Item>, b: seq<Item>)
    requires Covers(m, b)
    ensures Merge(m, b) == m
    decreases b
  {
    if b != [] {
      MergeCoveredItem(m, b[0]);
      assert Covers(m, b[1..]) by {
        forall i | 0 <= i < |b[1..]| ensures CoversItem(m, b[1..][i]) { assert b[1..][i] == b[i + 1]; }
      }
      MergeCovered(m, b[1..]);
    }
  }

  lemma {:induction false} MergeCoveredItem(m: seq<Item>, it: Item)
    requires CoversItem(m, it)
    ensures MergeItem(m, it) == m
    decreases it
  {
    match it
    case Field(n, v) =>
      assert m[FieldPos(m, n)] == Field(n, v);
    case Node(n, kids) =>
      var i := NodePos(m, n);
      MergeCovered(m[i].items, kids);
      assert m[i] == Node(n, m[i].items);
  }

  lemma {:induction false} CoversSelf(a: seq<Item>)
    requires Consistent(a)
    ensures Covers(a, a)
    decreases a
  {
    forall i | 0 <= i < |a| ensures CoversItem(a, a[i]) {
      if a[i].Field? {
        assert FieldPos(a, a[i].name) == i;
      } else {
        assert NodePos(a, a[i].name) == i;
        CoversSelf(a[i].items);
      }
    }
  }

  lemma {:induction false} MergeCovers(a: seq<Item>, b: seq<Item>)
    requires Consistent(b)
    ensures Covers(Merge(a, b), b)
    decreases b
  {
    forall i | 0 <= i < |b| ensures CoversItem(Merge(a, b), b[i]) {
      if b[i].Field? {
        MergeField(a, b, b[i].name);
        assert FieldPos(b, b[i].name) == i;
      } else {
        MergeChild(a, b, b[i].name);
        assert NodePos(b, b[i].name) == i;
        if Child(a, b[i].name).Some? {
          MergeCovers(Child(a, b[i].name).value, b[i].items);
        } else {
          CoversSelf(b[i].items);
        }
      }
    }
  }

  /** Merging the same source a second time changes nothing, and so does merging a
      container with itself. */
  lemma MergeIdempotent(a: seq<Item>, b: seq<Item>)
    requires Consistent(b)
    ensures Merge(Merge(a, b), b) == Merge(a, b)
    ensures Merge(b, b) == b
  {
    MergeCovers(a, b);
    MergeCovered(Merge(a, b), b);
    CoversSelf(b);
    MergeCovered(b, b);
  }
}
