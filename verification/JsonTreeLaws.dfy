/**
 * What the flattened tree promises: it can be read back, its links and spans describe the value,
 * its two modes agree, and exactly the values within the limits are accepted.
 */
module JsonTreeLaws {
  import opened Basics
  import opened JsonBoundary

  // ----- Reading the tree back through its links

  /** The value at node i, found by first-child and next-sibling links; None when the links are malformed. */
  function Decode(nodes: seq<Node>, raw: Bytes, i: nat): Option<Json>
    requires i < |nodes|
    decreases |nodes| - i, 1
  {
    var n := nodes[i];
    match n.kind
    case KNull => Some(Null)
    case KFalse => Some(Bool(false))
    case KTrue => Some(Bool(true))
    case KNumber =>
      if n.rawStart + n.rawLength <= |raw| then Some(Number(raw[n.rawStart..n.rawStart + n.rawLength])) else None
    case KString => Some(String(n.text))
    case KArray => (
      match DecodeChildren(nodes, raw, i)
      case None => None
      case Some(entries) => Some(Array(Values(entries))))
    case KObject => (
      match DecodeChildren(nodes, raw, i)
      case None => None
      case Some(entries) => Some(Object(entries)))
  }

  function DecodeChildren(nodes: seq<Node>, raw: Bytes, i: nat): Option<seq<Entry>>
    requires i < |nodes|
    decreases |nodes| - i, 0
  {
    match nodes[i].firstChild
    case None => Some([])
    case Some(c) => if i < c < |nodes| then DecodeChain(nodes, raw, c) else None
  }

  /** Node i and its next siblings. */
  function DecodeChain(nodes: seq<Node>, raw: Bytes, i: nat): Option<seq<Entry>>
    requires i < |nodes|
    decreases |nodes| - i, 2
  {
    match Decode(nodes, raw, i)
    case None => None
    case Some(v) =>
      match nodes[i].nextSibling
      case None => Some([Entry(nodes[i].key, v)])
      case Some(s) =>
        if i < s < |nodes| then
          match DecodeChain(nodes, raw, s)
          case None => None
          case Some(rest) => Some([Entry(nodes[i].key, v)] + rest)
        else None
  }

  function Values(entries: seq<Entry>): seq<Json> {
    seq(|entries|, i requires 0 <= i < |entries| => entries[i].value)
  }

  /** What can be read back: without the encoding, the literal of a number is not kept. */
  function Readable(v: Json, wire: Wire): Json
    decreases v, Arity(v) + 1
  {
    match v
    case Number(literal) => Number(OnWire(wire, literal))
    case Array(_) => Array(Values(ReadableFrom(v, 0, wire)))
    case Object(_) => Object(ReadableFrom(v, 0, wire))
    case _ => v
  }

  function ReadableFrom(v: Json, k: nat, wire: Wire): (entries: seq<Entry>)
    requires k <= Arity(v)
    ensures |entries| == Arity(v) - k
    decreases v, Arity(v) - k
  {
    if k == Arity(v) then [] else
      [Entry(ChildKey(v, k), Readable(Child(v, k), wire))] + ReadableFrom(v, k + 1, wire)
  }

  /** With the encoding nothing is lost. */
  lemma {:induction false} ReadableIsWhole(v: Json)
    ensures Readable(v, Encoded) == v
    decreases v, Arity(v) + 1
  {
    if v.Array? || v.Object? {
      ReadableFromIsWhole(v, 0);
    }
  }

  lemma {:induction false} ReadableFromIsWhole(v: Json, k: nat)
    requires k <= Arity(v)
    ensures forall j | 0 <= j < Arity(v) - k ::
              ReadableFrom(v, k, Encoded)[j] == Entry(ChildKey(v, k + j), Child(v, k + j))
    decreases v, Arity(v) - k
  {
    if k < Arity(v) {
      ReadableIsWhole(Child(v, k));
      ReadableFromIsWhole(v, k + 1);
      forall j | 0 <= j < Arity(v) - k
        ensures ReadableFrom(v, k, Encoded)[j] == Entry(ChildKey(v, k + j), Child(v, k + j))
      {
        if j > 0 {
          assert ReadableFrom(v, k + 1, Encoded)[j - 1] == Entry(ChildKey(v, k + 1 + (j - 1)), Child(v, k + 1 + (j - 1)));
        }
      }
    }
  }

  // ----- Subtrees as contiguous regions

  /** `part` sits in `whole` from `at` on. */
  ghost predicate Holds<T>(whole: seq<T>, at: nat, part: seq<T>) {
    at + |part| <= |whole| && Same(whole[at..at + |part|], part)
  }

  lemma HoldsParts<T>(whole: seq<T>, at: nat, a: seq<T>, b: seq<T>)
    requires Holds(whole, at, a + b)
    ensures Holds(whole, at, a) && Holds(whole, at + |a|, b)
  {
    var both := whole[at..at + |a| + |b|];
    assert both[..|a|] == a && both[|a|..] == b;
    assert whole[at..at + |a|] == both[..|a|];
    assert whole[at + |a|..at + |a| + |b|] == both[|a|..];
  }

  lemma HoldsFirst<T>(whole: seq<T>, at: nat, part: seq<T>)
    requires Holds(whole, at, part) && part != []
    ensures at < |whole| && whole[at] == part[0]
  {
    assert whole[at..at + |part|][0] == whole[at];
  }

  lemma HoldsWhole<T>(whole: seq<T>)
    ensures Holds(whole, 0, whole)
  {
    assert whole[0..0 + |whole|] == whole;
  }

  datatype Tree = Tree(nodes: seq<Node>, visits: seq<Entry>, raw: Bytes, wire: Wire)

  /** Where a subtree hangs: its parent, its next sibling and the start of its span. */
  datatype Place = Place(parent: Option<nat>, next: Option<nat>, start: nat)

  /** The nodes, the preorder entries and the span of v, stored under `key`, are in place from `at` on. */
  ghost predicate Placed(t: Tree, v: Json, key: Bytes, at: nat, p: Place) {
    && Holds(t.nodes, at, Layout(v, key, p.parent, p.next, at, p.start, t.wire))
    && Holds(t.visits, at, Visits(v, key))
    && (if t.wire.Encoded? then Holds(t.raw, p.start, Encode(v)) else p.start == 0)
  }

  function ChildPlace(v: Json, k: nat, at: nat, start: nat, wire: Wire): Place
    requires k < Arity(v)
  {
    Place(Some(at), NextOf(v, at, k), ChildStart(v, start, k, wire))
  }

  /** Inside the layout of v, every child has its own. */
  lemma ChildPlaced(t: Tree, v: Json, key: Bytes, at: nat, p: Place, k: nat)
    requires Placed(t, v, key, at, p) && k < Arity(v)
    ensures Placed(t, Child(v, k), ChildKey(v, k), ChildIndex(v, at, k), ChildPlace(v, k, at, p.start, t.wire))
  {
    ChildNodes(t, v, key, at, p, k);
    ChildEntries(t, v, key, at, k);
    if t.wire.Encoded? {
      ChildBytes(t, v, p.start, k);
    }
  }

  lemma ChildNodes(t: Tree, v: Json, key: Bytes, at: nat, p: Place, k: nat)
    requires Holds(t.nodes, at, Layout(v, key, p.parent, p.next, at, p.start, t.wire)) && k < Arity(v)
    ensures var c := ChildPlace(v, k, at, p.start, t.wire);
            var i := ChildIndex(v, at, k);
            Holds(t.nodes, i, Layout(Child(v, k), ChildKey(v, k), c.parent, c.next, i, c.start, t.wire))
  {
    var all := Layout(v, key, p.parent, p.next, at, p.start, t.wire);
    HoldsParts(t.nodes, at, [all[0]], ChildLayout(v, Arity(v), at, p.start, t.wire));
    NodesOfChild(t, v, Arity(v), at, p.start, k);
  }

  lemma {:induction false} NodesOfChild(t: Tree, v: Json, n: nat, at: nat, start: nat, k: nat)
    requires k < n <= Arity(v) && Holds(t.nodes, at + 1, ChildLayout(v, n, at, start, t.wire))
    ensures var c := ChildPlace(v, k, at, start, t.wire);
            var i := ChildIndex(v, at, k);
            Holds(t.nodes, i, Layout(Child(v, k), ChildKey(v, k), c.parent, c.next, i, c.start, t.wire))
    decreases n
  {
    var c := ChildPlace(v, n - 1, at, start, t.wire);
    HoldsParts(t.nodes, at + 1, ChildLayout(v, n - 1, at, start, t.wire),
               Layout(Child(v, n - 1), ChildKey(v, n - 1), c.parent, c.next, ChildIndex(v, at, n - 1), c.start, t.wire));
    if k < n - 1 {
      NodesOfChild(t, v, n - 1, at, start, k);
    }
  }

  lemma ChildEntries(t: Tree, v: Json, key: Bytes, at: nat, k: nat)
    requires Holds(t.visits, at, Visits(v, key)) && k < Arity(v)
    ensures Holds(t.visits, ChildIndex(v, at, k), Visits(Child(v, k), ChildKey(v, k)))
  {
    HoldsParts(t.visits, at, [Entry(key, v)], ChildVisits(v, Arity(v)));
    EntriesOfChild(t, v, Arity(v), at, k);
  }

  lemma {:induction false} EntriesOfChild(t: Tree, v: Json, n: nat, at: nat, k: nat)
    requires k < n <= Arity(v) && Holds(t.visits, at + 1, ChildVisits(v, n))
    ensures Holds(t.visits, ChildIndex(v, at, k), Visits(Child(v, k), ChildKey(v, k)))
    decreases n
  {
    HoldsParts(t.visits, at + 1, ChildVisits(v, n - 1), Visits(Child(v, n - 1), ChildKey(v, n - 1)));
    if k < n - 1 {
      EntriesOfChild(t, v, n - 1, at, k);
    }
  }

  lemma ChildBytes(t: Tree, v: Json, start: nat, k: nat)
    requires t.wire.Encoded? && Holds(t.raw, start, Encode(v)) && k < Arity(v)
    ensures Holds(t.raw, ChildStart(v, start, k, t.wire), Encode(Child(v, k)))
  {
    var front := [Opening(v)] + EncodeChildren(v, Arity(v));
    HoldsParts(t.raw, start, front, [Closing(v)]);
    HoldsParts(t.raw, start, [Opening(v)], EncodeChildren(v, Arity(v)));
    BytesOfChild(t, v, Arity(v), start, k);
  }

  lemma {:induction false} BytesOfChild(t: Tree, v: Json, n: nat, start: nat, k: nat)
    requires t.wire.Encoded? && k < n <= Arity(v) && Holds(t.raw, start + 1, EncodeChildren(v, n))
    ensures Holds(t.raw, ChildStart(v, start, k, t.wire), Encode(Child(v, k)))
    decreases n
  {
    BytesOfLast(t, v, n, start);
    if k < n - 1 {
      BytesOfChild(t, v, n - 1, start, k);
    }
  }

  lemma BytesOfLast(t: Tree, v: Json, n: nat, start: nat)
    requires t.wire.Encoded? && 0 < n <= Arity(v) && Holds(t.raw, start + 1, EncodeChildren(v, n))
    ensures Holds(t.raw, start + 1, EncodeChildren(v, n - 1))
    ensures Holds(t.raw, ChildStart(v, start, n - 1, t.wire), Encode(Child(v, n - 1)))
  {
    LastEncoded(v, n);
    LastStarts(v, n - 1, start);
    HoldsThree(t.raw, start + 1, EncodeChildren(v, n), EncodeChildren(v, n - 1), Lead(v, n - 1), Encode(Child(v, n - 1)));
  }

  lemma LastStarts(v: Json, k: nat, start: nat)
    requires k < Arity(v)
    ensures ChildStart(v, start, k, Encoded) == start + 1 + |EncodeChildren(v, k)| + |Lead(v, k)|
  {
    EncodeChildrenHaveLength(v, k);
    LeadHasLength(v, k);
  }

  lemma LastEncoded(v: Json, n: nat)
    requires 0 < n <= Arity(v)
    ensures Same(EncodeChildren(v, n), EncodeChildren(v, n - 1) + Lead(v, n - 1) + Encode(Child(v, n - 1)))
  {
  }

  lemma HoldsThree<T>(whole: seq<T>, at: nat, all: seq<T>, a: seq<T>, b: seq<T>, c: seq<T>)
    requires Holds(whole, at, all) && Same(all, a + b + c)
    ensures Holds(whole, at, a) && Holds(whole, at + |a| + |b|, c)
  {
    HoldsParts(whole, at, a + b, c);
    HoldsParts(whole, at, a, b);
  }

  /** Node `at` describes v, its span is the encoding of v, and every child of v has its region after it. */
  ghost predicate Region(t: Tree, v: Json, key: Bytes, at: nat, p: Place)
    decreases v
  {
    && at + NodeCount(v) <= |t.nodes| && at + NodeCount(v) <= |t.visits|
    && Same(t.nodes[at], Node(KindOf(v), if Arity(v) == 0 then None else Some(at + 1), p.next, p.parent, key, Text(v),
                              p.start, WireLength(t.wire, EncodedLength(v))))
    && Same(t.visits[at], Entry(key, v))
    && (if t.wire.Encoded? then Holds(t.raw, p.start, Encode(v)) else p.start == 0)
    && forall k {:trigger Region(t, Child(v, k), ChildKey(v, k), ChildIndex(v, at, k),
                                 ChildPlace(v, k, at, p.start, t.wire))} | 0 <= k < Arity(v) ::
         Region(t, Child(v, k), ChildKey(v, k), ChildIndex(v, at, k), ChildPlace(v, k, at, p.start, t.wire))
  }

  lemma {:induction false} PlacedIsRegion(t: Tree, v: Json, key: Bytes, at: nat, p: Place)
    requires Placed(t, v, key, at, p)
    ensures Region(t, v, key, at, p)
    decreases v
  {
    HoldsFirst(t.nodes, at, Layout(v, key, p.parent, p.next, at, p.start, t.wire));
    HoldsFirst(t.visits, at, Visits(v, key));
    forall k | 0 <= k < Arity(v)
      ensures Region(t, Child(v, k), ChildKey(v, k), ChildIndex(v, at, k), ChildPlace(v, k, at, p.start, t.wire))
    {
      ChildPlaced(t, v, key, at, p, k);
      PlacedIsRegion(t, Child(v, k), ChildKey(v, k), ChildIndex(v, at, k), ChildPlace(v, k, at, p.start, t.wire));
    }
  }

  // ----- Round trip

  lemma {:induction false} DecodeRegion(t: Tree, v: Json, key: Bytes, at: nat, p: Place)
    requires Region(t, v, key, at, p) && at < |t.nodes|
    ensures Decode(t.nodes, t.raw, at) == Some(Readable(v, t.wire))
    decreases v, Arity(v) + 1
  {
    if v.Number? {
      DecodeNumber(t, v, key, at, p);
    } else if v.Array? || v.Object? {
      if Arity(v) > 0 {
        var c := FirstChildAt(t, v, key, at, p);
        DecodeSiblings(t, v, key, at, p, 0);
      }
      DecodeContainer(t.nodes, t.raw, at, v, t.wire);
    } else {
      DecodeLeaf(t, v, key, at, p);
    }
  }

  lemma DecodeLeaf(t: Tree, v: Json, key: Bytes, at: nat, p: Place)
    requires Region(t, v, key, at, p) && at < |t.nodes| && !v.Array? && !v.Object? && !v.Number?
    ensures Decode(t.nodes, t.raw, at) == Some(v) && Readable(v, t.wire) == v
  {
  }

  lemma FirstChildAt(t: Tree, v: Json, key: Bytes, at: nat, p: Place) returns (c: nat)
    requires Region(t, v, key, at, p) && Arity(v) > 0
    ensures c == ChildIndex(v, at, 0) && at < c < |t.nodes| && t.nodes[at].firstChild == Some(c)
  {
    c := at + 1;
    ChildIndexWithin(v, at, 0);
  }

  lemma DecodeContainer(nodes: seq<Node>, raw: Bytes, i: nat, v: Json, wire: Wire)
    requires i < |nodes| && nodes[i].kind == KindOf(v) && (v.Array? || v.Object?)
    requires DecodeChildren(nodes, raw, i) == Some(ReadableFrom(v, 0, wire))
    ensures Decode(nodes, raw, i) == Some(Readable(v, wire))
  {
  }

  lemma DecodeNumber(t: Tree, v: Json, key: Bytes, at: nat, p: Place)
    requires Region(t, v, key, at, p) && at < |t.nodes| && v.Number?
    ensures Decode(t.nodes, t.raw, at) == Some(Readable(v, t.wire))
  {
    if t.wire.Encoded? {
      assert Encode(v) == v.literal;
      assert t.raw[p.start..p.start + |v.literal|] == v.literal;
    } else if t.nodes[at].rawStart + 0 <= |t.raw| {
      assert t.raw[p.start..p.start] == [];
    }
  }

  lemma {:induction false} ChildIndexWithin(v: Json, at: nat, k: nat)
    requires k < Arity(v)
    ensures at < ChildIndex(v, at, k) < at + NodeCount(v) == ChildIndex(v, at, Arity(v))
  {
    NodesBeforeGrows(v, k + 1, Arity(v));
  }

  lemma {:induction false} NodesBeforeGrows(v: Json, k: nat, n: nat)
    requires k <= n <= Arity(v)
    ensures NodesBefore(v, k) <= NodesBefore(v, n)
    decreases n
  {
    if k < n {
      NodesBeforeGrows(v, k, n - 1);
    }
  }

  /** Following next siblings from child k yields that child and every later one, in order. */
  lemma {:induction false} DecodeSiblings(t: Tree, v: Json, key: Bytes, at: nat, p: Place, k: nat)
    requires Region(t, v, key, at, p) && k < Arity(v) && ChildIndex(v, at, k) < |t.nodes|
    ensures DecodeChain(t.nodes, t.raw, ChildIndex(v, at, k)) == Some(ReadableFrom(v, k, t.wire))
    decreases v, Arity(v) - k
  {
    if k + 1 < Arity(v) {
      NextSiblingWithin(t, v, key, at, p, k);
      DecodeSiblings(t, v, key, at, p, k + 1);
    }
    DecodeBefore(t, v, key, at, p, k);
  }

  lemma {:induction false} DecodeBefore(t: Tree, v: Json, key: Bytes, at: nat, p: Place, k: nat)
    requires Region(t, v, key, at, p) && k < Arity(v) && ChildIndex(v, at, k) < |t.nodes|
    requires k + 1 < Arity(v) ==>
               && ChildIndex(v, at, k + 1) < |t.nodes|
               && DecodeChain(t.nodes, t.raw, ChildIndex(v, at, k + 1)) == Some(ReadableFrom(v, k + 1, t.wire))
    ensures DecodeChain(t.nodes, t.raw, ChildIndex(v, at, k)) == Some(ReadableFrom(v, k, t.wire))
    decreases v, 0
  {
    SiblingLinks(t, v, key, at, p, k);
    DecodeRegion(t, Child(v, k), ChildKey(v, k), ChildIndex(v, at, k), ChildPlace(v, k, at, p.start, t.wire));
    DecodeChainStep(t.nodes, t.raw, ChildIndex(v, at, k), v, k, t.wire);
  }

  lemma NextSiblingWithin(t: Tree, v: Json, key: Bytes, at: nat, p: Place, k: nat)
    requires Region(t, v, key, at, p) && k + 1 < Arity(v)
    ensures ChildIndex(v, at, k + 1) < |t.nodes|
  {
    ChildIndexWithin(v, at, k + 1);
  }

  lemma SiblingLinks(t: Tree, v: Json, key: Bytes, at: nat, p: Place, k: nat)
    requires Region(t, v, key, at, p) && k < Arity(v) && ChildIndex(v, at, k) < |t.nodes|
    ensures var i := ChildIndex(v, at, k);
            && t.nodes[i].key == ChildKey(v, k) && t.nodes[i].nextSibling == NextOf(v, at, k)
            && i < ChildIndex(v, at, k + 1)
            && Region(t, Child(v, k), ChildKey(v, k), i, ChildPlace(v, k, at, p.start, t.wire))
  {
    assert Region(t, Child(v, k), ChildKey(v, k), ChildIndex(v, at, k), ChildPlace(v, k, at, p.start, t.wire));
  }

  lemma DecodeChainStep(nodes: seq<Node>, raw: Bytes, i: nat, v: Json, k: nat, wire: Wire)
    requires i < |nodes| && k < Arity(v) && nodes[i].key == ChildKey(v, k)
    requires Decode(nodes, raw, i) == Some(Readable(Child(v, k), wire))
    requires match nodes[i].nextSibling
             case None => k + 1 == Arity(v)
             case Some(s) => i < s < |nodes| && k + 1 < Arity(v) &&
                             DecodeChain(nodes, raw, s) == Some(ReadableFrom(v, k + 1, wire))
    ensures DecodeChain(nodes, raw, i) == Some(ReadableFrom(v, k, wire))
  {
    if k + 1 == Arity(v) {
      ConcatEmpty([Entry(ChildKey(v, k), Readable(Child(v, k), wire))]);
    }
  }

  /** The tree that a successful acquisition of v builds. */
  ghost function Acquired(v: Json, wire: Wire): Tree {
    Tree(Layout(v, [], None, None, 0, 0, wire), Visits(v, []), OnWire(wire, Encode(v)), wire)
  }

  lemma AcquiredRegion(v: Json, wire: Wire)
    ensures Region(Acquired(v, wire), v, [], 0, Place(None, None, 0))
  {
    HoldsWhole(Layout(v, [], None, None, 0, 0, wire));
    HoldsWhole(Visits(v, []));
    HoldsWhole(Encode(v));
    PlacedIsRegion(Acquired(v, wire), v, [], 0, Place(None, None, 0));
  }

  /** Walking the links from node 0 rebuilds the value; with the encoding, number literals included. */
  lemma RoundTrip(v: Json, wire: Wire)
    ensures var t := Acquired(v, wire);
            && Decode(t.nodes, t.raw, 0) == Some(Readable(v, wire))
            && (wire.Encoded? ==> Decode(t.nodes, t.raw, 0) == Some(v))
  {
    AcquiredRegion(v, wire);
    DecodeRegion(Acquired(v, wire), v, [], 0, Place(None, None, 0));
    ReadableIsWhole(v);
  }

  // ----- Spans

  /** Every entry of the preorder has its own region. */
  lemma {:induction false} VisitRegion(t: Tree, v: Json, key: Bytes, at: nat, p: Place, i: nat) returns (q: Place)
    requires Region(t, v, key, at, p) && at <= i < at + NodeCount(v) <= |t.visits|
    ensures Region(t, t.visits[i].value, t.visits[i].key, i, q)
    ensures i + NodeCount(t.visits[i].value) <= at + NodeCount(v)
    decreases v, Arity(v) + 1
  {
    if i == at {
      q := p;
    } else {
      q := VisitChildRegion(t, v, key, at, p, Arity(v), i);
    }
  }

  lemma {:induction false} VisitChildRegion(t: Tree, v: Json, key: Bytes, at: nat, p: Place, n: nat, i: nat)
    returns (q: Place)
    requires Region(t, v, key, at, p) && n <= Arity(v) && at < i < ChildIndex(v, at, n)
    requires at + NodeCount(v) <= |t.visits|
    ensures i < |t.visits| && Region(t, t.visits[i].value, t.visits[i].key, i, q)
    ensures i + NodeCount(t.visits[i].value) <= ChildIndex(v, at, n)
    decreases v, n
  {
    NodesBeforeGrows(v, n, Arity(v));
    if i < ChildIndex(v, at, n - 1) {
      q := VisitChildRegion(t, v, key, at, p, n - 1, i);
    } else {
      q := VisitRegion(t, Child(v, n - 1), ChildKey(v, n - 1), ChildIndex(v, at, n - 1),
                       ChildPlace(v, n - 1, at, p.start, t.wire), i);
    }
  }

  function SpanEnd(n: Node): nat {
    n.rawStart + n.rawLength
  }

  /** Node i is the i-th subvalue in preorder: its kind, key and text, and its span is that value's encoding. */
  lemma NodeDescribesVisit(v: Json, wire: Wire, i: nat)
    requires i < NodeCount(v)
    ensures var t := Acquired(v, wire);
            var n, e := t.nodes[i], Visits(v, [])[i];
            && n.kind == (match e.value
                          case Null => KNull
                          case Bool(flag) => if flag then KTrue else KFalse
                          case Number(_) => KNumber
                          case String(_) => KString
                          case Array(_) => KArray
                          case Object(_) => KObject)
            && n.key == e.key && n.text == (if e.value.String? then e.value.text else [])
            && SpanEnd(n) <= |t.raw|
            && t.raw[n.rawStart..SpanEnd(n)] == OnWire(wire, Encode(e.value))
            && (wire.Omitted? ==> n.rawStart == n.rawLength == 0)
  {
    var t := Acquired(v, wire);
    AcquiredRegion(v, wire);
    var q := VisitRegion(t, v, [], 0, Place(None, None, 0), i);
    RegionDescribes(t, t.visits[i].value, t.visits[i].key, i, q);
  }

  lemma RegionDescribes(t: Tree, v: Json, key: Bytes, i: nat, p: Place)
    requires Region(t, v, key, i, p)
    ensures var n := t.nodes[i];
            && n.kind == KindOf(v) && n.key == key && n.text == Text(v)
            && n.rawStart == p.start && n.rawLength == |OnWire(t.wire, Encode(v))|
            && (if t.wire.Encoded? then SpanEnd(n) <= |t.raw| && t.raw[n.rawStart..SpanEnd(n)] == Encode(v)
                else n.rawStart == n.rawLength == 0)
  {
    EncodeHasLength(v);
  }

  // ----- Links

  /** How many nodes the subtree of node i takes. */
  function SubtreeSize(t: Tree, i: nat): nat
    requires i < |t.visits|
  {
    NodeCount(t.visits[i].value)
  }

  /** Node i hangs below the earlier node q: it is reached from q by first child and next siblings. */
  ghost predicate HangsBelow(t: Tree, q: nat, i: nat)
    requires q < i < |t.nodes|
  {
    && t.nodes[i].parent == Some(q)
    && t.nodes[q].firstChild == Some(q + 1)
    && (i == q + 1 || exists s :: q < s < i && t.nodes[s].nextSibling == Some(i))
  }

  /** The subtree of i lies inside that of q, and the next sibling of i follows right after it. */
  ghost predicate SubtreeInside(t: Tree, q: nat, i: nat)
    requires q < i < |t.nodes| && |t.nodes| == |t.visits|
  {
    match t.nodes[i].nextSibling
    case None => i + SubtreeSize(t, i) == q + SubtreeSize(t, q)
    case Some(s) =>
      s == i + SubtreeSize(t, i) < q + SubtreeSize(t, q) && s < |t.nodes| && t.nodes[s].parent == Some(q)
  }

  /** The span of i lies inside that of q and ends before that of the next sibling starts. */
  ghost predicate SpanInside(t: Tree, q: nat, i: nat)
    requires q < i < |t.nodes|
  {
    t.wire.Encoded? ==>
      && t.nodes[q].rawStart < t.nodes[i].rawStart <= SpanEnd(t.nodes[i]) < SpanEnd(t.nodes[q])
      && (match t.nodes[i].nextSibling
          case None => true
          case Some(s) => s < |t.nodes| && SpanEnd(t.nodes[i]) < t.nodes[s].rawStart)
  }

  /** Node i is linked below some earlier node that is not before lo. */
  ghost predicate WellLinked(t: Tree, lo: nat, i: nat)
    requires i < |t.nodes| == |t.visits|
  {
    match t.nodes[i].parent
    case None => false
    case Some(q) => lo <= q < i && HangsBelow(t, q, i) && SubtreeInside(t, q, i) && SpanInside(t, q, i)
  }

  lemma {:induction false} RegionIsLinked(t: Tree, v: Json, key: Bytes, at: nat, p: Place, i: nat)
    requires Region(t, v, key, at, p) && at < i < at + NodeCount(v) && |t.nodes| == |t.visits|
    ensures WellLinked(t, at, i)
    decreases v, Arity(v) + 1
  {
    ChildrenAreLinked(t, v, key, at, p, Arity(v), i);
  }

  lemma {:induction false} ChildrenAreLinked(t: Tree, v: Json, key: Bytes, at: nat, p: Place, n: nat, i: nat)
    requires Region(t, v, key, at, p) && n <= Arity(v) && at < i < ChildIndex(v, at, n)
    requires i < |t.nodes| == |t.visits|
    ensures WellLinked(t, at, i)
    decreases v, n
  {
    var c := ChildIndex(v, at, n - 1);
    if i < c {
      ChildrenAreLinked(t, v, key, at, p, n - 1, i);
    } else if i == c {
      ChildIsLinked(t, v, key, at, p, n - 1);
    } else {
      var child, q := Child(v, n - 1), ChildPlace(v, n - 1, at, p.start, t.wire);
      assert Region(t, child, ChildKey(v, n - 1), c, q);
      RegionIsLinked(t, child, ChildKey(v, n - 1), c, q, i);
    }
  }

  lemma ChildIsLinked(t: Tree, v: Json, key: Bytes, at: nat, p: Place, k: nat)
    requires Region(t, v, key, at, p) && k < Arity(v) && at < ChildIndex(v, at, k) < |t.nodes| == |t.visits|
    ensures WellLinked(t, at, ChildIndex(v, at, k))
  {
    ChildHangsBelow(t, v, key, at, p, k);
    ChildSubtreeInside(t, v, key, at, p, k);
    ChildSpanInside(t, v, key, at, p, k);
  }

  lemma ChildHangsBelow(t: Tree, v: Json, key: Bytes, at: nat, p: Place, k: nat)
    requires Region(t, v, key, at, p) && k < Arity(v) && at < ChildIndex(v, at, k) < |t.nodes|
    ensures HangsBelow(t, at, ChildIndex(v, at, k))
  {
    assert Region(t, Child(v, k), ChildKey(v, k), ChildIndex(v, at, k), ChildPlace(v, k, at, p.start, t.wire));
    if k > 0 {
      var s := ChildIndex(v, at, k - 1);
      assert Region(t, Child(v, k - 1), ChildKey(v, k - 1), s, ChildPlace(v, k - 1, at, p.start, t.wire));
      assert at < s < ChildIndex(v, at, k) && t.nodes[s].nextSibling == Some(ChildIndex(v, at, k));
    }
  }

  lemma ChildSubtreeInside(t: Tree, v: Json, key: Bytes, at: nat, p: Place, k: nat)
    requires Region(t, v, key, at, p) && k < Arity(v) && at < ChildIndex(v, at, k) < |t.nodes| == |t.visits|
    ensures SubtreeInside(t, at, ChildIndex(v, at, k))
  {
    if k + 1 < Arity(v) {
      ChildBeforeSibling(t, v, key, at, p, k);
    } else {
      ChildAsLast(t, v, key, at, p, k);
    }
  }

  lemma ChildBeforeSibling(t: Tree, v: Json, key: Bytes, at: nat, p: Place, k: nat)
    requires Region(t, v, key, at, p) && k + 1 < Arity(v) && at < ChildIndex(v, at, k) < |t.nodes| == |t.visits|
    ensures SubtreeInside(t, at, ChildIndex(v, at, k))
  {
    ChildAt(t, v, key, at, p, k);
    ChildAt(t, v, key, at, p, k + 1);
    ChildIndexWithin(v, at, k + 1);
    InsideBeforeSibling(t, at, ChildIndex(v, at, k), ChildIndex(v, at, k + 1), at + NodeCount(v));
  }

  lemma ChildAsLast(t: Tree, v: Json, key: Bytes, at: nat, p: Place, k: nat)
    requires Region(t, v, key, at, p) && k + 1 == Arity(v) && at < ChildIndex(v, at, k) < |t.nodes| == |t.visits|
    ensures SubtreeInside(t, at, ChildIndex(v, at, k))
  {
    ChildAt(t, v, key, at, p, k);
    ChildIndexWithin(v, at, k);
    InsideAsLast(t, at, ChildIndex(v, at, k), ChildIndex(v, at, k + 1));
  }

  lemma ChildAt(t: Tree, v: Json, key: Bytes, at: nat, p: Place, k: nat)
    requires Region(t, v, key, at, p) && k < Arity(v) && |t.nodes| == |t.visits|
    ensures var i := ChildIndex(v, at, k);
            && i < |t.nodes| && t.nodes[i].parent == Some(at) && t.nodes[i].nextSibling == NextOf(v, at, k)
            && i + SubtreeSize(t, i) == ChildIndex(v, at, k + 1)
            && at + SubtreeSize(t, at) == at + NodeCount(v)
  {
    assert Region(t, Child(v, k), ChildKey(v, k), ChildIndex(v, at, k), ChildPlace(v, k, at, p.start, t.wire));
  }

  lemma InsideBeforeSibling(t: Tree, q: nat, i: nat, end: nat, last: nat)
    requires q < i < |t.nodes| == |t.visits|
    requires i + SubtreeSize(t, i) == end < last == q + SubtreeSize(t, q)
    requires t.nodes[i].nextSibling == Some(end) && end < |t.nodes| && t.nodes[end].parent == Some(q)
    ensures SubtreeInside(t, q, i)
  {
  }

  lemma InsideAsLast(t: Tree, q: nat, i: nat, end: nat)
    requires q < i < |t.nodes| == |t.visits|
    requires i + SubtreeSize(t, i) == end == q + SubtreeSize(t, q)
    requires t.nodes[i].nextSibling == None
    ensures SubtreeInside(t, q, i)
  {
  }

  lemma ChildSpanInside(t: Tree, v: Json, key: Bytes, at: nat, p: Place, k: nat)
    requires Region(t, v, key, at, p) && k < Arity(v) && at < ChildIndex(v, at, k) < |t.nodes|
    ensures SpanInside(t, at, ChildIndex(v, at, k))
  {
    var i := ChildIndex(v, at, k);
    if t.wire.Encoded? {
      ChildSpan(t, v, key, at, p, k);
      if k + 1 < Arity(v) {
        ChildIndexWithin(v, at, k + 1);
        ChildSpan(t, v, key, at, p, k + 1);
      }
      SpansFollow(v, k, p.start);
    }
  }

  lemma ChildSpan(t: Tree, v: Json, key: Bytes, at: nat, p: Place, k: nat)
    requires Region(t, v, key, at, p) && k < Arity(v) && t.wire.Encoded?
    ensures var i := ChildIndex(v, at, k);
            && at < |t.nodes| && i < |t.nodes| && t.nodes[i].nextSibling == NextOf(v, at, k)
            && t.nodes[i].rawStart == ChildStart(v, p.start, k, Encoded)
            && SpanEnd(t.nodes[i]) == ChildStart(v, p.start, k, Encoded) + EncodedLength(Child(v, k))
            && t.nodes[at].rawStart == p.start
            && SpanEnd(t.nodes[at]) == p.start + LengthBefore(v, Arity(v)) + 2
  {
    assert Region(t, Child(v, k), ChildKey(v, k), ChildIndex(v, at, k), ChildPlace(v, k, at, p.start, t.wire));
  }

  /** A separator lies between the spans of two children. */
  lemma SpansFollow(v: Json, k: nat, start: nat)
    requires k < Arity(v)
    ensures ChildStart(v, start, k, Encoded) + EncodedLength(Child(v, k)) == start + 1 + LengthBefore(v, k + 1)
    ensures start < ChildStart(v, start, k, Encoded) && LengthBefore(v, k + 1) <= LengthBefore(v, Arity(v))
    ensures k + 1 < Arity(v) ==> start + 1 + LengthBefore(v, k + 1) < ChildStart(v, start, k + 1, Encoded)
  {
    LengthBeforeGrows(v, k + 1, Arity(v));
  }

  lemma {:induction false} LengthBeforeGrows(v: Json, k: nat, n: nat)
    requires k <= n <= Arity(v)
    ensures LengthBefore(v, k) <= LengthBefore(v, n)
    decreases n
  {
    if k < n {
      LengthBeforeGrows(v, k, n - 1);
    }
  }

  /** Every node but the root is linked in; the root has neither parent nor sibling and spans the whole buffer. */
  lemma TreeIsWellLinked(v: Json, wire: Wire)
    ensures var t := Acquired(v, wire);
            && t.nodes[0].parent == None && t.nodes[0].nextSibling == None
            && t.nodes[0].rawStart == 0 && t.nodes[0].rawLength == |t.raw|
            && forall i | 0 < i < |t.nodes| :: WellLinked(t, 0, i)
  {
    var t := Acquired(v, wire);
    AcquiredRegion(v, wire);
    EncodeHasLength(v);
    forall i | 0 < i < |t.nodes|
      ensures WellLinked(t, 0, i)
    {
      RegionIsLinked(t, v, [], 0, Place(None, None, 0), i);
    }
  }

  /** a is reached from i by parent links. */
  predicate IsAncestorOrSelf(nodes: seq<Node>, a: nat, i: nat)
    requires i < |nodes|
    decreases i
  {
    a == i ||
    match nodes[i].parent
    case None => false
    case Some(q) => q < i && IsAncestorOrSelf(nodes, a, q)
  }

  /** Each subtree is a contiguous preorder interval: the descendants of a are the nodes right after it. */
  lemma SubtreesAreIntervals(v: Json, wire: Wire, a: nat, i: nat)
    requires a < NodeCount(v) && i < NodeCount(v)
    ensures var t := Acquired(v, wire);
            IsAncestorOrSelf(t.nodes, a, i) <==> a <= i < a + SubtreeSize(t, a)
  {
    var t := Acquired(v, wire);
    TreeIsWellLinked(v, wire);
    if IsAncestorOrSelf(t.nodes, a, i) {
      DescendantsAreInside(t, a, i);
    }
    if a <= i < a + SubtreeSize(t, a) {
      AcquiredRegion(v, wire);
      var q := VisitRegion(t, v, [], 0, Place(None, None, 0), a);
      InsideAreDescendants(t, t.visits[a].value, t.visits[a].key, a, q, i);
    }
  }

  lemma {:induction false} DescendantsAreInside(t: Tree, a: nat, i: nat)
    requires |t.nodes| == |t.visits| && i < |t.nodes| && IsAncestorOrSelf(t.nodes, a, i)
    requires forall j | 0 < j < |t.nodes| :: WellLinked(t, 0, j)
    requires t.nodes[0].parent == None
    ensures a <= i && i + SubtreeSize(t, i) <= a + SubtreeSize(t, a)
    decreases i
  {
    if a != i {
      assert WellLinked(t, 0, i);
      DescendantsAreInside(t, a, t.nodes[i].parent.value);
    }
  }

  lemma {:induction false} InsideAreDescendants(t: Tree, v: Json, key: Bytes, at: nat, p: Place, i: nat)
    requires Region(t, v, key, at, p) && at <= i < at + NodeCount(v) && |t.nodes| == |t.visits|
    ensures IsAncestorOrSelf(t.nodes, at, i)
    decreases i
  {
    if at < i {
      RegionIsLinked(t, v, key, at, p, i);
      InsideAreDescendants(t, v, key, at, p, t.nodes[i].parent.value);
    }
  }

  // ----- The two modes

  function WithoutSpan(n: Node): Node {
    n.(rawStart := 0, rawLength := 0)
  }

  /** Leaving spans aside, both modes build the same nodes. */
  lemma {:induction false} SameTopology(v: Json, key: Bytes, parent: Option<nat>, next: Option<nat>, at: nat, start: nat)
    ensures forall i | 0 <= i < NodeCount(v) ::
              WithoutSpan(Layout(v, key, parent, next, at, start, Encoded)[i])
              == Layout(v, key, parent, next, at, 0, Omitted)[i]
    decreases v, Arity(v) + 1
  {
    SameChildTopology(v, Arity(v), at, start);
  }

  lemma {:induction false} SameChildTopology(v: Json, n: nat, at: nat, start: nat)
    requires n <= Arity(v)
    ensures forall i | 0 <= i < NodesBefore(v, n) ::
              WithoutSpan(ChildLayout(v, n, at, start, Encoded)[i]) == ChildLayout(v, n, at, 0, Omitted)[i]
    decreases v, n
  {
    if n > 0 {
      SameChildTopology(v, n - 1, at, start);
      SameTopology(Child(v, n - 1), ChildKey(v, n - 1), Some(at), NextOf(v, at, n - 1), ChildIndex(v, at, n - 1),
                   ChildStart(v, start, n - 1, Encoded));
    }
  }

  // ----- Acceptance

  /** A verdict is given exactly when one of the two limits is exceeded. */
  lemma {:induction false} VerdictIsExact(v: Json, key: Bytes, count: nat, acquired: nat)
    requires acquired <= APP_JSON_MAX_BYTES
    ensures Verdict(v, key, count, acquired) == None <==>
            count + NodeCount(v) <= APP_JSON_MAX_NODES && acquired + Weight(v, key) <= APP_JSON_MAX_BYTES
    decreases v, Arity(v) + 1
  {
    if count < APP_JSON_MAX_NODES && acquired + OwnWeight(v, key) <= APP_JSON_MAX_BYTES {
      ChildVerdictIsExact(v, Arity(v), count + 1, acquired + OwnWeight(v, key));
    }
  }

  lemma {:induction false} ChildVerdictIsExact(v: Json, n: nat, count: nat, acquired: nat)
    requires n <= Arity(v) && count <= APP_JSON_MAX_NODES && acquired <= APP_JSON_MAX_BYTES
    ensures ChildVerdict(v, n, count, acquired) == None <==>
            count + NodesBefore(v, n) <= APP_JSON_MAX_NODES && acquired + WeightBefore(v, n) <= APP_JSON_MAX_BYTES
    decreases v, n
  {
    if n > 0 {
      ChildVerdictIsExact(v, n - 1, count, acquired);
      if ChildVerdict(v, n - 1, count, acquired) == None {
        VerdictIsExact(Child(v, n - 1), ChildKey(v, n - 1), count + NodesBefore(v, n - 1), acquired + WeightBefore(v, n - 1));
      }
    }
  }

  /** The decoded bytes that each entry of a preorder listing acquires. */
  function EntryWeights(visits: seq<Entry>): (weights: seq<nat>)
    ensures |weights| == |visits|
    ensures forall i | 0 <= i < |visits| ::
              weights[i] == |visits[i].key| + match visits[i].value case String(text) => |text| case _ => 0
  {
    seq(|visits|, i requires 0 <= i < |visits| => |visits[i].key| + |Text(visits[i].value)|)
  }

  lemma EntryWeightsConcat(a: seq<Entry>, b: seq<Entry>)
    ensures Same(EntryWeights(a + b), EntryWeights(a) + EntryWeights(b))
  {
    assert EntryWeights(a + b) == EntryWeights(a) + EntryWeights(b);
  }

  /** The same, counted along with the value. */
  function Weights(v: Json, key: Bytes): (weights: seq<nat>)
    ensures |weights| == NodeCount(v)
    decreases v, Arity(v) + 1
  {
    [OwnWeight(v, key)] + ChildWeights(v, Arity(v))
  }

  function ChildWeights(v: Json, n: nat): (weights: seq<nat>)
    requires n <= Arity(v)
    ensures |weights| == NodesBefore(v, n)
    decreases v, n
  {
    if n == 0 then [] else ChildWeights(v, n - 1) + Weights(Child(v, n - 1), ChildKey(v, n - 1))
  }

  lemma {:induction false} WeightsAreListed(v: Json, key: Bytes)
    ensures Same(Weights(v, key), EntryWeights(Visits(v, key)))
    decreases v, Arity(v) + 1
  {
    ChildWeightsAreListed(v, Arity(v));
    EntryWeightsConcat([Entry(key, v)], ChildVisits(v, Arity(v)));
    assert EntryWeights([Entry(key, v)]) == [OwnWeight(v, key)];
  }

  lemma {:induction false} ChildWeightsAreListed(v: Json, n: nat)
    requires n <= Arity(v)
    ensures Same(ChildWeights(v, n), EntryWeights(ChildVisits(v, n)))
    decreases v, n
  {
    if n == 0 {
      assert EntryWeights([]) == [];
    } else {
      ChildWeightsAreListed(v, n - 1);
      WeightsAreListed(Child(v, n - 1), ChildKey(v, n - 1));
      EntryWeightsConcat(ChildVisits(v, n - 1), Visits(Child(v, n - 1), ChildKey(v, n - 1)));
    }
  }

  function Total(weights: seq<nat>): nat {
    if |weights| == 0 then 0 else Total(weights[..|weights| - 1]) + weights[|weights| - 1]
  }

  lemma {:induction false} TotalConcat(a: seq<nat>, b: seq<nat>)
    ensures Total(a + b) == Total(a) + Total(b)
  {
    if b == [] {
      ConcatEmpty(a);
    } else {
      assert (a + b)[..|a + b| - 1] == a + b[..|b| - 1];
      TotalConcat(a, b[..|b| - 1]);
    }
  }

  lemma {:induction false} WeightIsTotal(v: Json, key: Bytes)
    ensures Weight(v, key) == Total(Weights(v, key))
    decreases v, Arity(v) + 1
  {
    WeightBeforeIsTotal(v, Arity(v));
    TotalConcat([OwnWeight(v, key)], ChildWeights(v, Arity(v)));
    assert [OwnWeight(v, key)][..0] == [];
  }

  lemma {:induction false} WeightBeforeIsTotal(v: Json, n: nat)
    requires n <= Arity(v)
    ensures WeightBefore(v, n) == Total(ChildWeights(v, n))
    decreases v, n
  {
    if n > 0 {
      WeightBeforeIsTotal(v, n - 1);
      WeightIsTotal(Child(v, n - 1), ChildKey(v, n - 1));
      LastWeights(v, n);
      TotalConcat(ChildWeights(v, n - 1), Weights(Child(v, n - 1), ChildKey(v, n - 1)));
    }
  }

  lemma LastWeights(v: Json, n: nat)
    requires 0 < n <= Arity(v)
    ensures Same(ChildWeights(v, n), ChildWeights(v, n - 1) + Weights(Child(v, n - 1), ChildKey(v, n - 1)))
  {
  }

  /** The first entry of a listing that exceeds a limit, and which limit: that on nodes is looked at first. */
  function FirstExcessOf(weights: seq<nat>, count: nat, acquired: nat): Option<JsonError> {
    if |weights| == 0 then None else
      var n := |weights| - 1;
      match FirstExcessOf(weights[..n], count, acquired)
      case Some(e) => Some(e)
      case None => Excess(count + n, acquired + Total(weights))
  }

  function Excess(nodes: nat, bytes: nat): Option<JsonError> {
    if nodes >= APP_JSON_MAX_NODES then Some(TreeTooLarge)
    else if bytes > APP_JSON_MAX_BYTES then Some(DecodedTooLarge)
    else None
  }

  lemma {:induction false} FirstExcessConcat(a: seq<nat>, b: seq<nat>, count: nat, acquired: nat)
    ensures FirstExcessOf(a + b, count, acquired) ==
            if FirstExcessOf(a, count, acquired).Some? then FirstExcessOf(a, count, acquired)
            else FirstExcessOf(b, count + |a|, acquired + Total(a))
  {
    if b == [] {
      ConcatEmpty(a);
    } else {
      var m := |b| - 1;
      assert (a + b)[..|a + b| - 1] == a + b[..m];
      FirstExcessConcat(a, b[..m], count, acquired);
      TotalConcat(a, b);
    }
  }

  lemma FirstExcessOfOne(weight: nat, count: nat, acquired: nat)
    ensures FirstExcessOf([weight], count, acquired) == Excess(count, acquired + weight)
    ensures Total([weight]) == weight
  {
    assert [weight][..0] == [];
    assert FirstExcessOf([weight][..0], count, acquired) == None;
    assert Total([weight]) == Total([weight][..0]) + weight;
  }

  ghost predicate ReportsFirst(v: Json, key: Bytes, count: nat, acquired: nat) {
    Verdict(v, key, count, acquired) == FirstExcessOf(Weights(v, key), count, acquired)
  }

  ghost predicate ChildrenReportFirst(v: Json, n: nat, count: nat, acquired: nat)
    requires n <= Arity(v)
  {
    ChildVerdict(v, n, count, acquired) == FirstExcessOf(ChildWeights(v, n), count, acquired)
  }

  /** The limit that the builder reports is the first one exceeded in preorder. */
  lemma {:induction false} VerdictIsFirstExcess(v: Json, key: Bytes, count: nat, acquired: nat)
    ensures ReportsFirst(v, key, count, acquired)
    decreases v, Arity(v) + 1
  {
    FirstExcessOfOne(OwnWeight(v, key), count, acquired);
    FirstExcessConcat([OwnWeight(v, key)], ChildWeights(v, Arity(v)), count, acquired);
    ChildVerdictIsFirstExcess(v, Arity(v), count + 1, acquired + OwnWeight(v, key));
  }

  lemma {:induction false} ChildVerdictIsFirstExcess(v: Json, n: nat, count: nat, acquired: nat)
    requires n <= Arity(v)
    ensures ChildrenReportFirst(v, n, count, acquired)
    decreases v, n
  {
    if n > 0 {
      var nodes, bytes := count + NodesBefore(v, n - 1), acquired + WeightBefore(v, n - 1);
      ChildVerdictIsFirstExcess(v, n - 1, count, acquired);
      VerdictIsFirstExcess(Child(v, n - 1), ChildKey(v, n - 1), nodes, bytes);
      LastExcess(v, n - 1, count, acquired, nodes, bytes);
    }
  }

  lemma LastExcess(v: Json, k: nat, count: nat, acquired: nat, nodes: nat, bytes: nat)
    requires k < Arity(v) && nodes == count + NodesBefore(v, k) && bytes == acquired + WeightBefore(v, k)
    requires ChildrenReportFirst(v, k, count, acquired) && ReportsFirst(Child(v, k), ChildKey(v, k), nodes, bytes)
    ensures ChildrenReportFirst(v, k + 1, count, acquired)
  {
    WeightBeforeIsTotal(v, k);
    LastWeights(v, k + 1);
    LastVerdict(v, k, count, acquired, nodes, bytes);
    ExcessAfter(ChildWeights(v, k), Weights(Child(v, k), ChildKey(v, k)), ChildWeights(v, k + 1), count, acquired,
                nodes, bytes, ChildVerdict(v, k, count, acquired), Verdict(Child(v, k), ChildKey(v, k), nodes, bytes),
                ChildVerdict(v, k + 1, count, acquired));
  }

  lemma LastVerdict(v: Json, k: nat, count: nat, acquired: nat, nodes: nat, bytes: nat)
    requires k < Arity(v) && nodes == count + NodesBefore(v, k) && bytes == acquired + WeightBefore(v, k)
    ensures var first := ChildVerdict(v, k, count, acquired);
            ChildVerdict(v, k + 1, count, acquired) ==
            if first.Some? then first else Verdict(Child(v, k), ChildKey(v, k), nodes, bytes)
  {
  }

  lemma ExcessAfter(a: seq<nat>, b: seq<nat>, all: seq<nat>, count: nat, acquired: nat, nodes: nat, bytes: nat,
                    first: Option<JsonError>, second: Option<JsonError>, verdict: Option<JsonError>)
    requires nodes == count + |a| && bytes == acquired + Total(a) && Same(all, a + b)
    requires first == FirstExcessOf(a, count, acquired)
    requires second == FirstExcessOf(b, nodes, bytes)
    requires verdict == if first.Some? then first else second
    ensures verdict == FirstExcessOf(all, count, acquired)
  {
    FirstExcessConcat(a, b, count, acquired);
  }

  /** Without the encoding, exactly the values within the node and decoded-byte limits are accepted;
      with it, the encoded length is one more limit and the only difference. */
  lemma AcceptanceIsExact(v: Json)
    ensures Acceptance(v, Omitted) == FirstExcessOf(EntryWeights(Visits(v, [])), 0, 0)
    ensures Acceptance(v, Omitted) == None <==>
            |Visits(v, [])| <= 1_048_576 && Total(EntryWeights(Visits(v, []))) <= 67_108_864
    ensures Acceptance(v, Encoded) ==
            if Acceptance(v, Omitted) == None && |Encode(v)| > 67_108_864 then Some(EncodedTooLarge)
            else Acceptance(v, Omitted)
  {
    VerdictIsFirstExcess(v, [], 0, 0);
    VerdictIsExact(v, [], 0, 0);
    WeightIsTotal(v, []);
    WeightsAreListed(v, []);
    EncodeHasLength(v);
  }

  /** At entry i of the listing there are too many entries or too many bytes. */
  predicate Exceeds(weights: seq<nat>, i: nat) {
    i < |weights| && (i >= 1_048_576 || Total(weights[..i + 1]) > 67_108_864)
  }

  ghost predicate ExceedsFirst(weights: seq<nat>, i: nat) {
    Exceeds(weights, i) && forall j | 0 <= j < i :: !Exceeds(weights, j)
  }

  lemma ExceedsInFront(weights: seq<nat>, n: nat, i: nat)
    requires i < n <= |weights|
    ensures Exceeds(weights[..n], i) == Exceeds(weights, i)
  {
    assert weights[..n][..i + 1] == weights[..i + 1];
  }

  lemma {:induction false} FirstExcessMeans(weights: seq<nat>)
    ensures match FirstExcessOf(weights, 0, 0)
            case None => forall i | 0 <= i < |weights| :: !Exceeds(weights, i)
            case Some(e) =>
              exists i :: ExceedsFirst(weights, i) && e == if i >= 1_048_576 then TreeTooLarge else DecodedTooLarge
  {
    if weights != [] {
      var n := |weights| - 1;
      FirstExcessMeans(weights[..n]);
      assert weights[..n + 1] == weights;
      forall i | 0 <= i < n
        ensures Exceeds(weights[..n], i) == Exceeds(weights, i)
      {
        ExceedsInFront(weights, n, i);
      }
      if FirstExcessOf(weights[..n], 0, 0).Some? {
        var i :| ExceedsFirst(weights[..n], i)
          && FirstExcessOf(weights[..n], 0, 0).value == if i >= 1_048_576 then TreeTooLarge else DecodedTooLarge;
        assert ExceedsFirst(weights, i);
      } else if FirstExcessOf(weights, 0, 0).Some? {
        assert ExceedsFirst(weights, n);
      }
    }
  }

  /** The error is that of the first subvalue in preorder that exceeds a limit, the limit on nodes before that on bytes. */
  lemma FirstErrorIs(v: Json)
    ensures match Acceptance(v, Omitted)
            case None => forall i | 0 <= i < |Visits(v, [])| :: !Exceeds(EntryWeights(Visits(v, [])), i)
            case Some(e) =>
              exists i :: ExceedsFirst(EntryWeights(Visits(v, [])), i)
                          && e == if i >= 1_048_576 then TreeTooLarge else DecodedTooLarge
  {
    AcceptanceIsExact(v);
    FirstExcessMeans(EntryWeights(Visits(v, [])));
  }

  /** When both modes succeed, they differ in spans and buffer only. */
  lemma ModesAgree(v: Json, i: nat)
    requires i < NodeCount(v)
    ensures var encoded, omitted := Acquired(v, Encoded), Acquired(v, Omitted);
            && |encoded.nodes| == |omitted.nodes| == NodeCount(v)
            && omitted.nodes[i] == WithoutSpan(encoded.nodes[i])
            && encoded.raw == Encode(v) && omitted.raw == []
  {
    SameTopology(v, [], None, None, 0, 0);
  }
}
