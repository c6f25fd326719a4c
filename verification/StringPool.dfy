/** The string segment of a stored value: every distinct string once, behind its own length. */
module StringPool {
  import opened GoTypes
  import opened Varint

  /** The slot of one string: its length and then its bytes. */
  function Slot(s: Bytes): Bytes {
    Leb(ToU64(|s|)) + s
  }

  /** The segment that holds the strings of `order`, in that order. */
  function Pool(order: seq<Bytes>): Bytes {
    if order == [] then [] else Pool(order[..|order| - 1]) + Slot(order[|order| - 1])
  }

  /** Where the slot of s begins; 0 for a string that is not there. */
  function Offset(order: seq<Bytes>, s: Bytes): nat {
    if order == [] then 0
    else if order[|order| - 1] == s then |Pool(order[..|order| - 1])|
    else Offset(order[..|order| - 1], s)
  }

  predicate Distinct(order: seq<Bytes>) {
    forall i, j :: 0 <= i < j < |order| ==> order[i] != order[j]
  }

  /** A string met for the first time goes to the end, any other changes nothing. */
  function Intern(order: seq<Bytes>, s: Bytes): seq<Bytes> {
    if s in order then order else order + [s]
  }

  /** A longer pool keeps every byte and every offset of a shorter one. */
  lemma {:induction false} PoolOnlyGrows(a: seq<Bytes>, b: seq<Bytes>)
    requires a <= b && Distinct(b)
    ensures Pool(a) <= Pool(b)
    ensures forall s :: s in a ==> Offset(a, s) == Offset(b, s)
    decreases |b|
  {
    if a != b {
      PoolOnlyGrows(a, b[..|b| - 1]);
    }
  }

  lemma {:induction false} SlotAdded(order: seq<Bytes>, s: Bytes)
    ensures Pool(order + [s]) == Pool(order) + Leb(ToU64(|s|)) + s
    ensures Offset(order + [s], s) == |Pool(order)|
  {
    assert (order + [s])[..|order + [s]| - 1] == order;
  }

  /** The offset of a pooled string is the place of its slot. */
  lemma {:induction false} SlotAtOffset(order: seq<Bytes>, s: Bytes)
    requires s in order
    ensures At(Pool(order), Offset(order, s), Slot(s))
  {
    var front := order[..|order| - 1];
    var last := order[|order| - 1];
    AtSplit(Pool(order), 0, Pool(front), Slot(last));
    assert Pool(order)[0..|Pool(order)|] == Pool(order);
    if last != s {
      SlotAtOffset(front, s);
      AtWider(Pool(front), Pool(order), Offset(front, s), Slot(s));
    }
  }

  /** Slots of different strings do not overlap. */
  lemma {:induction false} SlotsAreDisjoint(order: seq<Bytes>, s: Bytes, t: Bytes)
    requires s in order && t in order && s != t
    ensures Offset(order, s) + |Slot(s)| <= Offset(order, t)
         || Offset(order, t) + |Slot(t)| <= Offset(order, s)
  {
    var front := order[..|order| - 1];
    if order[|order| - 1] == s {
      SlotAtOffset(front, t);
    } else if order[|order| - 1] == t {
      SlotAtOffset(front, s);
    } else {
      SlotsAreDisjoint(front, s, t);
    }
  }
}
