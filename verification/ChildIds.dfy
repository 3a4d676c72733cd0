/** Several child tables share one coalesced table: the top 12 bits of a 64-bit id name the child,
    the low 52 bits carry the child's own id. All words are two's complement `int64` values. */
module ChildIds {
  import opened Collections
  import opened Words

  const ID_SPAN: int := 0x10_0000_0000_0000      // 2^52
  const CHILD_SPAN: int := 0x1000                // 2^12
  const MAX_CHILDREN: int := CHILD_SPAN - 1

  /** The low 52 bits. */
  function IdPart(id: int64): (r: int64)
    ensures 0 <= r < ID_SPAN
  {
    id % ID_SPAN
  }

  /** A shift left by 52 keeps the low 12 bits of the child index, the highest of them as the sign. */
  function ShiftedChild(child: int64): (r: int64)
    ensures r % ID_SPAN == 0
  {
    var low := child % CHILD_SPAN;
    if low < CHILD_SPAN / 2 then low * ID_SPAN else (low - CHILD_SPAN) * ID_SPAN
  }

  /** Disjoint bits: the bitwise or is a sum. */
  function EncodeId(id: int64, child: int64): (r: int64)
    ensures IdPart(r) == IdPart(id)
  {
    EncodeParts(IdPart(id), ShiftedChild(child) / ID_SPAN);
    IdPart(id) + ShiftedChild(child)
  }

  /** The word, in numbers: 52 bits of the id, and above them the child, from 2048 on as a negative one. */
  lemma EncodeValue(id: int64, child: int64)
    requires 0 <= child < 4096
    ensures 0 <= id < 0x10_0000_0000_0000 ==>
              EncodeId(id, child) == (if child < 2048 then child else child - 4096) * 0x10_0000_0000_0000 + id
    ensures EncodeId(id, child) == EncodeId(id % 0x10_0000_0000_0000, child)
  {
  }

  lemma EncodeParts(low: int, high: int)
    requires 0 <= low < ID_SPAN
    ensures (low + high * ID_SPAN) % ID_SPAN == low
    ensures (low + high * ID_SPAN) / ID_SPAN == high
  {
  }

  /** The arithmetic right shift used when a table is saved and when a child's ids are gathered. */
  function SignedChild(id: int64): int {
    id / ID_SPAN
  }

  /** The logical right shift used by the stand-alone decoder. */
  function UnsignedChild(id: int64): int {
    (if id >= 0 then id else id + 0x1_0000_0000_0000_0000) / ID_SPAN
  }

  /** Encoding keeps the id exactly when it fits 52 bits. */
  lemma IdRoundTrip(id: int64, child: int64)
    ensures IdPart(EncodeId(id, child)) == id <==> 0 <= id < ID_SPAN
  {
  }

  /** The logical shift recovers every child index a validated table can have; the arithmetic shift
      recovers only those below 2048, although 4094 children pass validation. */
  lemma ChildRoundTrip(id: int64, child: int64)
    requires 0 <= child < 4095
    ensures UnsignedChild(EncodeId(id, child)) == child
    ensures SignedChild(EncodeId(id, child)) == child <==> child < 2048
    ensures SignedChild(EncodeId(id, child)) != child ==> SignedChild(EncodeId(id, child)) < 0
  {
    EncodeParts(IdPart(id), if child < CHILD_SPAN / 2 then child else child - CHILD_SPAN);
    EncodeParts(IdPart(id), child);
  }

  /** Encoded ids collide only when both the child and the 52-bit id agree. */
  lemma EncodeInjective(a: int64, c: int64, b: int64, d: int64)
    requires 0 <= a < ID_SPAN && 0 <= b < ID_SPAN && 0 <= c < MAX_CHILDREN && 0 <= d < MAX_CHILDREN
    ensures EncodeId(a, c) == EncodeId(b, d) <==> a == b && c == d
  {
    ChildRoundTrip(a, c);
    ChildRoundTrip(b, d);
    IdRoundTrip(a, c);
    IdRoundTrip(b, d);
  }

  lemma WordParts(x: int64)
    ensures Unsigned(x) == IdPart(x) + UnsignedChild(x) * ID_SPAN
  {
  }

  lemma LowBitsDecide(x: int64, sliceSize: nat)
    requires sliceSize > 0 && ID_SPAN % sliceSize == 0
    ensures Unsigned(x) % sliceSize == IdPart(x) % sliceSize
  {
    var k := ID_SPAN / sliceSize;
    assert ID_SPAN == k * sliceSize;
    WordParts(x);
    var high := UnsignedChild(x);
    assert high * ID_SPAN == (high * k) * sliceSize;
    AddMultiple(IdPart(x), high * k, sliceSize);
  }

  /** The residue that decides the owner of an id survives the encoding, masked bits or not, when the slice size
      divides 2^52. */
  lemma EncodeKeepsResidue(id: int64, child: int64, sliceSize: nat)
    requires sliceSize > 0 && ID_SPAN % sliceSize == 0
    ensures Unsigned(EncodeId(id, child)) % sliceSize == Unsigned(id) % sliceSize
  {
    LowBitsDecide(EncodeId(id, child), sliceSize);
    LowBitsDecide(id, sliceSize);
  }

  /** The check a table makes on its list of children, clause by clause: the third one compares the
      truth value of `!coalesce && size` with 1, so it accepts every non-empty list. */
  ghost predicate ValidChildren(children: seq<string>, coalesce: bool) {
    && |children| > 0
    && |children| < MAX_CHILDREN
    && (coalesce || (if !coalesce && |children| != 0 then 1 else 0) == 1)
    && Distinct(children)
  }

  /** What the error text promises to reject, a non-coalesced table with several children, is accepted. */
  lemma SeveralChildrenAccepted(children: seq<string>, coalesce: bool)
    ensures ValidChildren(children, coalesce) <==> 0 < |children| < 4095 && Distinct(children)
    ensures exists cs :: ValidChildren(cs, false) && |cs| == 2
  {
    assert ValidChildren(["a", "b"], false);
  }

  /** The position of a name; the class keeps it in a map filled by `AddChild`. */
  function ChildIndex(children: seq<string>, child: string): (i: nat)
    requires child in children
    ensures i < |children| && children[i] == child
  {
    if children[|children| - 1] == child then |children| - 1
    else
      assert children == children[..|children| - 1] + [children[|children| - 1]];
      ChildIndex(children[..|children| - 1], child)
  }
}
