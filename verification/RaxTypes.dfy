/** The memory cells of the radix tree: node layout, slots and the leaf bitmap. */
module RaxTypes {

  import opened ByteStrings

  type Addr = nat

  /** Longest edge string one compressed node can hold (a 16 bit size field). */
  const NODE_MAX_SIZE := 65535

  /** Only the first 13 child slots can hold a value in place of a pointer. */
  const INLINE_SLOTS := 13

  /** A stored `void *`: the null pointer, or some other word. */
  datatype Value = Null | Word(word: nat)

  /** A child slot. The machine word carries no tag: code must consult the leaf
      bitmap before it reads the slot as a pointer or as a value. */
  datatype Slot = Unset | Child(addr: Addr) | Inline(value: Value)

  /** The header bits and the edge bytes of a node. `aux` is meaningless unless
      the node is a key with a non-null value. */
  datatype Header = Header(iskey: bool, isnull: bool, aux: Value, iscompr: bool, bytes: Bytes) {
    function GetData(): Value {
      if isnull then Null else aux
    }

    function SetData(v: Value): Header {
      if v.Null? then this.(iskey := true, isnull := true)
      else this.(iskey := true, isnull := false, aux := v)
    }

    function Size(): nat {
      |bytes|
    }
  }

  datatype Node = Node(hd: Header, leafbitmap: seq<bool>, slots: seq<Slot>) {
    predicate IsInlineLeaf(i: int) {
      0 <= i < INLINE_SLOTS && i < |leafbitmap| && leafbitmap[i]
    }
  }

  /** One allocated node and its address. */
  type Cell = (Addr, Node)

  /** Where a pointer to a node is stored: the tree head or a child slot. */
  datatype Link = HeadLink | SlotLink(node: Addr, idx: nat)

  function NoLeaves(): seq<bool> {
    seq(INLINE_SLOTS, i => false)
  }

  function EmptyNode(): Node {
    Node(Header(false, false, Null, false, []), NoLeaves(), [])
  }

  /** A standalone leaf that stores `v`. */
  function ValueNode(v: Value): Node {
    Node(Header(false, false, Null, false, []).SetData(v), NoLeaves(), [])
  }

  function PlainHeader(): Header {
    Header(false, false, Null, false, [])
  }

  /** A fresh header that is a key exactly when `hd` is, with the same value. */
  function KeyOnly(hd: Header): Header {
    if hd.iskey then PlainHeader().SetData(hd.GetData()) else PlainHeader()
  }

  /** A node with the single edge string `bytes` into `slot`. */
  function LineNode(hd: Header, bytes: Bytes, slot: Slot, inlineLeaf: bool): Node {
    Node(hd.(iscompr := |bytes| > 1, bytes := bytes), NoLeaves()[0 := inlineLeaf], [slot])
  }

  /** The position of edge `c`, or the number of edges when there is none. */
  function IndexOf(bytes: Bytes, c: Byte): (i: nat)
    ensures i <= |bytes|
    ensures i < |bytes| ==> bytes[i] == c
    ensures forall k :: 0 <= k < i ==> bytes[k] != c
  {
    if bytes == [] || bytes[0] == c then 0 else 1 + IndexOf(bytes[1..], c)
  }

  ghost predicate StrictlySorted(bytes: Bytes) {
    forall i, j :: 0 <= i < j < |bytes| ==> bytes[i] < bytes[j]
  }
}
