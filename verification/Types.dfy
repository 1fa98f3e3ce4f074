/** The shared vocabulary of the cache: indices, slab nodes, and cached entries. */
module Types {

  /** The index that denotes "no slot" (UINT32_MAX). */
  const INVALID_INDEX: nat := 0xFFFF_FFFF

  /** The number of values a 32-bit unsigned word can hold. */
  const WORD32: nat := 0x1_0000_0000

  datatype Option<+T> = None | Some(value: T)

  /** The segment tag kept in every slab node. */
  datatype Segment = Free | Window | Probation | Protected

  /** One slab slot. Slots are values inside the pool, as in a `std::vector` of structs. */
  datatype CacheNode = CacheNode(prev: nat, next: nat, key: string, value: string, segment: Segment)

  /** A node without its links. */
  datatype Payload = Payload(key: string, value: string, segment: Segment)

  function PayloadOf(n: CacheNode): Payload {
    Payload(n.key, n.value, n.segment)
  }

  function Payloads(pool: seq<CacheNode>): (d: seq<Payload>)
    ensures |d| == |pool|
    ensures forall i :: 0 <= i < |pool| ==> d[i] == PayloadOf(pool[i])
  {
    seq(|pool|, i requires 0 <= i < |pool| => PayloadOf(pool[i]))
  }

  /** The state `CacheNode::reset` leaves behind. */
  const EMPTY_NODE := CacheNode(INVALID_INDEX, INVALID_INDEX, "", "", Free)

  datatype Entry = Entry(key: string, value: string)

  /** What an evicted entry carries to the second tier. */
  datatype DemotionItem = DemotionItem(key: string, value: string, frequency: nat)
}
