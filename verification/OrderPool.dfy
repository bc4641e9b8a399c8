/** Append-only store of order records; a slot index stays valid forever. */
module OrderPool {
  import opened Api

  datatype OrderRecord = OrderRecord(
    id: uint64, price: int, instrumentId: uint32, openQty: uint32, filledQty: uint32,
    prev: uint32, next: uint32, levelIndex: uint32, side: Side, isOpen: bool)

  const NEW_RECORD := OrderRecord(0, 0, 0, 0, 0, INVALID_SLOT, INVALID_SLOT, INVALID_SLOT, Buy, false)

  class OrderPool {
    var recs: seq<OrderRecord>

    constructor ()
      ensures recs == []
    {
      recs := [];
    }

    /** A fresh record; slot 2^32 - 1 is never handed out. */
    method Allocate() returns (slot: uint32)
      requires |recs| < INVALID_SLOT
      modifies this
      ensures slot == |old(recs)| && recs == old(recs) + [NEW_RECORD]
    {
      slot := |recs|;
      recs := recs + [NEW_RECORD];
    }
  }
}
