/** Transaction ids: the Detector's 64-bit counter and what one observation does to a Session. */
module TxIds {
  import opened Classify

  const U64 := 0x1_0000_0000_0000_0000

  type u64 = x: int | 0 <= x < U64

  /** atomic.Uint64.Add(1): wraps around. */
  function Next(seqNo: u64): u64 {
    (seqNo + 1) % U64
  }

  /** observeKind's effect on (txID, txSeq). */
  function Observe(kind: Kind, txID: u64, seqNo: u64): (u64, u64) {
    match kind
    case Begin => if txID == 0 then (Next(seqNo), Next(seqNo)) else (txID, seqNo)
    case Commit | Rollback => (0, seqNo)
    case _ => (txID, seqNo)
  }
}
