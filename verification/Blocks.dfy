/** Blocks and transactions, as far as committing and finding them goes. */
module Blocks {
  type BlockHash(==, !new)
  type TxHash(==, !new)
  type Body(==, !new)

  datatype Tx = Tx(hash: TxHash, body: Body)

  /** A block with its transactions, and for every receipt whether its transaction failed. */
  datatype Block = Block(number: int, parentHash: BlockHash, hash: BlockHash, txs: seq<Tx>, failed: seq<bool>)

  /** How many receipts tell of a failure. */
  function Failures(failed: seq<bool>): nat {
    if failed == [] then 0
    else Failures(failed[..|failed| - 1]) + if failed[|failed| - 1] then 1 else 0
  }

  /** The places of the receipts that tell of a failure. */
  ghost function FailedAt(failed: seq<bool>): set<nat> {
    set k: nat | k < |failed| && failed[k]
  }

  lemma {:induction false} FailuresAreCounted(failed: seq<bool>)
    ensures Failures(failed) == |FailedAt(failed)|
  {
    if failed == [] {
      assert FailedAt(failed) == {};
    } else {
      var n := |failed| - 1;
      var front := failed[..n];
      FailuresAreCounted(front);
      assert FailedAt(failed) == FailedAt(front) + if failed[n] then {n} else {};
      assert n !in FailedAt(front);
    }
  }
}
