/** The 32-bit fragment mask of ACKS frames and the std::bitset<32> behind it
    (udap/iwp_link.cpp, transit_message). A 32-bit word is the sequence of its
    bits, least significant first: `w[i]` is `w & (1 << i)`, and `w[i := true]`
    is `w | (1 << i)`. A bitset is the set of the positions of its one bits. */
module BitMask {
  type Word32 = w: seq<bool> | |w| == 32 witness seq(32, _ => false)

  /** The positions that ack() reads out of a mask. */
  function Bits(mask: Word32): (s: set<nat>)
    ensures forall i :: i in s ==> i < 32
  {
    set i: nat | i < 32 && mask[i]
  }

  function MaskOf(status: set<nat>): (m: Word32)
  {
    seq(32, i => i in status)
  }

  /** No bit is lost or invented on the way through the 32-bit mask: the mask of
      one side's bits, acknowledged by the other, is exactly the union. */
  lemma AckOfMask(status: set<nat>, other: set<nat>)
    requires forall i :: i in other ==> i < 32
    ensures status + Bits(MaskOf(other)) == status + other
  {
    assert Bits(MaskOf(other)) == other;
  }

  /** transit_message::get_bitmask. */
  method GetBitmask(status: set<nat>) returns (mask: Word32)
    requires forall i :: i in status ==> i < 32
    ensures Bits(mask) == status
    ensures mask == MaskOf(status)
  {
    mask := seq(32, _ => false);
    var idx := 0;
    while idx < 32
      invariant idx <= 32
      invariant forall i :: 0 <= i < 32 ==> mask[i] == (i < idx && i in status)
    {
      if idx in status {
        mask := mask[idx := true];
      }
      idx := idx + 1;
    }
  }

  /** transit_message::ack. */
  method Ack(status: set<nat>, mask: Word32) returns (acked: set<nat>)
    ensures acked == status + Bits(mask)
  {
    acked := status;
    var idx := 0;
    while idx < 32
      invariant idx <= 32
      invariant acked == status + set i: nat | i < idx && mask[i]
    {
      if mask[idx] {
        acked := acked + {idx};
      }
      idx := idx + 1;
    }
  }
}
