/** The 6-bit packet counter of the header. */
module PacketCounter {
  const COUNTER_RANGE: nat := 64

  lemma ModuloAdd(a: nat, b: nat)
    ensures (a % COUNTER_RANGE + b) % COUNTER_RANGE == (a + b) % COUNTER_RANGE
  {
  }

  /** Of the last 64 numbers before n, only n - 64 has the same remainder. */
  lemma SameSlot(call: nat, calls: nat)
    requires calls - COUNTER_RANGE <= call < calls
    ensures call % COUNTER_RANGE == calls % COUNTER_RANGE <==> call == calls - COUNTER_RANGE
  {
  }
}
