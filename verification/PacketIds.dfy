/** Rolling packet identifiers (`get_next_packet_id` of both clients). */
module PacketIds {
  import opened Bytes

  const ID_CYCLE: nat := 65_535

  /** One allocation: `wrapping_add(1)`, skipping 0. */
  function NextId(id: u16): (next: u16)
    ensures next != 0
  {
    var next := (id + 1) % 0x1_0000;
    if next == 0 then 1 else next
  }

  /** The `k`-th identifier handed out, counting from 0. */
  function IdOf(k: nat): (id: u16)
    ensures id != 0
  {
    1 + k % ID_CYCLE
  }

  lemma AllocationsCount(k: nat)
    ensures NextId(IdOf(k)) == IdOf(k + 1)
  {
  }

  /** Two allocations get the same identifier exactly when a whole number of cycles lies between them. */
  lemma SameIdIff(j: nat, k: nat)
    requires j <= k
    ensures IdOf(j) == IdOf(k) <==> (k - j) % ID_CYCLE == 0
  {
  }

  /** Any 65,535 consecutive identifiers are distinct. */
  lemma CycleIsDistinct(j: nat, k: nat)
    requires j < k < j + ID_CYCLE
    ensures IdOf(j) != IdOf(k)
  {
    SameIdIff(j, k);
  }
}
