/** Index arithmetic of the two rings on the bridge page (is_queue_full in
    tools/virtio/virtio.c): 32 slots, front and rear wrap, one slot stays free. */
module BridgeRing {

  const MAX_REQ: nat := 32

  function Next(i: nat): (r: nat) { (i + 1) % MAX_REQ }

  lemma {:induction false} ModNext(n: nat)
    ensures Next(n % MAX_REQ) == (n + 1) % MAX_REQ
  {}

  /** The full test on wrapped indices is exact: the ring is full with 31 requests in it. */
  lemma {:induction false} FullExact(produced: nat, released: nat)
    requires released <= produced < released + MAX_REQ
    ensures Next(produced % MAX_REQ) == released % MAX_REQ <==> produced - released == MAX_REQ - 1
  {
    ModNext(produced);
    var d := produced + 1 - released;
    assert (produced + 1) % MAX_REQ == released % MAX_REQ <==> d % MAX_REQ == 0;
  }
}
