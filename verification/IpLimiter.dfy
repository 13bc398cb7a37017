/** The per-address connection counter consulted before a socket is queued. */
module IpLimiter {
  import opened Wrappers

  type Counts = map<string, nat>

  /** Inflight connections the table records for an address; an absent entry means none. */
  function CountOf(counts: Counts, address: string): nat {
    if address in counts then counts[address] else 0
  }

  function Acquire(counts: Counts, limit: nat, address: string): (bool, Counts) {
    if address == "" then (true, counts)
    else
      var count := CountOf(counts, address);
      // operator[] inserts a zero entry before the comparison.
      if count >= limit then (false, counts[address := count])
      else (true, counts[address := count + 1])
  }

  function Release(counts: Counts, address: string): Counts {
    if address == "" || address !in counts then counts
    else if counts[address] > 1 then counts[address := counts[address] - 1]
    else counts - {address}
  }

  /** Every stored entry counts at least one connection and at most the limit. */
  ghost predicate WithinLimit(counts: Counts, limit: nat) {
    && "" !in counts
    && forall a :: a in counts ==> 1 <= counts[a] <= limit
  }

  lemma AcquireCounts(counts: Counts, limit: nat, address: string)
    requires 0 < limit && WithinLimit(counts, limit)
    ensures var (admitted, after) := Acquire(counts, limit, address);
      && WithinLimit(after, limit)
      && (admitted <==> address == "" || CountOf(counts, address) < limit)
      && (!admitted ==> after == counts)
      && forall a: string :: a != "" ==>
           CountOf(after, a) == CountOf(counts, a) + (if admitted && a == address then 1 else 0)
  {
    var (admitted, after) := Acquire(counts, limit, address);
    if !admitted {
      assert address in counts;
      assert after == counts;
    }
  }

  lemma ReleaseCounts(counts: Counts, limit: nat, address: string)
    requires WithinLimit(counts, limit)
    requires address != "" ==> CountOf(counts, address) > 0
    ensures WithinLimit(Release(counts, address), limit)
    ensures forall a: string :: a != "" ==>
              CountOf(Release(counts, address), a) + (if a == address then 1 else 0) == CountOf(counts, a)
  {
  }

  /** A release undoes the admission it pairs with, leaving the table as it was. */
  lemma ReleaseUndoesAcquire(counts: Counts, limit: nat, address: string)
    requires 0 < limit && WithinLimit(counts, limit)
    requires Acquire(counts, limit, address).0
    ensures Release(Acquire(counts, limit, address).1, address) == counts
  {
    if address != "" && address !in counts {
      assert counts[address := 1] - {address} == counts;
    }
  }

  class IpConnectionLimiter {
    const perIpLimit: nat
    var inflightByIp: Counts

    constructor (limit: nat)
      requires limit > 0
      ensures perIpLimit == limit && inflightByIp == map[]
    {
      perIpLimit := limit;
      inflightByIp := map[];
    }

    /** The source's constructor throws on a zero limit. */
    static method Create(limit: nat) returns (limiter: Option<IpConnectionLimiter>)
      ensures limiter.None? <==> limit == 0
      ensures limiter.Some? ==>
                fresh(limiter.value) && limiter.value.perIpLimit == limit && limiter.value.inflightByIp == map[]
    {
      if limit == 0 {
        return None;
      }
      var l := new IpConnectionLimiter(limit);
      return Some(l);
    }

    method TryAcquire(peerAddress: string) returns (admitted: bool)
      modifies this`inflightByIp
      ensures (admitted, inflightByIp) == Acquire(old(inflightByIp), perIpLimit, peerAddress)
    {
      if peerAddress == "" {
        return true;
      }
      if peerAddress !in inflightByIp {
        inflightByIp := inflightByIp[peerAddress := 0];
      }
      if inflightByIp[peerAddress] >= perIpLimit {
        assert inflightByIp == Acquire(old(inflightByIp), perIpLimit, peerAddress).1;
        return false;
      }
      inflightByIp := inflightByIp[peerAddress := inflightByIp[peerAddress] + 1];
      assert inflightByIp == Acquire(old(inflightByIp), perIpLimit, peerAddress).1;
      return true;
    }

    method ReleaseOne(peerAddress: string)
      modifies this`inflightByIp
      ensures inflightByIp == Release(old(inflightByIp), peerAddress)
    {
      if peerAddress == "" {
        return;
      }
      if peerAddress !in inflightByIp {
        return;
      }
      if inflightByIp[peerAddress] > 1 {
        inflightByIp := inflightByIp[peerAddress := inflightByIp[peerAddress] - 1];
        return;
      }
      inflightByIp := inflightByIp - {peerAddress};
    }
  }
}
