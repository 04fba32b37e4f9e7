/**
  The `{sent, recv, total}` traffic record and its uint64 arithmetic.

  The repository carries several textually identical copies of this record and
  of its `Incr`/`Delta` operations (netstat.go, main.go, monitoor/netstat.go,
  netstat_helper.go, cmd/monitoor/helper/stat_helper.go). They are modelled
  once here: pure operations on the value `NetStat`, and the in-place
  operations on `NetStatCell`, which stands for a `*NetStat` pointer.

  Go's uint64 `+` and `-` wrap modulo 2^64; `Add64` and `Sub64` make that
  explicit (Dafny's `%` never yields a negative remainder, which is exactly
  the unsigned wrap).
 */
module NetStats {

  const TWO_64: int := 0x1_0000_0000_0000_0000

  /** Go's uint64. */
  type u64 = x: int | 0 <= x < TWO_64

  /** uint64 addition, wrapping modulo 2^64. */
  function Add64(a: u64, b: u64): (r: u64)
    ensures a + b < TWO_64 ==> r == a + b
    ensures a + b >= TWO_64 ==> r == a + b - TWO_64
  {
    (a + b) % TWO_64
  }

  /** uint64 subtraction, wrapping modulo 2^64. */
  function Sub64(a: u64, b: u64): (r: u64)
    ensures b <= a ==> r == a - b
    ensures a < b ==> r == a - b + TWO_64
  {
    (a - b) % TWO_64
  }

  /** A reading of the byte counters, or a difference or sum of readings. */
  datatype NetStat = NetStat(sent: u64, recv: u64, total: u64)

  /** The zero value `NetStat{}`. */
  const Zero: NetStat := NetStat(0, 0, 0)

  /** The record's invariant: the total is the (wrapped) sum of its parts. */
  predicate Consistent(s: NetStat)
  {
    s.total == Add64(s.sent, s.recv)
  }

  /** Builds a record whose total is the sum of its two parts. */
  function NewNetStat(sent: u64, recv: u64): (r: NetStat)
    ensures r.sent == sent && r.recv == recv
    ensures Consistent(r)
  {
    NetStat(sent, recv, Add64(sent, recv))
  }

  /** Field-wise sum of two records, into a new record. */
  function Incr(current: NetStat, other: NetStat): (r: NetStat)
    ensures Consistent(current) && Consistent(other) ==> Consistent(r)
  {
    AddCongruence(current.sent, current.recv, other.sent, other.recv);
    NetStat(Add64(current.sent, other.sent),
            Add64(current.recv, other.recv),
            Add64(current.total, other.total))
  }

  /** Field-wise difference `current - previous`, into a new record. */
  function Delta(current: NetStat, previous: NetStat): (r: NetStat)
    ensures Consistent(current) && Consistent(previous) ==> Consistent(r)
  {
    SubCongruence(current.sent, current.recv, previous.sent, previous.recv);
    NetStat(Sub64(current.sent, previous.sent),
            Sub64(current.recv, previous.recv),
            Sub64(current.total, previous.total))
  }

  /** Wrapped addition commutes with the split into sent and received parts. */
  lemma AddCongruence(s1: u64, r1: u64, s2: u64, r2: u64)
    ensures Add64(Add64(s1, r1), Add64(s2, r2)) == Add64(Add64(s1, s2), Add64(r1, r2))
  {
  }

  /** Wrapped subtraction commutes with the split into sent and received parts. */
  lemma SubCongruence(s1: u64, r1: u64, s2: u64, r2: u64)
    ensures Sub64(Add64(s1, r1), Add64(s2, r2)) == Add64(Sub64(s1, s2), Sub64(r1, r2))
  {
  }

  /** `Incr` is commutative. */
  lemma IncrCommutative(a: NetStat, b: NetStat)
    ensures Incr(a, b) == Incr(b, a)
  {
  }

  /** `Incr` is associative. */
  lemma IncrAssociative(a: NetStat, b: NetStat, c: NetStat)
    ensures Incr(Incr(a, b), c) == Incr(a, Incr(b, c))
  {
  }

  /** The zero record is the identity of `Incr` on both sides. */
  lemma IncrIdentity(a: NetStat)
    ensures Incr(a, Zero) == a && Incr(Zero, a) == a
  {
  }

  /** The delta of a record with itself is all zeros. */
  lemma DeltaSelf(a: NetStat)
    ensures Delta(a, a) == Zero
  {
  }

  /** Adding the delta back onto the older reading gives the newer one. */
  lemma IncrDeltaRoundTrip(a: NetStat, b: NetStat)
    ensures Incr(b, Delta(a, b)) == a
  {
  }

  /** Taking away what was added gives back the original. */
  lemma DeltaIncrRoundTrip(a: NetStat, b: NetStat)
    ensures Delta(Incr(a, b), b) == a
  {
  }

  /** A reading is determined by an older reading and the delta between them. */
  lemma DeltaInjective(a1: NetStat, a2: NetStat, b: NetStat)
    requires Delta(a1, b) == Delta(a2, b)
    ensures a1 == a2
  {
    IncrDeltaRoundTrip(a1, b);
    IncrDeltaRoundTrip(a2, b);
  }

  /** When no field of the newer reading is below the older one, the delta is exact. */
  lemma DeltaExact(a: NetStat, b: NetStat)
    requires b.sent <= a.sent && b.recv <= a.recv && b.total <= a.total
    ensures Delta(a, b) == NetStat(a.sent - b.sent, a.recv - b.recv, a.total - b.total)
  {
  }

  /** A counter that went backwards yields a delta that wrapped around 2^64. */
  lemma DeltaWraps(a: NetStat, b: NetStat)
    requires a.sent < b.sent
    ensures Delta(a, b).sent == TWO_64 - (b.sent - a.sent)
    ensures Delta(a, b).sent > a.sent
  {
  }

  /** The values pinned by the repository's tests of `Incr` and `Delta`. */
  lemma TestVectors()
    ensures Incr(NetStat(20, 5, 25), NetStat(10, 3, 13)) == NetStat(30, 8, 38)
    ensures Delta(NetStat(20, 5, 25), NetStat(10, 3, 13)) == NetStat(10, 2, 12)
    ensures NewNetStat(20, 5) == NetStat(20, 5, 25) && NewNetStat(10, 3) == NetStat(10, 3, 13)
  {
  }

  /** The difference of two records built by `NewNetStat` is still consistent. */
  lemma NewNetStatDeltaConsistent(s1: u64, r1: u64, s2: u64, r2: u64)
    ensures Consistent(Delta(NewNetStat(s1, r1), NewNetStat(s2, r2)))
  {
  }

  /** Two consecutive deltas add up to the delta across both intervals. */
  lemma DeltaChain(a: NetStat, b: NetStat, c: NetStat)
    ensures Incr(Delta(b, a), Delta(c, b)) == Delta(c, a)
  {
  }

  /** The field-wise sum of a sequence of records, added up from the left. */
  function SumOf(ds: seq<NetStat>): NetStat
  {
    if ds == [] then Zero else Incr(SumOf(ds[..|ds| - 1]), ds[|ds| - 1])
  }

  /** Adding one more record to a running sum. */
  lemma SumOfAppend(ds: seq<NetStat>, d: NetStat)
    ensures SumOf(ds + [d]) == Incr(SumOf(ds), d)
  {
    assert (ds + [d])[..|ds|] == ds;
  }

  /** The sum of a concatenation is the sum of the two sums. */
  lemma {:induction false} SumOfConcat(a: seq<NetStat>, b: seq<NetStat>)
    ensures SumOf(a + b) == Incr(SumOf(a), SumOf(b))
    decreases |b|
  {
    if b == [] {
      assert a + b == a;
      IncrIdentity(SumOf(a));
    } else {
      var init, last := b[..|b| - 1], b[|b| - 1];
      assert b == init + [last];
      assert a + b == (a + init) + [last];
      SumOfConcat(a, init);
      SumOfAppend(a + init, last);
      SumOfAppend(init, last);
      IncrAssociative(SumOf(a), SumOf(init), last);
    }
  }

  /** Every record of the sequence keeps `total == sent + recv`. */
  predicate AllConsistent(ds: seq<NetStat>)
  {
    ds == [] || (AllConsistent(ds[..|ds| - 1]) && Consistent(ds[|ds| - 1]))
  }

  /** `AllConsistent` says the same as a quantifier over the positions. */
  lemma {:induction false} AllConsistentAt(ds: seq<NetStat>, i: nat)
    requires AllConsistent(ds) && i < |ds|
    ensures Consistent(ds[i])
    decreases |ds|
  {
    if i < |ds| - 1 {
      AllConsistentAt(ds[..|ds| - 1], i);
    }
  }

  /** A sum of consistent records is consistent. */
  lemma {:induction false} SumOfConsistent(ds: seq<NetStat>)
    requires AllConsistent(ds)
    ensures Consistent(SumOf(ds))
    decreases |ds|
  {
    if ds != [] {
      SumOfConsistent(ds[..|ds| - 1]);
    }
  }

  /**
    A `*NetStat` whose fields are updated in place.
   */
  class NetStatCell {
    var sent: u64
    var recv: u64
    var total: u64

    /** The value the pointer currently refers to. */
    function Value(): NetStat
      reads this
    {
      NetStat(sent, recv, total)
    }

    constructor (init: NetStat)
      ensures Value() == init
    {
      sent, recv, total := init.sent, init.recv, init.total;
    }

    /**
      `netStat.Incr(new)`: adds each of `other`'s fields into this record.
      Each field of `other` is read before the same field of this record is
      written, so `c.IncrBy(c)` doubles `c`.
     */
    method IncrBy(other: NetStatCell)
      modifies this
      ensures Value() == Incr(old(Value()), old(other.Value()))
    {
      recv := Add64(recv, other.recv);
      sent := Add64(sent, other.sent);
      total := Add64(total, other.total);
    }
  }

  /** `UpdateWith(old, new)`: overwrites the three fields of `*old` with `next` (Go's `new`). */
  method UpdateWith(target: NetStatCell, next: NetStat)
    modifies target
    ensures target.Value() == next
  {
    target.sent := next.sent;
    target.recv := next.recv;
    target.total := next.total;
  }

  /** The repository's in-place `Incr` test: `{20,5,25}.Incr({10,3,13})`. */
  method IncrInPlaceExample() returns (r: NetStat)
    ensures r == NetStat(30, 8, 38)
  {
    var a := new NetStatCell(NewNetStat(20, 5));
    var b := new NetStatCell(NewNetStat(10, 3));
    a.IncrBy(b);
    assert b.Value() == NetStat(10, 3, 13);
    r := a.Value();
  }
}
