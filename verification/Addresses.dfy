/** The bounded search for a free address in a region's pool (services/api/internal/postgres/store.go:738-756). */
module Addresses {
  import opened Arithmetic
  import opened Wrappers

  /** A netip.Prefix: any address of the pool and the prefix length. */
  datatype Pool = Pool(v4: bool, address: nat, bits: nat)

  datatype SearchError = PoolUnparsable | Exhausted

  const MAX_ATTEMPTS := 65535

  function Width(v4: bool): nat
  {
    if v4 then 32 else 128
  }

  predicate WellFormedPool(p: Pool)
  {
    p.bits <= Width(p.v4) && p.address < Pow2(Width(p.v4))
  }

  function Size(p: Pool): nat
    requires WellFormedPool(p)
  {
    Pow2(Width(p.v4) - p.bits)
  }

  /** Masked().Addr(): the first address of the pool. */
  function Base(p: Pool): int
    requires WellFormedPool(p)
  {
    p.address - p.address % Size(p)
  }

  predicate Contains(p: Pool, a: Option<int>)
    requires WellFormedPool(p)
  {
    a.Some? && Base(p) <= a.value < Base(p) + Size(p)
  }

  /** Addr.Next: the invalid address after the last one, and after itself. */
  function Next(p: Pool, a: Option<int>): Option<int>
  {
    if a.Some? && a.value + 1 < Pow2(Width(p.v4)) then Some(a.value + 1) else None
  }

  lemma PoolFits(p: Pool)
    requires WellFormedPool(p)
    ensures Base(p) <= p.address < Base(p) + Size(p) <= Pow2(Width(p.v4))
  {
    hide Pow2;
    Pow2Add(Width(p.v4) - p.bits, p.bits);
    RoundDown(p.address, Size(p), Pow2(p.bits));
  }

  /** One past the last candidate: the window ends with the attempts or with the pool, and the last IPv4
      address of a pool is never handed out. */
  function WindowEnd(p: Pool): int
    requires WellFormedPool(p)
  {
    Min(Base(p) + 2 + MAX_ATTEMPTS, Base(p) + Size(p) - if p.v4 then 1 else 0)
  }

  function Window(p: Pool): set<int>
    requires WellFormedPool(p)
  {
    Interval(Base(p) + 2, WindowEnd(p))
  }

  /** The reference: the least unused address from a on. */
  function FreeFrom(used: set<int>, a: int, end: int): Option<int>
    decreases end - a
  {
    if a >= end then None else if a !in used then Some(a) else FreeFrom(used, a + 1, end)
  }

  function FirstFree(p: Pool, used: set<int>): Option<int>
    requires WellFormedPool(p)
  {
    FreeFrom(used, Base(p) + 2, WindowEnd(p))
  }

  method FirstAvailableAddress(pool: Option<Pool>, used: set<int>) returns (r: Result<int, SearchError>)
    requires pool.Some? ==> WellFormedPool(pool.value)
    ensures pool == None ==> r == Err(PoolUnparsable)
    ensures pool.Some? ==>
              r == match FirstFree(pool.value, used) case Some(a) => Ok(a) case None => Err(Exhausted)
  {
    if pool == None {
      return Err(PoolUnparsable);
    }
    var p := pool.value;
    PoolFits(p);
    var candidate := Next(p, Next(p, Some(Base(p))));
    var attempts := 0;
    while attempts < MAX_ATTEMPTS && candidate.Some? && Contains(p, candidate)
      invariant 0 <= attempts <= MAX_ATTEMPTS
      invariant var a := Base(p) + 2 + attempts; candidate == if a < Pow2(Width(p.v4)) then Some(a) else None
      invariant FirstFree(p, used) == FreeFrom(used, Base(p) + 2 + attempts, WindowEnd(p))
      decreases MAX_ATTEMPTS - attempts
    {
      if p.v4 && !Contains(p, Next(p, candidate)) {
        break;
      }
      if candidate.value !in used {
        return Ok(candidate.value);
      }
      candidate := Next(p, candidate);
      attempts := attempts + 1;
    }
    return Err(Exhausted);
  }

  lemma {:induction false} FreeFromLeast(used: set<int>, a: int, end: int)
    ensures match FreeFrom(used, a, end)
            case Some(r) => a <= r < end && r !in used && forall b :: a <= b < r ==> b in used
            case None => forall b :: a <= b < end ==> b in used
    decreases end - a
  {
    if a < end && a in used {
      FreeFromLeast(used, a + 1, end);
    }
  }

  /** The search returns the least unused address of the window, and reports exhaustion iff the window has none. */
  lemma FirstFreeExactly(p: Pool, used: set<int>)
    requires WellFormedPool(p)
    ensures match FirstFree(p, used)
            case Some(r) => r in Window(p) && r !in used && forall b :: b in Window(p) && b < r ==> b in used
            case None => forall b :: b in Window(p) ==> b in used
  {
    FreeFromLeast(used, Base(p) + 2, WindowEnd(p));
  }

  /** How many addresses a pool can lease. */
  lemma WindowSize(p: Pool)
    requires WellFormedPool(p)
    ensures var n := Min(MAX_ATTEMPTS, Size(p) - if p.v4 then 3 else 2);
            |Window(p)| == if n < 0 then 0 else n
  {
  }

  /** By pigeonhole the search succeeds whenever fewer addresses are used than the window holds. */
  lemma FirstFreeSucceeds(p: Pool, used: set<int>)
    requires WellFormedPool(p)
    requires |used| < Min(MAX_ATTEMPTS, Size(p) - if p.v4 then 3 else 2)
    ensures FirstFree(p, used).Some?
  {
    FirstFreeExactly(p, used);
    WindowSize(p);
    if FirstFree(p, used) == None {
      SubsetSize(Window(p), used);
    }
  }

  /** Candidates never include the pool's first two addresses or the last IPv4 address, and fit the address space. */
  lemma WindowInside(p: Pool, a: int)
    requires WellFormedPool(p) && a in Window(p)
    ensures Base(p) + 2 <= a < Base(p) + Size(p) <= Pow2(Width(p.v4))
    ensures p.v4 ==> a != Base(p) + Size(p) - 1
  {
    PoolFits(p);
  }
}
