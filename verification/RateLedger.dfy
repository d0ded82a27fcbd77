/**
 The politeness gate's per-host slot ledger: `rateWait` reserves under one mutex, so any interleaving
 of callers is a sequence of reservations. Times and intervals are in nanoseconds.
 */
module RateLedger {
  const DEFAULT_RATE_MS := 2000
  const MIN_RATE_MS := 500
  const MILLISECOND := 1000000
  const FLOOR := MIN_RATE_MS * MILLISECOND

  // ----- the interval -----

  const TWO_TO_63 := 0x8000_0000_0000_0000
  const TWO_TO_64 := 0x1_0000_0000_0000_0000

  /** Go's int and time.Duration: 64 bits. */
  type Int64 = x: int | -TWO_TO_63 <= x < TWO_TO_63 witness 0

  /** What a 64-bit product keeps of an integer: the only Int64 that is equal to it modulo 2 to the 64. */
  function Wrap(x: int): (w: Int64)
    ensures (x - w) % TWO_TO_64 == 0
    ensures -TWO_TO_63 <= x < TWO_TO_63 ==> w == x
  {
    (x + TWO_TO_63) % TWO_TO_64 - TWO_TO_63
  }

  /** The greatest rate whose interval 64 bits can hold. */
  const MAX_RATE_MS := 9223372036854

  /** The rate in milliseconds that a caller is given: the default for none, and at least the minimum. */
  function ClampedRate(rateMS: Int64): (clamped: Int64)
    ensures clamped >= MIN_RATE_MS
  {
    var asked: Int64 := if rateMS <= 0 then DEFAULT_RATE_MS else rateMS;
    if asked < MIN_RATE_MS then MIN_RATE_MS else asked
  }

  /** The caller's rate clamped up to the structural floor, as a 64-bit number of nanoseconds. */
  function EffectiveInterval(rateMS: Int64): (interval: Int64)
    ensures rateMS <= MAX_RATE_MS ==> interval >= FLOOR
    ensures MIN_RATE_MS <= rateMS <= MAX_RATE_MS ==> interval == rateMS * MILLISECOND
  {
    Wrap(ClampedRate(rateMS) * MILLISECOND)
  }

  /** The interval is the clamped rate exactly for rates whose product does not overflow. */
  lemma IntervalIsClampedRateIff(rateMS: Int64)
    ensures EffectiveInterval(rateMS) == ClampedRate(rateMS) * MILLISECOND <==> rateMS <= MAX_RATE_MS
  {
  }

  /** The interval in nanoseconds: two seconds when no rate is asked for, half a second at least, and else as asked. */
  lemma IntervalIsAsAsked(rateMS: Int64)
    requires rateMS <= MAX_RATE_MS
    ensures EffectiveInterval(rateMS)
         == if rateMS <= 0 then 2_000_000_000 else if rateMS <= 500 then 500_000_000 else rateMS * 1_000_000
  {
  }

  /** The rates that reach the floor: up to the greatest, all; beyond it, those whose product wraps far enough up. */
  predicate KeepsFloor(rateMS: Int64) {
    rateMS <= MAX_RATE_MS || FLOOR <= rateMS * MILLISECOND % TWO_TO_64 < TWO_TO_63
  }

  lemma FloorIff(rateMS: Int64)
    ensures EffectiveInterval(rateMS) >= FLOOR <==> KeepsFloor(rateMS)
  {
    if rateMS > MAX_RATE_MS {
      WrapReaches(rateMS * MILLISECOND, FLOOR);
    }
  }

  lemma WrapReaches(x: nat, low: nat)
    ensures low <= Wrap(x) <==> low <= x % TWO_TO_64 < TWO_TO_63
  {
    var q, m := x / TWO_TO_64, x % TWO_TO_64;
    assert x == q * TWO_TO_64 + m;
    if m < TWO_TO_63 {
      assert Wrap(x) == m;
    } else {
      assert Wrap(x) == m - TWO_TO_64;
    }
  }

  /** Rates that overflow: the first one has a negative interval, a later one a positive one below the floor. */
  lemma OverflowingRates()
    ensures EffectiveInterval(9223372036855) == -9223372036854551616
    ensures EffectiveInterval(18446744073710) == 448384
    ensures !KeepsFloor(9223372036855) && !KeepsFloor(18446744073710)
  {
  }

  // ----- the ledger -----

  /** One reservation: the host, the caller's rate and its clock when it holds the mutex. */
  datatype Request = Request(host: string, rateMS: Int64, now: int)

  type Ledger = map<string, int>

  /** A host without an entry is free since the zero time, which lies before every clock. */
  function SlotFor(ledger: Ledger, r: Request): int {
    if r.host in ledger && ledger[r.host] >= r.now then ledger[r.host] else r.now
  }

  function Reserve(ledger: Ledger, r: Request): Ledger {
    ledger[r.host := SlotFor(ledger, r) + EffectiveInterval(r.rateMS)]
  }

  class PoliteGate {
    var nextAt: Ledger

    constructor ()
      ensures nextAt == map[]
    {
      nextAt := map[];
    }

    method RateWait(key: string, rateMS: Int64, now: int) returns (at: int)
      modifies this
      ensures at == SlotFor(old(nextAt), Request(key, rateMS, now))
      ensures nextAt == Reserve(old(nextAt), Request(key, rateMS, now))
    {
      var interval := EffectiveInterval(rateMS);
      at := now;
      if key in nextAt {
        at := nextAt[key];
        if at < now {
          at := now;
        }
      }
      nextAt := nextAt[key := at + interval];
    }
  }

  // ----- runs -----

  function LedgerAfter(rs: seq<Request>): Ledger {
    if rs == [] then map[] else Reserve(LedgerAfter(rs[..|rs| - 1]), rs[|rs| - 1])
  }

  /** The slot that the i-th reservation of a run gets. */
  function Slot(rs: seq<Request>, i: nat): int
    requires i < |rs|
  {
    SlotFor(LedgerAfter(rs[..i]), rs[i])
  }

  /** The last of the first `n` reservations that is for the host; -1 when there is none. */
  function LastFor(rs: seq<Request>, host: string, n: nat): (i: int)
    requires n <= |rs|
    ensures -1 <= i < n
    ensures i >= 0 ==> rs[i].host == host
    ensures forall j :: i < j < n ==> rs[j].host != host
  {
    if n == 0 then -1 else if rs[n - 1].host == host then n - 1 else LastFor(rs, host, n - 1)
  }

  /** The ledger holds, for each host, the end of its last reservation. */
  lemma {:induction false} LedgerIsLastEnd(rs: seq<Request>, host: string, n: nat)
    requires n <= |rs|
    ensures var i := LastFor(rs, host, n);
            if i < 0 then host !in LedgerAfter(rs[..n])
            else host in LedgerAfter(rs[..n])
                 && LedgerAfter(rs[..n])[host] == Slot(rs, i) + EffectiveInterval(rs[i].rateMS)
  {
    if n > 0 {
      assert rs[..n][..n - 1] == rs[..n - 1];
      LedgerIsLastEnd(rs, host, n - 1);
    }
  }

  /** A slot is the later of the caller's clock and the end of the host's reservation before it. */
  lemma SlotIsNextFree(rs: seq<Request>, j: nat)
    requires j < |rs|
    ensures var i := LastFor(rs, rs[j].host, j);
            Slot(rs, j) == if i >= 0 && Slot(rs, i) + EffectiveInterval(rs[i].rateMS) >= rs[j].now
                           then Slot(rs, i) + EffectiveInterval(rs[i].rateMS) else rs[j].now
  {
    LedgerIsLastEnd(rs, rs[j].host, j);
  }

  /** Consecutive reservations for a host are the earlier caller's interval apart, and none precedes its caller's clock. */
  lemma ConsecutiveAreSpaced(rs: seq<Request>, j: nat)
    requires j < |rs|
    ensures Slot(rs, j) >= rs[j].now
    ensures var i := LastFor(rs, rs[j].host, j);
            i >= 0 ==> Slot(rs, j) >= Slot(rs, i) + EffectiveInterval(rs[i].rateMS)
  {
    LedgerIsLastEnd(rs, rs[j].host, j);
  }

  /** So are any two of them, unless the interval of one in between has overflowed below zero. */
  lemma {:induction false} SlotsAreSpaced(rs: seq<Request>, i: nat, j: nat)
    requires i < j < |rs| && rs[i].host == rs[j].host
    requires forall m :: i < m < j && rs[m].host == rs[j].host ==> EffectiveInterval(rs[m].rateMS) >= 0
    ensures Slot(rs, j) >= Slot(rs, i) + EffectiveInterval(rs[i].rateMS)
    decreases j
  {
    var k := LastFor(rs, rs[j].host, j);
    ConsecutiveAreSpaced(rs, j);
    if i < k {
      SlotsAreSpaced(rs, i, k);
    }
  }

  // ----- how many slots fit a window -----

  predicate InWindow(rs: seq<Request>, host: string, start: int, width: nat, i: nat)
    requires i < |rs|
  {
    rs[i].host == host && start <= Slot(rs, i) < start + width
  }

  /** The reservations among the first `n` whose slot for the host lies in [start, start + width). */
  function CountInWindow(rs: seq<Request>, host: string, start: int, width: nat, n: nat): nat
    requires n <= |rs|
  {
    if n == 0 then 0
    else CountInWindow(rs, host, start, width, n - 1) + (if InWindow(rs, host, start, width, n - 1) then 1 else 0)
  }

  /** Every caller of the host is given an interval that reaches the floor. */
  predicate FloorsKept(rs: seq<Request>, host: string) {
    forall r <- rs :: r.host == host ==> KeepsFloor(r.rateMS)
  }

  lemma NextIsFurther(rs: seq<Request>, host: string, k: nat, i: nat)
    requires k < i < |rs| && rs[k].host == rs[i].host == host && FloorsKept(rs, host)
    ensures Slot(rs, i) >= Slot(rs, k) + FLOOR
  {
    forall m | k <= m < i && rs[m].host == host ensures EffectiveInterval(rs[m].rateMS) >= FLOOR {
      assert rs[m] in rs;
      FloorIff(rs[m].rateMS);
    }
    SlotsAreSpaced(rs, k, i);
  }

  /** The slot is at least as far into a window as `count` slots before it require. */
  predicate Reaches(slot: int, start: int, count: int) { slot >= start + count * FLOOR }

  lemma NextReaches(rs: seq<Request>, host: string, k: nat, i: nat, start: int, count: int)
    requires k < i < |rs| && rs[k].host == rs[i].host == host && FloorsKept(rs, host)
    requires Reaches(Slot(rs, k), start, count - 1)
    ensures Reaches(Slot(rs, i), start, count)
  {
    NextIsFurther(rs, host, k, i);
  }

  /** The last slot counted is as far into the window as the count requires. */
  lemma {:induction false} LastCounted(rs: seq<Request>, host: string, start: int, width: nat, n: nat) returns (i: nat)
    requires n <= |rs| && CountInWindow(rs, host, start, width, n) > 0 && FloorsKept(rs, host)
    ensures i < n && InWindow(rs, host, start, width, i)
    ensures Reaches(Slot(rs, i), start, CountInWindow(rs, host, start, width, n) - 1)
  {
    if !InWindow(rs, host, start, width, n - 1) {
      i := LastCounted(rs, host, start, width, n - 1);
    } else {
      i := n - 1;
      if CountInWindow(rs, host, start, width, n - 1) > 0 {
        var k := LastCounted(rs, host, start, width, n - 1);
        NextReaches(rs, host, k, i, start, CountInWindow(rs, host, start, width, n - 1));
      }
    }
  }

  /** The number of 500 ms stretches started in a window. */
  function Stretches(width: nat): nat { (width + FLOOR - 1) / FLOOR }

  /** A half-open window holds at most one slot of a host for each started 500 ms of its width. */
  lemma WindowBound(rs: seq<Request>, host: string, start: int, width: nat)
    requires FloorsKept(rs, host)
    ensures CountInWindow(rs, host, start, width, |rs|) <= Stretches(width)
  {
    if CountInWindow(rs, host, start, width, |rs|) > 0 {
      var i := LastCounted(rs, host, start, width, |rs|);
    }
  }

  ghost predicate Bounded(rs: seq<Request>) {
    forall host, start, width: nat :: CountInWindow(rs, host, start, width, |rs|) <= Stretches(width)
  }

  /** The window bound holds for every sequence of reservations at some rates if and only if all of these keep the floor. */
  lemma WindowBoundIff(rates: set<Int64>)
    ensures (forall rs: seq<Request> :: (forall r <- rs :: r.rateMS in rates) ==> Bounded(rs))
       <==> (forall rate <- rates :: KeepsFloor(rate))
  {
    if forall rate <- rates :: KeepsFloor(rate) {
      forall rs: seq<Request>, host, start, width: nat | forall r <- rs :: r.rateMS in rates
        ensures CountInWindow(rs, host, start, width, |rs|) <= Stretches(width)
      {
        WindowBound(rs, host, start, width);
      }
    } else {
      var rate :| rate in rates && !KeepsFloor(rate);
      var rs := CrowdedRun(rate);
      assert !Bounded(rs);
    }
  }

  /** A rate below the floor lets two callers at one moment into the same 500 ms. */
  lemma CrowdedRun(rate: Int64) returns (rs: seq<Request>)
    requires !KeepsFloor(rate)
    ensures forall r <- rs :: r.rateMS == rate
    ensures CountInWindow(rs, "", 0, FLOOR, |rs|) == 2 > Stretches(FLOOR)
  {
    var r := Request("", rate, 0);
    rs := [r, r];
    FloorIff(rate);
    assert rs[..0] == [] && rs[..1] == [r] && [r][..0] == [];
    assert Slot(rs, 0) == 0 && 0 <= Slot(rs, 1) < FLOOR;
    assert CountInWindow(rs, "", 0, FLOOR, 1) == 1;
  }

  // ----- other hosts -----

  function Only(rs: seq<Request>, host: string): seq<Request> {
    if rs == [] then []
    else Only(rs[..|rs| - 1], host) + (if rs[|rs| - 1].host == host then [rs[|rs| - 1]] else [])
  }

  /** The slots of one host, in the order of its reservations. */
  function SlotsOf(rs: seq<Request>, host: string): seq<int> {
    if rs == [] then []
    else SlotsOf(rs[..|rs| - 1], host) + (if rs[|rs| - 1].host == host then [Slot(rs, |rs| - 1)] else [])
  }

  /** The reservations of other hosts do not change a host's slots. */
  lemma {:induction false} OtherHostsDoNotMatter(rs: seq<Request>, host: string)
    ensures SlotsOf(rs, host) == SlotsOf(Only(rs, host), host)
    ensures host in LedgerAfter(rs) <==> host in LedgerAfter(Only(rs, host))
    ensures host in LedgerAfter(rs) ==> LedgerAfter(rs)[host] == LedgerAfter(Only(rs, host))[host]
  {
    if rs != [] {
      var init, last := rs[..|rs| - 1], rs[|rs| - 1];
      OtherHostsDoNotMatter(init, host);
      if last.host == host {
        var only := Only(rs, host);
        assert only[..|only| - 1] == Only(init, host) && only[|only| - 1] == last;
      } else {
        assert Only(rs, host) == Only(init, host);
      }
    }
  }
}
