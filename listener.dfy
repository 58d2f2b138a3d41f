/**
 * The per-host fan-out: for every host index of an IPv4 subnet, a listener
 * on a local port and an upstream task for the host at that index, and the
 * loop in which an upstream task collects the viewers queued for it.
 */
module Listener {
  import opened Model

  const U32Max: nat := 0xFFFF_FFFF
  const U16Limit: nat := 0x1_0000

  /** `u32::saturating_add`: the sum, or the largest u32 when the sum does not fit. */
  function SaturatingAdd(a: nat, b: nat): (r: nat)
    requires a <= U32Max
    ensures a <= r <= U32Max
    ensures r == a + b || (r == U32Max && a + b > U32Max)
  {
    if a + b > U32Max then U32Max else a + b
  }

  function Pow2(n: nat): (r: nat)
    ensures r >= 1
  {
    if n == 0 then 1 else 2 * Pow2(n - 1)
  }

  /** Below the width of a u16, a power of two fits a u16 with room for one more. */
  lemma Pow2FitsU16(n: nat)
    requires n < 16
    ensures Pow2(n) <= U16Limit / 2
  {
    Pow2Monotone(n, 15);
    assert Pow2(15) == U16Limit / 2;
  }

  /** A socket address: an IPv4 address as a u32 and a port. */
  datatype Endpoint = Endpoint(addr: nat, port: nat)

  /**
   * What the spawner sets up: one listener per host index (given by the
   * port it binds) and one upstream task per host index (given by the
   * address it connects to). `ShiftOverflow` is the panic of a u16 shift by
   * sixteen or more bits.
   */
  datatype Spawned = Stacks(bindPorts: seq<nat>, upstreams: seq<Endpoint>) | ShiftOverflow

  /**
   * Enumerates the host indices `1 .. 2^(32 - prefixLen) - 1` of the subnet
   * with base address `addr`. Index `i` is a u16 because it is also the port
   * the index's listener binds, so the bound `1 << suffix_len` is a u16
   * shift, which overflows for prefixes of 16 bits or less. Index `i`
   * connects to `addr` saturating-plus `i` on `port`.
   */
  method TaskSpawner(addr: nat, prefixLen: nat, port: nat) returns (r: Spawned)
    requires addr <= U32Max && prefixLen <= 32 && port < U16Limit
    ensures r.ShiftOverflow? <==> prefixLen <= 16
    ensures r.Stacks? ==> |r.bindPorts| == |r.upstreams| == Pow2(32 - prefixLen) - 1
    ensures r.Stacks? ==> forall k :: 0 <= k < |r.bindPorts| ==>
      r.bindPorts[k] == k + 1 && 0 < r.bindPorts[k] < U16Limit
    ensures r.Stacks? ==> forall k :: 0 <= k < |r.upstreams| ==>
      r.upstreams[k] == Endpoint(SaturatingAdd(addr, k + 1), port)
  {
    var suffixLen := 32 - prefixLen;
    if suffixLen >= 16 {
      return ShiftOverflow;
    }
    var limit := Pow2(suffixLen);
    Pow2FitsU16(suffixLen);
    var listenerStack: seq<nat> := [];
    var upstreamStack: seq<Endpoint> := [];
    for i := 1 to limit
      invariant |listenerStack| == |upstreamStack| == i - 1
      invariant forall k :: 0 <= k < i - 1 ==> listenerStack[k] == k + 1
      invariant forall k :: 0 <= k < i - 1 ==> upstreamStack[k] == Endpoint(SaturatingAdd(addr, k + 1), port)
    {
      upstreamStack := upstreamStack + [Endpoint(SaturatingAdd(addr, i), port)];
      listenerStack := listenerStack + [i];
    }
    r := Stacks(listenerStack, upstreamStack);
  }

  /**
   * For the subnets the command line documents (up to a /24), there are at
   * most 255 hosts and the bind ports stay below 256.
   */
  lemma {:induction false} Slash24HasAtMost255Hosts(prefixLen: nat)
    requires 24 <= prefixLen <= 32
    ensures Pow2(32 - prefixLen) - 1 <= 255
  {
    Pow2Monotone(32 - prefixLen, 8);
  }

  lemma {:induction false} Pow2Monotone(m: nat, n: nat)
    requires m <= n
    ensures Pow2(m) <= Pow2(n)
    decreases n
  {
    if m < n {
      Pow2Monotone(m, n - 1);
    }
  }

  /** Distinct host indices below the top of the address space reach distinct hosts, in increasing order. */
  lemma UpstreamsIncrease(addr: nat, i: nat, j: nat)
    requires addr <= U32Max && i < j <= U32Max
    ensures SaturatingAdd(addr, i) <= SaturatingAdd(addr, j)
    ensures addr + j <= U32Max ==> SaturatingAdd(addr, i) < SaturatingAdd(addr, j)
  {
  }

  // ---------------------------------------------------------------------
  // The collector
  // ---------------------------------------------------------------------

  /** The result of `try_recv` on the queue of accepted viewers. */
  datatype TryRecv<T> = Got(value: T) | Empty | Disconnected

  /** The position of the first `Empty`, if any. */
  function FirstEmpty<T>(results: seq<TryRecv<T>>): (r: Option<nat>)
    ensures r.None? <==> forall j :: 0 <= j < |results| ==> !results[j].Empty?
    ensures r.Some? ==> r.value < |results| && results[r.value].Empty? &&
                        forall j :: 0 <= j < r.value ==> !results[j].Empty?
  {
    if results == [] then None
    else if results[0].Empty? then Some(0)
    else match FirstEmpty(results[1..])
      case None => None
      case Some(k) => Some(k + 1)
  }

  /** The viewers carried by some `try_recv` results, in order. */
  function Gathered<T>(results: seq<TryRecv<T>>): seq<T>
  {
    if results == [] then []
    else Gathered(results[..|results| - 1]) + (if results[|results| - 1].Got? then [results[|results| - 1].value] else [])
  }

  /**
   * The collector loop: appends every queued viewer to `downstreams` in
   * queue order and stops at the first `Empty`. A `Disconnected` result is
   * only logged, and the loop goes on polling. Returns the new list and the
   * number of `try_recv` calls made.
   */
  method Collect<T>(downstreams: seq<T>, results: seq<TryRecv<T>>) returns (ds: seq<T>, polls: nat)
    ensures FirstEmpty(results).Some? ==> polls == FirstEmpty(results).value + 1
    ensures FirstEmpty(results).None? ==> polls == |results|
    ensures ds == downstreams + Gathered(results[..polls])
  {
    ds, polls := downstreams, 0;
    while polls < |results|
      invariant polls <= |results|
      invariant forall j :: 0 <= j < polls ==> !results[j].Empty?
      invariant ds == downstreams + Gathered(results[..polls])
    {
      var recv := results[polls];
      assert results[..polls + 1][..polls] == results[..polls];
      polls := polls + 1;
      match recv {
        case Got(downstream) =>
          ds := ds + [downstream];
        case Empty =>
          return;
        case Disconnected =>
      }
    }
  }

  /**
   * The collector never removes or reorders the viewers it already had, and
   * adds at most one viewer per poll.
   */
  lemma {:induction false} GatheredAtMostOnePerPoll<T>(results: seq<TryRecv<T>>)
    ensures |Gathered(results)| <= |results|
    ensures forall j :: 0 <= j < |results| ==> results[j].Got? ==> results[j].value in Gathered(results)
  {
    if results != [] {
      var p := results[..|results| - 1];
      GatheredAtMostOnePerPoll(p);
      assert forall j :: 0 <= j < |p| ==> results[j] == p[j];
    }
  }

  /**
   * Gathering keeps poll order: the viewers from a later run of polls come
   * after those from an earlier run, with nothing dropped or reordered.
   */
  lemma {:induction false} GatheredKeepsPollOrder<T>(a: seq<TryRecv<T>>, b: seq<TryRecv<T>>)
    ensures Gathered(a + b) == Gathered(a) + Gathered(b)
    decreases |b|
  {
    if b == [] {
      assert a + b == a;
    } else {
      var b' := b[..|b| - 1];
      assert (a + b)[..|a + b| - 1] == a + b';
      GatheredKeepsPollOrder(a, b');
    }
  }
}
