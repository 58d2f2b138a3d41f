/**
 * The downstream side of the relay: the GOP byte cache that folds every
 * received unit into one replayable buffer, and the per-connection writer
 * that sends a copy of that buffer followed by the live units.
 */
module Downstream {
  import opened Model

  // ---------------------------------------------------------------------
  // The cache as a function of the units received so far
  // ---------------------------------------------------------------------

  /** What the cacher task keeps: the remembered SPS and PPS and the byte buffer. */
  datatype CacheState = CacheState(sps: Option<Unit>, pps: Option<Unit>, buf: seq<byte>)

  /** The bytes a remembered parameter set contributes; an absent one contributes nothing. */
  function Bytes(o: Option<Unit>): seq<byte>
  {
    if o.Some? then o.value.bytes else []
  }

  predicate IsParamSet(u: Unit)
  {
    u.code == SpsCode || u.code == PpsCode
  }

  /**
   * One turn of the cacher loop: the effect of receiving unit `u`. A
   * parameter set replaces only its own slot; an IDR discards the buffer
   * and rebuilds it from the parameter sets and itself; anything else is
   * appended.
   */
  function Apply(s: CacheState, u: Unit): (r: CacheState)
    ensures r.sps == if u.code == SpsCode then Some(u) else s.sps
    ensures r.pps == if u.code == PpsCode then Some(u) else s.pps
    ensures IsParamSet(u) ==> r.buf == s.buf
    ensures u.code == IdrCode ==> r.buf == Bytes(s.sps) + Bytes(s.pps) + u.bytes
    ensures !IsParamSet(u) && u.code != IdrCode ==> r.buf == s.buf + u.bytes
  {
    if u.code == SpsCode then s.(sps := Some(u))
    else if u.code == PpsCode then s.(pps := Some(u))
    else if u.code == IdrCode then s.(buf := Bytes(s.sps) + Bytes(s.pps) + u.bytes)
    else s.(buf := s.buf + u.bytes)
  }

  /**
   * The cacher's state after receiving the units of `h`, oldest first. The
   * remembered parameter sets are units of `h` with the right code.
   */
  function CacheAfter(h: seq<Unit>): (r: CacheState)
    ensures r.sps.Some? ==> r.sps.value in h && r.sps.value.code == SpsCode
    ensures r.pps.Some? ==> r.pps.value in h && r.pps.value.code == PpsCode
  {
    if h == [] then CacheState(None, None, []) else Apply(CacheAfter(h[..|h| - 1]), h[|h| - 1])
  }

  // ---------------------------------------------------------------------
  // An independent description of the same buffer
  // ---------------------------------------------------------------------

  /** The most recent unit of `h` with type code `code`, if there is one. */
  function Latest(h: seq<Unit>, code: nat): (r: Option<Unit>)
    ensures r.None? <==> forall j :: 0 <= j < |h| ==> h[j].code != code
    ensures r.Some? ==> r.value in h && r.value.code == code
    ensures r.Some? ==> exists i :: 0 <= i < |h| && h[i] == r.value &&
                                    forall j :: i < j < |h| ==> h[j].code != code
  {
    if h == [] then None
    else if h[|h| - 1].code == code then Some(h[|h| - 1])
    else
      var r := Latest(h[..|h| - 1], code);
      assert forall j :: 0 <= j < |h| - 1 ==> h[..|h| - 1][j] == h[j];
      r
  }

  /** The position of the last IDR unit of `h`, if there is one. */
  function LastIdr(h: seq<Unit>): (r: Option<nat>)
    ensures r.None? ==> forall j :: 0 <= j < |h| ==> h[j].code != IdrCode
    ensures r.Some? ==> r.value < |h| && h[r.value].code == IdrCode &&
                        forall j :: r.value < j < |h| ==> h[j].code != IdrCode
  {
    if h == [] then None
    else if h[|h| - 1].code == IdrCode then Some(|h| - 1)
    else
      var r := LastIdr(h[..|h| - 1]);
      assert forall j :: 0 <= j < |h| - 1 ==> h[..|h| - 1][j] == h[j];
      r
  }

  /** The bytes of the units of `s` that are not parameter sets, in order. */
  function StreamBytes(s: seq<Unit>): seq<byte>
  {
    if s == [] then []
    else StreamBytes(s[..|s| - 1]) + (if IsParamSet(s[|s| - 1]) then [] else s[|s| - 1].bytes)
  }

  /**
   * What a viewer that connects after the units `h` is sent first. With an
   * IDR in `h`: the SPS and PPS known when the last IDR arrived, that IDR,
   * and every later unit other than a parameter set. Without one: every
   * unit other than a parameter set, since the cacher appends those
   * whether or not a keyframe has been seen.
   */
  function GopBytes(h: seq<Unit>): seq<byte>
  {
    match LastIdr(h)
    case None => StreamBytes(h)
    case Some(k) => Bytes(Latest(h[..k], SpsCode)) + Bytes(Latest(h[..k], PpsCode)) + h[k].bytes + StreamBytes(h[k + 1..])
  }

  // ---------------------------------------------------------------------
  // Properties of the fold
  // ---------------------------------------------------------------------

  /** The remembered SPS and PPS are the latest of each ever received, regardless of keyframes. */
  lemma {:induction false} ParamSetsAreLatest(h: seq<Unit>)
    ensures CacheAfter(h).sps == Latest(h, SpsCode)
    ensures CacheAfter(h).pps == Latest(h, PpsCode)
  {
    if h != [] {
      ParamSetsAreLatest(h[..|h| - 1]);
    }
  }

  /** Appending a unit to a history adds its bytes unless it is a parameter set. */
  lemma StreamBytesSnoc(s: seq<Unit>, u: Unit)
    ensures StreamBytes(s + [u]) == StreamBytes(s) + (if IsParamSet(u) then [] else u.bytes)
  {
    assert (s + [u])[..|s|] == s;
  }

  /** A unit other than an IDR leaves the last IDR where it was. */
  lemma LastIdrAfterNonIdr(p: seq<Unit>, u: Unit)
    requires u.code != IdrCode
    ensures LastIdr(p + [u]) == LastIdr(p)
  {
    assert (p + [u])[..|p|] == p;
  }

  /** A unit other than an IDR adds its bytes at the end unless it is a parameter set. */
  lemma GopAfterNonIdr(p: seq<Unit>, u: Unit)
    requires u.code != IdrCode
    ensures GopBytes(p + [u]) == GopBytes(p) + (if IsParamSet(u) then [] else u.bytes)
  {
    var h := p + [u];
    LastIdrAfterNonIdr(p, u);
    match LastIdr(p)
    case None =>
      StreamBytesSnoc(p, u);
    case Some(k) =>
      assert h[..k] == p[..k] && h[k] == p[k];
      assert h[k + 1..] == p[k + 1..] + [u];
      StreamBytesSnoc(p[k + 1..], u);
  }

  /** An IDR becomes the last one, preceded by the parameter sets known before it. */
  lemma GopAfterIdr(p: seq<Unit>, u: Unit)
    requires u.code == IdrCode
    ensures GopBytes(p + [u]) == Bytes(Latest(p, SpsCode)) + Bytes(Latest(p, PpsCode)) + u.bytes
  {
    var h := p + [u];
    assert h[..|h| - 1] == p;
    assert LastIdr(h) == Some(|p|);
    assert h[..|p|] == p;
    assert h[|p| + 1..] == [];
  }

  /** The buffer the fold builds is the last group of pictures, as `GopBytes` describes it. */
  lemma {:induction false} SnapshotIsLastGop(h: seq<Unit>)
    ensures CacheAfter(h).buf == GopBytes(h)
  {
    if h != [] {
      var p, u := h[..|h| - 1], h[|h| - 1];
      assert h == p + [u];
      SnapshotIsLastGop(p);
      if u.code == IdrCode {
        ParamSetsAreLatest(p);
        GopAfterIdr(p, u);
      } else {
        GopAfterNonIdr(p, u);
      }
    }
  }

  /**
   * Between keyframes the buffer only grows: whatever the buffer held stays
   * at its front while units other than IDRs arrive.
   */
  lemma {:induction false} BufferGrowsUntilIdr(h: seq<Unit>, t: seq<Unit>)
    requires forall j :: 0 <= j < |t| ==> t[j].code != IdrCode
    ensures CacheAfter(h).buf <= CacheAfter(h + t).buf
  {
    if t != [] {
      var t' := t[..|t| - 1];
      assert (h + t)[..|h + t| - 1] == h + t';
      BufferGrowsUntilIdr(h, t');
      assert CacheAfter(h + t) == Apply(CacheAfter(h + t'), t[|t| - 1]);
    } else {
      assert h + t == h;
    }
  }

  /** The worked example of two groups of pictures: the second IDR discards the first group. */
  lemma TwoGroupsOfPictures(sps: Unit, pps: Unit, a: Unit, b: Unit, c: Unit)
    requires sps.code == SpsCode && pps.code == PpsCode
    requires a.code == IdrCode && c.code == IdrCode && b.code == 1
    ensures CacheAfter([sps, pps, a, b]).buf == sps.bytes + pps.bytes + a.bytes + b.bytes
    ensures CacheAfter([sps, pps, a, b, c]).buf == sps.bytes + pps.bytes + c.bytes
  {
    assert [sps, pps, a, b, c][..4] == [sps, pps, a, b];
    assert [sps, pps, a, b][..3] == [sps, pps, a];
    assert [sps, pps, a][..2] == [sps, pps];
    assert [sps, pps][..1] == [sps];
    assert CacheAfter([sps]) == CacheState(Some(sps), None, []);
    assert CacheAfter([sps, pps]) == CacheState(Some(sps), Some(pps), []);
    assert CacheAfter([sps, pps, a]).buf == sps.bytes + pps.bytes + a.bytes;
  }

  // ---------------------------------------------------------------------
  // The cacher task
  // ---------------------------------------------------------------------

  /**
   * The cacher's state. `cachedBytes` is the buffer shared with the
   * connection writers; `history` records the units received so far.
   */
  class GopCache {
    var seqParam: Option<Unit>
    var picParam: Option<Unit>
    var cachedBytes: seq<byte>
    ghost var history: seq<Unit>

    ghost predicate Valid()
      reads this
    {
      CacheState(seqParam, picParam, cachedBytes) == CacheAfter(history)
    }

    constructor ()
      ensures Valid() && history == []
      ensures seqParam == None && picParam == None && cachedBytes == []
    {
      seqParam, picParam, cachedBytes := None, None, [];
      history := [];
    }

    /** Handles one received unit, as one pass of the cacher's receive loop. */
    method Feed(u: Unit)
      requires Valid()
      modifies this
      ensures Valid() && history == old(history) + [u]
      ensures u.code == SpsCode ==>
        seqParam == Some(u) && picParam == old(picParam) && cachedBytes == old(cachedBytes)
      ensures u.code == PpsCode ==>
        picParam == Some(u) && seqParam == old(seqParam) && cachedBytes == old(cachedBytes)
      ensures u.code == IdrCode ==>
        seqParam == old(seqParam) && picParam == old(picParam) &&
        cachedBytes == Bytes(old(seqParam)) + Bytes(old(picParam)) + u.bytes
      ensures !IsParamSet(u) && u.code != IdrCode ==>
        seqParam == old(seqParam) && picParam == old(picParam) &&
        cachedBytes == old(cachedBytes) + u.bytes
    {
      if u.code == SpsCode {
        seqParam := Some(u);
      } else if u.code == PpsCode {
        picParam := Some(u);
      } else if u.code == IdrCode {
        var buf: seq<byte> := [];
        if seqParam.Some? {
          buf := buf + seqParam.value.bytes;
        }
        if picParam.Some? {
          buf := buf + picParam.value.bytes;
        }
        cachedBytes := buf + u.bytes;
      } else {
        cachedBytes := cachedBytes + u.bytes;
      }
      history := history + [u];
      assert history[..|history| - 1] == old(history);
    }

    /** The copy a new connection takes under the read lock: the last group of pictures. */
    method Snapshot() returns (bytes: seq<byte>)
      requires Valid()
      ensures bytes == GopBytes(history)
    {
      SnapshotIsLastGop(history);
      bytes := cachedBytes;
    }
  }

  /**
   * The cacher task: receives until the first receive error (a lag as much
   * as a closed channel) and feeds every unit received before it, in order.
   * Returns the number of units fed.
   */
  method RunCacher(cache: GopCache, rx: seq<Recv<Unit>>) returns (fed: nat)
    requires cache.Valid()
    modifies cache
    ensures cache.Valid()
    ensures fed == ReceivedRun(rx)
    ensures cache.history == old(cache.history) + Values(rx[..fed])
  {
    ghost var units: seq<Unit> := [];
    fed := 0;
    while fed < |rx| && rx[fed].Received?
      invariant fed <= |rx| && |units| == fed
      invariant forall j :: 0 <= j < fed ==> rx[j].Received? && units[j] == rx[j].value
      invariant cache.Valid()
      invariant cache.history == old(cache.history) + units
    {
      var u := rx[fed].value;
      cache.Feed(u);
      units := units + [u];
      fed := fed + 1;
    }
    assert units == Values(rx[..fed]);
  }


  // ---------------------------------------------------------------------
  // The per-connection writer
  // ---------------------------------------------------------------------

  /** The bytes of the first `k` units received, in order. */
  function LiveBytes(rx: seq<Recv<Unit>>, k: nat): seq<byte>
    requires k <= ReceivedRun(rx)
  {
    if k == 0 then [] else LiveBytes(rx, k - 1) + rx[k - 1].value.bytes
  }

  /**
   * The buffers a connection writer sends when every write succeeds: the
   * snapshot, then the bytes of each unit received before the first
   * receive error.
   */
  function Planned(snapshot: seq<byte>, rx: seq<Recv<Unit>>): (p: seq<seq<byte>>)
    ensures |p| == ReceivedRun(rx) + 1 && p[0] == snapshot
    ensures forall j :: 0 < j < |p| ==> p[j] == rx[j - 1].value.bytes
  {
    [snapshot] + seq(ReceivedRun(rx), j requires 0 <= j < ReceivedRun(rx) => rx[j].value.bytes)
  }

  /**
   * One connection: writes the snapshot, then each received unit's bytes,
   * and stops at the first failed write or the first receive error.
   * `writeOk[j]` is the result of the j-th `write_all`. Returns the buffers
   * passed to `write_all`, in order, and whether the last of them failed.
   */
  method ServeConnection(snapshot: seq<byte>, rx: seq<Recv<Unit>>, writeOk: seq<bool>)
    returns (attempts: seq<seq<byte>>, failed: bool)
    requires |writeOk| > ReceivedRun(rx)
    ensures 1 <= |attempts| <= |Planned(snapshot, rx)|
    ensures attempts == Planned(snapshot, rx)[..|attempts|]
    ensures forall j :: 0 <= j < |attempts| - 1 ==> writeOk[j]
    ensures failed <==> !writeOk[|attempts| - 1]
    ensures !failed ==> |attempts| == |Planned(snapshot, rx)|
  {
    ghost var plan := Planned(snapshot, rx);
    attempts := [snapshot];
    if !writeOk[0] {
      return attempts, true;
    }
    var i := 0;
    while i < |rx| && rx[i].Received?
      invariant i <= ReceivedRun(rx)
      invariant |attempts| == i + 1 && attempts == plan[..i + 1]
      invariant forall j :: 0 <= j < |attempts| ==> writeOk[j]
    {
      attempts := attempts + [rx[i].value.bytes];
      if !writeOk[i + 1] {
        return attempts, true;
      }
      i := i + 1;
    }
    failed := false;
  }

  /** The bytes a viewer receives: everything passed to a write that succeeded. */
  function Delivered(attempts: seq<seq<byte>>, failed: bool): seq<byte>
  {
    if failed && attempts != [] then Concat(attempts[..|attempts| - 1]) else Concat(attempts)
  }

  /**
   * A viewer receives the snapshot followed by the bytes of the units, in
   * receive order. When no write fails, that is every unit received before
   * the first receive error; when a unit write fails, it is the units
   * before the failed one; when the snapshot write fails, it is nothing.
   */
  lemma DeliveredIsSnapshotThenUnits(snapshot: seq<byte>, rx: seq<Recv<Unit>>, writeOk: seq<bool>,
                                     attempts: seq<seq<byte>>, failed: bool)
    requires |writeOk| > ReceivedRun(rx)
    requires 1 <= |attempts| <= |Planned(snapshot, rx)|
    requires attempts == Planned(snapshot, rx)[..|attempts|]
    requires failed <==> !writeOk[|attempts| - 1]
    requires forall j :: 0 <= j < |attempts| - 1 ==> writeOk[j]
    requires !failed ==> |attempts| == |Planned(snapshot, rx)|
    ensures !writeOk[0] ==> Delivered(attempts, failed) == []
    ensures writeOk[0] && !failed ==> Delivered(attempts, failed) == snapshot + LiveBytes(rx, ReceivedRun(rx))
    ensures writeOk[0] && failed ==>
      |attempts| >= 2 && Delivered(attempts, failed) == snapshot + LiveBytes(rx, |attempts| - 2)
  {
    var plan := Planned(snapshot, rx);
    if writeOk[0] {
      var m := if failed then |attempts| - 1 else |attempts|;
      assert attempts[..m] == plan[..m];
      PlannedPrefix(snapshot, rx, m - 1);
      if !failed {
        assert attempts[..m] == attempts;
      }
    } else {
      assert attempts[..0] == [];
    }
  }

  /** The first `k + 1` planned buffers carry the snapshot and the first `k` units. */
  lemma {:induction false} PlannedPrefix(snapshot: seq<byte>, rx: seq<Recv<Unit>>, k: nat)
    requires k <= ReceivedRun(rx)
    ensures Concat(Planned(snapshot, rx)[..k + 1]) == snapshot + LiveBytes(rx, k)
  {
    var plan := Planned(snapshot, rx);
    if k == 0 {
      assert plan[..1] == [snapshot];
      assert plan[..1][..0] == [];
    } else {
      PlannedPrefix(snapshot, rx, k - 1);
      assert plan[..k + 1][..k] == plan[..k];
    }
  }

  // ---------------------------------------------------------------------
  // The accept loop
  // ---------------------------------------------------------------------

  /** The peer address of an accepted connection. */
  datatype Peer = Peer(addr: nat, port: nat)

  datatype Accepted = AcceptedPeer(peer: Peer) | AcceptFailed(error: IoError)

  /** One observable step of the server loop. */
  datatype Step = Subscribe | Accept(attempt: Accepted)

  /**
   * The server loop: every turn first subscribes to the bus and then
   * accepts, so a connection's live feed starts no later than its snapshot.
   * An accepted peer gets a writer; the first failed accept ends the loop
   * with that error. Returns the steps taken in order, the peers served,
   * and the error if one ended the loop.
   */
  method AcceptLoop(accepts: seq<Accepted>) returns (steps: seq<Step>, served: seq<Peer>, result: Option<IoError>)
    ensures |served| <= |accepts|
    ensures forall j :: 0 <= j < |served| ==> accepts[j] == AcceptedPeer(served[j])
    ensures result.Some? ==> |served| < |accepts| && accepts[|served|] == AcceptFailed(result.value)
    ensures result.None? ==> |served| == |accepts|
    ensures |steps| == 2 * (|served| + if result.Some? then 1 else 0)
    ensures forall j :: 0 <= j < |steps| ==>
      steps[j] == if j % 2 == 0 then Subscribe else Accept(accepts[j / 2])
  {
    steps, served, result := [], [], None;
    var i := 0;
    while i < |accepts|
      invariant i <= |accepts| && |served| == i && |steps| == 2 * i
      invariant forall j :: 0 <= j < i ==> accepts[j] == AcceptedPeer(served[j])
      invariant forall j :: 0 <= j < |steps| ==>
        j / 2 < i && steps[j] == if j % 2 == 0 then Subscribe else Accept(accepts[j / 2])
    {
      steps := steps + [Subscribe, Accept(accepts[i])];
      match accepts[i] {
        case AcceptedPeer(p) =>
          served := served + [p];
        case AcceptFailed(e) =>
          return steps, served, Some(e);
      }
      i := i + 1;
    }
  }
}
