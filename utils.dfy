/**
 * The abort detector: a task that drains a private bus subscription and
 * completes as soon as it sees anything other than a unit. Callers race it
 * against a blocking operation to make that operation cancellable.
 */
module Utils {
  import opened Model

  /** A receive result the detector drains and ignores: a successfully received unit. */
  predicate IsUnit(r: Recv<Message>)
  {
    r.Received? && r.value.NalUnit?
  }

  /**
   * The position of the first receive result that is not a unit: an Abort,
   * a lag notice or the closed channel. None when every result is a unit.
   */
  function FirstStop(rx: seq<Recv<Message>>): (r: Option<nat>)
    ensures r.None? <==> forall j :: 0 <= j < |rx| ==> IsUnit(rx[j])
    ensures r.Some? ==> r.value < |rx| && !IsUnit(rx[r.value]) &&
                        forall j :: 0 <= j < r.value ==> IsUnit(rx[j])
  {
    if rx == [] then None
    else if !IsUnit(rx[0]) then Some(0)
    else match FirstStop(rx[1..])
      case None => None
      case Some(k) => Some(k + 1)
  }

  /**
   * Receives until the first result that is not a unit. Returns whether the
   * detector completed and how many receives it made; on an input of units
   * only it is still waiting when the input runs out.
   */
  method AwaitAbort(rx: seq<Recv<Message>>) returns (completed: bool, consumed: nat)
    ensures completed <==> FirstStop(rx).Some?
    ensures completed ==> consumed == FirstStop(rx).value + 1
    ensures !completed ==> consumed == |rx|
  {
    consumed := 0;
    while consumed < |rx|
      invariant consumed <= |rx|
      invariant forall j :: 0 <= j < consumed ==> IsUnit(rx[j])
    {
      var r := rx[consumed];
      consumed := consumed + 1;
      if !IsUnit(r) {
        return true, consumed;
      }
    }
    completed := false;
  }

  /** Only a stop ends the detector: an Abort, a lag and a closed channel each do. */
  lemma StopsOnAbortLagOrClose(units: seq<Recv<Message>>, stop: Recv<Message>, rest: seq<Recv<Message>>)
    requires forall j :: 0 <= j < |units| ==> IsUnit(units[j])
    requires stop == Received(Abort) || stop.Lagged? || stop.Closed?
    ensures FirstStop(units + [stop] + rest) == Some(|units|)
  {
    var rx := units + [stop] + rest;
    assert forall j :: 0 <= j < |units| ==> rx[j] == units[j];
    assert rx[|units|] == stop;
  }
}
