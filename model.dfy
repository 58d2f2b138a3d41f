/**
 * The values that travel through the relay: NAL units, bus messages, and the
 * results of receive operations, which the rest of the model takes as given
 * sequences instead of reading them from channels.
 */
module Model {

  /** One octet of the Annex-B byte stream. */
  newtype byte = b: int | 0 <= b < 256

  datatype Option<T> = None | Some(value: T)

  /** An opaque I/O error (connect, read, write, accept). */
  datatype IoError = IoError(kind: nat)

  /** `std::io::Result<()>`: the outcome of a task that returns nothing else. */
  datatype IoResult = Ok | Err(error: IoError)

  /**
   * A NAL unit as the parser yields it: its type code and its raw bytes,
   * start code included.
   */
  datatype Unit = Unit(code: nat, bytes: seq<byte>)

  const IdrCode: nat := 5
  const SpsCode: nat := 7
  const PpsCode: nat := 8

  /** The bus message: a unit of the stream, or the terminal control token. */
  datatype Message = NalUnit(unit: Unit) | Abort

  /**
   * The result of one `recv` on a broadcast subscription: a value, a gap
   * of `missed` evicted messages, or the end of the channel.
   */
  datatype Recv<T> = Received(value: T) | Lagged(missed: nat) | Closed

  /**
   * The length of the leading run of successful receives: a
   * `while let Ok(x) = rx.recv()` loop handles exactly these and then stops.
   */
  function ReceivedRun<T>(rx: seq<Recv<T>>): (n: nat)
    ensures n <= |rx|
    ensures forall j :: 0 <= j < n ==> rx[j].Received?
    ensures n < |rx| ==> !rx[n].Received?
  {
    if rx == [] || !rx[0].Received? then 0 else 1 + ReceivedRun(rx[1..])
  }

  /** The values carried by a sequence of successful receives, in order. */
  function Values<T>(rx: seq<Recv<T>>): (vs: seq<T>)
    requires forall j :: 0 <= j < |rx| ==> rx[j].Received?
    ensures |vs| == |rx|
    ensures forall j :: 0 <= j < |rx| ==> vs[j] == rx[j].value
  {
    if rx == [] then [] else Values(rx[..|rx| - 1]) + [rx[|rx| - 1].value]
  }

  /** The bytes of several buffers written one after another. */
  function Concat(bufs: seq<seq<byte>>): seq<byte>
  {
    if bufs == [] then [] else Concat(bufs[..|bufs| - 1]) + bufs[|bufs| - 1]
  }
}
