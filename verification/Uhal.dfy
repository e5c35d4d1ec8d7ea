/** Status codes and results shared by every component. */
module Uhal {
  datatype Status =
    | Ok
    | Timeout
    | Nack
    | BusError
    | Busy
    | IoError
    | Unsupported
    | InvalidArgument
    | NotFound
    | NoResources
    | Corrupt
    | NotReady
    | Denied
    | Aborted

  datatype Result<+T> = Success(value: T) | Failure(status: Status)

  datatype Option<+T> = None | Some(value: T)

  /** The number of values of a `uint32_t`, and half of it. */
  const WRAP32 := 0x1_0000_0000
  const HALF32 := 0x8000_0000

  /** What a `uint32_t` millisecond counter shows at true time `t`. */
  function Stamp(t: nat): nat { t % WRAP32 }

  /** `++x` on a `uint32_t`. */
  function Tick(x: nat): nat { (x + 1) % WRAP32 }

  lemma TickOfStamp(t: nat)
    ensures Tick(Stamp(t)) == Stamp(t + 1)
  {}

  /** `a - b` in `uint32_t` arithmetic. */
  function Minus32(a: int, b: int): (d: nat)
    ensures d < WRAP32
  {
    (a - b) % WRAP32
  }

  /** `static_cast<std::int32_t>(a - b) < 0`. */
  predicate Before32(a: int, b: int) { Minus32(a, b) >= HALF32 }

  // ---- the wrapping clock -------------------------------------------------------------------

  /** Within one turn of the counter, the signed comparison of two stamps orders the true
      times if and only if they are less than half a turn apart, or exactly half a turn
      with the first one earlier. */
  lemma StampsAgree(t: nat, e: nat)
    requires -WRAP32 < t - e < WRAP32
    ensures (Before32(Stamp(t), Stamp(e)) <==> t < e) <==> -HALF32 <= t - e < HALF32
  {}

  lemma StampDifference(t: nat, e: nat)
    ensures Minus32(Stamp(t), Stamp(e)) == (t - e) % WRAP32
  {}

  lemma StampAdds(t: nat, d: nat)
    ensures (Stamp(t) + d) % WRAP32 == Stamp(t + d)
  {
    var (q, s) := (t / WRAP32, Stamp(t) + d);
    assert t == WRAP32 * q + Stamp(t);
    TurnsDropOut(q, s);
  }

  lemma TurnsDropOut(q: nat, s: nat)
    ensures (WRAP32 * q + s) % WRAP32 == s % WRAP32
  {
    assert WRAP32 * q + s == WRAP32 * (q + s / WRAP32) + s % WRAP32;
  }
}
