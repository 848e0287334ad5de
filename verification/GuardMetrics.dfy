/** The counters a node keeps of itself, as 64-bit atomics that wrap around. */
module GuardMetrics {
  import opened Basics
  import opened Tunnels
  import opened Guards

  /** The counters are 64-bit atomics. */
  const WRAP: nat := 0x1_0000_0000_0000_0000

  function Wrapped(n: int): u64 {
    n % WRAP
  }

  /** What a finished tunnel adds to the counters. */
  function CountOutcome(c: Counters, outcome: TunnelOutcome): Counters {
    match outcome
    case Refused => c.(tunnelsActive := c.tunnelsActive - 1, tunnelsDenied := c.tunnelsDenied + 1)
    case Served(fromPeer, toPeer) =>
      c.(tunnelsActive := c.tunnelsActive - 1,
         tunnelsOpened := c.tunnelsOpened + 1,
         bytesFromPeer := c.bytesFromPeer + fromPeer,
         bytesToPeer := c.bytesToPeer + toPeer)
  }

  /** Adding to a wrapped count wraps the sum; a count below 2 to the power 64 is shown as it is. */
  lemma WrappedSum(n: int, k: int)
    ensures Wrapped(Wrapped(n) + k) == Wrapped(n + k)
    ensures 0 <= n < 0x1_0000_0000_0000_0000 ==> Wrapped(n) == n
  {
    var q := n / WRAP;
    assert Wrapped(n) == n - q * WRAP;
    ShiftByWraps(n + k, q);
  }

  lemma ShiftByWraps(n: int, q: int)
    ensures (n - q * WRAP) % WRAP == n % WRAP
  {
    var m := n / WRAP;
    assert n - q * WRAP == (m - q) * WRAP + n % WRAP;
    assert 0 <= n % WRAP < WRAP;
  }

  /** Each method is a sequence of atomic additions; `exact` is what was counted, without wrapping. */
  class Metrics {
    var authGranted: u64
    var authDenied: u64
    var tunnelsOpened: u64
    var tunnelsDenied: u64
    var tunnelsActive: u64
    var bytesFromPeer: u64
    var bytesToPeer: u64
    ghost var exact: Counters

    /** Every counter shows what was counted, modulo 2 to the power 64. */
    ghost predicate Valid()
      reads this
    {
      && authGranted == Wrapped(exact.authGranted) && authDenied == Wrapped(exact.authDenied)
      && tunnelsOpened == Wrapped(exact.tunnelsOpened) && tunnelsDenied == Wrapped(exact.tunnelsDenied)
      && tunnelsActive == Wrapped(exact.tunnelsActive)
      && bytesFromPeer == Wrapped(exact.bytesFromPeer) && bytesToPeer == Wrapped(exact.bytesToPeer)
    }

    ghost function Read(): Counters
      reads this
    {
      exact
    }

    constructor ()
      ensures Valid() && Read() == Counters(0, 0, 0, 0, 0, 0, 0)
    {
      authGranted, authDenied := 0, 0;
      tunnelsOpened, tunnelsDenied, tunnelsActive := 0, 0, 0;
      bytesFromPeer, bytesToPeer := 0, 0;
      exact := Counters(0, 0, 0, 0, 0, 0, 0);
    }

    method RecordAuthGranted()
      requires Valid()
      modifies this
      ensures Valid() && Read() == old(Read()).(authGranted := old(Read()).authGranted + 1)
    {
      hide Wrapped;
      WrappedSum(exact.authGranted, 1);
      authGranted := Wrapped(authGranted + 1);
      exact := exact.(authGranted := exact.authGranted + 1);
    }

    method RecordAuthDenied()
      requires Valid()
      modifies this
      ensures Valid() && Read() == old(Read()).(authDenied := old(Read()).authDenied + 1)
    {
      hide Wrapped;
      WrappedSum(exact.authDenied, 1);
      authDenied := Wrapped(authDenied + 1);
      exact := exact.(authDenied := exact.authDenied + 1);
    }

    method RecordTunnelDenied()
      requires Valid()
      modifies this
      ensures Valid() && Read() == CountRefusal(old(Read()))
    {
      hide Wrapped;
      WrappedSum(exact.tunnelsDenied, 1);
      tunnelsDenied := Wrapped(tunnelsDenied + 1);
      exact := CountRefusal(exact);
    }

    method RecordTunnelStarted()
      requires Valid()
      modifies this
      ensures Valid() && Read() == old(Read()).(tunnelsActive := old(Read()).tunnelsActive + 1)
    {
      hide Wrapped;
      WrappedSum(exact.tunnelsActive, 1);
      tunnelsActive := Wrapped(tunnelsActive + 1);
      exact := exact.(tunnelsActive := exact.tunnelsActive + 1);
    }

    /** The writes of a finished tunnel: the gauge, the outcome, then the octets relayed each way. */
    method RecordTunnelFinished(outcome: TunnelOutcome)
      requires Valid()
      modifies this
      ensures Valid() && Read() == CountOutcome(old(Read()), outcome)
    {
      hide Wrapped;
      WrappedSum(exact.tunnelsActive, -1);
      tunnelsActive := Wrapped(tunnelsActive - 1);
      match outcome {
        case Served(fromPeer, toPeer) =>
          WrappedSum(exact.tunnelsOpened, 1);
          tunnelsOpened := Wrapped(tunnelsOpened + 1);
          WrappedSum(exact.bytesFromPeer, fromPeer);
          bytesFromPeer := Wrapped(bytesFromPeer + fromPeer);
          WrappedSum(exact.bytesToPeer, toPeer);
          bytesToPeer := Wrapped(bytesToPeer + toPeer);
        case Refused =>
          WrappedSum(exact.tunnelsDenied, 1);
          tunnelsDenied := Wrapped(tunnelsDenied + 1);
      }
      exact := CountOutcome(exact, outcome);
    }
  }
}
