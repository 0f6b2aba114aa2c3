/** `SignalSender` and `SignalReceiver` over a watch channel. The channel keeps one value with a
    version; a receive yields the value if its version was not seen yet, `None` once the sender is
    gone, and otherwise stays pending. A clone of a receiver has seen nothing. */
module Signals {
  import Pool

  datatype Received = Pending | Closed | Value(fired: bool)

  class WatchChannel {
    var value: bool
    var version: nat
    var senderAlive: bool

    constructor ()
      ensures !value && version == 1 && senderAlive
    {
      value, version, senderAlive := false, 1, true;
    }

    /** send_signal */
    method Broadcast()
      modifies this
      ensures value && version == old(version) + 1 && senderAlive == old(senderAlive)
    {
      value, version := true, version + 1;
    }

    /** The last clone of the sender goes away. */
    method DropSender()
      modifies this`senderAlive
      ensures !senderAlive
    {
      senderAlive := false;
    }
  }

  class SignalReceiver {
    const channel: WatchChannel
    var seen: nat

    constructor (channel: WatchChannel)
      ensures this.channel == channel && seen == 0
    {
      this.channel := channel;
      seen := 0;
    }

    method Recv() returns (r: Received)
      requires seen <= channel.version
      modifies this`seen
      ensures old(seen) < channel.version ==> r == Value(channel.value) && seen == channel.version
      ensures old(seen) == channel.version ==> seen == old(seen) && r == if channel.senderAlive then Pending else Closed
    {
      if seen < channel.version {
        seen := channel.version;
        r := Value(channel.value);
      } else if channel.senderAlive {
        r := Pending;
      } else {
        r := Closed;
      }
    }

    /** One poll of `wait`: loop over receives until the signal, the end of the sender, or a pending
        receive. It is ready exactly when an unseen broadcast has fired or the sender is gone, so a
        dropped sender acts like a fired one. */
    method PollWait() returns (ready: bool)
      requires seen <= channel.version
      modifies this`seen
      ensures ready <==> (old(seen) < channel.version && channel.value) || !channel.senderAlive
      ensures seen == channel.version
    {
      ready := false;
      var pending := false;
      while !ready && !pending
        invariant old(seen) <= seen <= channel.version
        invariant ready ==> (old(seen) < channel.version && channel.value) || !channel.senderAlive
        invariant seen > old(seen) ==> seen == channel.version
        invariant !ready && seen > old(seen) ==> !channel.value
        invariant pending ==> seen == channel.version && channel.senderAlive
        invariant ready ==> seen == channel.version
        decreases channel.version - seen, if ready || pending then 0 else 1
      {
        var r := Recv();
        match r
        case Closed => ready := true;
        case Value(b) =>
          if b {
            ready := true;
          }
        case Pending => pending := true;
      }
    }
  }

  /** Every wait in the daemon starts from a clone that has seen nothing; for those, readiness is
      just "fired or closed", which the pool and the supervisor call settled. The receiver that
      already consumed the signal is the exception: its next wait blocks for as long as the sender
      lives. */
  method WaitTwice(channel: WatchChannel) returns (first: bool, second: bool)
    requires channel.version >= 1
    ensures first <==> Pool.Signal(channel.value, channel.senderAlive).Settled()
    ensures second <==> !channel.senderAlive
  {
    var r := new SignalReceiver(channel);
    first := r.PollWait();
    second := r.PollWait();
  }

  /** Firing the signal and losing its sender come to the same: the next wait of every receiver,
      whatever it has seen so far, is ready, and so is the first wait of every later clone. */
  method StopReachesEveryone(channel: WatchChannel, receiver: SignalReceiver, drop: bool)
    returns (early: bool, late: bool)
    requires receiver.channel == channel && receiver.seen <= channel.version
    modifies channel, receiver
    ensures early && late
  {
    if drop {
      channel.DropSender();
    } else {
      channel.Broadcast();
    }
    early := receiver.PollWait();
    var clone := new SignalReceiver(channel);
    late := clone.PollWait();
  }
}
