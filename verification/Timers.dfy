/** The retransmission timer (class `Timer` in libsponge/tcp_sender.hh). */
module Timers {
  import opened Words

  datatype TimerData = TimerData(rto: u32, active: bool, passed: u32, expired: bool)

  const STOPPED: TimerData := TimerData(0, false, 0, false)

  function Stop(t: TimerData): TimerData { t.(active := false) }

  function Start(rto: u32): TimerData { TimerData(rto, true, 0, false) }

  /** The counter is an `unsigned int` and wraps around. */
  function Tick(t: TimerData, ms: nat): TimerData {
    if !t.active || t.expired then t
    else var p := To32(t.passed + ms); t.(passed := p, expired := p >= t.rto)
  }
}

module TimerImpl {
  import opened Words
  import T = Timers

  class Timer {
    var rto: u32
    var active: bool
    var passed: u32
    var expired: bool

    ghost function Model(): T.TimerData
      reads this
    {
      T.TimerData(rto, active, passed, expired)
    }

    constructor ()
      ensures Model() == T.STOPPED
    {
      rto, active, passed, expired := 0, false, 0, false;
    }

    method StopTimer()
      modifies this
      ensures Model() == T.Stop(old(Model()))
    {
      active := false;
    }

    method StartTimer(rto: u32)
      modifies this
      ensures Model() == T.Start(rto)
    {
      this.rto, active, passed, expired := rto, true, 0, false;
    }

    method Tick(ms: nat)
      modifies this
      ensures Model() == T.Tick(old(Model()), ms)
    {
      if !active { return; }
      if expired { return; }
      passed := To32(passed + ms);
      if passed >= rto { expired := true; }
    }
  }
}
