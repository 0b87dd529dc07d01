/**
 * The sleep set-up of the portability layer (`System::initialise_sleep`):
 * a delay in milliseconds is stored once and reused by every later sleep.
 * On POSIX it becomes a `timespec` (whole seconds and nanoseconds), on
 * Windows the milliseconds are kept unchanged.
 */
module SystemSleep {

  /** A `struct timespec`. */
  datatype Timespec = Timespec(sec: int, nsec: int)

  /**
   * The `timespec` that `initialise_sleep` builds from `ms`. Below one second
   * everything goes into the nanoseconds; from one second on the delay is split
   * with C's `/` and `%`, which agree with Dafny's for the non-negative values
   * that reach that branch.
   */
  function SleepInterval(ms: int): (t: Timespec)
    ensures ms < 1000 ==> t == Timespec(0, ms * 1000000)
    ensures ms >= 0 ==> t.sec * 1000 + t.nsec / 1000000 == ms
    ensures ms >= 0 ==> 0 <= t.nsec < 1000000000 && t.nsec % 1000000 == 0
  {
    if ms < 1000 then Timespec(0, ms * 1000000)
    else Timespec(ms / 1000, (ms % 1000) * 1000000)
  }

  /** Converting a non-negative delay and reading it back in milliseconds gives the delay. */
  lemma SleepIntervalRoundTrip(ms: nat)
    ensures SleepInterval(ms).sec == ms / 1000
    ensures SleepInterval(ms).nsec == (ms % 1000) * 1000000
  {
  }

  /** The sleep state of a `System` object; `windows` says which branch was compiled. */
  class SleepTimer {
    const windows: bool
    var milliseconds: int
    var req: Timespec

    constructor (windows: bool)
      ensures this.windows == windows
      ensures milliseconds == 0 && req == Timespec(0, 0)
    {
      this.windows := windows;
      milliseconds := 0;
      req := Timespec(0, 0);
    }

    /** `initialise_sleep`: the Windows build stores `ms`, the POSIX build its `timespec`. */
    method InitialiseSleep(ms: int)
      modifies this
      ensures windows ==> milliseconds == ms && req == old(req)
      ensures !windows ==> req == SleepInterval(ms) && milliseconds == old(milliseconds)
    {
      if windows {
        milliseconds := ms;
      } else if ms < 1000 {
        req := Timespec(0, ms * 1000000);
      } else {
        req := Timespec(ms / 1000, (ms % 1000) * 1000000);
      }
    }
  }
}
