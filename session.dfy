/**
 * One solver session of the Java server (`Session.java`): it runs the
 * external solver once, remembers its exit status and the two words it
 * prints (cost and elapsed time), and can be kept alive by the client.
 */
module ServerSession {
  import opened Common
  import opened JavaText

  /** Milliseconds after the last keep-alive at which a session counts as orphaned. */
  const OrphanTimeout: int := 3600 * 1000

  /** Status of a session that has not run the solver yet. */
  const NotStarted: int := -2
  /** Status of a session whose solver process is still running. */
  const Running: int := -1

  /**
   * What polling the solver process reveals: `exitValue()` throws because it is
   * still running, or it returns a code together with the bytes the solver wrote,
   * or it returns 0 but reading those bytes throws an `IOException`.
   */
  datatype ProcessPoll = StillRunning | Exited(code: int, output: string) | ExitedUnread

  /** The text `statusString` reports for a status code. */
  function StatusText(status: int): (s: string)
    ensures s == "not started" <==> status == NotStarted
    ensures s == "running" <==> status == Running
    ensures s == "completed" <==> status == 0
    ensures s == "unknown" <==> status < -2
    ensures s == "failed" <==> status > 0
  {
    if status == -2 then "not started"
    else if status == -1 then "running"
    else if status == 0 then "completed"
    else if status < 0 then "unknown"
    else "failed"
  }

  /** The results kept from solver output: its split on ' ', provided it has exactly two parts. */
  function KeptResults(output: string): (r: Option<seq<string>>)
    ensures r.Some? <==> |Split(output, ' ')| == 2
    ensures r.Some? ==> |r.value| == 2 && r.value == Split(output, ' ')
  {
    var parts := Split(output, ' ');
    if |parts| == 2 then Some(parts) else None
  }

  /** Output "cost time" (two words, no further spaces) is kept word for word. */
  lemma KeptResultsOfTwoWords(cost: string, time: string)
    requires ' ' !in cost && ' ' !in time && time != []
    ensures KeptResults(cost + " " + time) == Some([cost, time])
  {
    assert cost + " " + time == cost + [' '] + time;
    SplitTwo(cost, time, ' ');
  }

  class Session {
    const id: string
    var query: Option<string>
    var processRunning: bool
    var keepalive: int
    var status: int
    var results: Option<seq<string>>

    ghost predicate Valid()
      reads this
    {
      results.Some? ==> |results.value| == 2
    }

    /** A new session: status "not started", no process, kept alive at creation time `now`. */
    constructor (id: string, now: int)
      ensures Valid()
      ensures this.id == id && query == None && !processRunning
      ensures keepalive == now && status == NotStarted && results == None
    {
      this.id := id;
      query := None;
      processRunning := false;
      keepalive := now;
      status := NotStarted;
      results := None;
    }

    /** `run`: records the query and starts the solver; `started` is false when the launch throws. */
    method Run(q: string, started: bool)
      requires Valid()
      modifies this
      ensures Valid()
      ensures query == Some(q) && processRunning == started
      ensures status == old(status) && results == old(results) && keepalive == old(keepalive)
    {
      query := Some(q);
      processRunning := started;
    }

    /** `close`: the process (if any) is destroyed; the session's files are deleted (not modelled). */
    method Close()
      requires Valid()
      modifies this
      ensures Valid()
      ensures !processRunning
      ensures status == old(status) && results == old(results) && keepalive == old(keepalive)
      ensures query == old(query)
    {
      processRunning := false;
    }

    /**
     * `status()`: without a process the status is frozen; otherwise the poll
     * decides between running (-1), success (results kept only if the output
     * has two words) and failure (results cleared). A success whose output
     * cannot be read sets the status to 0 but keeps the process and the old
     * results.
     */
    method Status(poll: ProcessPoll) returns (s: int)
      requires Valid()
      modifies this
      ensures Valid() && s == status
      ensures keepalive == old(keepalive) && query == old(query)
      ensures !old(processRunning) ==> s == old(status) && results == old(results) && !processRunning
      ensures old(processRunning) && poll.StillRunning? ==>
                s == Running && processRunning && results == old(results)
      ensures old(processRunning) && poll.Exited? && poll.code == 0 ==>
                s == 0 && !processRunning && results == KeptResults(poll.output)
      ensures old(processRunning) && poll.Exited? && poll.code != 0 ==>
                s == poll.code && !processRunning && results == None
      ensures old(processRunning) && poll.ExitedUnread? ==>
                s == 0 && processRunning && results == old(results)
    {
      if processRunning {
        match poll {
          case StillRunning =>
            status := Running;
          case Exited(code, output) =>
            status := code;
            processRunning := false;
            if code == 0 {
              results := KeptResults(output);
            } else {
              results := None;
            }
          case ExitedUnread =>
            status := 0;
        }
      }
      s := status;
    }

    /** `statusString`. */
    function StatusString(): (s: string)
      reads this
      ensures s == StatusText(status)
    {
      StatusText(status)
    }

    /** `result`: the first kept word, or "" when no results are kept. */
    function Result(): (r: string)
      requires Valid()
      reads this
      ensures results.None? ==> r == ""
      ensures results.Some? ==> r == results.value[0]
    {
      if results.Some? then results.value[0] else ""
    }

    /** `elapsedTime`: the second kept word, or "" when no results are kept. */
    function ElapsedTime(): (r: string)
      requires Valid()
      reads this
      ensures results.None? ==> r == ""
      ensures results.Some? ==> r == results.value[1]
    {
      if results.Some? then results.value[1] else ""
    }

    /** `keepAlive` at time `now`. */
    method KeepAlive(now: int)
      requires Valid()
      modifies this
      ensures Valid() && keepalive == now
      ensures status == old(status) && results == old(results)
      ensures processRunning == old(processRunning) && query == old(query)
      ensures forall t :: t <= now + OrphanTimeout ==> !Orphaned(t)
    {
      keepalive := now;
    }

    /** `orphanned` at time `now`: more than an hour since the last keep-alive. */
    predicate Orphaned(now: int)
      reads this
    {
      now - keepalive > OrphanTimeout
    }
  }
}
