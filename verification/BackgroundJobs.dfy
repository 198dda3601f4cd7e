/** The background job runner: one locked run of a job, and the interval timers of the process. */
module BackgroundJobs {
  import opened Results
  import opened Text
  import opened LockRetry

  function Reversed(s: seq<nat>): seq<nat> {
    if s == [] then [] else [s[|s| - 1]] + Reversed(s[..|s| - 1])
  }

  /** The same handles, from the last to the first. */
  lemma {:induction false} ReversedContents(s: seq<nat>)
    ensures |Reversed(s)| == |s|
    ensures forall i :: 0 <= i < |s| ==> Reversed(s)[i] == s[|s| - 1 - i]
  {
    if s != [] { ReversedContents(s[..|s| - 1]); }
  }

  datatype JobOutcome = JobSkipped | JobRan | JobFailed

  class JobRunner {
    var timers: seq<nat>       // live interval handles
    var nextTimer: nat
    var cleared: seq<nat>      // handles cleared so far
    var failures: map<string, nat>
    var lastSuccess: map<string, nat>

    ghost predicate Valid()
      reads this
    {
      && (forall i, j :: 0 <= i < j < |timers| ==> timers[i] != timers[j])
      && (forall i :: 0 <= i < |timers| ==> timers[i] < nextTimer && timers[i] !in cleared)
      && (forall i :: 0 <= i < |cleared| ==> cleared[i] < nextTimer)
      && (forall i, j :: 0 <= i < j < |cleared| ==> cleared[i] != cleared[j])
    }

    constructor ()
      ensures Valid() && timers == [] && cleared == [] && failures == map[] && lastSuccess == map[]
    {
      timers, cleared, nextTimer := [], [], 0;
      failures, lastSuccess := map[], map[];
    }

    /** A failing job is counted and reported, never thrown; a skipped one leaves no mark. */
    method RunLockedJob(caller: LockCaller, jobKey: string, reply: Reply, workOk: bool, now: nat) returns (r: JobOutcome)
      requires caller as object != this
      modifies this`failures, this`lastSuccess, caller
      ensures caller.events == old(caller.events) + if Blank(jobKey) then [] else AttemptEvents(reply, workOk)
      ensures r == JobSkipped <==> !Blank(jobKey) && reply == Refused
      ensures r == JobRan <==> !Blank(jobKey) && reply == Granted && workOk
      ensures lastSuccess == if r == JobRan then old(lastSuccess)[jobKey := now] else old(lastSuccess)
      ensures failures == if r == JobFailed
                          then old(failures)[jobKey := (if jobKey in old(failures) then old(failures)[jobKey] else 0) + 1]
                          else old(failures)
    {
      var outcome := caller.WithJobLock(jobKey, reply, workOk);
      if outcome == Ok(Skipped) {
        return JobSkipped;
      }
      if outcome.Err? || outcome.value == Threw {
        failures := failures[jobKey := (if jobKey in failures then failures[jobKey] else 0) + 1];
        return JobFailed;
      }
      lastSuccess := lastSuccess[jobKey := now];
      r := JobRan;
    }

    method RegisterInterval() returns (timer: nat)
      requires Valid()
      modifies this`timers, this`nextTimer
      ensures Valid() && timer == old(nextTimer) && timers == old(timers) + [timer]
    {
      timer := nextTimer;
      nextTimer := nextTimer + 1;
      timers := timers + [timer];
    }

    /** Shutdown clears every live timer, each once, last registered first. */
    method StopBackgroundJobs()
      requires Valid()
      modifies this`timers, this`cleared
      ensures Valid() && timers == []
      ensures cleared == old(cleared) + Reversed(old(timers))
      ensures forall timer :: timer in old(timers) ==> timer in cleared
      ensures |cleared| == |old(cleared)| + |old(timers)|
    {
      ReversedContents(timers);
      assert forall i :: 0 <= i < |timers| ==> Reversed(timers)[|timers| - 1 - i] == timers[i];
      while timers != []
        invariant Valid()
        invariant cleared + Reversed(timers) == old(cleared) + Reversed(old(timers))
        decreases |timers|
      {
        var timer := timers[|timers| - 1];
        timers := timers[..|timers| - 1];
        cleared := cleared + [timer];
      }
    }
  }
}
