/** The tick of the job scheduler (internal/scheduler/scheduler.go) and its coalescing rule. */
module Scheduler {

  /** Nanoseconds. */
  type Time = int

  datatype Job = Job(name: string, due: Time -> bool)

  /** One call of a job's run function, at the clock value its tick read. */
  datatype Attempt = Attempt(name: string, at: Time)

  const HOUR: int := 3_600_000_000_000

  type LastRun = map<string, Time>

  /** The job is due and was not attempted within half an interval. */
  predicate Fires(job: Job, now: Time, interval: int, lastRun: LastRun) {
    job.due(now) && !(job.name in lastRun && now - lastRun[job.name] < interval / 2)
  }

  function LastRunAfter(jobs: seq<Job>, now: Time, interval: int, lastRun: LastRun): LastRun {
    if jobs == [] then lastRun
    else
      var before := LastRunAfter(jobs[..|jobs| - 1], now, interval, lastRun);
      var job := jobs[|jobs| - 1];
      if Fires(job, now, interval, before) then before[job.name := now] else before
  }

  function AttemptsOf(jobs: seq<Job>, now: Time, interval: int, lastRun: LastRun): seq<Attempt> {
    if jobs == [] then []
    else
      var before := LastRunAfter(jobs[..|jobs| - 1], now, interval, lastRun);
      var job := jobs[|jobs| - 1];
      AttemptsOf(jobs[..|jobs| - 1], now, interval, lastRun) +
      (if Fires(job, now, interval, before) then [Attempt(job.name, now)] else [])
  }

  class Scheduler {
    var jobs: seq<Job>
    const interval: int
    var lastRun: LastRun

    constructor (interval: int)
      ensures jobs == [] && lastRun == map[]
      ensures this.interval == if interval <= 0 then 60 * 60 * 1_000_000_000 else interval
    {
      this.jobs := [];
      this.interval := if interval <= 0 then HOUR else interval;
      this.lastRun := map[];
    }

    method Register(name: string, due: Time -> bool)
      modifies this`jobs
      ensures jobs == old(jobs) + [Job(name, due)]
    {
      jobs := jobs + [Job(name, due)];
    }

    /** The attempts of one tick, in order; each goes through the leader lock or runs directly. */
    method Tick(now: Time) returns (attempts: seq<Attempt>)
      modifies this`lastRun
      ensures attempts == AttemptsOf(jobs, now, interval, old(lastRun))
      ensures lastRun == LastRunAfter(jobs, now, interval, old(lastRun))
    {
      attempts := [];
      for i := 0 to |jobs|
        invariant attempts == AttemptsOf(jobs[..i], now, interval, old(lastRun))
        invariant lastRun == LastRunAfter(jobs[..i], now, interval, old(lastRun))
      {
        assert jobs[..i + 1][..i] == jobs[..i];
        var job := jobs[i];
        if !job.due(now) {
          continue;
        }
        if job.name in lastRun && now - lastRun[job.name] < interval / 2 {
          continue;
        }
        lastRun := lastRun[job.name := now];
        attempts := attempts + [Attempt(job.name, now)];
      }
      assert jobs[..|jobs|] == jobs;
    }
  }

  // ---------- spacing over any run ----------

  /** lastRun holds the latest attempt of every name, and attempts of one name are half an interval apart. */
  ghost predicate Spaced(log: seq<Attempt>, interval: int, lastRun: LastRun) {
    && (forall i :: 0 <= i < |log| ==> log[i].name in lastRun && log[i].at <= lastRun[log[i].name])
    && (forall i, j :: 0 <= i < j < |log| && log[i].name == log[j].name ==> log[j].at - log[i].at >= interval / 2)
    && (forall n :: n in lastRun ==> exists i :: 0 <= i < |log| && log[i] == Attempt(n, lastRun[n]))
  }

  lemma AttemptKeepsSpacing(log: seq<Attempt>, interval: int, lastRun: LastRun, job: Job, now: Time)
    requires interval > 0 && Spaced(log, interval, lastRun) && Fires(job, now, interval, lastRun)
    ensures Spaced(log + [Attempt(job.name, now)], interval, lastRun[job.name := now])
  {
    var more, later := log + [Attempt(job.name, now)], lastRun[job.name := now];
    forall n | n in later ensures exists i :: 0 <= i < |more| && more[i] == Attempt(n, later[n]) {
      if n == job.name {
        assert more[|log|] == Attempt(n, later[n]);
      } else {
        var i :| 0 <= i < |log| && log[i] == Attempt(n, lastRun[n]);
        assert more[i] == log[i];
      }
    }
  }

  lemma {:induction false} TickKeepsSpacing(
    log: seq<Attempt>, jobs: seq<Job>, now: Time, interval: int, lastRun: LastRun)
    requires interval > 0 && Spaced(log, interval, lastRun)
    ensures Spaced(log + AttemptsOf(jobs, now, interval, lastRun), interval, LastRunAfter(jobs, now, interval, lastRun))
  {
    if jobs == [] {
      assert log + AttemptsOf(jobs, now, interval, lastRun) == log;
    } else {
      var front, job := jobs[..|jobs| - 1], jobs[|jobs| - 1];
      var sofar, before := log + AttemptsOf(front, now, interval, lastRun), LastRunAfter(front, now, interval, lastRun);
      TickKeepsSpacing(log, front, now, interval, lastRun);
      if Fires(job, now, interval, before) {
        AttemptKeepsSpacing(sofar, interval, before, job, now);
        assert log + AttemptsOf(jobs, now, interval, lastRun) == sofar + [Attempt(job.name, now)];
      } else {
        assert log + AttemptsOf(jobs, now, interval, lastRun) == sofar;
      }
    }
  }

  ghost function LogOf(jobs: seq<Job>, ticks: seq<Time>, interval: int): seq<Attempt> {
    if ticks == [] then []
    else LogOf(jobs, ticks[..|ticks| - 1], interval) +
         AttemptsOf(jobs, ticks[|ticks| - 1], interval, LastRunOf(jobs, ticks[..|ticks| - 1], interval))
  }

  ghost function LastRunOf(jobs: seq<Job>, ticks: seq<Time>, interval: int): LastRun {
    if ticks == [] then map[]
    else LastRunAfter(jobs, ticks[|ticks| - 1], interval, LastRunOf(jobs, ticks[..|ticks| - 1], interval))
  }

  lemma {:induction false} RunIsSpaced(jobs: seq<Job>, ticks: seq<Time>, interval: int)
    requires interval > 0
    ensures Spaced(LogOf(jobs, ticks, interval), interval, LastRunOf(jobs, ticks, interval))
  {
    if ticks != [] {
      var before := ticks[..|ticks| - 1];
      RunIsSpaced(jobs, before, interval);
      TickKeepsSpacing(LogOf(jobs, before, interval), jobs, ticks[|ticks| - 1], interval,
                       LastRunOf(jobs, before, interval));
    }
  }

  /**
   * Over any ticks, even with a clock that jumps, on one pod: two attempts of a name are at least half an
   * interval apart, whether or not several jobs share the name.
   */
  lemma AttemptsAreSpaced(jobs: seq<Job>, ticks: seq<Time>, interval: int, i: nat, j: nat)
    requires interval > 0 && i < j < |LogOf(jobs, ticks, interval)|
    requires LogOf(jobs, ticks, interval)[i].name == LogOf(jobs, ticks, interval)[j].name
    ensures LogOf(jobs, ticks, interval)[j].at - LogOf(jobs, ticks, interval)[i].at >= interval / 2
  {
    RunIsSpaced(jobs, ticks, interval);
  }

  /** What is attempted is the name of a due job. */
  lemma {:induction false} OnlyDueJobsAreAttempted(
    jobs: seq<Job>, now: Time, interval: int, lastRun: LastRun, name: string)
    requires Attempt(name, now) in AttemptsOf(jobs, now, interval, lastRun)
    ensures exists job :: job in jobs && job.name == name && job.due(now)
  {
    if jobs != [] {
      var front, job := jobs[..|jobs| - 1], jobs[|jobs| - 1];
      if Attempt(name, now) in AttemptsOf(front, now, interval, lastRun) {
        OnlyDueJobsAreAttempted(front, now, interval, lastRun, name);
        var j :| j in front && j.name == name && j.due(now);
        assert j in jobs;
      } else {
        assert job in jobs && job.name == name;
      }
    }
  }

  /**
   * A tick attempts a name exactly when some registered job of that name is due, and the name was not attempted under
   * half an interval back, or ahead of the clock. It attempts a name once, and all at the time it read.
   */
  lemma NameIsAttemptedIff(jobs: seq<Job>, now: Time, interval: int, lastRun: LastRun, name: string)
    requires interval > 1
    ensures var log := AttemptsOf(jobs, now, interval, lastRun);
      && (Attempt(name, now) in log <==>
            && (exists job :: job in jobs && job.name == name && job.due(now))
            && !(name in lastRun && now - lastRun[name] < interval / 2))
      && (forall i :: 0 <= i < |log| ==> log[i].at == now)
      && (forall i, j :: 0 <= i < j < |log| ==> log[i].name != log[j].name)
  {
    NamesInTick(jobs, now, interval, lastRun, name);
    if Attempt(name, now) in AttemptsOf(jobs, now, interval, lastRun) {
      OnlyDueJobsAreAttempted(jobs, now, interval, lastRun, name);
    } else if job :| job in jobs && job.name == name && job.due(now) {
      DueJobIsAttempted(jobs, now, interval, lastRun, job);
    }
    NamesOnce(jobs, now, interval, lastRun);
  }

  /** Attempt k is that of the due job at this place. */
  ghost predicate AttemptsAt(log: seq<Attempt>, jobs: seq<Job>, now: Time, at: seq<int>) {
    && |at| == |log|
    && (forall i, j :: 0 <= i < j < |at| ==> at[i] < at[j])
    && forall k :: 0 <= k < |at| ==>
         0 <= at[k] < |jobs| && jobs[at[k]].due(now) && log[k] == Attempt(jobs[at[k]].name, now)
  }

  /** A tick attempts jobs in the order of their registration. */
  lemma {:induction false} AttemptsInOrder(jobs: seq<Job>, now: Time, interval: int, lastRun: LastRun)
    returns (at: seq<int>)
    ensures AttemptsAt(AttemptsOf(jobs, now, interval, lastRun), jobs, now, at)
  {
    if jobs == [] {
      at := [];
    } else {
      var n := |jobs| - 1;
      at := AttemptsInOrder(jobs[..n], now, interval, lastRun);
      if Fires(jobs[n], now, interval, LastRunAfter(jobs[..n], now, interval, lastRun)) {
        at := at + [n];
      }
    }
  }

  lemma {:induction false} NamesOnce(jobs: seq<Job>, now: Time, interval: int, lastRun: LastRun)
    requires interval > 1
    ensures var log := AttemptsOf(jobs, now, interval, lastRun);
      && (forall i :: 0 <= i < |log| ==> log[i].at == now)
      && (forall i, j :: 0 <= i < j < |log| ==> log[i].name != log[j].name)
  {
    if jobs != [] {
      var front, job := jobs[..|jobs| - 1], jobs[|jobs| - 1];
      NamesOnce(front, now, interval, lastRun);
      NamesInTick(front, now, interval, lastRun, job.name);
    }
  }

  /** A due job is passed over only for an attempt of its name under half an interval back, or ahead of the clock. */
  lemma {:induction false} DueJobIsAttempted(jobs: seq<Job>, now: Time, interval: int, lastRun: LastRun, job: Job)
    requires interval > 1 && job in jobs && job.due(now)
    ensures var log := AttemptsOf(jobs, now, interval, lastRun);
      Attempt(job.name, now) in log <==> !(job.name in lastRun && now - lastRun[job.name] < interval / 2)
  {
    var front := jobs[..|jobs| - 1];
    assert jobs == front + [jobs[|jobs| - 1]];
    NamesInTick(front, now, interval, lastRun, job.name);
    if job in front {
      DueJobIsAttempted(front, now, interval, lastRun, job);
    }
    NamesInTick(jobs, now, interval, lastRun, job.name);
  }

  /** Within a tick a name is attempted exactly when its last run becomes now or already was. */
  lemma {:induction false} NamesInTick(jobs: seq<Job>, now: Time, interval: int, lastRun: LastRun, name: string)
    requires interval > 1
    ensures var log, after := AttemptsOf(jobs, now, interval, lastRun), LastRunAfter(jobs, now, interval, lastRun);
      if Attempt(name, now) in log
      then name in after && after[name] == now && !(name in lastRun && now - lastRun[name] < interval / 2)
      else (name in after <==> name in lastRun) && (name in after ==> after[name] == lastRun[name])
  {
    if jobs != [] {
      NamesInTick(jobs[..|jobs| - 1], now, interval, lastRun, name);
    }
  }
}
