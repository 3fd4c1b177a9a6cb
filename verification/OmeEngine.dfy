/** The engine object: lifecycle with rollback, the jobstore lock, the process-wide
    registry, and the counter methods of OmeRuns in place. */
module OmeEngine {
  import opened Common
  import opened OmeRuns

  /** File locks by jobstore path, and the `_ENGINES` registry, of one host process. */
  class Host {
    var holders: map<string, nat>
    var registry: set<nat>

    constructor ()
      ensures holders == map[] && registry == {}
    {
      holders, registry := map[], {};
    }
  }

  /** Where the body of `start` raises, in order. `SchedulerBoot` is the scheduler's own
      start raising after the engine has stored it, `ReloaderBoot` likewise. */
  datatype Stage = Validate | Components | SchedulerBoot | CrashRecovery | ScheduledJobs | ReloaderBoot

  /** Clean-up steps that raise. */
  datatype Faults = Faults(reloaderStop: bool, shutdown: bool, unlock: bool)

  /** How the environment treats one call of `start`: the storage initialisation raises or
      not, a stage raises or none does, whether what is raised at the one await there (crash
      recovery) is a cancellation rather than an ordinary exception, which runs are
      enqueued again or end while recovery is awaited, and which end during a rollback. */
  datatype Weather = Weather(storageDown: bool, failAt: Option<Stage>, cancelled: bool, watchesConfig: bool,
                             recovery: seq<Meanwhile>, drain: seq<Meanwhile>, faults: Faults)

  /** How a dispatched run ends. */
  datatype Ending = Succeeded | Raised | RunCancelled

  datatype Verdict = Done | StorageError | LockHeld | Failed | Cancelled

  /** Stages that come after crash recovery has begun. */
  predicate RecoveryBegun(stage: Stage) {
    stage == CrashRecovery || stage == ScheduledJobs || stage == ReloaderBoot
  }

  predicate SchedulerStored(stage: Stage) {
    stage != Validate && stage != Components
  }

  class OfflineEngine {
    const id: nat
    const path: string
    const host: Host
    var started: bool
    var scheduler: bool
    var lockHandle: bool
    var reloader: bool
    var idleEvent: Option<bool>
    var activeRuns: nat

    constructor (id: nat, path: string, host: Host)
      requires id !in host.registry && forall p :: p in host.holders ==> host.holders[p] != id
      ensures this.id == id && this.path == path && this.host == host
      ensures Sane() && IsStopped()
    {
      this.id, this.path, this.host := id, path, host;
      started, scheduler, lockHandle, reloader := false, false, false, false;
      idleEvent, activeRuns := None, 0;
    }

    /** The handle is open exactly while this engine holds its path's file lock. */
    ghost predicate Sound()
      reads this, host
    {
      && (lockHandle <==> path in host.holders && host.holders[path] == id)
      && (forall p :: p in host.holders && host.holders[p] == id ==> p == path)
    }

    ghost predicate IsReady()
      reads this, host
    {
      started && scheduler && lockHandle && id in host.registry && idleEvent.Some?
    }

    ghost predicate IsStopped()
      reads this, host
    {
      && !started && !scheduler && !lockHandle && !reloader && id !in host.registry
      && idleEvent.None? && activeRuns == 0
    }

    /** Holds between any calls, whatever raised: without the lock nothing is wired up, and
        a started engine that has the lock has everything. */
    ghost predicate Sane()
      reads this, host
    {
      && Sound()
      && (!lockHandle ==> !scheduler && !reloader && id !in host.registry)
      && (started && lockHandle ==> IsReady())
    }

    /** What other engines of the host rely on. */
    twostate predicate OthersUndisturbed()
      reads host
    {
      && (forall p :: p in old(host.holders) && old(host.holders)[p] != id ==>
            p in host.holders && host.holders[p] == old(host.holders)[p])
      && (forall p :: p in host.holders && host.holders[p] != id ==>
            p in old(host.holders) && host.holders[p] == old(host.holders)[p])
      && host.registry - {id} == old(host.registry) - {id}
    }

    // ── Lock ──────────────────────────────────────────────────────────────

    method AcquireLock() returns (ok: bool)
      requires Sound() && !lockHandle
      modifies this`lockHandle, host`holders
      ensures Sound() && OthersUndisturbed() && host.registry == old(host.registry)
      ensures ok == lockHandle == (path !in old(host.holders))
      ensures !ok ==> host.holders == old(host.holders)
    {
      if path in host.holders {
        return false;
      }
      host.holders := host.holders[path := id];
      lockHandle := true;
      ok := true;
    }

    /** Closing the handle frees the file lock even when the unlock call itself raises. */
    method ReleaseLock(raises: bool) returns (ok: bool)
      requires Sound()
      modifies this`lockHandle, host`holders
      ensures Sound() && OthersUndisturbed() && host.registry == old(host.registry)
      ensures !lockHandle
      ensures ok == !(old(lockHandle) && raises)
    {
      ok := true;
      if lockHandle {
        ok := !raises;
        host.holders := map p | p in host.holders && p != path :: host.holders[p];
        lockHandle := false;
      }
    }

    // ── Counters ──────────────────────────────────────────────────────────

    /** The gauge of the accounting model; `underflow` is the logged branch. */
    ghost function View(underflow: bool): Gauge
      reads this
      requires idleEvent.Some?
    {
      Gauge(activeRuns, idleEvent.value, underflow)
    }

    /** Count and event are those of the gauge. */
    ghost predicate Shows(g: Gauge)
      reads this
    {
      activeRuns == g.active && idleEvent == Some(g.idle)
    }

    method OnRunEnqueued()
      modifies this`activeRuns, this`idleEvent
      ensures activeRuns == old(activeRuns) + 1
      ensures old(idleEvent).Some? ==> idleEvent.Some? && forall u :: View(u) == Bump(old(View(u)))
      ensures old(idleEvent).None? ==> idleEvent.None?
    {
      activeRuns := activeRuns + 1;
      if idleEvent.Some? {
        idleEvent := Some(false);
      }
    }

    method OnRunCompleted() returns (underflow: bool)
      modifies this`activeRuns, this`idleEvent
      ensures underflow <==> old(activeRuns) == 0
      ensures activeRuns == Max(old(activeRuns) - 1, 0)
      ensures old(idleEvent).Some? ==> idleEvent.Some? && forall u :: View(u || underflow) == Drop(old(View(u)))
      ensures old(idleEvent).None? ==> idleEvent.None?
    {
      if activeRuns == 0 {
        if idleEvent.Some? {
          idleEvent := Some(true);
        }
        return true;
      }
      activeRuns := activeRuns - 1;
      if activeRuns == 0 && idleEvent.Some? {
        idleEvent := Some(true);
      }
      underflow := false;
    }

    /** `_enqueue_run`: the count is raised before `add_job`, and taken back if that raises,
        whether or not the engine has an idle event at the time. */
    method EnqueueRun(addJobRaises: bool) returns (raised: bool)
      modifies this`activeRuns, this`idleEvent
      ensures raised == addJobRaises
      ensures activeRuns == if addJobRaises then old(activeRuns) else old(activeRuns) + 1
      ensures old(idleEvent).Some? ==>
        && idleEvent.Some?
        && forall u :: View(u) == if addJobRaises then Drop(Bump(old(View(u)))) else Bump(old(View(u)))
      ensures old(idleEvent).None? ==> idleEvent.None?
    {
      OnRunEnqueued();
      if addJobRaises {
        var underflow := OnRunCompleted();
        assert !underflow;
      }
      raised := addJobRaises;
    }

    /** `dispatch_run`: the decrement is in a `finally`, so it happens however the run ends,
        and also for a run left over from a stop that did not drain, which finds no event. */
    method DispatchRun(ending: Ending) returns (raised: bool, underflow: bool)
      modifies this`activeRuns, this`idleEvent
      ensures raised == (ending != Succeeded)
      ensures underflow <==> old(activeRuns) == 0
      ensures activeRuns == Max(old(activeRuns) - 1, 0)
      ensures old(idleEvent).Some? ==> idleEvent.Some? && forall u :: View(u || underflow) == Drop(old(View(u)))
      ensures old(idleEvent).None? ==> idleEvent.None?
    {
      underflow := OnRunCompleted();
      raised := ending != Succeeded;
    }

    /** An await as the gauge sees it: runs are added, by crash recovery or by running
        strategies, and runs end. */
    method Await(moves: seq<Meanwhile>)
      requires idleEvent.Some?
      modifies this`activeRuns, this`idleEvent
      ensures Shows(Play(old(View(false)), moves))
    {
      ghost var start := View(false);
      for i := 0 to |moves|
        invariant Shows(Play(start, moves[..i]))
      {
        assert moves[..i + 1][..i] == moves[..i];
        ghost var before := Play(start, moves[..i]);
        assert View(before.underflow) == before;
        if moves[i] == RunAdded {
          OnRunEnqueued();
          assert View(before.underflow) == Bump(before);
        } else {
          var underflow := OnRunCompleted();
          assert View(before.underflow || underflow) == Drop(before);
        }
      }
      assert moves[..|moves|] == moves;
    }

    // ── Start and rollback ────────────────────────────────────────────────

    /** The clean-up that raises first among those this engine's state calls for. */
    predicate CleanupRaises(faults: Faults)
      reads this
    {
      (reloader && faults.reloaderStop) || (scheduler && faults.shutdown) || (lockHandle && faults.unlock)
    }

    method RollbackPartialStart(drain: seq<Meanwhile>, faults: Faults) returns (ok: bool)
      requires Sound() && !started && lockHandle
      requires scheduler ==> idleEvent.Some?
      modifies this, host
      ensures Sane() && OthersUndisturbed() && !started
      ensures ok == !old(CleanupRaises(faults))
      ensures ok ==> IsStopped()
      ensures !ok && (!old(scheduler) || (old(reloader) && faults.reloaderStop)) ==>
        idleEvent == old(idleEvent) && activeRuns == old(activeRuns)
      ensures !ok && old(scheduler) && !(old(reloader) && faults.reloaderStop) ==> Shows(Play(old(View(false)), drain))
      ensures !lockHandle <==> !((old(reloader) && faults.reloaderStop) || (old(scheduler) && faults.shutdown))
    {
      if reloader {
        reloader := false;
        if faults.reloaderStop {
          return false;
        }
      }
      if scheduler {
        Await(drain);
        scheduler := false;
        if faults.shutdown {
          return false;
        }
      }
      host.registry := host.registry - {id};
      ok := ReleaseLock(faults.unlock);
      if !ok {
        return false;
      }
      idleEvent := None;
      activeRuns := 0;
    }

    /** The body of the try block up to the failing stage. */
    method BringUp(failAt: Option<Stage>, watchesConfig: bool, recovery: seq<Meanwhile>) returns (ok: bool)
      requires !started && !scheduler && !reloader && lockHandle && Sound()
      requires id !in host.registry
      modifies this`started, this`scheduler, this`reloader, this`idleEvent, this`activeRuns, host`registry
      ensures Sound() && OthersUndisturbed() && host.holders == old(host.holders)
      ensures ok == (failAt.None? || (failAt == Some(ReloaderBoot) && !watchesConfig))
      ensures ok ==> IsReady()
      ensures ok || RecoveryBegun(failAt.value) ==> Shows(Play(Gauge(old(activeRuns), true, false), recovery))
      ensures !ok ==>
        && !started
        && scheduler == SchedulerStored(failAt.value)
        && reloader == (failAt.value == ReloaderBoot)
        && (!SchedulerStored(failAt.value) ==> idleEvent == old(idleEvent))
        && (failAt.value == SchedulerBoot ==> idleEvent == Some(true))
        && (!RecoveryBegun(failAt.value) ==> activeRuns == old(activeRuns))
        && (id in host.registry <==> SchedulerStored(failAt.value) && failAt.value != SchedulerBoot)
    {
      if failAt == Some(Validate) || failAt == Some(Components) {
        return false;
      }
      idleEvent := Some(true);
      scheduler := true;
      if failAt == Some(SchedulerBoot) {
        return false;
      }
      host.registry := host.registry + {id};
      Await(recovery);
      if failAt == Some(CrashRecovery) || failAt == Some(ScheduledJobs) {
        return false;
      }
      if watchesConfig {
        reloader := true;
        if failAt == Some(ReloaderBoot) {
          return false;
        }
      }
      assert failAt.Some? ==> failAt.value.ReloaderBoot?;
      started := true;
      ok := true;
    }

    /** The clean-up that stands between a failure at `stage` and the stopped state. */
    static predicate Spoils(stage: Stage, faults: Faults) {
      || (stage == ReloaderBoot && faults.reloaderStop)
      || (SchedulerStored(stage) && (faults.shutdown || faults.unlock))
    }

    /** Idempotent when started. Otherwise it comes up complete, with the runs that crash
        recovery added still counted and the event cleared for them, or raises; an ordinary
        exception brings every resource back to the stopped state exactly when no clean-up
        step it needs raises, and a cancellation brings nothing back. */
    method Start(w: Weather) returns (v: Verdict)
      requires Sane()
      modifies this, host
      ensures Sane() && OthersUndisturbed()
      ensures old(started) ==>
        && v == Done && started && idleEvent == old(idleEvent) && activeRuns == old(activeRuns)
        && lockHandle == old(lockHandle) && host.holders == old(host.holders) && host.registry == old(host.registry)
      ensures v == Done && !old(started) ==>
        IsReady() && Shows(Play(Gauge(old(activeRuns), true, false), w.recovery))
      ensures v != Done ==> !old(started) && !started
      ensures v == StorageError <==> !old(started) && w.storageDown
      ensures v == LockHeld <==> !old(started) && !w.storageDown && path in old(host.holders)
      ensures v == StorageError || v == LockHeld ==>
        lockHandle == old(lockHandle) && host.holders == old(host.holders) && host.registry == old(host.registry)
      ensures v == Failed ==> w.failAt.Some?
      ensures v == Failed && old(IsStopped()) ==> (IsStopped() <==> !Spoils(w.failAt.value, w.faults))
      ensures v == Cancelled ==> lockHandle && scheduler && id in host.registry
      ensures v == Cancelled <==>
        && !old(started) && !w.storageDown && path !in old(host.holders)
        && w.failAt == Some(CrashRecovery) && w.cancelled
    {
      if started {
        return Done;
      }
      if w.storageDown {
        return StorageError;
      }
      if path in host.holders {
        return LockHeld;
      }
      var locked := AcquireLock();
      var ok := BringUp(w.failAt, w.watchesConfig, w.recovery);
      if ok {
        return Done;
      }
      if w.failAt == Some(CrashRecovery) && w.cancelled {
        return Cancelled;
      }
      var clean := RollbackPartialStart(w.drain, w.faults);
      v := Failed;
    }

    // ── Stop ──────────────────────────────────────────────────────────────

    /** Idempotent when stopped. It ends in the stopped state exactly when no clean-up step
        raises; otherwise the engine still counts as started. */
    method Stop(faults: Faults) returns (ok: bool)
      requires Sane()
      modifies this, host
      ensures Sane() && OthersUndisturbed()
      ensures !old(started) ==>
        && ok && !started && host.holders == old(host.holders) && host.registry == old(host.registry)
        && lockHandle == old(lockHandle) && scheduler == old(scheduler) && reloader == old(reloader)
        && idleEvent == old(idleEvent) && activeRuns == old(activeRuns)
      ensures old(started) ==> (ok <==> !old(CleanupRaises(faults)))
      ensures old(started) ==> (ok <==> IsStopped()) && (!ok <==> started)
      ensures old(started && lockHandle) && ok ==> path !in host.holders
      ensures old(started && lockHandle) && !ok ==>
        (IsReady() <==> (old(reloader) && faults.reloaderStop) || faults.shutdown)
    {
      if !started {
        return true;
      }
      if reloader {
        if faults.reloaderStop {
          return false;
        }
        reloader := false;
      }
      if scheduler {
        if faults.shutdown {
          return false;
        }
        scheduler := false;
      }
      host.registry := host.registry - {id};
      ok := ReleaseLock(faults.unlock);
      if !ok {
        return false;
      }
      started := false;
      idleEvent := None;
      activeRuns := 0;
    }

    /** Two engines on one jobstore path are never both holders. */
    lemma AtMostOneHolder(other: OfflineEngine)
      requires host == other.host && path == other.path && id != other.id
      requires Sound() && other.Sound()
      ensures !(lockHandle && other.lockHandle)
    {
    }

    /** Whatever one engine does, the others of the host stay sound and sane, so the contracts
        of several engines compose. */
    twostate lemma OthersStaySane(other: OfflineEngine)
      requires host == other.host && id != other.id
      requires old(other.Sound()) && OthersUndisturbed() && unchanged(other)
      ensures other.Sound()
      ensures old(other.Sane()) ==> other.Sane()
    {
      assert other.id in host.registry <==> other.id in host.registry - {id};
      assert other.id in old(host.registry) <==> other.id in old(host.registry) - {id};
    }
  }

  const CALM: Faults := Faults(false, false, false)

  /** A start cancelled during crash recovery leaves the engine wedged: stop does nothing,
      and every later start finds the lock held, by the engine itself. */
  method CancelledStartWedges(e: OfflineEngine, w: Weather, later: Weather) returns (v: Verdict)
    requires e.Sane() && !e.started && e.path !in e.host.holders
    requires !w.storageDown && w.failAt == Some(CrashRecovery) && w.cancelled && !later.storageDown
    modifies e, e.host
    ensures v == LockHeld && e.lockHandle && !e.started && e.id in e.host.registry
  {
    var first := e.Start(w);
    var stopped := e.Stop(CALM);
    v := e.Start(later);
  }

  /** With calm clean-up a ready engine can be stopped and started again. It then counts
      exactly what recovery left in flight, and is idle exactly when that is nothing: when no
      run ends meanwhile, exactly when none was added. */
  method StopThenStart(e: OfflineEngine, watchesConfig: bool, recovery: seq<Meanwhile>) returns (v: Verdict)
    requires e.Sane() && e.IsReady()
    modifies e, e.host
    ensures v == Done && e.IsReady() && e.Shows(Play(Gauge(0, true, false), recovery))
    ensures e.idleEvent == Some(e.activeRuns == 0)
    ensures RunEnded !in recovery ==> e.activeRuns == |recovery| && (e.idleEvent == Some(true) <==> recovery == [])
  {
    var ok := e.Stop(CALM);
    v := e.Start(Weather(false, None, false, watchesConfig, recovery, [], CALM));
    PlayInSync(Gauge(0, true, false), recovery);
  }
}
