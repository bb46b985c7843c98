/** Semaphores and mutexes as the kernel runs them (Kernel/semaphores.c, mutex.c), on the linked
    scheduler: the calls, the draining loops, and whom they block and wake there. */
module KernelCalls {
  import opened KernelRuns
  import opened Options
  import opened Scheduling
  import opened SchedulerRuns
  import opened Statuses
  import SchedulerRing
  import Sync

  class Synchronization {
    const scheduler: SchedulerRing.Scheduler
    var semaphores: seq<Sync.Semaphore>
    var mutexes: seq<Sync.Mutex>

    ghost function View(): Kernel
      reads this, scheduler
    {
      Kernel(scheduler.View(), semaphores, mutexes)
    }

    ghost predicate Valid()
      reads this, scheduler, scheduler.ring
    {
      scheduler.Valid() && KernelOk(View())
    }

    constructor (scheduler: SchedulerRing.Scheduler)
      requires scheduler.Valid() && SchedOk(scheduler.View()) && Named(scheduler.View())
      requires forall t :: !MutexBlocked(scheduler.View(), t)
      ensures Valid() && this.scheduler == scheduler && View() == Kernel(scheduler.View(), [], [])
    {
      this.scheduler := scheduler;
      semaphores, mutexes := [], [];
      new;
      forall t ensures Agrees(View(), t) {
      }
    }

    method CreateSemaphore(start: int) returns (id: nat)
      requires Valid()
      modifies this`semaphores
      ensures Valid() && id == |old(semaphores)|
      ensures View() == old(View()).(semaphores := old(semaphores) + [Sync.Semaphore(start, [])])
    {
      NewSemaphoreKeepsOk(View(), start);
      hide KernelOk;
      id := |semaphores|;
      semaphores := semaphores + [Sync.Semaphore(start, [])];
    }

    method CreateMutex() returns (id: nat)
      requires Valid()
      modifies this`mutexes
      ensures Valid() && id == |old(mutexes)|
      ensures View() == old(View()).(mutexes := old(mutexes) + [Sync.Mutex(false, [])])
    {
      NewMutexKeepsOk(View());
      hide KernelOk;
      id := |mutexes|;
      mutexes := mutexes + [Sync.Mutex(false, [])];
    }

    /** unblockThread for the first thread of a list. */
    method WakeThread(t: Tid)
      requires scheduler.Valid() && Enabled(scheduler.View(), Unblock(t.pid, t.pthread, OnMutex))
      modifies scheduler`ps, (set n | n in scheduler.ring)`process
      ensures scheduler.Valid() && scheduler.View() == WakeOne(old(scheduler.View()), t)
    {
      hide SchedulerRing.Scheduler.Valid;
      scheduler.UnblockThread(t.pid, t.pthread, OnMutex);
    }

    method UnlockSemaphoreProcess(id: nat)
      requires scheduler.Valid() && id < |semaphores| && CanDrain(scheduler.View(), semaphores[id].waiters)
      modifies this`semaphores, scheduler`ps, (set n | n in scheduler.ring)`process
      ensures scheduler.Valid()
      ensures semaphores == old(semaphores)[id := old(semaphores)[id].(waiters := [])]
      ensures scheduler.View() == WakeWaiters(old(scheduler.View()), old(semaphores)[id].waiters)
    {
      hide SchedulerRing.Scheduler.Valid, CanDrain, Enabled, WakeOne;
      while semaphores[id].waiters != []
        invariant |semaphores| == |old(semaphores)|
        invariant semaphores == old(semaphores)[id := old(semaphores)[id].(waiters := semaphores[id].waiters)]
        invariant scheduler.Valid() && CanDrain(scheduler.View(), semaphores[id].waiters)
        invariant WakeWaiters(scheduler.View(), semaphores[id].waiters)
               == WakeWaiters(old(scheduler.View()), old(semaphores)[id].waiters)
        decreases |semaphores[id].waiters|
      {
        DrainOne(scheduler.View(), semaphores[id].waiters);
        var aux := semaphores[id].waiters[1..];
        WakeThread(semaphores[id].waiters[0]);
        semaphores := semaphores[id := semaphores[id].(waiters := aux)];
      }
    }

    method SemaphoreUp(id: nat)
      requires Valid() && id < |semaphores|
      modifies this`semaphores, scheduler`ps, (set n | n in scheduler.ring)`process
      ensures Valid() && View() == AfterUp(old(View()), id)
    {
      UpKeepsOk(View(), id);
      SemaphoreWaiters(View(), id);
      hide SchedulerRing.Scheduler.Valid, KernelOk, CanDrain, WakeWaiters;
      semaphores := semaphores[id := semaphores[id].(status := semaphores[id].status + 1)];
      if !(semaphores[id].status < 0) {
        UnlockSemaphoreProcess(id);
      }
      assert semaphores == AfterUp(old(View()), id).semaphores;
    }

    /** The running thread, from currentProcess. */
    method Current() returns (t: Tid)
      requires scheduler.Valid() && HasCaller(scheduler.View())
      ensures t == Caller(scheduler.View())
    {
      var p := scheduler.currentProcess.process;
      t := Tid(p.pid, p.threads[p.current].pthread);
    }

    /** blockThread on the thread that is running. */
    method BlockCurrent(t: Tid)
      requires scheduler.Valid() && SchedOk(scheduler.View())
      requires HasCaller(scheduler.View()) && t == Caller(scheduler.View())
      modifies scheduler`numberOfTicks, scheduler`ps, (set n | n in scheduler.ring)`process
      ensures scheduler.Valid() && scheduler.View() == BlockCaller(old(scheduler.View()), OnMutex)
    {
      NotDead(scheduler);
      hide SchedulerRing.Scheduler.Valid, SchedOk;
      scheduler.BlockThread(t.pid, t.pthread, OnMutex);
    }

    /** semaphoreRequestAccess at a semaphore below zero. */
    method WaitAtSemaphore(id: nat)
      requires id < |semaphores| && scheduler.Valid() && SchedOk(scheduler.View()) && HasCaller(scheduler.View())
      modifies this`semaphores, scheduler`numberOfTicks, scheduler`ps, (set n | n in scheduler.ring)`process
      ensures scheduler.Valid() && scheduler.View() == BlockCaller(old(scheduler.View()), OnMutex)
      ensures var s := old(semaphores)[id];
              semaphores == old(semaphores)[id := s.(waiters := [Caller(old(scheduler.View()))] + s.waiters)]
    {
      var t := Current();
      hide SchedulerRing.Scheduler.Valid, SchedOk, HasCaller, BlockCaller;
      semaphores := semaphores[id := semaphores[id].(waiters := [t] + semaphores[id].waiters)];
      BlockCurrent(t);
    }

    /** Whoever is current makes the call, blocked or not; see DownKeepsOkExactly. */
    method SemaphoreDown(id: nat)
      requires Valid() && id < |semaphores|
      modifies this`semaphores, scheduler`numberOfTicks, scheduler`ps, (set n | n in scheduler.ring)`process
      ensures Ends(old(View()), Down(id)) && scheduler.Valid() && View() == AfterDown(old(View()), id)
      ensures Valid() <==> Harmless(old(View()), Down(id))
    {
      DownKeepsOkExactly(View(), id);
      assert SchedOk(scheduler.View());
      hide SchedulerRing.Scheduler.Valid, KernelOk, SchedOk, HasCaller, BlockCaller, Harmless;
      semaphores := semaphores[id := semaphores[id].(status := semaphores[id].status - 1)];
      if semaphores[id].status < 0 {
        WaitAtSemaphore(id);
      }
      assert semaphores == AfterDown(old(View()), id).semaphores;
    }

    method MutexUp(id: nat)
      requires Valid() && id < |mutexes|
      modifies this`mutexes, scheduler`ps, (set n | n in scheduler.ring)`process
      ensures Valid() && View() == AfterUnlock(old(View()), id)
    {
      UnlockKeepsOk(View(), id);
      MutexWaiters(View(), id);
      hide SchedulerRing.Scheduler.Valid, KernelOk, CanDrain, Enabled, WakeOne;
      mutexes := mutexes[id := mutexes[id].(locked := false)];
      while mutexes[id].waiters != []
        invariant |mutexes| == |old(mutexes)|
        invariant mutexes == old(mutexes)[id := Sync.Mutex(false, mutexes[id].waiters)]
        invariant scheduler.Valid() && CanDrain(scheduler.View(), mutexes[id].waiters)
        invariant WakeWaiters(scheduler.View(), mutexes[id].waiters)
               == WakeWaiters(old(scheduler.View()), old(mutexes)[id].waiters)
        decreases |mutexes[id].waiters|
      {
        DrainOne(scheduler.View(), mutexes[id].waiters);
        var aux := mutexes[id].waiters[1..];
        WakeThread(mutexes[id].waiters[0]);
        mutexes := mutexes[id := mutexes[id].(waiters := aux)];
      }
    }

    /** mutexRequestAccess at a locked mutex. */
    method WaitAtMutex(id: nat)
      requires id < |mutexes| && scheduler.Valid() && SchedOk(scheduler.View()) && HasCaller(scheduler.View())
      modifies this`mutexes, scheduler`numberOfTicks, scheduler`ps, (set n | n in scheduler.ring)`process
      ensures scheduler.Valid() && scheduler.View() == BlockCaller(old(scheduler.View()), OnMutex)
      ensures var m := old(mutexes)[id];
              mutexes == old(mutexes)[id := m.(waiters := [Caller(old(scheduler.View()))] + m.waiters)]
    {
      var t := Current();
      hide SchedulerRing.Scheduler.Valid, SchedOk, HasCaller, BlockCaller;
      mutexes := mutexes[id := mutexes[id].(waiters := [t] + mutexes[id].waiters)];
      BlockCurrent(t);
    }

    method MutexDown(id: nat)
      requires Valid() && id < |mutexes|
      modifies this`mutexes, scheduler`numberOfTicks, scheduler`ps, (set n | n in scheduler.ring)`process
      ensures Ends(old(View()), Lock(id)) && scheduler.Valid() && View() == AfterLock(old(View()), id)
      ensures Valid() <==> Harmless(old(View()), Lock(id))
    {
      LockKeepsOkExactly(View(), id);
      assert SchedOk(scheduler.View());
      hide SchedulerRing.Scheduler.Valid, KernelOk, SchedOk, HasCaller, BlockCaller, Harmless;
      if mutexes[id].locked {
        WaitAtMutex(id);
      } else {
        mutexes := mutexes[id := mutexes[id].(locked := true)];
      }
    }
  }

  lemma NobodyBlockedAtBoot()
    ensures forall t :: !MutexBlocked(SchedulerRuns.Boot(), t)
  {
  }

  /** main() adds init to the empty scheduler: the state from which all runs start. */
  method StartKernel() returns (s: Synchronization)
    ensures s.Valid() && s.View() == KernelRuns.Boot()
  {
    var scheduler := new SchedulerRing.Scheduler();
    var pid := scheduler.AddProcess();
    assert scheduler.ps == [SchedulerRuns.Boot().ring[0]];
    assert scheduler.View() == SchedulerRuns.Boot();
    BootIsOk();
    NobodyBlockedAtBoot();
    hide SchedOk, Named, MutexBlocked;
    s := new Synchronization(scheduler);
  }

  lemma NotDead(scheduler: SchedulerRing.Scheduler)
    requires scheduler.Valid() && SchedOk(scheduler.View())
    ensures scheduler.dead == None
  {
    assert forall i | 0 <= i < |scheduler.View().ring| :: ProcessOk(scheduler.View().ring[i]);
    assert forall i | 0 <= i < |scheduler.ps| :: scheduler.ps[i].state != Dead;
  }
}
