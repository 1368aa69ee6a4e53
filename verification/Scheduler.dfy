/**
 The scheduler and the big kernel lock on any number of CPUs (lab/kern/sched.c, env.c,
 trap.c, spinlock.c and the system calls that change env_status).

 The first part is what the kernel does while it holds the lock: a class with the
 source's loops and updates, each method proved equal to a function.  The second part
 interleaves CPUs one instruction of the lock at a time and proves what every
 reachable state satisfies.
 */
module Scheduler {
  import opened Options

  datatype Status = Free | Dying | Runnable | Running | NotRunnable

  // env_status and env_ipc_recving of one slot of envs[].
  datatype Env = Env(status: Status, recving: bool)

  type Envs = s: seq<Env> | |s| > 0 witness [Env(Free, false)]

  // ------------------------------------------------------------------
  // Choosing an environment
  // ------------------------------------------------------------------

  // The `i`th slot examined when the scan starts at `start`.
  function Slot(n: nat, start: nat, i: nat): (j: nat)
    requires start < n && i < n
    ensures j < n
  {
    if start + i < n then start + i else start + i - n
  }

  // `j` is the first runnable slot at or after `start`, going round.
  ghost predicate FirstRunnable(envs: Envs, start: nat, j: nat) {
    && start < |envs| && j < |envs|
    && envs[j].status == Runnable
    && exists i :: 0 <= i < |envs| && Slot(|envs|, start, i) == j
                   && forall k :: 0 <= k < i ==> envs[Slot(|envs|, start, k)].status != Runnable
  }

  // The same, computed from the `i`th slot on.
  function ScanFrom(envs: Envs, start: nat, i: nat): (r: Option<nat>)
    requires start < |envs| && i <= |envs|
    ensures r.Some? ==> r.value < |envs| && envs[r.value].status == Runnable
    decreases |envs| - i
  {
    if i == |envs| then None
    else if envs[Slot(|envs|, start, i)].status == Runnable then Some(Slot(|envs|, start, i))
    else ScanFrom(envs, start, i + 1)
  }

  lemma {:induction false} ScanFinds(envs: Envs, start: nat, i: nat)
    requires start < |envs| && i <= |envs|
    requires forall k :: 0 <= k < i ==> envs[Slot(|envs|, start, k)].status != Runnable
    ensures ScanFrom(envs, start, i).Some? ==> FirstRunnable(envs, start, ScanFrom(envs, start, i).value)
    ensures ScanFrom(envs, start, i).None? ==> forall j :: 0 <= j < |envs| ==> envs[j].status != Runnable
    decreases |envs| - i
  {
    if i == |envs| {
      forall j | 0 <= j < |envs|
        ensures envs[j].status != Runnable
      {
        var k := if start <= j then j - start else j + |envs| - start;
        assert Slot(|envs|, start, k) == j;
      }
    } else if envs[Slot(|envs|, start, i)].status != Runnable {
      ScanFinds(envs, start, i + 1);
    }
  }

  function Pick(envs: Envs, cur: Option<nat>): Option<nat>
    requires cur.Some? ==> cur.value < |envs|
  {
    ScanFrom(envs, if cur.Some? then cur.value else 0, 0)
  }

  // How many slots a scan passes on its way from `from` to `to`.
  function Distance(n: nat, from: nat, to: nat): (d: nat)
    requires from < n && to < n
    ensures d < n && Slot(n, from, d) == to
  {
    if from <= to then to - from else to + n - from
  }

  // A scan that starts at a slot that is not runnable stops at `e` or nearer to it.
  lemma PickCloser(envs: Envs, cur: nat, e: nat)
    requires cur < |envs| && e < |envs|
    requires envs[cur].status != Runnable && envs[e].status == Runnable
    ensures Pick(envs, Some(cur)).Some?
    ensures var j := Pick(envs, Some(cur)).value;
            j == e || Distance(|envs|, j, e) < Distance(|envs|, cur, e)
  {
    ScanFinds(envs, cur, 0);
    var j := Pick(envs, Some(cur)).value;
    var i :| 0 <= i < |envs| && Slot(|envs|, cur, i) == j
             && forall k :: 0 <= k < i ==> envs[Slot(|envs|, cur, k)].status != Runnable;
    assert Slot(|envs|, cur, 0) == cur;
    assert i <= Distance(|envs|, cur, e);
  }

  // `history[k]` is envs[] at the kth yield of one CPU.  Until it is chosen, `e` is
  // runnable at every yield, while the environment that yields is not.
  ghost predicate Waiting(n: nat, history: seq<Envs>, cur: nat, e: nat)
    decreases |history|
  {
    history == [] ||
    (&& |history[0]| == n && cur < n && e < n
     && history[0][e].status == Runnable && history[0][cur].status != Runnable
     && var j := Pick(history[0], Some(cur));
        j.Some? && (j == Some(e) || Waiting(n, history[1..], j.value, e)))
  }

  ghost predicate Chosen(n: nat, history: seq<Envs>, cur: nat, e: nat)
    requires Waiting(n, history, cur, e)
    decreases |history|
  {
    && history != []
    && var j := Pick(history[0], Some(cur));
       j == Some(e) || Chosen(n, history[1..], j.value, e)
  }

  // Round robin: a waiting environment is chosen before its distance runs out, that is
  // within NENV - 1 yields.
  lemma {:induction false} ChosenInTime(n: nat, history: seq<Envs>, cur: nat, e: nat)
    requires cur < n && e < n && cur != e
    requires Waiting(n, history, cur, e) && |history| >= Distance(n, cur, e)
    ensures Chosen(n, history, cur, e)
    decreases |history|
  {
    PickCloser(history[0], cur, e);
    var j := Pick(history[0], Some(cur)).value;
    if j != e {
      ChosenInTime(n, history[1..], j, e);
    }
  }

  // With no current environment every scan starts at slot 0, so a runnable slot hides
  // every slot above it.
  lemma WithoutCurrentLowestWins(envs: Envs, e: nat)
    requires e < |envs| && envs[e].status == Runnable
    ensures Pick(envs, None) == Some(e) <==> forall k :: 0 <= k < e ==> envs[k].status != Runnable
  {
    ScanFinds(envs, 0, 0);
    var j := Pick(envs, None).value;
    var i :| 0 <= i < |envs| && Slot(|envs|, 0, i) == j
             && forall k :: 0 <= k < i ==> envs[Slot(|envs|, 0, k)].status != Runnable;
    forall k | 0 <= k < j
      ensures envs[k].status != Runnable
    {
      assert Slot(|envs|, 0, k) == k;
    }
  }

  // ------------------------------------------------------------------
  // The kernel, holding the lock
  // ------------------------------------------------------------------

  // Where the CPU goes when it leaves the kernel; the monitor never leaves.
  datatype Exit = ToUser | ToHalt | InMonitor

  // What a kernel entry leaves behind: the environments, this CPU's curenv, and the exit.
  datatype Outcome = Outcome(envs: Envs, cur: Option<nat>, exit: Exit)

  function SetStatus(envs: Envs, e: nat, st: Status): (r: Envs)
    requires e < |envs|
    ensures |r| == |envs|
  {
    envs[e := envs[e].(status := st)]
  }

  function AfterRun(envs: Envs, cur: Option<nat>, e: nat): (o: Outcome)
    requires e < |envs| && (cur.Some? ==> cur.value < |envs|)
  {
    var envs1 := if cur.Some? && envs[cur.value].status == Running then SetStatus(envs, cur.value, Runnable) else envs;
    Outcome(SetStatus(envs1, e, Running), Some(e), ToUser)
  }

  predicate Alive(env: Env) {
    env.status == Runnable || env.status == Running || env.status == Dying
  }

  predicate SomeAlive(envs: Envs) {
    exists i :: 0 <= i < |envs| && Alive(envs[i])
  }

  function AfterHalt(envs: Envs, cur: Option<nat>): Outcome {
    if SomeAlive(envs) then Outcome(envs, None, ToHalt) else Outcome(envs, cur, InMonitor)
  }

  function AfterYield(envs: Envs, cur: Option<nat>): Outcome
    requires cur.Some? ==> cur.value < |envs|
  {
    var j := Pick(envs, cur);
    if j.Some? then AfterRun(envs, cur, j.value)
    else if cur.Some? && envs[cur.value].status == Running then AfterRun(envs, cur, cur.value)
    else AfterHalt(envs, cur)
  }

  // The end of trap(): resume the current environment if that makes sense.
  function AfterResume(envs: Envs, cur: Option<nat>): Outcome
    requires cur.Some? ==> cur.value < |envs|
  {
    if cur.Some? && envs[cur.value].status == Running then AfterRun(envs, cur, cur.value) else AfterYield(envs, cur)
  }

  // What a trap from user mode asks for.  `Other` stands for every system call or
  // interrupt that touches no env_status; a slot or target is an index into envs[].
  datatype Request =
    | TimerOrYield
    | Other
    | Exofork(slot: nat)
    | SetEnvStatus(target: nat, runnable: bool)
    | Destroy(target: nat)
    | IpcRecv
    | IpcSend(target: nat)

  function AfterRequest(envs: Envs, cur: nat, req: Request): Outcome
    requires cur < |envs|
  {
    match req
    case TimerOrYield => AfterYield(envs, Some(cur))
    case Other => AfterResume(envs, Some(cur))
    case Exofork(slot) =>
      AfterResume(if slot < |envs| && envs[slot].status == Free then envs[slot := Env(NotRunnable, false)] else envs, Some(cur))
    case SetEnvStatus(e, runnable) =>
      AfterResume(if e < |envs| && envs[e].status != Free
             then SetStatus(envs, e, if runnable then Runnable else NotRunnable) else envs, Some(cur))
    case Destroy(e) =>
      if e >= |envs| || envs[e].status == Free then AfterResume(envs, Some(cur))
      else if envs[e].status == Running && e != cur then AfterResume(SetStatus(envs, e, Dying), Some(cur))
      else if e == cur then AfterYield(SetStatus(envs, e, Free), None)
      else AfterResume(SetStatus(envs, e, Free), Some(cur))
    case IpcRecv => AfterYield(envs[cur := Env(NotRunnable, true)], Some(cur))
    case IpcSend(e) =>
      AfterResume(if e < |envs| && envs[e].status != Free && envs[e].recving then envs[e := Env(Runnable, false)] else envs,
             Some(cur))
  }

  // trap() once the lock is held.  A CPU woken from hlt, or starting up, goes straight
  // to the scheduler.
  function AfterTrap(envs: Envs, cur: Option<nat>, fromUser: bool, req: Request): Outcome
    requires cur.Some? ==> cur.value < |envs|
    requires fromUser ==> cur.Some?
  {
    if !fromUser then AfterYield(envs, cur)
    else if envs[cur.value].status == Dying then AfterYield(SetStatus(envs, cur.value, Free), None)
    else AfterRequest(envs, cur.value, req)
  }

  lemma TwiceOrMore(q: int, n: int)
    requires n >= 0
    ensures q >= 2 ==> q * n >= 2 * n
    ensures q < 0 ==> q * n <= -n
  {
    assert q >= 2 ==> (q - 2) * n >= 0;
    assert q < 0 ==> (-q - 1) * n >= 0;
  }

  lemma ModIsSlot(n: nat, start: nat, i: nat)
    requires start < n && i < n
    ensures (start + i) % n == Slot(n, start, i)
  {
    TwiceOrMore((start + i) / n, n);
    assert start + i == (start + i) / n * n + (start + i) % n;
  }

  // ------------------------------------------------------------------
  // What they come to
  // ------------------------------------------------------------------

  // `e` runs now.  If another environment was running on this CPU it waits for its turn;
  // nothing else changes.
  ghost predicate HandedOver(envs: Envs, cur: Option<nat>, envs': Envs, e: nat) {
    && |envs'| == |envs| && e < |envs|
    && forall g :: 0 <= g < |envs| ==>
         envs'[g] == envs[g].(status := if g == e then Running
                                        else if cur == Some(g) && envs[g].status == Running then Runnable
                                        else envs[g].status)
  }

  ghost predicate NoneRunnable(envs: Envs) {
    forall g :: 0 <= g < |envs| ==> envs[g].status != Runnable
  }

  // A yield: the first runnable environment from the current one on takes over; without
  // any, a current one that is running goes on; without that the CPU halts, or enters the
  // monitor if nothing is alive.
  ghost predicate Yielded(envs: Envs, cur: Option<nat>, o: Outcome) {
    if !NoneRunnable(envs) then
      && o.exit == ToUser && o.cur.Some? && FirstRunnable(envs, if cur.Some? then cur.value else 0, o.cur.value)
      && HandedOver(envs, cur, o.envs, o.cur.value)
    else if cur.Some? && cur.value < |envs| && envs[cur.value].status == Running then o == Outcome(envs, cur, ToUser)
    else if SomeAlive(envs) then o == Outcome(envs, None, ToHalt)
    else o == Outcome(envs, cur, InMonitor)
  }

  // Nobody who is alive dies of it.
  ghost predicate AliveStay(envs: Envs, envs': Envs) {
    |envs'| == |envs| && forall g :: 0 <= g < |envs| && Alive(envs[g]) ==> Alive(envs'[g])
  }

  lemma RunHandsOver(envs: Envs, cur: Option<nat>, e: nat)
    requires e < |envs| && (cur.Some? ==> cur.value < |envs|)
    ensures HandedOver(envs, cur, AfterRun(envs, cur, e).envs, e)
  {
  }

  lemma YieldYields(envs: Envs, cur: Option<nat>)
    requires cur.Some? ==> cur.value < |envs|
    ensures Yielded(envs, cur, AfterYield(envs, cur)) && AliveStay(envs, AfterYield(envs, cur).envs)
  {
    var start := if cur.Some? then cur.value else 0;
    ScanFinds(envs, start, 0);
    var j := Pick(envs, cur);
    if j.Some? {
      RunHandsOver(envs, cur, j.value);
    } else if cur.Some? && envs[cur.value].status == Running {
      RunHandsOver(envs, cur, cur.value);
      assert AfterRun(envs, cur, cur.value).envs == envs;
    }
  }

  // What a request does to the table, when a running environment `cur` makes it.
  ghost predicate RequestDone(envs: Envs, cur: nat, req: Request, o: Outcome)
    requires cur < |envs|
  {
    var goesOn := (envs': Envs) => o == Outcome(envs', Some(cur), ToUser);
    match req
    case TimerOrYield => Yielded(envs, Some(cur), o)
    case Other => goesOn(envs)
    case Exofork(slot) =>
      // a free slot is taken, and not yet runnable
      goesOn(if slot < |envs| && envs[slot].status == Free then envs[slot := Env(NotRunnable, false)] else envs)
    case SetEnvStatus(e, runnable) =>
      var st := if runnable then Runnable else NotRunnable;
      if e >= |envs| || envs[e].status == Free then goesOn(envs)
      else if e == cur then Yielded(SetStatus(envs, e, st), Some(cur), o)
      else goesOn(SetStatus(envs, e, st))
    case Destroy(e) =>
      if e >= |envs| || envs[e].status == Free then goesOn(envs)
      else if e == cur then Yielded(SetStatus(envs, e, Free), None, o)
      else goesOn(SetStatus(envs, e, if envs[e].status == Running then Dying else Free))
    case IpcRecv => Yielded(envs[cur := Env(NotRunnable, true)], Some(cur), o)
    case IpcSend(e) =>
      // a receiver that waits wakes up
      if e >= |envs| || envs[e].status == Free || !envs[e].recving then goesOn(envs)
      else if e == cur then Yielded(envs[e := Env(Runnable, false)], Some(cur), o)
      else goesOn(envs[e := Env(Runnable, false)])
  }

  lemma ResumeGoesOn(envs: Envs, cur: nat)
    requires cur < |envs|
    ensures envs[cur].status == Running ==> AfterResume(envs, Some(cur)) == Outcome(envs, Some(cur), ToUser)
    ensures envs[cur].status != Running ==> Yielded(envs, Some(cur), AfterResume(envs, Some(cur)))
  {
    if envs[cur].status == Running {
      assert AfterRun(envs, Some(cur), cur).envs == envs;
    } else {
      YieldYields(envs, Some(cur));
    }
  }

  lemma RequestsDone(envs: Envs, cur: nat, req: Request)
    requires cur < |envs| && envs[cur].status == Running
    ensures RequestDone(envs, cur, req, AfterRequest(envs, cur, req))
  {
    match req
    case TimerOrYield => YieldYields(envs, Some(cur));
    case Other => ResumeGoesOn(envs, cur);
    case Exofork(slot) =>
      ResumeGoesOn(if slot < |envs| && envs[slot].status == Free then envs[slot := Env(NotRunnable, false)] else envs, cur);
    case SetEnvStatus(e, runnable) =>
      ResumeGoesOn(if e < |envs| && envs[e].status != Free
                   then SetStatus(envs, e, if runnable then Runnable else NotRunnable) else envs, cur);
    case Destroy(e) =>
      if e >= |envs| || envs[e].status == Free {
        ResumeGoesOn(envs, cur);
      } else if e == cur {
        YieldYields(SetStatus(envs, e, Free), None);
      } else {
        ResumeGoesOn(SetStatus(envs, e, if envs[e].status == Running then Dying else Free), cur);
      }
    case IpcRecv => YieldYields(envs[cur := Env(NotRunnable, true)], Some(cur));
    case IpcSend(e) =>
      ResumeGoesOn(if e < |envs| && envs[e].status != Free && envs[e].recving then envs[e := Env(Runnable, false)] else envs, cur);
  }

  // A trap from user mode serves the request, or collects an environment that is dying;
  // one from a halted CPU looks for something to run.
  ghost predicate Trapped(envs: Envs, cur: Option<nat>, fromUser: bool, req: Request, o: Outcome)
    requires fromUser ==> cur.Some? && cur.value < |envs|
  {
    if !fromUser then Yielded(envs, cur, o)
    else if envs[cur.value].status == Dying then Yielded(SetStatus(envs, cur.value, Free), None, o)
    else envs[cur.value].status == Running ==> RequestDone(envs, cur.value, req, o)
  }

  lemma TrapTraps(envs: Envs, cur: Option<nat>, fromUser: bool, req: Request)
    requires (cur.Some? ==> cur.value < |envs|) && (fromUser ==> cur.Some?)
    ensures Trapped(envs, cur, fromUser, req, AfterTrap(envs, cur, fromUser, req))
  {
    if !fromUser {
      YieldYields(envs, cur);
    } else if envs[cur.value].status == Dying {
      YieldYields(SetStatus(envs, cur.value, Free), None);
    } else if envs[cur.value].status == Running {
      RequestsDone(envs, cur.value, req);
    }
  }

  // The kernel as run by the CPU that holds the lock.
  class CpuInKernel {
    var envs: Envs
    var curenv: Option<nat>
    var halted: bool        // cpu_status == CPU_HALTED

    ghost predicate Valid()
      reads this
    {
      curenv.Some? ==> curenv.value < |envs|
    }

    constructor (envs: Envs, curenv: Option<nat>)
      requires curenv.Some? ==> curenv.value < |envs|
      ensures Valid() && this.envs == envs && this.curenv == curenv && !halted
    {
      this.envs, this.curenv, this.halted := envs, curenv, false;
    }

    method EnvRun(e: nat) returns (exit: Exit)
      requires Valid() && e < |envs|
      modifies this`envs, this`curenv
      ensures Valid() && Outcome(envs, curenv, exit) == AfterRun(old(envs), old(curenv), e)
      ensures exit == ToUser && curenv == Some(e) && HandedOver(old(envs), old(curenv), envs, e)
      ensures old(envs)[e].status == Runnable || (old(curenv) == Some(e) && old(envs)[e].status == Running) ==>
                SettlesIfPlaced(old(envs), old(curenv), Outcome(envs, curenv, exit))
    {
      RunSettlesAll(envs, curenv, e);
      if curenv.Some? && envs[curenv.value].status == Running {
        envs := SetStatus(envs, curenv.value, Runnable);
      }
      curenv := Some(e);
      envs := SetStatus(envs, e, Running);
      return ToUser;
    }

    method SchedHalt() returns (exit: Exit)
      requires Valid()
      modifies this`curenv, this`halted
      ensures Valid() && Outcome(envs, curenv, exit) == AfterHalt(envs, old(curenv))
      ensures halted == (old(halted) || exit == ToHalt)
      ensures if exists i :: 0 <= i < |envs| && Alive(envs[i]) then exit == ToHalt && curenv == None && halted
              else exit == InMonitor && curenv == old(curenv)
    {
      var i := 0;
      while i < |envs|
        invariant 0 <= i <= |envs|
        invariant forall k :: 0 <= k < i ==> !Alive(envs[k])
      {
        if envs[i].status == Runnable || envs[i].status == Running || envs[i].status == Dying {
          break;
        }
        i := i + 1;
      }
      if i == |envs| {
        return InMonitor;
      }
      assert Alive(envs[i]);
      curenv := None;
      halted := true;
      return ToHalt;
    }

    method SchedYield() returns (exit: Exit)
      requires Valid()
      modifies this
      ensures Valid() && Outcome(envs, curenv, exit) == AfterYield(old(envs), old(curenv))
      ensures halted == (old(halted) || exit == ToHalt)
      ensures Yielded(old(envs), old(curenv), Outcome(envs, curenv, exit)) && AliveStay(old(envs), envs)
      ensures SettlesIfPlaced(old(envs), old(curenv), Outcome(envs, curenv, exit))
    {
      YieldSettlesAll(envs, curenv);
      YieldYields(envs, curenv);
      var idle := curenv;
      var start := if idle.Some? then idle.value else 0;
      var i := 0;
      while i < |envs|
        invariant 0 <= i <= |envs| && envs == old(envs) && curenv == old(curenv) && halted == old(halted)
        invariant Pick(envs, idle) == ScanFrom(envs, start, i)
      {
        ModIsSlot(|envs|, start, i);
        var j := (start + i) % |envs|;
        if envs[j].status == Runnable {
          exit := EnvRun(j);
          return;
        }
        i := i + 1;
      }
      if idle.Some? && envs[idle.value].status == Running {
        exit := EnvRun(idle.value);
        return;
      }
      exit := SchedHalt();
    }

    // The end of trap().
    method Resume() returns (exit: Exit)
      requires Valid()
      modifies this
      ensures Valid() && Outcome(envs, curenv, exit) == AfterResume(old(envs), old(curenv))
      ensures halted == (old(halted) || exit == ToHalt)
      ensures if old(curenv).Some? && old(envs)[old(curenv).value].status == Running
              then envs == old(envs) && curenv == old(curenv) && exit == ToUser
              else Yielded(old(envs), old(curenv), Outcome(envs, curenv, exit))
      // whatever state the current environment was left in, afterwards the environments
      // marked RUNNING or DYING are those on a CPU
      ensures SettlesIfPlaced(old(envs), old(curenv), Outcome(envs, curenv, exit))
    {
      if curenv.Some? && envs[curenv.value].status == Running {
        exit := EnvRun(curenv.value);
      } else {
        exit := SchedYield();
      }
    }

    // env_destroy; `None` when it returns to its caller.
    method EnvDestroy(e: nat) returns (exit: Option<Exit>)
      requires Valid() && e < |envs| && curenv.Some?
      modifies this
      ensures Valid()
      ensures old(envs)[e].status == Running && old(curenv) != Some(e) ==>
                exit == None && curenv == old(curenv) && envs == SetStatus(old(envs), e, Dying) && halted == old(halted)
      ensures old(envs)[e].status != Running && old(curenv) != Some(e) ==>
                exit == None && curenv == old(curenv) && envs == SetStatus(old(envs), e, Free) && halted == old(halted)
      ensures old(curenv) == Some(e) ==>
                && exit.Some? && halted == (old(halted) || exit.value == ToHalt)
                && Outcome(envs, curenv, exit.value) == AfterYield(SetStatus(old(envs), e, Free), None)
                && Yielded(SetStatus(old(envs), e, Free), None, Outcome(envs, curenv, exit.value))
      // unless it was dying already, nobody's environment is pulled from under a CPU
      ensures old(envs)[e].status != Dying ==> DestroysSafely(old(envs), old(curenv), envs, curenv, exit)
    {
      if envs[e].status == Running && curenv != Some(e) {
        envs := SetStatus(envs, e, Dying);
        return None;
      }
      envs := SetStatus(envs, e, Free);     // env_free
      if curenv == Some(e) {
        curenv := None;
        DestroySelf(old(envs), e);
        var x := SchedYield();
        return Some(x);
      }
      return None;
    }

    // trap_dispatch(), and the end of trap().
    method TrapDispatch(req: Request) returns (exit: Exit)
      requires Valid() && curenv.Some? && !halted
      modifies this
      ensures Valid() && Outcome(envs, curenv, exit) == AfterRequest(old(envs), old(curenv).value, req)
      ensures halted == (exit == ToHalt)
    {
      match req {
        case TimerOrYield =>
          exit := SchedYield();
          return;
        case Other =>
        case Exofork(slot) =>
          if slot < |envs| && envs[slot].status == Free {
            envs := envs[slot := Env(Runnable, false)];           // env_alloc
            envs := envs[slot := envs[slot].(status := NotRunnable)];
            assert envs == old(envs)[slot := Env(NotRunnable, false)];
          }
        case SetEnvStatus(e, runnable) =>
          if e < |envs| && envs[e].status != Free {
            envs := SetStatus(envs, e, if runnable then Runnable else NotRunnable);
          }
        case Destroy(e) =>
          if e < |envs| && envs[e].status != Free {
            var x := EnvDestroy(e);
            if x.Some? {
              return x.value;
            }
          }
        case IpcRecv =>
          envs := envs[curenv.value := envs[curenv.value].(recving := true)];
          envs := envs[curenv.value := envs[curenv.value].(status := NotRunnable)];
          assert envs == old(envs)[curenv.value := Env(NotRunnable, true)];
          exit := SchedYield();
          return;
        case IpcSend(e) =>
          if e < |envs| && envs[e].status != Free && envs[e].recving {
            envs := envs[e := envs[e].(recving := false)];
            envs := envs[e := envs[e].(status := Runnable)];
            assert envs == old(envs)[e := Env(Runnable, false)];
          }
      }
      exit := Resume();
    }

    // trap(), from the point where the lock is held.
    method Trap(fromUser: bool, req: Request) returns (exit: Exit)
      requires Valid() && (fromUser ==> curenv.Some?) && !halted
      modifies this
      ensures Valid() && Outcome(envs, curenv, exit) == AfterTrap(old(envs), old(curenv), fromUser, req)
      ensures halted == (exit == ToHalt)
      ensures Trapped(old(envs), old(curenv), fromUser, req, Outcome(envs, curenv, exit))
      // an allowed request leaves exactly the environments on a CPU marked so
      ensures (fromUser <==> old(curenv).Some?)
              && (fromUser && old(envs)[old(curenv).value].status == Running ==> Allowed(old(envs), old(curenv).value, req)) ==>
                TrapsSafely(old(envs), old(curenv), Outcome(envs, curenv, exit))
    {
      if (fromUser <==> curenv.Some?) && (fromUser && envs[curenv.value].status == Running ==> Allowed(envs, curenv.value, req)) {
        EnterSettlesAll(envs, curenv, fromUser, req);
      }
      TrapTraps(envs, curenv, fromUser, req);
      if !fromUser {
        exit := SchedYield();
        return;
      }
      if envs[curenv.value].status == Dying {
        envs := SetStatus(envs, curenv.value, Free);
        curenv := None;
        exit := SchedYield();
        return;
      }
      exit := TrapDispatch(req);
    }
  }

  // ------------------------------------------------------------------
  // What one kernel entry preserves
  // ------------------------------------------------------------------

  predicate Busy(env: Env) {
    env.status == Running || env.status == Dying
  }

  // The environments marked RUNNING or DYING are exactly those current on some CPU:
  // `cur` on this one, `others` on the rest.
  ghost predicate Placed(envs: Envs, cur: Option<nat>, others: set<nat>) {
    && (cur.Some? ==> cur.value < |envs| && cur.value !in others)
    && (forall e :: e in others ==> e < |envs|)
    && (forall e :: 0 <= e < |envs| ==> (Busy(envs[e]) <==> e in others || cur == Some(e)))
  }

  // An environment blocked in sys_ipc_recv is not runnable.
  ghost predicate Blocked(envs: Envs) {
    forall e :: 0 <= e < |envs| && envs[e].recving && envs[e].status != Free ==> envs[e].status == NotRunnable
  }

  // What is asked of a request: a status is set only for oneself, or for an environment
  // that is neither on a CPU nor, if it is to become runnable, waiting for a message;
  // and nobody destroys an environment that is already dying.
  predicate Allowed(envs: Envs, cur: nat, req: Request) {
    match req
    case SetEnvStatus(e, runnable) =>
      e < |envs| && e != cur ==> !Busy(envs[e]) && (runnable ==> !envs[e].recving || envs[e].status == Free)
    case Destroy(e) => e < |envs| ==> envs[e].status != Dying
    case _ => true
  }

  // Half-way through an entry only this CPU's current environment may be misplaced.
  ghost predicate PlacedBut(envs: Envs, cur: Option<nat>, others: set<nat>) {
    && (cur.Some? ==> cur.value < |envs| && cur.value !in others && envs[cur.value].status != Free
                      && envs[cur.value].status != Dying)
    && (forall e :: e in others ==> e < |envs|)
    && (forall e :: 0 <= e < |envs| && cur != Some(e) ==> (Busy(envs[e]) <==> e in others))
  }

  ghost predicate Settled(o: Outcome, others: set<nat>) {
    && Blocked(o.envs)
    && (o.exit != InMonitor ==> Placed(o.envs, o.cur, others))
    && (o.exit == ToUser ==> o.cur.Some? && o.envs[o.cur.value].status == Running)
    && (o.exit == ToHalt ==> o.cur == None)
    && (o.exit == InMonitor ==>
          && !SomeAlive(o.envs) && others == {}
          && (o.cur.Some? ==> o.cur.value < |o.envs| && o.envs[o.cur.value].status != Free))
  }

  // Whatever runs on the other CPUs, the outcome is settled.
  ghost predicate SettlesIfPlaced(envs: Envs, cur: Option<nat>, o: Outcome) {
    forall others {:trigger PlacedBut(envs, cur, others)} :: PlacedBut(envs, cur, others) && Blocked(envs) ==> Settled(o, others)
  }

  ghost predicate TrapsSafely(envs: Envs, cur: Option<nat>, o: Outcome) {
    forall others {:trigger Placed(envs, cur, others)} :: Placed(envs, cur, others) && Blocked(envs) ==> Settled(o, others)
  }

  ghost predicate DestroysSafely(envs: Envs, cur: Option<nat>, envs': Envs, cur': Option<nat>, exit: Option<Exit>) {
    forall others {:trigger Placed(envs, cur, others)} ::
      Placed(envs, cur, others) && Blocked(envs) && cur.Some? && envs[cur.value].status == Running ==>
        if exit.Some? then Settled(Outcome(envs', cur', exit.value), others)
        else Placed(envs', cur', others) && Blocked(envs')
  }

  lemma RunSettlesAll(envs: Envs, cur: Option<nat>, e: nat)
    requires e < |envs| && (cur.Some? ==> cur.value < |envs|)
    ensures envs[e].status == Runnable || (cur == Some(e) && envs[e].status == Running) ==>
              SettlesIfPlaced(envs, cur, AfterRun(envs, cur, e))
  {
    if envs[e].status == Runnable || (cur == Some(e) && envs[e].status == Running) {
      forall others | PlacedBut(envs, cur, others) && Blocked(envs) ensures Settled(AfterRun(envs, cur, e), others) {
        RunSettles(envs, cur, e, others);
      }
    }
  }

  lemma YieldSettlesAll(envs: Envs, cur: Option<nat>)
    requires cur.Some? ==> cur.value < |envs|
    ensures SettlesIfPlaced(envs, cur, AfterYield(envs, cur))
  {
    forall others | PlacedBut(envs, cur, others) && Blocked(envs) ensures Settled(AfterYield(envs, cur), others) {
      YieldSettles(envs, cur, others);
    }
  }

  lemma DestroySelf(envs: Envs, e: nat)
    requires e < |envs|
    ensures var o := AfterYield(SetStatus(envs, e, Free), None);
            envs[e].status != Dying ==> DestroysSafely(envs, Some(e), o.envs, o.cur, Some(o.exit))
  {
    var envs' := SetStatus(envs, e, Free);
    var o := AfterYield(envs', None);
    forall others | Placed(envs, Some(e), others) && Blocked(envs) && envs[e].status == Running ensures Settled(o, others) {
      YieldSettles(envs', None, others);
    }
  }

  lemma EnterSettlesAll(envs: Envs, cur: Option<nat>, fromUser: bool, req: Request)
    requires (cur.Some? ==> cur.value < |envs|) && (fromUser <==> cur.Some?)
    requires fromUser && envs[cur.value].status == Running ==> Allowed(envs, cur.value, req)
    ensures TrapsSafely(envs, cur, AfterTrap(envs, cur, fromUser, req))
  {
    forall others | Placed(envs, cur, others) && Blocked(envs) ensures Settled(AfterTrap(envs, cur, fromUser, req), others) {
      EnterSettles(envs, cur, fromUser, req, others);
    }
  }

  lemma RunSettles(envs: Envs, cur: Option<nat>, e: nat, others: set<nat>)
    requires PlacedBut(envs, cur, others) && Blocked(envs)
    requires e < |envs| && (envs[e].status == Runnable || (cur == Some(e) && envs[e].status == Running))
    ensures Settled(AfterRun(envs, cur, e), others) && |AfterRun(envs, cur, e).envs| == |envs|
  {
  }

  lemma YieldSettles(envs: Envs, cur: Option<nat>, others: set<nat>)
    requires PlacedBut(envs, cur, others) && Blocked(envs)
    ensures Settled(AfterYield(envs, cur), others) && |AfterYield(envs, cur).envs| == |envs|
  {
    var j := Pick(envs, cur);
    ScanFinds(envs, if cur.Some? then cur.value else 0, 0);
    if j.Some? {
      RunSettles(envs, cur, j.value, others);
    } else if cur.Some? && envs[cur.value].status == Running {
      RunSettles(envs, cur, cur.value, others);
    } else if !SomeAlive(envs) {
      forall e | e in others
        ensures false
      {
        assert Busy(envs[e]);
        assert Alive(envs[e]);
      }
    }
  }

  lemma ResumeSettles(envs: Envs, cur: Option<nat>, others: set<nat>)
    requires PlacedBut(envs, cur, others) && Blocked(envs)
    ensures Settled(AfterResume(envs, cur), others) && |AfterResume(envs, cur).envs| == |envs|
  {
    if cur.Some? && envs[cur.value].status == Running {
      RunSettles(envs, cur, cur.value, others);
    } else {
      YieldSettles(envs, cur, others);
    }
  }

  lemma HandleSettles(envs: Envs, cur: nat, req: Request, others: set<nat>)
    requires Placed(envs, Some(cur), others) && Blocked(envs) && envs[cur].status == Running
    requires Allowed(envs, cur, req)
    ensures Settled(AfterRequest(envs, cur, req), others) && |AfterRequest(envs, cur, req).envs| == |envs|
  {
    match req
    case TimerOrYield => YieldSettles(envs, Some(cur), others);
    case Other => ResumeSettles(envs, Some(cur), others);
    case Exofork(slot) =>
      ResumeSettles(if slot < |envs| && envs[slot].status == Free then envs[slot := Env(NotRunnable, false)] else envs,
                    Some(cur), others);
    case SetEnvStatus(e, runnable) =>
      ResumeSettles(if e < |envs| && envs[e].status != Free
                    then SetStatus(envs, e, if runnable then Runnable else NotRunnable) else envs, Some(cur), others);
    case Destroy(e) =>
      if e >= |envs| || envs[e].status == Free {
        ResumeSettles(envs, Some(cur), others);
      } else if envs[e].status == Running && e != cur {
        ResumeSettles(SetStatus(envs, e, Dying), Some(cur), others);
      } else if e == cur {
        YieldSettles(SetStatus(envs, e, Free), None, others);
      } else {
        ResumeSettles(SetStatus(envs, e, Free), Some(cur), others);
      }
    case IpcRecv => YieldSettles(envs[cur := Env(NotRunnable, true)], Some(cur), others);
    case IpcSend(e) =>
      ResumeSettles(if e < |envs| && envs[e].status != Free && envs[e].recving then envs[e := Env(Runnable, false)] else envs,
                    Some(cur), others);
  }

  lemma EnterSettles(envs: Envs, cur: Option<nat>, fromUser: bool, req: Request, others: set<nat>)
    requires Placed(envs, cur, others) && Blocked(envs)
    requires fromUser <==> cur.Some?
    requires fromUser && envs[cur.value].status == Running ==> Allowed(envs, cur.value, req)
    ensures Settled(AfterTrap(envs, cur, fromUser, req), others) && |AfterTrap(envs, cur, fromUser, req).envs| == |envs|
  {
    if !fromUser {
      YieldSettles(envs, None, others);
    } else if envs[cur.value].status == Dying {
      YieldSettles(SetStatus(envs, cur.value, Free), None, others);
    } else {
      HandleSettles(envs, cur.value, req, others);
    }
  }

  // ------------------------------------------------------------------
  // Any number of CPUs, one instruction at a time
  // ------------------------------------------------------------------

  // struct spinlock
  datatype Lock = Lock(locked: bool, owner: Option<nat>)

  // What follows lock_kernel(): another lock_kernel(), or the body of trap().
  datatype Cont = LockAgain | Work(fromUser: bool)

  datatype Pc =
    | User
    | Hlt
    | Trap(fromUser: bool)                // trap(), before the xchg on cpu_status
    | LockCheck(k: Cont)                  // spin_lock: the holding() test
    | LockXchg(k: Cont)                   //            the xchg loop
    | LockOwn(k: Cont)                    //            lk->cpu = thiscpu
    | Kernel(fromUser: bool)
    | UnlockCheck(exit: Exit)             // spin_unlock: the holding() test
    | UnlockOwn(exit: Exit)               //              lk->cpu = 0
    | UnlockXchg(exit: Exit)              //              xchg(&lk->locked, 0)
    | Monitor
    | Panicked

  // struct CpuInfo: `cur` is cpu_env, `halted` says cpu_status is CPU_HALTED.
  datatype Cpu = Cpu(pc: Pc, cur: Option<nat>, halted: bool)

  datatype State = State(envs: Envs, cpus: seq<Cpu>, lock: Lock)

  predicate Holding(s: State, c: nat) {
    s.lock.locked && s.lock.owner == Some(c)
  }

  // One instruction of CPU `c` outside the body of the kernel.
  function LockStep(cpu: Cpu, c: nat, lock: Lock): (Cpu, Lock) {
    match cpu.pc
    case User => (cpu.(pc := Trap(true)), lock)
    case Hlt => (cpu.(pc := Trap(false)), lock)
    case Trap(fromUser) =>
      var next := if cpu.halted then LockCheck(if fromUser then LockAgain else Work(false))
                  else if fromUser then LockCheck(Work(true)) else Kernel(false);
      (cpu.(pc := next, halted := false), lock)
    case LockCheck(k) => (cpu.(pc := if lock.locked && lock.owner == Some(c) then Panicked else LockXchg(k)), lock)
    case LockXchg(k) => if lock.locked then (cpu, lock) else (cpu.(pc := LockOwn(k)), lock.(locked := true))
    case LockOwn(k) =>
      (cpu.(pc := if k.LockAgain? then LockCheck(Work(true)) else Kernel(k.fromUser)), lock.(owner := Some(c)))
    case UnlockCheck(exit) =>
      (cpu.(pc := if lock.locked && lock.owner == Some(c) then UnlockOwn(exit) else Panicked), lock)
    case UnlockOwn(exit) => (cpu.(pc := UnlockXchg(exit)), lock.(owner := None))
    case UnlockXchg(exit) => (cpu.(pc := if exit == ToUser then User else Hlt), lock.(locked := false))
    case _ => (cpu, lock)
  }

  // The body of trap() or sched_yield(), run by CPU `c` in answer to `req`.
  function KernelStep(s: State, c: nat, req: Request): (s': State)
    requires c < |s.cpus| && s.cpus[c].pc.Kernel?
  {
    var cpu := s.cpus[c];
    if (cpu.pc.fromUser && cpu.cur.None?) || (cpu.cur.Some? && cpu.cur.value >= |s.envs|) 
    then s.(cpus := s.cpus[c := cpu.(pc := Panicked)])   // assert(curenv)
    else
      var o := AfterTrap(s.envs, cpu.cur, cpu.pc.fromUser, req);
      State(o.envs, s.cpus[c := Cpu(if o.exit == InMonitor then Monitor else UnlockCheck(o.exit), o.cur, o.exit == ToHalt)], s.lock)
  }

  function Do(s: State, c: nat, req: Request): (s': State)
    requires c < |s.cpus|
  {
    if s.cpus[c].pc.Kernel? then KernelStep(s, c, req)
    else var (cpu, lock) := LockStep(s.cpus[c], c, s.lock); State(s.envs, s.cpus[c := cpu], lock)
  }

  // ------------------------------------------------------------------
  // The invariant
  // ------------------------------------------------------------------

  predicate HasLock(pc: Pc) {
    pc.LockOwn? || pc.Kernel? || pc.UnlockCheck? || pc.UnlockOwn? || pc.UnlockXchg? || pc.Monitor?
  }

  predicate IsOwner(pc: Pc) {
    pc.Kernel? || pc.UnlockCheck? || pc.UnlockOwn? || pc.Monitor?
  }

  // On the way to or from user mode, as opposed to hlt.
  predicate UserSide(pc: Pc) {
    match pc
    case User => true
    case Trap(u) => u
    case LockCheck(k) => k.Work? && k.fromUser
    case LockXchg(k) => k.Work? && k.fromUser
    case LockOwn(k) => k.Work? && k.fromUser
    case Kernel(u) => u
    case UnlockCheck(x) => x == ToUser
    case UnlockOwn(x) => x == ToUser
    case UnlockXchg(x) => x == ToUser
    case _ => false
  }

  predicate HaltSide(pc: Pc) {
    pc.Hlt? || pc == Trap(false) || pc == UnlockCheck(ToHalt) || pc == UnlockOwn(ToHalt) || pc == UnlockXchg(ToHalt)
  }

  // The program counter agrees with curenv and cpu_status, and rules out every panic.
  predicate CpuOk(cpu: Cpu) {
    && cpu.pc != Panicked
    && !(cpu.pc.LockCheck? && cpu.pc.k.LockAgain?) && !(cpu.pc.LockXchg? && cpu.pc.k.LockAgain?)
    && !(cpu.pc.LockOwn? && cpu.pc.k.LockAgain?)
    && !(cpu.pc.UnlockCheck? && cpu.pc.exit.InMonitor?) && !(cpu.pc.UnlockOwn? && cpu.pc.exit.InMonitor?)
    && !(cpu.pc.UnlockXchg? && cpu.pc.exit.InMonitor?)
    && (cpu.halted <==> HaltSide(cpu.pc))
    && (!cpu.pc.Monitor? ==> (cpu.cur.Some? <==> UserSide(cpu.pc)))
  }

  ghost predicate LockOk(s: State) {
    && (forall c :: 0 <= c < |s.cpus| && HasLock(s.cpus[c].pc) ==> s.lock.locked)
    && (s.lock.locked ==> exists c :: 0 <= c < |s.cpus| && HasLock(s.cpus[c].pc))
    && (forall c, d :: 0 <= c < |s.cpus| && 0 <= d < |s.cpus| && HasLock(s.cpus[c].pc) && HasLock(s.cpus[d].pc) ==> c == d)
    && (forall c :: 0 <= c < |s.cpus| && IsOwner(s.cpus[c].pc) ==> s.lock.owner == Some(c))
    && (s.lock.owner.Some? ==> s.lock.owner.value < |s.cpus| && IsOwner(s.cpus[s.lock.owner.value].pc))
  }

  // The environments current on CPUs other than `c`.
  ghost function Others(cpus: seq<Cpu>, c: nat): set<nat> {
    set d | 0 <= d < |cpus| && d != c && cpus[d].cur.Some? :: cpus[d].cur.value
  }

  // No environment is current on two CPUs, no free slot is current anywhere, and the
  // environments marked RUNNING or DYING are those current on a CPU; a CPU that found
  // nothing alive and sits in the monitor may keep its curenv.
  ghost predicate RunsOnce(s: State) {
    && (forall c, d :: 0 <= c < d < |s.cpus| && s.cpus[c].cur.Some? ==> s.cpus[c].cur != s.cpus[d].cur)
    && (forall c :: 0 <= c < |s.cpus| && s.cpus[c].cur.Some? ==>
          && s.cpus[c].cur.value < |s.envs| && s.envs[s.cpus[c].cur.value].status != Free
          && (!s.cpus[c].pc.Monitor? ==> Busy(s.envs[s.cpus[c].cur.value])))
    && (forall e :: 0 <= e < |s.envs| && Busy(s.envs[e]) ==> exists c :: 0 <= c < |s.cpus| && s.cpus[c].cur == Some(e))
  }

  ghost predicate EnvsOk(s: State) {
    Blocked(s.envs) && RunsOnce(s)
  }

  ghost predicate Inv(s: State) {
    && (forall c :: 0 <= c < |s.cpus| ==> CpuOk(s.cpus[c]))
    && LockOk(s)
    && EnvsOk(s)
  }

  // At boot one CPU is in the kernel with the lock and the others are on their way in;
  // no environment has run yet.
  ghost predicate Init(s: State) {
    && |s.cpus| > 0
    && s.cpus[0] == Cpu(Kernel(false), None, false)
    && (forall c :: 0 < c < |s.cpus| ==> s.cpus[c] == Cpu(LockCheck(Work(false)), None, false))
    && s.lock == Lock(true, Some(0))
    && (forall e :: 0 <= e < |s.envs| ==> (s.envs[e].status == Free || s.envs[e].status == Runnable) && !s.envs[e].recving)
  }

  ghost predicate Guard(s: State, c: nat, req: Request) {
    && c < |s.cpus|
    && (s.cpus[c].pc == Kernel(true) && s.cpus[c].cur.Some? && s.cpus[c].cur.value < |s.envs|
        && s.envs[s.cpus[c].cur.value].status == Running
        ==> Allowed(s.envs, s.cpus[c].cur.value, req))
  }

  lemma InitOk(s: State)
    requires Init(s)
    ensures Inv(s)
  {
  }

  // What one instruction does to the lock, seen from the CPU that executes it.
  lemma LockStepLocally(cpu: Cpu, c: nat, lock: Lock)
    requires CpuOk(cpu) && !cpu.pc.Kernel?
    requires HasLock(cpu.pc) ==> lock.locked
    requires IsOwner(cpu.pc) <==> lock.owner == Some(c)
    requires lock.owner.Some? ==> lock.locked
    ensures var (cpu', lock') := LockStep(cpu, c, lock);
            && CpuOk(cpu') && cpu'.cur == cpu.cur && (cpu'.pc.Monitor? <==> cpu.pc.Monitor?)
            && (HasLock(cpu'.pc) ==> lock'.locked)
            && (HasLock(cpu'.pc) && !HasLock(cpu.pc) ==> !lock.locked)
            && (HasLock(cpu.pc) && !HasLock(cpu'.pc) ==> !lock'.locked)
            && (HasLock(cpu'.pc) == HasLock(cpu.pc) ==> lock'.locked == lock.locked)
            && (IsOwner(cpu'.pc) <==> lock'.owner == Some(c))
            && (lock'.owner == lock.owner || HasLock(cpu.pc))
            && (lock'.owner.Some? ==> lock'.owner == Some(c) || lock'.owner == lock.owner)
  {
  }

  lemma LockMoves(s: State, c: nat, cpu': Cpu, lock': Lock)
    requires LockOk(s) && c < |s.cpus|
    requires HasLock(cpu'.pc) ==> lock'.locked
    requires HasLock(cpu'.pc) && !HasLock(s.cpus[c].pc) ==> !s.lock.locked
    requires HasLock(s.cpus[c].pc) && !HasLock(cpu'.pc) ==> !lock'.locked
    requires HasLock(cpu'.pc) == HasLock(s.cpus[c].pc) ==> lock'.locked == s.lock.locked
    requires IsOwner(cpu'.pc) <==> lock'.owner == Some(c)
    requires lock'.owner == s.lock.owner || HasLock(s.cpus[c].pc)
    requires lock'.owner.Some? ==> lock'.owner == Some(c) || lock'.owner == s.lock.owner
    ensures LockOk(State(s.envs, s.cpus[c := cpu'], lock'))
  {
    var s' := State(s.envs, s.cpus[c := cpu'], lock');
    if s'.lock.locked && !HasLock(cpu'.pc) {
      var h :| 0 <= h < |s.cpus| && HasLock(s.cpus[h].pc);
      assert HasLock(s'.cpus[h].pc);
    } else if s'.lock.locked {
      assert HasLock(s'.cpus[c].pc);
    }
  }

  lemma LockStepKeepsLock(s: State, c: nat, req: Request)
    requires Inv(s) && c < |s.cpus| && !s.cpus[c].pc.Kernel?
    ensures LockOk(Do(s, c, req))
  {
    LockStepLocally(s.cpus[c], c, s.lock);
    var (cpu', lock') := LockStep(s.cpus[c], c, s.lock);
    LockMoves(s, c, cpu', lock');
  }

  // The environments are left alone.
  lemma LockStepKeepsEnvs(s: State, c: nat, req: Request)
    requires Inv(s) && c < |s.cpus| && !s.cpus[c].pc.Kernel?
    ensures CpuOk(Do(s, c, req).cpus[c])
    ensures EnvsOk(Do(s, c, req))
  {
    var s' := Do(s, c, req);
    LockStepLocally(s.cpus[c], c, s.lock);
    assert forall d :: 0 <= d < |s.cpus| ==> s'.cpus[d].cur == s.cpus[d].cur && s'.cpus[d].pc.Monitor? == s.cpus[d].pc.Monitor?;
    forall e | 0 <= e < |s.envs| && Busy(s.envs[e])
      ensures exists d :: 0 <= d < |s'.cpus| && s'.cpus[d].cur == Some(e)
    {
      var d :| 0 <= d < |s.cpus| && s.cpus[d].cur == Some(e);
      assert s'.cpus[d].cur == Some(e);
    }
  }

  lemma KernelSeesPlaced(s: State, c: nat)
    requires Inv(s) && c < |s.cpus| && s.cpus[c].pc.Kernel?
    ensures Placed(s.envs, s.cpus[c].cur, Others(s.cpus, c))
  {
    var others := Others(s.cpus, c);
    forall e | 0 <= e < |s.envs|
      ensures Busy(s.envs[e]) <==> e in others || s.cpus[c].cur == Some(e)
    {
      if Busy(s.envs[e]) {
        var d :| 0 <= d < |s.cpus| && s.cpus[d].cur == Some(e);
      }
    }
  }

  lemma KernelLeavesPlaced(s: State, c: nat, o: Outcome, s': State)
    requires Inv(s) && c < |s.cpus| && s.cpus[c].pc.Kernel?
    requires Settled(o, Others(s.cpus, c)) && s'.envs == o.envs
    requires |s'.cpus| == |s.cpus| && s'.cpus[c].cur == o.cur && (s'.cpus[c].pc.Monitor? <==> o.exit.InMonitor?)
    requires forall d :: 0 <= d < |s.cpus| && d != c ==> s'.cpus[d] == s.cpus[d]
    ensures EnvsOk(s')
  {
    var others := Others(s.cpus, c);
    forall d | 0 <= d < |s.cpus| && d != c && s.cpus[d].cur.Some?
      ensures s.cpus[d].cur.value in others
    {
    }
    if o.exit.InMonitor? {
      assert forall e :: 0 <= e < |o.envs| ==> !Alive(o.envs[e]);
    }
    forall e | 0 <= e < |s'.envs| && Busy(s'.envs[e])
      ensures exists d :: 0 <= d < |s'.cpus| && s'.cpus[d].cur == Some(e)
    {
      if o.exit.InMonitor? {
        assert Alive(o.envs[e]);
      } else if o.cur == Some(e) {
        assert s'.cpus[c].cur == Some(e);
      } else {
        var d :| 0 <= d < |s.cpus| && d != c && s.cpus[d].cur.Some? && s.cpus[d].cur.value == e;
        assert s'.cpus[d].cur == Some(e);
      }
    }
  }

  // The body of the kernel neither takes nor releases the lock.
  lemma KernelKeepsLock(s: State, c: nat, envs: Envs, cpu: Cpu)
    requires Inv(s) && c < |s.cpus| && s.cpus[c].pc.Kernel? && IsOwner(cpu.pc)
    ensures LockOk(State(envs, s.cpus[c := cpu], s.lock))
  {
    assert HasLock(s.cpus[c := cpu][c].pc);
  }

  lemma KernelStepKeeps(s: State, c: nat, req: Request)
    requires Inv(s) && Guard(s, c, req) && s.cpus[c].pc.Kernel?
    ensures Inv(Do(s, c, req))
  {
    var cpu := s.cpus[c];
    var others := Others(s.cpus, c);
    KernelSeesPlaced(s, c);
    EnterSettles(s.envs, cpu.cur, cpu.pc.fromUser, req, others);
    var o := AfterTrap(s.envs, cpu.cur, cpu.pc.fromUser, req);
    AfterKernel(s, c, o);
  }

  lemma AfterKernel(s: State, c: nat, o: Outcome)
    requires Inv(s) && c < |s.cpus| && s.cpus[c].pc.Kernel?
    requires Settled(o, Others(s.cpus, c))
    ensures Inv(State(o.envs, s.cpus[c := Cpu(if o.exit == InMonitor then Monitor else UnlockCheck(o.exit), o.cur, o.exit == ToHalt)], s.lock))
  {
    var cpu := Cpu(if o.exit == InMonitor then Monitor else UnlockCheck(o.exit), o.cur, o.exit == ToHalt);
    KernelKeepsLock(s, c, o.envs, cpu);
    KernelLeavesPlaced(s, c, o, State(o.envs, s.cpus[c := cpu], s.lock));
    assert CpuOk(cpu);
  }

  lemma StepKeeps(s: State, c: nat, req: Request)
    requires Inv(s) && Guard(s, c, req)
    ensures Inv(Do(s, c, req))
  {
    if s.cpus[c].pc.Kernel? {
      KernelStepKeeps(s, c, req);
    } else {
      LockStepKeepsLock(s, c, req);
      LockStepKeepsEnvs(s, c, req);
    }
  }

  // ------------------------------------------------------------------
  // Whole runs
  // ------------------------------------------------------------------

  datatype Move = Move(c: nat, req: Request)

  // Some interleaving of the CPUs' instructions leads from `s` to `t`.
  ghost predicate Reaches(s: State, moves: seq<Move>, t: State)
    decreases |moves|
  {
    if moves == [] then s == t
    else Guard(s, moves[0].c, moves[0].req) && Reaches(Do(s, moves[0].c, moves[0].req), moves[1..], t)
  }

  lemma {:induction false} RunKeeps(s: State, moves: seq<Move>, t: State)
    requires Inv(s) && Reaches(s, moves, t)
    ensures Inv(t)
    decreases |moves|
  {
    if moves != [] {
      StepKeeps(s, moves[0].c, moves[0].req);
      RunKeeps(Do(s, moves[0].c, moves[0].req), moves[1..], t);
    }
  }

  // In every reachable state: no CPU has panicked; at most one is in the kernel, and a
  // CPU holds the lock, as the lock itself records it, exactly while it is there.
  lemma KernelLockIsExclusive(s: State, moves: seq<Move>, t: State)
    requires Init(s) && Reaches(s, moves, t)
    ensures forall c :: 0 <= c < |t.cpus| ==> t.cpus[c].pc != Panicked
    ensures forall c, d :: 0 <= c < |t.cpus| && 0 <= d < |t.cpus| && HasLock(t.cpus[c].pc) && HasLock(t.cpus[d].pc) ==> c == d
    ensures forall c :: 0 <= c < |t.cpus| ==> (Holding(t, c) <==> IsOwner(t.cpus[c].pc))
  {
    InitOk(s);
    RunKeeps(s, moves, t);
  }

  // In every reachable state environments run once; in particular a CPU in user mode runs an
  // environment marked RUNNING or DYING.
  lemma EnvironmentsRunOnce(s: State, moves: seq<Move>, t: State)
    requires Init(s) && Reaches(s, moves, t)
    ensures RunsOnce(t)
    ensures forall c :: 0 <= c < |t.cpus| && t.cpus[c].pc == User ==>
              t.cpus[c].cur.Some? && t.cpus[c].cur.value < |t.envs| && Busy(t.envs[t.cpus[c].cur.value])
  {
    InitOk(s);
    RunKeeps(s, moves, t);
  }

  // ------------------------------------------------------------------
  // The guard is exact
  // ------------------------------------------------------------------

  lemma {:induction false} Then(s: State, moves: seq<Move>, t: State, more: seq<Move>, u: State)
    requires Reaches(s, moves, t) && Reaches(t, more, u)
    ensures Reaches(s, moves + more, u)
    decreases |moves|
  {
    if moves == [] {
      assert moves + more == more;
    } else {
      Then(Do(s, moves[0].c, moves[0].req), moves[1..], t, more, u);
      assert [moves[0]] + (moves[1..] + more) == moves + more;
      First(s, moves[0], moves[1..] + more, u);
    }
  }

  lemma First(s: State, m: Move, moves: seq<Move>, t: State)
    requires Guard(s, m.c, m.req) && Reaches(Do(s, m.c, m.req), moves, t)
    ensures Reaches(s, [m] + moves, t)
  {
    assert ([m] + moves)[1..] == moves;
  }

  // Nobody holds the lock.
  ghost predicate Quiet(s: State) {
    s.lock == Lock(false, None) && forall c :: 0 <= c < |s.cpus| ==> CpuOk(s.cpus[c]) && !HasLock(s.cpus[c].pc)
  }

  function InKernel(s: State, c: nat): State
    requires c < |s.cpus|
  {
    State(s.envs, s.cpus[c := Cpu(Kernel(UserSide(s.cpus[c].pc)), s.cpus[c].cur, false)], Lock(true, Some(c)))
  }

  // How many instructions a CPU is away from the body of the kernel.
  function Ahead(pc: Pc): nat {
    match pc
    case User => 5
    case Hlt => 5
    case Trap(_) => 4
    case LockCheck(_) => 3
    case LockXchg(_) => 2
    case LockOwn(_) => 1
    case _ => 0
  }

  // Left to itself, a CPU gets into the kernel.
  lemma {:induction false} GetsIn(s: State, c: nat) returns (moves: seq<Move>)
    requires c < |s.cpus| && CpuOk(s.cpus[c]) && Ahead(s.cpus[c].pc) > 0
    requires s.lock == if s.cpus[c].pc.LockOwn? then Lock(true, None) else Lock(false, None)
    ensures Reaches(s, moves, InKernel(s, c))
    decreases Ahead(s.cpus[c].pc)
  {
    var s' := Do(s, c, Other);
    if s.cpus[c].pc.LockOwn? {
      assert s' == InKernel(s, c);
      moves := [];
    } else {
      assert InKernel(s', c) == InKernel(s, c);
      moves := GetsIn(s', c);
    }
    First(s, Move(c, Other), moves, InKernel(s, c));
    moves := [Move(c, Other)] + moves;
  }

  function Outside(s: State, c: nat, exit: Exit): State
    requires c < |s.cpus|
  {
    State(s.envs, s.cpus[c := s.cpus[c].(pc := if exit == ToUser then User else Hlt)], Lock(false, None))
  }

  lemma GetsOut(s: State, c: nat, exit: Exit) returns (moves: seq<Move>)
    requires c < |s.cpus| && s.cpus[c].pc == UnlockCheck(exit) && s.lock == Lock(true, Some(c))
    ensures Reaches(s, moves, Outside(s, c, exit))
  {
    var s1 := Do(s, c, Other);
    var s2 := Do(s1, c, Other);
    var s3 := Do(s2, c, Other);
    assert s1.cpus[c].pc == UnlockOwn(exit) && s1.lock == s.lock;
    assert s2.cpus[c].pc == UnlockXchg(exit) && s2.lock == Lock(true, None);
    assert s3 == Outside(s, c, exit);
    First(s2, Move(c, Other), [], s3);
    First(s1, Move(c, Other), [Move(c, Other)] + [], s3);
    First(s, Move(c, Other), [Move(c, Other)] + ([Move(c, Other)] + []), s3);
    moves := [Move(c, Other)] + ([Move(c, Other)] + ([Move(c, Other)] + []));
  }

  // A CPU's whole way through the kernel, with nobody else moving.
  function Through(s: State, c: nat, o: Outcome): State
    requires c < |s.cpus|
  {
    State(o.envs, s.cpus[c := Cpu(if o.exit == ToUser then User else Hlt, o.cur, o.exit == ToHalt)], Lock(false, None))
  }

  // What is handed to the kernel, and what comes back.
  lemma InsideStep(s: State, c: nat, req: Request, o: Outcome)
    requires Quiet(s) && c < |s.cpus| && (s.cpus[c].cur.Some? ==> s.cpus[c].cur.value < |s.envs|)
    requires o == AfterTrap(s.envs, s.cpus[c].cur, s.cpus[c].cur.Some?, req) && o.exit != InMonitor
    ensures UserSide(s.cpus[c].pc) <==> s.cpus[c].cur.Some?
    ensures Do(InKernel(s, c), c, req)
         == State(o.envs, s.cpus[c := Cpu(UnlockCheck(o.exit), o.cur, o.exit == ToHalt)], Lock(true, Some(c)))
  {
    assert CpuOk(s.cpus[c]) && !s.cpus[c].pc.Monitor?;
  }

  lemma ThroughQuiet(s: State, c: nat, o: Outcome)
    requires Quiet(s) && c < |s.cpus| && (o.exit == ToUser <==> o.cur.Some?) && o.exit != InMonitor
    ensures Quiet(Through(s, c, o))
  {
    assert CpuOk(Through(s, c, o).cpus[c]);
  }

  lemma GoesThrough(s: State, c: nat, req: Request, o: Outcome) returns (moves: seq<Move>)
    requires Quiet(s) && c < |s.cpus| && (s.cpus[c].cur.Some? ==> s.cpus[c].cur.value < |s.envs|)
    requires req == IpcRecv || req.IpcSend?
    requires o == AfterTrap(s.envs, s.cpus[c].cur, s.cpus[c].cur.Some?, req) && o.exit == ToUser && o.cur.Some?
    ensures Reaches(s, moves, Through(s, c, o)) && Quiet(Through(s, c, o))
  {
    var s1, t := InKernel(s, c), Through(s, c, o);
    InsideStep(s, c, req, o);
    ThroughQuiet(s, c, o);
    var into := GetsIn(s, c);
    var out := GetsOut(Do(s1, c, req), c, o.exit);
    assert Outside(Do(s1, c, req), c, o.exit) == t;
    First(s1, Move(c, req), out, t);
    Then(s, into, s1, [Move(c, req)] + out, t);
    moves := into + ([Move(c, req)] + out);
  }

  // The current environments are in range, marked so, and one per CPU.
  ghost predicate CursOk(s: State) {
    && (forall c :: 0 <= c < |s.cpus| && s.cpus[c].cur.Some? ==>
          s.cpus[c].cur.value < |s.envs| && Busy(s.envs[s.cpus[c].cur.value]))
    && (forall c, d :: 0 <= c < d < |s.cpus| && s.cpus[c].cur.Some? ==> s.cpus[c].cur != s.cpus[d].cur)
  }

  ghost function RunnableSlots(envs: Envs): set<nat> {
    set i | 0 <= i < |envs| && envs[i].status == Runnable
  }

  // `t` differs from `s` only in what CPU `d` runs and in environments that were not on
  // another CPU.
  ghost predicate OnlyCpu(s: State, t: State, d: nat) {
    && |t.cpus| == |s.cpus| && |t.envs| == |s.envs|
    && (forall c :: 0 <= c < |s.cpus| && c != d ==> t.cpus[c] == s.cpus[c])
    && (forall c :: 0 <= c < |s.cpus| && c != d && s.cpus[c].cur.Some? && s.cpus[c].cur.value < |s.envs| ==>
          t.envs[s.cpus[c].cur.value] == s.envs[s.cpus[c].cur.value])
  }

  // The environment on this CPU blocks, or goes if it was dying; the scan takes the next
  // one that is runnable.
  lemma NextInLine(envs: Envs, cur: Option<nat>, e: nat)
    requires e < |envs| && envs[e].status == Runnable
    requires cur.Some? ==> cur.value < |envs| && Busy(envs[cur.value])
    ensures var o := AfterTrap(envs, cur, cur.Some?, IpcRecv);
            && o.exit == ToUser && o.cur.Some? && |o.envs| == |envs|
            && o.cur.value < |envs| && envs[o.cur.value].status == Runnable
            && o.envs[o.cur.value] == envs[o.cur.value].(status := Running)
            && (cur.Some? ==> o.envs[cur.value].status != Runnable)
            && (forall g :: 0 <= g < |envs| && g != o.cur.value && cur != Some(g) ==> o.envs[g] == envs[g])
  {
    var envs1 := if cur.None? then envs
                 else if envs[cur.value].status == Dying then SetStatus(envs, cur.value, Free)
                 else envs[cur.value := Env(NotRunnable, true)];
    var start := if cur.None? || envs[cur.value].status == Dying then None else cur;
    assert envs1[e].status == Runnable;
    ScanFinds(envs1, if start.Some? then start.value else 0, 0);
    assert AfterTrap(envs, cur, cur.Some?, IpcRecv) == AfterYield(envs1, start);
  }

  // One turn of CPU `d`: it runs `e`, or there is one runnable environment less.
  lemma OneTurn(s: State, d: nat, e: nat) returns (moves: seq<Move>, t: State)
    requires Quiet(s) && CursOk(s) && d < |s.cpus| && e < |s.envs| && s.envs[e] == Env(Runnable, true)
    ensures Reaches(s, moves, t) && Quiet(t) && CursOk(t) && OnlyCpu(s, t, d)
    ensures if t.cpus[d].cur == Some(e) then t.cpus[d].pc == User && t.envs[e] == Env(Running, true)
            else t.envs[e] == s.envs[e] && |RunnableSlots(t.envs)| < |RunnableSlots(s.envs)|
  {
    var cur := s.cpus[d].cur;
    NextInLine(s.envs, cur, e);
    var o := AfterTrap(s.envs, cur, cur.Some?, IpcRecv);
    moves := GoesThrough(s, d, IpcRecv, o);
    t := Through(s, d, o);
    OnlyCpuThrough(s, d, o);
    var j := o.cur.value;
    assert RunnableSlots(t.envs) == RunnableSlots(s.envs) - {j};
    assert j in RunnableSlots(s.envs);
  }

  // A receiver that was made runnable gets to run on CPU `d`, while the others rest.
  lemma {:induction false} ReceiverRuns(s: State, d: nat, e: nat) returns (moves: seq<Move>, t: State)
    requires Quiet(s) && CursOk(s) && d < |s.cpus| && e < |s.envs| && s.envs[e] == Env(Runnable, true)
    ensures Reaches(s, moves, t) && Quiet(t) && OnlyCpu(s, t, d)
    ensures t.cpus[d].cur == Some(e) && t.cpus[d].pc == User && t.envs[e] == Env(Running, true)
    decreases |RunnableSlots(s.envs)|
  {
    moves, t := OneTurn(s, d, e);
    if t.cpus[d].cur != Some(e) {
      var more, u := ReceiverRuns(t, d, e);
      Then(s, moves, t, more, u);
      moves, t := moves + more, u;
    }
  }

  lemma OnlyCpuThrough(s: State, d: nat, o: Outcome)
    requires CursOk(s) && d < |s.cpus| && |o.envs| == |s.envs| && o.cur.Some? && o.cur.value < |s.envs|
    requires s.envs[o.cur.value].status == Runnable && o.envs[o.cur.value].status == Running
    requires forall g :: 0 <= g < |s.envs| && g != o.cur.value && s.cpus[d].cur != Some(g) ==> o.envs[g] == s.envs[g]
    ensures OnlyCpu(s, Through(s, d, o), d) && CursOk(Through(s, d, o))
  {
  }

  // A request that is not allowed breaks the promise at once, or, if it only makes a
  // waiting receiver runnable, once another CPU runs the receiver and the message comes.
  lemma BreaksAtOnce(s: State, c: nat, req: Request)
    requires Inv(s) && c < |s.cpus| && s.cpus[c].pc == Kernel(true) && s.envs[s.cpus[c].cur.value].status == Running
    requires !Allowed(s.envs, s.cpus[c].cur.value, req) && Busy(s.envs[req.target])
    ensures !RunsOnce(Do(s, c, req))
  {
    var e, cur := req.target, s.cpus[c].cur.value;
    var d :| 0 <= d < |s.cpus| && s.cpus[d].cur == Some(e);
    var envs1 := SetStatus(s.envs, e, if req.Destroy? then Free else if req.runnable then Runnable else NotRunnable);
    assert AfterRequest(s.envs, cur, req) == AfterRun(envs1, Some(cur), cur);
    var t := Do(s, c, req);
    assert t.cpus[d] == s.cpus[d] && !Busy(t.envs[e]);
    assert HasLock(s.cpus[c].pc);
  }

  lemma BreaksLater(s: State, c: nat, d: nat, e: nat) returns (moves: seq<Move>, t: State)
    requires Inv(s) && c < |s.cpus| && s.cpus[c].pc == Kernel(true) && s.envs[s.cpus[c].cur.value].status == Running
    requires d < |s.cpus| && d != c
    requires e < |s.envs| && s.envs[e] == Env(NotRunnable, true)
    ensures Reaches(Do(s, c, SetEnvStatus(e, true)), moves, t) && !RunsOnce(t)
  {
    var req, cur := SetEnvStatus(e, true), s.cpus[c].cur.value;
    var s1 := Do(s, c, req);
    var envs1 := SetStatus(s.envs, e, Runnable);
    assert AfterRequest(s.envs, cur, req) == AfterRun(envs1, Some(cur), cur);
    assert s1.envs == envs1;
    moves := GetsOut(s1, c, ToUser);
    var s2 := Outside(s1, c, ToUser);
    WakesQuietly(s, c, e, s2);
    var more, s3 := ReceiverRuns(s2, d, e);
    Then(s1, moves, s2, more, s3);
    var last, u := MessageComes(s3, c, d, e, cur);
    Then(s1, moves + more, s3, last, u);
    moves, t := moves + more + last, u;
  }

  lemma WakesQuietly(s: State, c: nat, e: nat, s2: State)
    requires Inv(s) && c < |s.cpus| && s.cpus[c].pc == Kernel(true)
    requires e < |s.envs| && s.envs[e] == Env(NotRunnable, true)
    requires s2 == State(SetStatus(s.envs, e, Runnable), s.cpus[c := Cpu(User, s.cpus[c].cur, false)], Lock(false, None))
    ensures Quiet(s2) && CursOk(s2)
  {
    assert HasLock(s.cpus[c].pc);
    assert forall d :: 0 <= d < |s.cpus| && d != c ==> !HasLock(s.cpus[d].pc);
  }

  lemma MessageComes(s: State, c: nat, d: nat, e: nat, cur: nat) returns (moves: seq<Move>, t: State)
    requires Quiet(s) && c < |s.cpus| && d < |s.cpus| && c != d
    requires cur < |s.envs| && s.cpus[c].cur == Some(cur) && s.envs[cur].status == Running && cur != e
    requires s.cpus[d].cur == Some(e) && s.cpus[d].pc == User && e < |s.envs| && s.envs[e] == Env(Running, true)
    ensures Reaches(s, moves, t) && !RunsOnce(t)
  {
    var envs1 := s.envs[e := Env(Runnable, false)];
    var o := AfterTrap(s.envs, Some(cur), true, IpcSend(e));
    assert o == AfterRun(envs1, Some(cur), cur);
    moves := GoesThrough(s, c, IpcSend(e), o);
    t := Through(s, c, o);
    assert t.cpus[d] == s.cpus[d] && t.envs[e].status == Runnable;
  }

  // No run that goes on from here with allowed requests spoils it.
  ghost predicate StaysSafe(s: State) {
    forall moves, t :: Reaches(s, moves, t) ==> RunsOnce(t)
  }

  // With two CPUs or more, a request is allowed if and only if no run that goes on from it,
  // with allowed requests only, leads to a state where environments do not run once.
  lemma AllowedIsExact(s: State, c: nat, req: Request)
    requires Inv(s) && |s.cpus| >= 2
    requires c < |s.cpus| && s.cpus[c].pc == Kernel(true) && s.envs[s.cpus[c].cur.value].status == Running
    ensures Allowed(s.envs, s.cpus[c].cur.value, req) <==> StaysSafe(Do(s, c, req))
  {
    if Allowed(s.envs, s.cpus[c].cur.value, req) {
      AllowedStaysSafe(s, c, req);
    } else if Busy(s.envs[req.target]) {
      BreaksAtOnce(s, c, req);
      UnsafeNow(Do(s, c, req));
    } else {
      var moves, t := BreaksLater(s, c, if c == 0 then 1 else 0, req.target);
    }
  }

  lemma UnsafeNow(s: State)
    requires !RunsOnce(s)
    ensures !StaysSafe(s)
  {
    var none: seq<Move> := [];
    assert Reaches(s, none, s);
  }

  lemma AllowedStaysSafe(s: State, c: nat, req: Request)
    requires Inv(s) && Guard(s, c, req)
    ensures StaysSafe(Do(s, c, req))
  {
    StepKeeps(s, c, req);
    forall moves, t | Reaches(Do(s, c, req), moves, t) ensures RunsOnce(t) {
      RunKeeps(Do(s, c, req), moves, t);
    }
  }

  // ------------------------------------------------------------------
  // Two small cases
  // ------------------------------------------------------------------

  // This CPU runs environment 0 and another runs environment 1.  If this one makes
  // environment 1 runnable, the next CPU that enters the scheduler runs it too.
  lemma SettingABusyStatusRunsTwice()
    ensures Placed([Env(Running, false), Env(Running, false)], Some(0), {1})
    ensures var o := AfterRequest([Env(Running, false), Env(Running, false)], 0, SetEnvStatus(1, true));
            o.cur == Some(0) && AfterTrap(o.envs, None, false, Other).cur == Some(1)
  {
    var envs: Envs := [Env(Running, false), Env(Running, false)];
    var envs1: Envs := [Env(Running, false), Env(Runnable, false)];
    assert AfterRequest(envs, 0, SetEnvStatus(1, true)) == Outcome(envs1, Some(0), ToUser);
    WithoutCurrentLowestWins(envs1, 1);
  }

  // Destroying an environment that is already dying frees it under the CPU it is on.
  lemma DestroyingTwiceFreesACurrentSlot()
    ensures Placed([Env(Running, false), Env(Dying, false)], Some(0), {1})
    ensures AfterRequest([Env(Running, false), Env(Dying, false)], 0, Destroy(1)).envs
         == [Env(Running, false), Env(Free, false)]
  {
    var envs: Envs := [Env(Running, false), Env(Dying, false)];
    assert AfterRequest(envs, 0, Destroy(1)) == AfterRun([Env(Running, false), Env(Free, false)], Some(0), 0);
  }
}
