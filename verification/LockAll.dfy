/** Locking all drivers: ME_LockAll (library/meids_local.c) on top of what the kernel does for one driver, lock_driver
    (module/driver/memain_common.c), while other processes go on working. */
module LockAll {
  import opened Defines
  import opened Sequences

  const LOCK_RELEASE := 0x00010001
  const LOCK_SET := 0x00010002
  const LOCK_CHECK := 0x00010003

  const LOCK_PRESERVE: nat := 0x01
  const LOCK_FORCE: nat := 0x10

  /** The bit ME_LOCK_FORCE of a flag word. */
  predicate Forced(flags: nat) {
    (flags / LOCK_FORCE) % 2 == 1
  }

  // One driver.

  /** Who has locked a driver, a device or a subdevice: nobody, one of our contexts, or somebody else. */
  datatype Owner = Nobody | Mine(context: nat) | Others

  /** me_slock_t, and the lock of a device; `count` operations are under way behind it. */
  datatype Lock = Lock(owner: Owner, count: nat)

  datatype Device = Device(lock: Lock, subdevices: seq<Lock>)

  datatype Driver = Driver(owner: Owner, count: nat, devices: seq<Device>)

  predicate Excludes(owner: Owner, context: nat) {
    owner != Nobody && owner != Mine(context)
  }

  /** What me_dlock_lock reports for a check: LOCKED if somebody else has locked the device or a part of it. */
  predicate DeviceExcludes(d: Device, context: nat) {
    Excludes(d.lock.owner, context) || exists k :: 0 <= k < |d.subdevices| && Excludes(d.subdevices[k].owner, context)
  }

  function LowerError(devices: seq<Device>, context: nat): int {
    if exists k :: 0 <= k < |devices| && DeviceExcludes(devices[k], context) then ERRNO_LOCKED else ERRNO_SUCCESS
  }

  /** Subdevices are unlocked up to the first one in use. */
  function Unlocked(subdevices: seq<Lock>): seq<Lock> {
    if subdevices == [] || subdevices[0].count > 0 then subdevices
    else [subdevices[0].(owner := Nobody)] + Unlocked(subdevices[1..])
  }

  /** A device and its subdevices after a release without flags. */
  function Released(d: Device, context: nat): Device {
    if DeviceExcludes(d, context) || d.lock.count > 0 then d
    else Device(d.lock.(owner := Nobody), Unlocked(d.subdevices))
  }

  /** lock_driver on behalf of one of our contexts: the error. */
  function Refusal(d: Driver, context: nat, lock: int, flags: nat): int {
    if (!Forced(flags) || lock == LOCK_CHECK) && Excludes(d.owner, context) then ERRNO_LOCKED
    else if !Forced(flags) && LowerError(d.devices, context) != ERRNO_SUCCESS then LowerError(d.devices, context)
    else if lock == LOCK_CHECK then ERRNO_SUCCESS
    else if lock == LOCK_SET || lock == LOCK_RELEASE then (if d.count > 0 then ERRNO_USED else ERRNO_SUCCESS)
    else ERRNO_INVALID_LOCK
  }

  /** And the driver afterwards. */
  function AfterLock(d: Driver, context: nat, lock: int, flags: nat): Driver {
    if Refusal(d, context, lock, flags) != ERRNO_SUCCESS then d
    else if lock == LOCK_SET then d.(owner := Mine(context))
    else if lock == LOCK_RELEASE then
      Driver(Nobody, d.count,
             if flags == 0 then seq(|d.devices|, k requires 0 <= k < |d.devices| => Released(d.devices[k], context))
             else d.devices)
    else d
  }

  // What happens meanwhile.

  /** Other processes lock, unlock and use drivers, as long as none of our contexts has locked them; our own process
      may use any driver. */
  datatype Act =
    | Take(driver: nat)
    | Drop(driver: nat)
    | Use(driver: nat, count: nat, devices: seq<Device>)
    | OwnUse(driver: nat, count: nat, devices: seq<Device>)

  function Changed(d: Driver, act: Act): Driver {
    match act
    case OwnUse(_, count, devices) => d.(count := count, devices := devices)
    case Take(_) => if d.owner.Mine? then d else d.(owner := Others)
    case Drop(_) => if d.owner.Mine? then d else d.(owner := Nobody)
    case Use(_, count, devices) => if d.owner.Mine? then d else d.(count := count, devices := devices)
  }

  function Meanwhile(drivers: seq<Driver>, acts: seq<Act>): (r: seq<Driver>)
    ensures |r| == |drivers|
    decreases |acts|
  {
    if acts == [] then drivers
    else
      var i := acts[0].driver;
      Meanwhile(if i < |drivers| then drivers[i := Changed(drivers[i], acts[0])] else drivers, acts[1..])
  }

  /** The drivers, and what is still going to happen: script[t] before the t-th next call, nothing after its end. */
  datatype World = World(drivers: seq<Driver>, script: seq<seq<Act>>)

  function Elapse(w: World): (r: World)
    ensures |r.drivers| == |w.drivers|
  {
    if w.script == [] then w else World(Meanwhile(w.drivers, w.script[0]), w.script[1..])
  }

  datatype Outcome = Outcome(err: int, world: World)

  function Call(w: World, driver: nat, context: nat, lock: int, flags: nat): (r: Outcome)
    requires driver < |w.drivers|
    ensures |r.world.drivers| == |w.drivers|
  {
    var v := Elapse(w);
    Outcome(Refusal(v.drivers[driver], context, lock, flags),
            v.(drivers := v.drivers[driver := AfterLock(v.drivers[driver], context, lock, flags)]))
  }

  class Kernel {
    var world: World

    method LockDriver(driver: nat, context: nat, lock: int, flags: nat) returns (err: int)
      requires driver < |world.drivers|
      modifies this
      ensures Outcome(err, world) == Call(old(world), driver, context, lock, flags)
    {
      var o := Call(world, driver, context, lock, flags);
      err, world := o.err, o.world;
    }
  }

  // All drivers. contexts[i] is the driver that the i-th context of the list belongs to.

  predicate Linked(contexts: seq<nat>, w: World) {
    forall i :: 0 <= i < |contexts| ==> contexts[i] < |w.drivers|
  }

  /** Calls for the contexts from i on, up to the first refusal. */
  function Pass(w: World, contexts: seq<nat>, i: nat, lock: int, flags: nat): (r: Outcome)
    requires i <= |contexts| && Linked(contexts, w)
    ensures |r.world.drivers| == |w.drivers|
    decreases |contexts| - i
  {
    if i == |contexts| then Outcome(ERRNO_SUCCESS, w)
    else
      var o := Call(w, contexts[i], i, lock, flags);
      if o.err != ERRNO_SUCCESS then o else Pass(o.world, contexts, i + 1, lock, flags)
  }

  datatype Undone = Undone(errs: seq<int>, world: World)

  /** The release of every context from i on, whatever the calls return. */
  function Rollback(w: World, contexts: seq<nat>, i: nat): (r: Undone)
    requires i <= |contexts| && Linked(contexts, w)
    ensures |r.world.drivers| == |w.drivers| && |r.errs| == |contexts| - i
    decreases |contexts| - i
  {
    if i == |contexts| then Undone([], w)
    else
      var o := Call(w, contexts[i], i, LOCK_RELEASE, LOCK_PRESERVE);
      var rest := Rollback(o.world, contexts, i + 1);
      Undone([o.err] + rest.errs, rest.world)
  }

  /** Both passes together: the check, which is skipped under force, and the locking. */
  function Attempt(w: World, contexts: seq<nat>, lock: int, flags: nat): (r: Outcome)
    requires Linked(contexts, w)
    ensures |r.world.drivers| == |w.drivers|
  {
    if Forced(flags) || lock == LOCK_CHECK then Pass(w, contexts, 0, lock, flags)
    else
      var checked := Pass(w, contexts, 0, LOCK_CHECK, flags);
      if checked.err != ERRNO_SUCCESS then checked else Pass(checked.world, contexts, 0, lock, flags)
  }

  function Last(s: seq<int>): int
    requires s != []
  {
    s[|s| - 1]
  }

  /** ME_LockAll as a whole; the releases overwrite the error of a failed SET. */
  function Finish(w: World, contexts: seq<nat>, lock: int, flags: nat): (r: Outcome)
    requires Linked(contexts, w)
    ensures |r.world.drivers| == |w.drivers|
  {
    if contexts == [] then Outcome(ERRNO_NOT_OPEN, w)
    else
      var o := Attempt(w, contexts, lock, flags);
      if o.err == ERRNO_SUCCESS || lock != LOCK_SET then o
      else
        var undone := Rollback(o.world, contexts, 0);
        Outcome(Last(undone.errs), undone.world)
  }

  /** ME_LockAll. The error of a failed SET is overwritten by the releases, so that the last of them is returned. */
  method LockAll(kernel: Kernel, contexts: seq<nat>, lock: int, flags: nat) returns (err: int)
    requires Linked(contexts, kernel.world)
    modifies kernel
    ensures Outcome(err, kernel.world) == Finish(old(kernel.world), contexts, lock, flags)
  {
    hide Call, Pass, Rollback;
    err := ERRNO_SUCCESS;
    if contexts == [] {
      return ERRNO_NOT_OPEN;
    }
    if !Forced(flags) {
      if lock != LOCK_CHECK {
        err := MakePass(kernel, contexts, LOCK_CHECK, flags);
      }
    }
    if err == ERRNO_SUCCESS {
      err := MakePass(kernel, contexts, lock, flags);
    }
    if err != ERRNO_SUCCESS {
      if lock == LOCK_SET {
        err := ReleaseAll(kernel, contexts);
      }
    }
  }

  /** The loop that reverts the operation. */
  method ReleaseAll(kernel: Kernel, contexts: seq<nat>) returns (err: int)
    requires contexts != [] && Linked(contexts, kernel.world)
    modifies kernel
    ensures err == Last(Rollback(old(kernel.world), contexts, 0).errs)
    ensures kernel.world == Rollback(old(kernel.world), contexts, 0).world
  {
    hide Call;
    ghost var w, errs: seq<int> := kernel.world, [];
    err := ERRNO_SUCCESS;
    var i := 0;
    while i < |contexts|
      invariant 0 <= i <= |contexts| && Linked(contexts, kernel.world) && |errs| == i
      invariant i > 0 ==> err == Last(errs)
      invariant Rollback(w, contexts, 0).errs == errs + Rollback(kernel.world, contexts, i).errs
      invariant Rollback(w, contexts, 0).world == Rollback(kernel.world, contexts, i).world
    {
      err := kernel.LockDriver(contexts[i], i, LOCK_RELEASE, LOCK_PRESERVE);
      AppendPrepend(errs, err, Rollback(kernel.world, contexts, i + 1).errs);
      errs := errs + [err];
      i := i + 1;
    }
    assert errs + [] == errs;
  }

  /** One of the loops over the context list. */
  method MakePass(kernel: Kernel, contexts: seq<nat>, lock: int, flags: nat) returns (err: int)
    requires Linked(contexts, kernel.world)
    modifies kernel
    ensures Outcome(err, kernel.world) == Pass(old(kernel.world), contexts, 0, lock, flags)
    ensures |kernel.world.drivers| == |old(kernel.world).drivers|
  {
    hide Call;
    err := ERRNO_SUCCESS;
    var i := 0;
    while i < |contexts|
      invariant 0 <= i <= |contexts| && Linked(contexts, kernel.world) && err == ERRNO_SUCCESS
      invariant Pass(kernel.world, contexts, i, lock, flags) == Pass(old(kernel.world), contexts, 0, lock, flags)
      invariant |kernel.world.drivers| == |old(kernel.world).drivers|
    {
      err := kernel.LockDriver(contexts[i], i, lock, flags);
      if err != ERRNO_SUCCESS {
        break;
      }
      i := i + 1;
    }
  }

  // All or none.

  predicate IsMine(w: World, contexts: seq<nat>, i: nat)
    requires i < |contexts| && Linked(contexts, w)
  {
    w.drivers[contexts[i]].owner == Mine(i)
  }

  /** What happens meanwhile neither takes our locks nor gives us new ones. */
  lemma {:induction false} MeanwhileKeepsOwners(drivers: seq<Driver>, acts: seq<Act>, d: nat)
    requires d < |drivers|
    ensures drivers[d].owner.Mine? ==> Meanwhile(drivers, acts)[d].owner == drivers[d].owner
    ensures Meanwhile(drivers, acts)[d].owner.Mine? ==> drivers[d].owner.Mine?
    decreases |acts|
  {
    if acts == [] {
    } else {
      var i := acts[0].driver;
      MeanwhileKeepsOwners(if i < |drivers| then drivers[i := Changed(drivers[i], acts[0])] else drivers, acts[1..], d);
    }
  }

  /** A call changes the ownership of its own driver only. */
  lemma CallOwners(w: World, driver: nat, context: nat, lock: int, flags: nat, d: nat)
    requires driver < |w.drivers| && d < |w.drivers|
    ensures var o, was := Call(w, driver, context, lock, flags), w.drivers[d].owner;
            var now := o.world.drivers[d].owner;
            && (d != driver || o.err != ERRNO_SUCCESS || lock == LOCK_CHECK ==>
                (was.Mine? ==> now == was) && (now.Mine? ==> was.Mine?))
            && (d == driver && o.err == ERRNO_SUCCESS && lock == LOCK_SET ==>
                now == Mine(context) && (Forced(flags) || !was.Mine? || was == Mine(context)))
            && (d == driver && o.err == ERRNO_SUCCESS && lock == LOCK_RELEASE ==>
                now == Nobody && (Forced(flags) || !was.Mine? || was == Mine(context)))
  {
    if w.script != [] {
      MeanwhileKeepsOwners(w.drivers, w.script[0], d);
    }
  }

  /** If no call is refused, every context has locked its driver; under force only if no two contexts share a driver,
      because then the later one takes the lock over. */
  lemma {:induction false} SetLocksAll(w: World, contexts: seq<nat>, i: nat, flags: nat)
    requires i <= |contexts| && Linked(contexts, w) && (Forced(flags) ==> NoTwice(contexts))
    requires forall j :: 0 <= j < i ==> IsMine(w, contexts, j)
    requires Pass(w, contexts, i, LOCK_SET, flags).err == ERRNO_SUCCESS
    ensures forall j :: 0 <= j < |contexts| ==> IsMine(Pass(w, contexts, i, LOCK_SET, flags).world, contexts, j)
    decreases |contexts| - i
  {
    hide Call;
    if i == |contexts| {
    } else {
      var o := Call(w, contexts[i], i, LOCK_SET, flags);
      assert o.err == ERRNO_SUCCESS;
      forall j | 0 <= j <= i ensures IsMine(o.world, contexts, j) {
        assert j < i ==> IsMine(w, contexts, j);
        CallOwners(w, contexts[i], i, LOCK_SET, flags, contexts[j]);
      }
      SetLocksAll(o.world, contexts, i + 1, flags);
    }
  }

  /** A context holds its lock after the releases exactly if it held it before and its release was refused. */
  lemma {:induction false} RollbackReleases(w: World, contexts: seq<nat>, i: nat, j: nat)
    requires i <= |contexts| && j < |contexts| && Linked(contexts, w)
    ensures IsMine(Rollback(w, contexts, i).world, contexts, j) <==>
            IsMine(w, contexts, j) && (j >= i ==> Rollback(w, contexts, i).errs[j - i] != ERRNO_SUCCESS)
    decreases |contexts| - i
  {
    hide Call;
    if i == |contexts| {
    } else {
      var o := Call(w, contexts[i], i, LOCK_RELEASE, LOCK_PRESERVE);
      CallOwners(w, contexts[i], i, LOCK_RELEASE, LOCK_PRESERVE, contexts[j]);
      RollbackReleases(o.world, contexts, i + 1, j);
    }
  }

  /** What a SET leaves behind. If both passes succeed, every context has locked its driver, unless it was forced and
      two contexts share a driver. Otherwise exactly those contexts hold a lock that held it before the releases and
      whose release was refused. */
  lemma AllOrNone(w: World, contexts: seq<nat>, flags: nat)
    requires contexts != [] && Linked(contexts, w)
    ensures var o := Attempt(w, contexts, LOCK_SET, flags);
            var undone := Rollback(o.world, contexts, 0);
            if o.err == ERRNO_SUCCESS then AllMine(o.world, contexts) <==> (Forced(flags) ==> NoTwice(contexts))
            else forall i :: 0 <= i < |contexts| ==>
                   (IsMine(undone.world, contexts, i)
                    <==> IsMine(o.world, contexts, i) && undone.errs[i] != ERRNO_SUCCESS)
  {
    hide Pass, Rollback;
    var o := Attempt(w, contexts, LOCK_SET, flags);
    if o.err == ERRNO_SUCCESS && Forced(flags) && !NoTwice(contexts) {
      var i, j :| 0 <= i < j < |contexts| && contexts[i] == contexts[j];
      assert !IsMine(o.world, contexts, i) || !IsMine(o.world, contexts, j);
    } else if o.err == ERRNO_SUCCESS {
      SetLocksAll(if Forced(flags) then w else Pass(w, contexts, 0, LOCK_CHECK, flags).world, contexts, 0, flags);
    } else {
      forall i | 0 <= i < |contexts|
        ensures IsMine(Rollback(o.world, contexts, 0).world, contexts, i)
                <==> IsMine(o.world, contexts, i) && Rollback(o.world, contexts, 0).errs[i] != ERRNO_SUCCESS {
        RollbackReleases(o.world, contexts, 0, i);
      }
    }
  }

  // Which locks survive a SET that is not forced.

  predicate ByOthers(script: seq<seq<Act>>) {
    forall t, k :: 0 <= t < |script| && 0 <= k < |script[t]| ==> !script[t][k].OwnUse?
  }

  /** A driver that cannot be unlocked on behalf of its owner. */
  predicate InUse(d: Driver, context: nat) {
    d.count > 0 || LowerError(d.devices, context) != ERRNO_SUCCESS
  }

  /** Context i holds its driver, and the driver is in use. */
  predicate Stuck(w: World, contexts: seq<nat>, i: nat)
    requires i < |contexts| && Linked(contexts, w)
  {
    IsMine(w, contexts, i) && InUse(w.drivers[contexts[i]], i)
  }

  /** Other processes change nothing of a driver we hold. */
  lemma {:induction false} MeanwhileKeepsMine(drivers: seq<Driver>, acts: seq<Act>, d: nat)
    requires d < |drivers| && forall k :: 0 <= k < |acts| ==> !acts[k].OwnUse?
    ensures drivers[d].owner.Mine? ==> Meanwhile(drivers, acts)[d] == drivers[d]
    ensures Meanwhile(drivers, acts)[d].owner.Mine? ==> drivers[d].owner.Mine?
    decreases |acts|
  {
    if acts == [] {
    } else {
      var i := acts[0].driver;
      var next := if i < |drivers| then drivers[i := Changed(drivers[i], acts[0])] else drivers;
      MeanwhileKeepsMine(next, acts[1..], d);
    }
  }

  /** No call makes a lock stuck or loose: a driver is locked only while it is idle, and unlocked only then. */
  lemma CallKeepsStuck(w: World, contexts: seq<nat>, i: nat, lock: int, flags: nat, j: nat)
    requires i < |contexts| && j < |contexts| && Linked(contexts, w) && ByOthers(w.script) && !Forced(flags)
    requires lock == LOCK_CHECK || lock == LOCK_SET || (lock == LOCK_RELEASE && flags == LOCK_PRESERVE)
    ensures var o := Call(w, contexts[i], i, lock, flags);
            && ByOthers(o.world.script)
            && (Stuck(o.world, contexts, j) <==> Stuck(w, contexts, j))
            && (lock == LOCK_RELEASE ==> (IsMine(o.world, contexts, i) <==> Stuck(w, contexts, i)))
  {
    hide Meanwhile, LowerError;
    if w.script != [] {
      MeanwhileKeepsMine(w.drivers, w.script[0], contexts[i]);
      MeanwhileKeepsMine(w.drivers, w.script[0], contexts[j]);
    }
  }

  lemma {:induction false} PassKeepsStuck(w: World, contexts: seq<nat>, i: nat, lock: int, flags: nat, j: nat)
    requires i <= |contexts| && j < |contexts| && Linked(contexts, w) && ByOthers(w.script) && !Forced(flags)
    requires lock == LOCK_CHECK || lock == LOCK_SET
    ensures var o := Pass(w, contexts, i, lock, flags);
            ByOthers(o.world.script) && (Stuck(o.world, contexts, j) <==> Stuck(w, contexts, j))
    decreases |contexts| - i
  {
    hide Call, Stuck, Forced, ByOthers;
    if i == |contexts| {
    } else {
      CallKeepsStuck(w, contexts, i, lock, flags, j);
      var o := Call(w, contexts[i], i, lock, flags);
      if o.err == ERRNO_SUCCESS {
        PassKeepsStuck(o.world, contexts, i + 1, lock, flags, j);
      }
    }
  }

  /** The releases leave exactly the stuck locks. */
  lemma {:induction false} RollbackLeavesStuck(w: World, contexts: seq<nat>, i: nat, j: nat)
    requires i <= |contexts| && j < |contexts| && Linked(contexts, w) && ByOthers(w.script)
    requires j < i && IsMine(w, contexts, j) ==> Stuck(w, contexts, j)
    ensures IsMine(Rollback(w, contexts, i).world, contexts, j) <==> Stuck(w, contexts, j)
    decreases |contexts| - i
  {
    hide Call, InUse, ByOthers;
    if i == |contexts| {
    } else {
      CallKeepsStuck(w, contexts, i, LOCK_RELEASE, LOCK_PRESERVE, j);
      CallOwners(w, contexts[i], i, LOCK_RELEASE, LOCK_PRESERVE, contexts[j]);
      RollbackLeavesStuck(Call(w, contexts[i], i, LOCK_RELEASE, LOCK_PRESERVE).world, contexts, i + 1, j);
    }
  }

  /** After a refused SET, forced or not, a context holds its driver exactly if it held it before the releases and the
      driver was in use. */
  lemma SurvivesReleases(w: World, contexts: seq<nat>, flags: nat, i: nat)
    requires i < |contexts| && Linked(contexts, w) && ByOthers(Attempt(w, contexts, LOCK_SET, flags).world.script)
    requires Attempt(w, contexts, LOCK_SET, flags).err != ERRNO_SUCCESS
    ensures IsMine(Finish(w, contexts, LOCK_SET, flags).world, contexts, i) <==>
            Stuck(Attempt(w, contexts, LOCK_SET, flags).world, contexts, i)
  {
    hide Attempt, Rollback, Stuck, ByOthers;
    RollbackLeavesStuck(Attempt(w, contexts, LOCK_SET, flags).world, contexts, 0, i);
  }

  /** After a refused SET that is not forced, a context holds its driver exactly if it held it before the call and the
      driver was in use: the locks it took are undone, and of those it had before only the ones in use are left. */
  lemma Survivors(w: World, contexts: seq<nat>, flags: nat, i: nat)
    requires i < |contexts| && Linked(contexts, w) && ByOthers(w.script) && !Forced(flags)
    requires Attempt(w, contexts, LOCK_SET, flags).err != ERRNO_SUCCESS
    ensures IsMine(Finish(w, contexts, LOCK_SET, flags).world, contexts, i) <==> Stuck(w, contexts, i)
  {
    hide Pass, Rollback, Stuck, Forced, ByOthers;
    PassKeepsStuck(w, contexts, 0, LOCK_CHECK, flags, i);
    PassKeepsStuck(Pass(w, contexts, 0, LOCK_CHECK, flags).world, contexts, 0, LOCK_SET, flags, i);
    SurvivesReleases(w, contexts, flags, i);
  }

  predicate AllMine(w: World, contexts: seq<nat>)
    requires Linked(contexts, w)
  {
    forall i :: 0 <= i < |contexts| ==> IsMine(w, contexts, i)
  }

  predicate NoneMine(w: World, contexts: seq<nat>)
    requires Linked(contexts, w)
  {
    forall i :: 0 <= i < |contexts| ==> !IsMine(w, contexts, i)
  }

  predicate AllStuck(w: World, contexts: seq<nat>)
    requires Linked(contexts, w)
  {
    forall i :: 0 <= i < |contexts| ==> Stuck(w, contexts, i)
  }

  predicate NoneStuck(w: World, contexts: seq<nat>)
    requires Linked(contexts, w)
  {
    forall i :: 0 <= i < |contexts| ==> !Stuck(w, contexts, i)
  }

  /** Whatever other processes do: a SET that is not forced is all or none exactly if, before the call, no context or
      every context held a driver in use. */
  lemma AllOrNoneExactly(w: World, contexts: seq<nat>, flags: nat)
    requires contexts != [] && Linked(contexts, w) && ByOthers(w.script) && !Forced(flags)
    ensures var after := Finish(w, contexts, LOCK_SET, flags).world;
            AllMine(after, contexts) || NoneMine(after, contexts) <==> NoneStuck(w, contexts) || AllStuck(w, contexts)
  {
    hide Attempt, Rollback, Stuck, Forced, ByOthers;
    AllOrNone(w, contexts, flags);
    if Attempt(w, contexts, LOCK_SET, flags).err == ERRNO_SUCCESS {
      forall i | 0 <= i < |contexts| ensures !Stuck(w, contexts, i) {
        if Stuck(w, contexts, i) {
          StuckIsRefused(w, contexts, flags, i);
        }
      }
    } else {
      forall i | 0 <= i < |contexts|
        ensures IsMine(Finish(w, contexts, LOCK_SET, flags).world, contexts, i) <==> Stuck(w, contexts, i) {
        Survivors(w, contexts, flags, i);
      }
    }
  }

  /** A driver in use is not locked again, not even by its owner. */
  lemma StuckIsRefused(w: World, contexts: seq<nat>, flags: nat, i: nat)
    requires i < |contexts| && Linked(contexts, w) && ByOthers(w.script) && !Forced(flags) && Stuck(w, contexts, i)
    ensures Attempt(w, contexts, LOCK_SET, flags).err != ERRNO_SUCCESS
  {
    hide Pass, Stuck, Forced, ByOthers;
    PassKeepsStuck(w, contexts, 0, LOCK_CHECK, flags, i);
    StuckStopsPass(Pass(w, contexts, 0, LOCK_CHECK, flags).world, contexts, 0, flags, i);
  }

  lemma {:induction false} StuckStopsPass(w: World, contexts: seq<nat>, i: nat, flags: nat, j: nat)
    requires i <= j < |contexts| && Linked(contexts, w) && ByOthers(w.script) && !Forced(flags) && Stuck(w, contexts, j)
    ensures Pass(w, contexts, i, LOCK_SET, flags).err != ERRNO_SUCCESS
    decreases j - i
  {
    CallKeepsStuck(w, contexts, i, LOCK_SET, flags, j);
    if i == j {
      if w.script != [] {
        MeanwhileKeepsMine(w.drivers, w.script[0], contexts[j]);
      }
    } else {
      StuckStopsPass(Call(w, contexts[i], i, LOCK_SET, flags).world, contexts, i + 1, flags, j);
    }
  }

  /** As long as no driver that we hold is in use, a SET locks every driver or leaves none locked, also none that we
      held before. */
  lemma AllOrNoneUndisturbed(w: World, contexts: seq<nat>, flags: nat)
    requires contexts != [] && Linked(contexts, w) && ByOthers(w.script) && !Forced(flags)
    requires NoneStuck(w, contexts)
    ensures var after := Finish(w, contexts, LOCK_SET, flags).world;
            AllMine(after, contexts) || NoneMine(after, contexts)
  {
    AllOrNoneExactly(w, contexts, flags);
  }

  /** Neither all nor none: we hold the first driver, which is in use, and somebody else holds the second one. */
  lemma PartlyLocked(count: nat)
    requires count > 0
    ensures var w, contexts := World([Driver(Mine(0), count, []), Driver(Others, 0, [])], []), [0, 1];
            var after := Finish(w, contexts, LOCK_SET, 0).world;
            Linked(contexts, w) && IsMine(after, contexts, 0) && !IsMine(after, contexts, 1)
  {
    var w, contexts: seq<nat> := World([Driver(Mine(0), count, []), Driver(Others, 0, [])], []), [0, 1];
    assert Stuck(w, contexts, 0) && !Stuck(w, contexts, 1);
    StuckIsRefused(w, contexts, 0, 0);
    Survivors(w, contexts, 0, 0);
    Survivors(w, contexts, 0, 1);
  }

  // What the return code of a refused SET means.

  predicate Untouched(script: seq<seq<Act>>, d: nat) {
    forall t, k :: 0 <= t < |script| && 0 <= k < |script[t]| ==> script[t][k].driver != d
  }

  /** The driver of the last context will be free when its release comes: nobody holds it, or a context of the list
      that can release it, and no operation and no lock below it is in the way. */
  predicate WillBeFree(d: Driver, driver: nat, contexts: seq<nat>)
    requires contexts != []
  {
    && !InUse(d, |contexts| - 1)
    && match d.owner
       case Nobody => true
       case Mine(c) => c < |contexts| && contexts[c] == driver && !InUse(d, c)
       case Others => false
  }

  lemma {:induction false} MeanwhileUntouched(drivers: seq<Driver>, acts: seq<Act>, d: nat)
    requires d < |drivers| && forall k :: 0 <= k < |acts| ==> acts[k].driver != d
    ensures Meanwhile(drivers, acts)[d] == drivers[d]
    decreases |acts|
  {
    if acts == [] {
    } else {
      var i := acts[0].driver;
      var next := if i < |drivers| then drivers[i := Changed(drivers[i], acts[0])] else drivers;
      MeanwhileUntouched(next, acts[1..], d);
    }
  }

  lemma CallKeepsFree(w: World, contexts: seq<nat>, i: nat, lock: int, flags: nat, d: nat)
    requires i < |contexts| && Linked(contexts, w) && d < |w.drivers| && Untouched(w.script, d) && !Forced(flags)
    requires lock == LOCK_CHECK || lock == LOCK_SET || (lock == LOCK_RELEASE && flags == LOCK_PRESERVE)
    ensures var o := Call(w, contexts[i], i, lock, flags);
            && Untouched(o.world.script, d)
            && (WillBeFree(o.world.drivers[d], d, contexts) <==> WillBeFree(w.drivers[d], d, contexts))
            && (contexts[i] != d ==> o.world.drivers[d] == w.drivers[d])
            && (contexts[i] == d ==> o.err == Refusal(w.drivers[d], i, lock, flags))
            && (contexts[i] == d ==> o.world.drivers[d] == AfterLock(w.drivers[d], i, lock, flags))
  {
    hide Meanwhile, LowerError;
    if w.script != [] {
      MeanwhileUntouched(w.drivers, w.script[0], d);
    }
  }

  lemma {:induction false} PassKeepsFree(w: World, contexts: seq<nat>, i: nat, lock: int, flags: nat, d: nat)
    requires contexts != [] && i <= |contexts| && Linked(contexts, w) && d < |w.drivers| && Untouched(w.script, d)
    requires !Forced(flags)
    requires lock == LOCK_CHECK || lock == LOCK_SET
    ensures var o := Pass(w, contexts, i, lock, flags);
            Untouched(o.world.script, d)
                && (WillBeFree(o.world.drivers[d], d, contexts) <==> WillBeFree(w.drivers[d], d, contexts))
    decreases |contexts| - i
  {
    hide Call, WillBeFree, Forced, Untouched, Refusal, AfterLock;
    if i == |contexts| {
    } else {
      CallKeepsFree(w, contexts, i, lock, flags, d);
      var o := Call(w, contexts[i], i, lock, flags);
      if o.err == ERRNO_SUCCESS {
        PassKeepsFree(o.world, contexts, i + 1, lock, flags, d);
      }
    }
  }

  /** The last release succeeds exactly if the driver would be free by then. */
  lemma {:induction false} LastRelease(w: World, contexts: seq<nat>, i: nat)
    requires i < |contexts| && Linked(contexts, w)
    requires var d := contexts[|contexts| - 1];
             && Untouched(w.script, d)
             && (WillBeFree(w.drivers[d], d, contexts) && w.drivers[d].owner.Mine? ==> w.drivers[d].owner.context >= i)
    ensures var d := contexts[|contexts| - 1];
            Last(Rollback(w, contexts, i).errs) == ERRNO_SUCCESS <==> WillBeFree(w.drivers[d], d, contexts)
    decreases |contexts| - i
  {
    hide Call, LowerError, Untouched;
    var d := contexts[|contexts| - 1];
    CallKeepsFree(w, contexts, i, LOCK_RELEASE, LOCK_PRESERVE, d);
    if i == |contexts| - 1 {
      assert Rollback(w, contexts, i + 1).errs == [];
    } else {
      LastRelease(Call(w, contexts[i], i, LOCK_RELEASE, LOCK_PRESERVE).world, contexts, i + 1);
    }
  }

  /** Whatever happens to the other drivers: a refused SET that is not forced returns SUCCESS exactly if, before the
      call, the driver of the last context was free or going to be freed by the releases. */
  lemma RefusedReturnsSuccess(w: World, contexts: seq<nat>, flags: nat)
    requires contexts != [] && Linked(contexts, w) && !Forced(flags)
    requires Untouched(w.script, contexts[|contexts| - 1])
    requires Attempt(w, contexts, LOCK_SET, flags).err != ERRNO_SUCCESS
    ensures var d := contexts[|contexts| - 1];
            Finish(w, contexts, LOCK_SET, flags).err == ERRNO_SUCCESS <==> WillBeFree(w.drivers[d], d, contexts)
  {
    hide Pass, Rollback, WillBeFree, Forced, Untouched;
    var d := contexts[|contexts| - 1];
    PassKeepsFree(w, contexts, 0, LOCK_CHECK, flags, d);
    PassKeepsFree(Pass(w, contexts, 0, LOCK_CHECK, flags).world, contexts, 0, LOCK_SET, flags, d);
    LastRelease(Attempt(w, contexts, LOCK_SET, flags).world, contexts, 0);
  }

  // When nobody acts meanwhile, all of this can be told before the call.

  /** The context can lock its driver. */
  predicate Lockable(w: World, contexts: seq<nat>, i: nat)
    requires i < |contexts| && Linked(contexts, w)
  {
    var d := w.drivers[contexts[i]];
    !Excludes(d.owner, i) && !InUse(d, i)
  }

  /** The contexts from i on can lock their drivers, and no two of them share one. */
  predicate LockableFrom(w: World, contexts: seq<nat>, i: nat)
    requires i <= |contexts| && Linked(contexts, w)
  {
    (forall j :: i <= j < |contexts| ==> Lockable(w, contexts, j)) && NoTwice(contexts[i..])
  }

  lemma LockableStep(w: World, contexts: seq<nat>, i: nat, flags: nat)
    requires i < |contexts| && Linked(contexts, w) && w.script == [] && !Forced(flags)
    ensures var o := Call(w, contexts[i], i, LOCK_SET, flags);
            && o.world.script == []
            && (o.err == ERRNO_SUCCESS <==> Lockable(w, contexts, i))
            && (o.err == ERRNO_SUCCESS ==> (LockableFrom(o.world, contexts, i + 1) <==> LockableFrom(w, contexts, i)))
  {
    hide LowerError;
    var o, rest := Call(w, contexts[i], i, LOCK_SET, flags), contexts[i + 1..];
    assert contexts[i..] == [contexts[i]] + rest;
    forall j | i < j < |contexts| && o.err == ERRNO_SUCCESS
      ensures Lockable(o.world, contexts, j) <==> Lockable(w, contexts, j) && contexts[j] != contexts[i] {
    }
    assert forall j :: i < j < |contexts| ==> contexts[j] == rest[j - i - 1];
    assert forall j :: 0 <= j < |rest| ==> contexts[i + 1 + j] == rest[j];
  }

  lemma {:induction false} SetSucceeds(w: World, contexts: seq<nat>, i: nat, flags: nat)
    requires i <= |contexts| && Linked(contexts, w) && w.script == [] && !Forced(flags)
    ensures Pass(w, contexts, i, LOCK_SET, flags).err == ERRNO_SUCCESS <==> LockableFrom(w, contexts, i)
    decreases |contexts| - i
  {
    hide Call, Lockable, Forced;
    if i == |contexts| {
    } else {
      LockableStep(w, contexts, i, flags);
      var o := Call(w, contexts[i], i, LOCK_SET, flags);
      if o.err == ERRNO_SUCCESS {
        SetSucceeds(o.world, contexts, i + 1, flags);
      }
    }
  }

  lemma {:induction false} CheckSucceeds(w: World, contexts: seq<nat>, i: nat, flags: nat)
    requires i <= |contexts| && Linked(contexts, w) && w.script == [] && !Forced(flags)
    ensures Pass(w, contexts, i, LOCK_CHECK, flags).world == w
    ensures (forall j :: i <= j < |contexts| ==> Lockable(w, contexts, j)) ==>
            Pass(w, contexts, i, LOCK_CHECK, flags).err == ERRNO_SUCCESS
    decreases |contexts| - i
  {
    hide LowerError, Forced;
    if i == |contexts| {
    } else {
      var d := contexts[i];
      assert w.drivers[d := w.drivers[d]] == w.drivers;
      assert Lockable(w, contexts, i) ==> Refusal(w.drivers[d], i, LOCK_CHECK, flags) == ERRNO_SUCCESS;
      CheckSucceeds(w, contexts, i + 1, flags);
    }
  }

  /** A SET is accepted exactly if every context can lock its driver and no two contexts share one. */
  lemma AcceptedExactly(w: World, contexts: seq<nat>, flags: nat)
    requires Linked(contexts, w) && w.script == [] && !Forced(flags)
    ensures Attempt(w, contexts, LOCK_SET, flags).err == ERRNO_SUCCESS <==> LockableFrom(w, contexts, 0)
  {
    hide Pass, Lockable, Forced;
    CheckSucceeds(w, contexts, 0, flags);
    SetSucceeds(w, contexts, 0, flags);
  }

  /** SUCCESS means that every context has locked its driver, exactly if this was possible or the driver of the last
      context was not going to be free. */
  lemma SuccessMeansLocked(w: World, contexts: seq<nat>, flags: nat)
    requires contexts != [] && Linked(contexts, w) && w.script == [] && !Forced(flags)
    ensures var o, d := Finish(w, contexts, LOCK_SET, flags), contexts[|contexts| - 1];
            (o.err == ERRNO_SUCCESS ==> AllMine(o.world, contexts))
            <==> LockableFrom(w, contexts, 0) || !WillBeFree(w.drivers[d], d, contexts)
  {
    hide Pass, Attempt, Rollback, WillBeFree, LockableFrom, Forced, Stuck;
    var last := |contexts| - 1;
    var d := contexts[last];
    AcceptedExactly(w, contexts, flags);
    if LockableFrom(w, contexts, 0) {
      AllOrNone(w, contexts, flags);
    } else {
      RefusedReturnsSuccess(w, contexts, flags);
      if WillBeFree(w.drivers[d], d, contexts) {
        Survivors(w, contexts, flags, last);
        FreeIsNotStuck(w, contexts);
      }
    }
  }

  lemma FreeIsNotStuck(w: World, contexts: seq<nat>)
    requires contexts != [] && Linked(contexts, w)
    requires var d := contexts[|contexts| - 1]; WillBeFree(w.drivers[d], d, contexts)
    ensures !Stuck(w, contexts, |contexts| - 1)
  {
  }

  /** For instance: the first driver is in use and the second one is free, SET returns SUCCESS, and nothing is
      locked. */
  lemma SuccessWithoutLock(count: nat)
    requires count > 0
    ensures var w, contexts := World([Driver(Nobody, count, []), Driver(Nobody, 0, [])], []), [0, 1];
            && Linked(contexts, w)
            && var o := Finish(w, contexts, LOCK_SET, 0);
               o.err == ERRNO_SUCCESS && NoneMine(o.world, contexts)
  {
    var w, contexts: seq<nat> := World([Driver(Nobody, count, []), Driver(Nobody, 0, [])], []), [0, 1];
    assert !Lockable(w, contexts, 0) && WillBeFree(w.drivers[1], 1, contexts);
    AcceptedExactly(w, contexts, 0);
    RefusedReturnsSuccess(w, contexts, 0);
    Survivors(w, contexts, 0, 0);
    Survivors(w, contexts, 0, 1);
  }

  /** Checking locks and unlocks nothing. */
  lemma {:induction false} CheckChangesNoLock(w: World, contexts: seq<nat>, i: nat, flags: nat, j: nat)
    requires i <= |contexts| && j < |contexts| && Linked(contexts, w)
    ensures IsMine(Pass(w, contexts, i, LOCK_CHECK, flags).world, contexts, j) <==> IsMine(w, contexts, j)
    decreases |contexts| - i
  {
    hide Call;
    if i == |contexts| {
    } else {
      var o := Call(w, contexts[i], i, LOCK_CHECK, flags);
      CallOwners(w, contexts[i], i, LOCK_CHECK, flags, contexts[j]);
      if o.err == ERRNO_SUCCESS {
        CheckChangesNoLock(o.world, contexts, i + 1, flags, j);
      }
    }
  }
  // A forced SET, when nobody acts meanwhile. It asks neither who holds a driver nor for the locks below it.

  /** The first context from i on whose driver has operations under way: the pass gets so far. */
  function Reach(w: World, contexts: seq<nat>, i: nat): (r: nat)
    requires i <= |contexts| && Linked(contexts, w)
    ensures i <= r <= |contexts|
    ensures forall k :: i <= k < r ==> w.drivers[contexts[k]].count == 0
    ensures r < |contexts| ==> w.drivers[contexts[r]].count > 0
    decreases |contexts| - i
  {
    if i == |contexts| || w.drivers[contexts[i]].count > 0 then i else Reach(w, contexts, i + 1)
  }

  /** Who holds driver d after the contexts from i up to n have taken their drivers, from `was` on. */
  function OwnerAfter(contexts: seq<nat>, i: nat, n: nat, d: nat, was: Owner): Owner
    requires n <= |contexts|
  {
    if n <= i then was
    else if contexts[n - 1] == d then Mine(n - 1)
    else OwnerAfter(contexts, i, n - 1, d, was)
  }

  lemma {:induction false} FirstTaker(contexts: seq<nat>, i: nat, n: nat, d: nat, was: Owner)
    requires i < n <= |contexts|
    ensures OwnerAfter(contexts, i, n, d, was)
            == OwnerAfter(contexts, i + 1, n, d, if contexts[i] == d then Mine(i) else was)
    decreases n
  {
    if n == i + 1 {
    } else {
      FirstTaker(contexts, i, n - 1, d, was);
    }
  }

  /** The last taker holds the driver, or, without a taker, whoever held it. */
  lemma {:induction false} HolderAfter(contexts: seq<nat>, n: nat, j: nat, was: Owner)
    requires n <= |contexts| && j < |contexts|
    ensures OwnerAfter(contexts, 0, n, contexts[j], was) == Mine(j) <==>
            if j < n then forall k :: j < k < n ==> contexts[k] != contexts[j]
            else was == Mine(j) && forall k :: 0 <= k < n ==> contexts[k] != contexts[j]
  {
    if n == 0 {
    } else {
      HolderAfter(contexts, n - 1, j, was);
    }
  }

  lemma {:induction false} ReachIgnoresOwners(w: World, v: World, contexts: seq<nat>, i: nat)
    requires i <= |contexts| && Linked(contexts, w) && Linked(contexts, v)
    requires forall k :: 0 <= k < |contexts| ==> w.drivers[contexts[k]].count == v.drivers[contexts[k]].count
    ensures Reach(w, contexts, i) == Reach(v, contexts, i)
    decreases |contexts| - i
  {
    if i == |contexts| {
    } else {
      ReachIgnoresOwners(w, v, contexts, i + 1);
    }
  }

  /** The forced pass takes every driver up to the first one with operations under way. */
  lemma {:induction false} ForcedPass(w: World, contexts: seq<nat>, i: nat, flags: nat, d: nat)
    requires i <= |contexts| && Linked(contexts, w) && w.script == [] && Forced(flags) && d < |w.drivers|
    ensures var o, n := Pass(w, contexts, i, LOCK_SET, flags), Reach(w, contexts, i);
            && o.world.script == []
            && (o.err == ERRNO_SUCCESS <==> n == |contexts|)
            && o.world.drivers[d] == w.drivers[d].(owner := OwnerAfter(contexts, i, n, d, w.drivers[d].owner))
    decreases |contexts| - i
  {
    hide Forced;
    if i == |contexts| {
    } else {
      var o := Call(w, contexts[i], i, LOCK_SET, flags);
      if o.err == ERRNO_SUCCESS {
        ReachIgnoresOwners(w, o.world, contexts, i + 1);
        ForcedPass(o.world, contexts, i + 1, flags, d);
        FirstTaker(contexts, i, Reach(w, contexts, i), d, w.drivers[d].owner);
      }
    }
  }

  /** Context i holds its driver when a forced SET is refused, and cannot release it. */
  predicate Left(w: World, contexts: seq<nat>, i: nat)
    requires i < |contexts| && Linked(contexts, w)
  {
    var d := w.drivers[contexts[i]];
    OwnerAfter(contexts, 0, Reach(w, contexts, 0), contexts[i], d.owner) == Mine(i) && InUse(d, i)
  }

  predicate AllLeft(w: World, contexts: seq<nat>)
    requires Linked(contexts, w)
  {
    forall i :: 0 <= i < |contexts| ==> Left(w, contexts, i)
  }

  predicate NoneLeft(w: World, contexts: seq<nat>)
    requires Linked(contexts, w)
  {
    forall i :: 0 <= i < |contexts| ==> !Left(w, contexts, i)
  }

  /** No driver of the list has operations under way. */
  predicate NoCounts(w: World, contexts: seq<nat>)
    requires Linked(contexts, w)
  {
    forall k :: 0 <= k < |contexts| ==> w.drivers[contexts[k]].count == 0
  }

  /** A forced SET is accepted exactly if no driver of the list has operations under way. */
  lemma ForcedAcceptedExactly(w: World, contexts: seq<nat>, flags: nat)
    requires Linked(contexts, w) && w.script == [] && Forced(flags)
    ensures Attempt(w, contexts, LOCK_SET, flags).err == ERRNO_SUCCESS <==>
            NoCounts(w, contexts)
  {
    hide Forced;
    if contexts != [] {
      ForcedPass(w, contexts, 0, flags, contexts[0]);
    }
  }

  /** After a refused forced SET, exactly these contexts hold their drivers. */
  lemma ForcedSurvivors(w: World, contexts: seq<nat>, flags: nat, i: nat)
    requires i < |contexts| && Linked(contexts, w) && w.script == [] && Forced(flags)
    requires Attempt(w, contexts, LOCK_SET, flags).err != ERRNO_SUCCESS
    ensures IsMine(Finish(w, contexts, LOCK_SET, flags).world, contexts, i) <==> Left(w, contexts, i)
  {
    hide Pass, Finish, Forced, Reach, LowerError;
    ForcedPass(w, contexts, 0, flags, contexts[i]);
    SurvivesReleases(w, contexts, flags, i);
  }

  /** If no two contexts share a driver, these are the contexts whose driver is in use, and that held it before the call
      or come before every context whose driver has operations under way. */
  lemma ForcedSurvivorsApart(w: World, contexts: seq<nat>, flags: nat, i: nat)
    requires i < |contexts| && Linked(contexts, w) && w.script == [] && Forced(flags) && NoTwice(contexts)
    requires Attempt(w, contexts, LOCK_SET, flags).err != ERRNO_SUCCESS
    ensures IsMine(Finish(w, contexts, LOCK_SET, flags).world, contexts, i) <==>
            && InUse(w.drivers[contexts[i]], i)
            && (IsMine(w, contexts, i) || forall k :: 0 <= k <= i ==> w.drivers[contexts[k]].count == 0)
  {
    hide Attempt, Finish, Forced, InUse;
    ForcedSurvivors(w, contexts, flags, i);
    HolderAfter(contexts, Reach(w, contexts, 0), i, w.drivers[contexts[i]].owner);
  }

  /** A forced SET is all or none exactly in these cases: it is accepted and no two contexts share a driver, or it is
      refused and leaves its driver to no context or to every context. */
  lemma ForcedAllOrNoneExactly(w: World, contexts: seq<nat>, flags: nat)
    requires contexts != [] && Linked(contexts, w) && w.script == [] && Forced(flags)
    ensures var after := Finish(w, contexts, LOCK_SET, flags).world;
            AllMine(after, contexts) || NoneMine(after, contexts) <==>
            if NoCounts(w, contexts) then NoTwice(contexts) else AllLeft(w, contexts) || NoneLeft(w, contexts)
  {
    hide Attempt, Rollback, Forced, Left, NoTwice;
    ForcedAcceptedExactly(w, contexts, flags);
    AllOrNone(w, contexts, flags);
    if Attempt(w, contexts, LOCK_SET, flags).err == ERRNO_SUCCESS {
      LastHolds(w, contexts, flags);
    } else {
      forall i | 0 <= i < |contexts|
        ensures IsMine(Finish(w, contexts, LOCK_SET, flags).world, contexts, i) <==> Left(w, contexts, i) {
        ForcedSurvivors(w, contexts, flags, i);
      }
    }
  }

  lemma LastHolds(w: World, contexts: seq<nat>, flags: nat)
    requires contexts != [] && Linked(contexts, w) && w.script == [] && Forced(flags)
    requires Attempt(w, contexts, LOCK_SET, flags).err == ERRNO_SUCCESS
    ensures IsMine(Attempt(w, contexts, LOCK_SET, flags).world, contexts, |contexts| - 1)
  {
    hide Pass, Forced;
    var last := |contexts| - 1;
    ForcedPass(w, contexts, 0, flags, contexts[last]);
    HolderAfter(contexts, |contexts|, last, w.drivers[contexts[last]].owner);
  }

  /** The driver of the last context when a forced SET is refused. */
  function LastDriver(w: World, contexts: seq<nat>): Driver
    requires contexts != [] && Linked(contexts, w)
  {
    var d := contexts[|contexts| - 1];
    w.drivers[d].(owner := OwnerAfter(contexts, 0, Reach(w, contexts, 0), d, w.drivers[d].owner))
  }

  /** A refused forced SET returns SUCCESS exactly if the driver of the last context, with the owner the pass has left
      it, will be free. */
  lemma ForcedReturnsSuccess(w: World, contexts: seq<nat>, flags: nat)
    requires contexts != [] && Linked(contexts, w) && w.script == [] && Forced(flags)
    requires Attempt(w, contexts, LOCK_SET, flags).err != ERRNO_SUCCESS
    ensures Finish(w, contexts, LOCK_SET, flags).err == ERRNO_SUCCESS <==>
            WillBeFree(LastDriver(w, contexts), contexts[|contexts| - 1], contexts)
    ensures NoTwice(contexts) ==> LastDriver(w, contexts) == w.drivers[contexts[|contexts| - 1]]
  {
    hide Pass, Rollback, WillBeFree, Forced;
    var last := |contexts| - 1;
    ForcedPass(w, contexts, 0, flags, contexts[last]);
    LastRelease(Attempt(w, contexts, LOCK_SET, flags).world, contexts, 0);
    if NoTwice(contexts) {
      NoTaker(contexts, Reach(w, contexts, 0), contexts[last], w.drivers[contexts[last]].owner);
    }
  }

  lemma {:induction false} NoTaker(contexts: seq<nat>, n: nat, d: nat, was: Owner)
    requires n <= |contexts| && forall k :: 0 <= k < n ==> contexts[k] != d
    ensures OwnerAfter(contexts, 0, n, d, was) == was
  {
    if n == 0 {
    } else {
      NoTaker(contexts, n - 1, d, was);
    }
  }

  /** For a forced SET, SUCCESS means that every context has locked its driver exactly in these cases. */
  lemma ForcedSuccessMeansLocked(w: World, contexts: seq<nat>, flags: nat)
    requires contexts != [] && Linked(contexts, w) && w.script == [] && Forced(flags)
    ensures var o := Finish(w, contexts, LOCK_SET, flags);
            (o.err == ERRNO_SUCCESS ==> AllMine(o.world, contexts)) <==>
            if NoCounts(w, contexts) then NoTwice(contexts)
            else !WillBeFree(LastDriver(w, contexts), contexts[|contexts| - 1], contexts)
  {
    hide Attempt, Rollback, Forced, NoTwice, LowerError, OwnerAfter;
    var last := |contexts| - 1;
    ForcedAcceptedExactly(w, contexts, flags);
    if Attempt(w, contexts, LOCK_SET, flags).err == ERRNO_SUCCESS {
      AllOrNone(w, contexts, flags);
    } else {
      ForcedReturnsSuccess(w, contexts, flags);
      ForcedSurvivors(w, contexts, flags, last);
    }
  }

  /** Neither all nor none, although we held nothing: the first driver is taken in spite of a lock below it, which keeps
      it from being released, and the second one is in use. */
  lemma ForcedPartlyLocked(count: nat)
    requires count > 0
    ensures var w := World([Driver(Nobody, 0, [Device(Lock(Others, 0), [])]), Driver(Nobody, count, [])], []);
            var after := Finish(w, [0, 1], LOCK_SET, LOCK_FORCE).world;
            Linked([0, 1], w) && IsMine(after, [0, 1], 0) && !IsMine(after, [0, 1], 1)
  {
    var w := World([Driver(Nobody, 0, [Device(Lock(Others, 0), [])]), Driver(Nobody, count, [])], []);
    var contexts: seq<nat> := [0, 1];
    assert DeviceExcludes(w.drivers[0].devices[0], 0);
    ForcedAcceptedExactly(w, contexts, LOCK_FORCE);
    ForcedSurvivorsApart(w, contexts, LOCK_FORCE, 0);
    ForcedSurvivorsApart(w, contexts, LOCK_FORCE, 1);
  }
  // A forced SET while other processes act, if no two contexts share a driver.

  /** What the script alone makes of the world in k turns. */
  function Later(w: World, k: nat): (r: World)
    ensures |r.drivers| == |w.drivers|
    decreases k
  {
    if k == 0 then w else Later(Elapse(w), k - 1)
  }

  /** The driver of context j when its turn comes, if the turn of context i is next. */
  function AtTurn(w: World, contexts: seq<nat>, i: nat, j: nat): Driver
    requires i <= j < |contexts| && Linked(contexts, w)
  {
    Later(w, j - i + 1).drivers[contexts[j]]
  }

  lemma {:induction false} MeanwhileApart(a: seq<Driver>, b: seq<Driver>, acts: seq<Act>, d: nat)
    requires |a| == |b| && d < |a| && a[d] == b[d]
    ensures Meanwhile(a, acts)[d] == Meanwhile(b, acts)[d]
    decreases |acts|
  {
    if acts == [] {
    } else {
      var i := acts[0].driver;
      MeanwhileApart(if i < |a| then a[i := Changed(a[i], acts[0])] else a,
                     if i < |b| then b[i := Changed(b[i], acts[0])] else b, acts[1..], d);
    }
  }

  /** What becomes of a driver does not depend on the other drivers. */
  lemma {:induction false} LaterApart(v: World, w: World, k: nat, d: nat)
    requires v.script == w.script && |v.drivers| == |w.drivers| && d < |w.drivers| && v.drivers[d] == w.drivers[d]
    ensures Later(v, k).drivers[d] == Later(w, k).drivers[d]
    decreases k
  {
    hide Meanwhile;
    if k == 0 {
    } else {
      if w.script != [] {
        MeanwhileApart(v.drivers, w.drivers, w.script[0], d);
      }
      LaterApart(Elapse(v), Elapse(w), k - 1, d);
    }
  }

  /** A driver we hold stays as it is. */
  lemma ElapseKeepsMine(w: World, d: nat)
    requires d < |w.drivers| && ByOthers(w.script)
    ensures ByOthers(Elapse(w).script)
    ensures w.drivers[d].owner.Mine? ==> Elapse(w).drivers[d] == w.drivers[d]
    ensures Elapse(w).drivers[d].owner.Mine? ==> w.drivers[d].owner.Mine?
  {
    hide Meanwhile;
    if w.script != [] {
      MeanwhileKeepsMine(w.drivers, w.script[0], d);
    }
  }

  lemma {:induction false} LaterKeepsMine(w: World, k: nat, d: nat)
    requires d < |w.drivers| && ByOthers(w.script) && w.drivers[d].owner.Mine?
    ensures Later(w, k).drivers[d] == w.drivers[d]
    decreases k
  {
    hide Elapse, ByOthers;
    if k == 0 {
    } else {
      ElapseKeepsMine(w, d);
      LaterKeepsMine(Elapse(w), k - 1, d);
    }
  }

  /** The contexts from i on whose turn comes before the first driver with operations under way, up to j. */
  predicate TurnsUpTo(w: World, contexts: seq<nat>, i: nat, j: nat)
    requires j < |contexts| && Linked(contexts, w)
  {
    forall k :: i <= k <= j ==> AtTurn(w, contexts, i, k).count == 0
  }

  /** One turn: the call of context i, and what it means for the turns after it. */
  lemma ForcedTurn(w: World, contexts: seq<nat>, i: nat, flags: nat, j: nat)
    requires i < |contexts| && j < |contexts| && Linked(contexts, w) && ByOthers(w.script) && Forced(flags)
    requires NoTwice(contexts)
    ensures var o, d := Call(w, contexts[i], i, LOCK_SET, flags), AtTurn(w, contexts, i, i);
            && ByOthers(o.world.script)
            && (o.err == ERRNO_SUCCESS <==> d.count == 0)
            && (j != i ==> (IsMine(o.world, contexts, j) <==> IsMine(w, contexts, j)))
            && (j != i ==> (Stuck(o.world, contexts, j) <==> Stuck(w, contexts, j)))
            && (j == i && o.err == ERRNO_SUCCESS ==> (Stuck(o.world, contexts, i) <==> InUse(d, i)))
            && (j == i && o.err != ERRNO_SUCCESS ==>
                (Stuck(o.world, contexts, i) <==> IsMine(w, contexts, i) && InUse(d, i)))
            && (j > i && o.err == ERRNO_SUCCESS ==> AtTurn(o.world, contexts, i + 1, j) == AtTurn(w, contexts, i, j))
            && (j > i && IsMine(w, contexts, j) ==> AtTurn(w, contexts, i, j) == w.drivers[contexts[j]])
  {
    hide Elapse, ByOthers, LowerError;
    var o, v := Call(w, contexts[i], i, LOCK_SET, flags), Elapse(w);
    ElapseKeepsMine(w, contexts[i]);
    ElapseKeepsMine(w, contexts[j]);
    assert Later(w, 1) == v by {
      OneTurn(w, 0);
      assert Later(v, 0) == v;
    }
    if j > i {
      OneTurn(w, j - i);
      LaterApart(o.world, v, j - i, contexts[j]);
      if IsMine(w, contexts, j) {
        LaterKeepsMine(w, j - i + 1, contexts[j]);
      }
    }
  }

  lemma OneTurn(w: World, k: nat)
    ensures Later(w, k + 1) == Later(Elapse(w), k)
  {
  }

  lemma {:induction false} ForcedTurns(w: World, contexts: seq<nat>, i: nat, flags: nat, j: nat)
    requires i <= |contexts| && j < |contexts| && Linked(contexts, w) && ByOthers(w.script) && Forced(flags)
    requires NoTwice(contexts)
    ensures var o := Pass(w, contexts, i, LOCK_SET, flags);
            && ByOthers(o.world.script)
            && (i < |contexts| ==> (o.err == ERRNO_SUCCESS <==> TurnsUpTo(w, contexts, i, |contexts| - 1)))
            && (j < i ==> (Stuck(o.world, contexts, j) <==> Stuck(w, contexts, j)))
            && (j >= i ==> (Stuck(o.world, contexts, j) <==>
                            InUse(AtTurn(w, contexts, i, j), j)
                                && (IsMine(w, contexts, j) || TurnsUpTo(w, contexts, i, j))))
    decreases |contexts| - i
  {
    hide Call, AtTurn, Stuck, IsMine, InUse, ByOthers, Forced, NoTwice;
    if i == |contexts| {
    } else {
      var o := Call(w, contexts[i], i, LOCK_SET, flags);
      ForcedTurn(w, contexts, i, flags, j);
      if o.err == ERRNO_SUCCESS {
        ForcedTurns(o.world, contexts, i + 1, flags, j);
        NextTurns(w, contexts, i, flags, |contexts| - 1);
        NextTurns(w, contexts, i, flags, j);
      } else if j > i {
        StuckIs(w, contexts, j);
      }
    }
  }

  /** After an accepted turn. */
  lemma NextTurns(w: World, contexts: seq<nat>, i: nat, flags: nat, j: nat)
    requires i < |contexts| && j < |contexts| && Linked(contexts, w) && ByOthers(w.script) && Forced(flags)
    requires NoTwice(contexts)
    requires Call(w, contexts[i], i, LOCK_SET, flags).err == ERRNO_SUCCESS
    ensures var o := Call(w, contexts[i], i, LOCK_SET, flags);
            j >= i ==> (TurnsUpTo(w, contexts, i, j) <==> TurnsUpTo(o.world, contexts, i + 1, j))
  {
    hide Call, AtTurn, Stuck, IsMine, InUse, ByOthers, Forced, NoTwice;
    var o, next := Call(w, contexts[i], i, LOCK_SET, flags), i + 1;
    ForcedTurn(w, contexts, i, flags, i);
    if j >= i && TurnsUpTo(w, contexts, i, j) {
      forall k | next <= k <= j ensures AtTurn(o.world, contexts, next, k).count == 0 {
        ForcedTurn(w, contexts, i, flags, k);
        assert AtTurn(w, contexts, i, k).count == 0;
      }
    }
    if j >= i && TurnsUpTo(o.world, contexts, next, j) {
      forall k | i <= k <= j ensures AtTurn(w, contexts, i, k).count == 0 {
        ForcedTurn(w, contexts, i, flags, k);
        assert k > i ==> AtTurn(o.world, contexts, next, k).count == 0;
      }
    }
  }

  lemma StuckIs(w: World, contexts: seq<nat>, j: nat)
    requires j < |contexts| && Linked(contexts, w)
    ensures Stuck(w, contexts, j) <==> IsMine(w, contexts, j) && InUse(w.drivers[contexts[j]], j)
  {
  }

  /** The driver of context i is in use at its turn, and the context held it before the call or has its turn before the
      refusal. */
  predicate LeftAtTurn(w: World, contexts: seq<nat>, i: nat)
    requires i < |contexts| && Linked(contexts, w)
  {
    InUse(AtTurn(w, contexts, 0, i), i) && (IsMine(w, contexts, i) || TurnsUpTo(w, contexts, 0, i))
  }

  /** Whatever other processes do: a forced SET is accepted exactly if no driver has operations under way when its turn
      comes, and if it is refused, these contexts hold their drivers. */
  lemma ForcedMeanwhile(w: World, contexts: seq<nat>, flags: nat, i: nat)
    requires i < |contexts| && Linked(contexts, w) && ByOthers(w.script) && Forced(flags) && NoTwice(contexts)
    ensures var o := Attempt(w, contexts, LOCK_SET, flags);
            && (o.err == ERRNO_SUCCESS <==> TurnsUpTo(w, contexts, 0, |contexts| - 1))
            && (o.err != ERRNO_SUCCESS ==>
                  (IsMine(Finish(w, contexts, LOCK_SET, flags).world, contexts, i) <==> LeftAtTurn(w, contexts, i)))
  {
    hide Pass, Finish, Stuck, TurnsUpTo, AtTurn, InUse, Forced, ByOthers, NoTwice;
    ForcedTurns(w, contexts, 0, flags, i);
    if Attempt(w, contexts, LOCK_SET, flags).err != ERRNO_SUCCESS {
      SurvivesReleases(w, contexts, flags, i);
    }
  }

  /** So it is all or none exactly if it is accepted, or these are no context or all of them. */
  lemma ForcedAllOrNoneMeanwhile(w: World, contexts: seq<nat>, flags: nat)
    requires contexts != [] && Linked(contexts, w) && ByOthers(w.script) && Forced(flags) && NoTwice(contexts)
    ensures var after := Finish(w, contexts, LOCK_SET, flags).world;
            AllMine(after, contexts) || NoneMine(after, contexts) <==>
            || TurnsUpTo(w, contexts, 0, |contexts| - 1)
            || (forall i :: 0 <= i < |contexts| ==> LeftAtTurn(w, contexts, i))
            || (forall i :: 0 <= i < |contexts| ==> !LeftAtTurn(w, contexts, i))
  {
    hide Attempt, Rollback, LeftAtTurn, TurnsUpTo, Forced, ByOthers, NoTwice;
    AllOrNone(w, contexts, flags);
    ForcedMeanwhile(w, contexts, flags, 0);
    forall i | 0 <= i < |contexts| && Attempt(w, contexts, LOCK_SET, flags).err != ERRNO_SUCCESS
      ensures IsMine(Finish(w, contexts, LOCK_SET, flags).world, contexts, i) <==> LeftAtTurn(w, contexts, i) {
      ForcedMeanwhile(w, contexts, flags, i);
    }
  }

  /** A refused forced SET returns SUCCESS exactly if, before the call, the driver of the last context was free or going
      to be freed by the releases; nobody may act on that driver. */
  lemma ForcedReturnsSuccessMeanwhile(w: World, contexts: seq<nat>, flags: nat)
    requires contexts != [] && Linked(contexts, w) && Forced(flags) && NoTwice(contexts)
    requires Untouched(w.script, contexts[|contexts| - 1])
    requires Attempt(w, contexts, LOCK_SET, flags).err != ERRNO_SUCCESS
    ensures var d := contexts[|contexts| - 1];
            Finish(w, contexts, LOCK_SET, flags).err == ERRNO_SUCCESS <==> WillBeFree(w.drivers[d], d, contexts)
  {
    hide Pass, Rollback, WillBeFree, Forced, Untouched;
    LastUntouched(w, contexts, 0, flags);
    LastRelease(Attempt(w, contexts, LOCK_SET, flags).world, contexts, 0);
  }

  lemma {:induction false} LastUntouched(w: World, contexts: seq<nat>, i: nat, flags: nat)
    requires i < |contexts| && Linked(contexts, w) && NoTwice(contexts) && Untouched(w.script, contexts[|contexts| - 1])
    requires Pass(w, contexts, i, LOCK_SET, flags).err != ERRNO_SUCCESS
    ensures var o, d := Pass(w, contexts, i, LOCK_SET, flags), contexts[|contexts| - 1];
            Untouched(o.world.script, d) && o.world.drivers[d] == w.drivers[d]
    decreases |contexts| - i
  {
    hide Meanwhile;
    var d := contexts[|contexts| - 1];
    if w.script != [] {
      MeanwhileUntouched(w.drivers, w.script[0], d);
    }
    var o := Call(w, contexts[i], i, LOCK_SET, flags);
    if o.err == ERRNO_SUCCESS {
      LastUntouched(o.world, contexts, i + 1, flags);
    }
  }
}
