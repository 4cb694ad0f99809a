/** ME_LockAll with the other lock codes, RELEASE and CHECK, when nobody acts meanwhile: library/meids_local.c. The
    results are stated in terms of owners and counts, with the flags and codes written out. */
module LockReleases {
  import opened Defines
  import opened LockAll

  /** Nobody but context i holds the driver of context i or, as far as `below` asks for it, a device or a subdevice
      below it. */
  predicate Admits(d: Driver, i: nat, below: bool) {
    && d.owner in {Nobody, Mine(i)}
    && (below ==> forall m :: 0 <= m < |d.devices| ==>
                    && d.devices[m].lock.owner in {Nobody, Mine(i)}
                    && forall s :: 0 <= s < |d.devices[m].subdevices| ==>
                         d.devices[m].subdevices[s].owner in {Nobody, Mine(i)})
  }

  lemma AdmitsIs(d: Driver, i: nat)
    ensures Excludes(d.owner, i) <==> d.owner !in {Nobody, Mine(i)}
    ensures LowerError(d.devices, i) == ERRNO_SUCCESS || LowerError(d.devices, i) == ERRNO_LOCKED
    ensures Excludes(d.owner, i) || LowerError(d.devices, i) != ERRNO_SUCCESS <==> !Admits(d, i, true)
  {
    if LowerError(d.devices, i) != ERRNO_SUCCESS {
      var m :| 0 <= m < |d.devices| && DeviceExcludes(d.devices[m], i);
    } else {
      assert forall m :: 0 <= m < |d.devices| ==> !DeviceExcludes(d.devices[m], i);
      forall m, s | 0 <= m < |d.devices| && 0 <= s < |d.devices[m].subdevices|
        ensures d.devices[m].subdevices[s].owner in {Nobody, Mine(i)} {
        assert !DeviceExcludes(d.devices[m], i);
        assert !Excludes(d.devices[m].subdevices[s].owner, i);
      }
    }
  }

  // Checking.

  /** A pass that only checks. */
  lemma {:induction false} CheckPass(w: World, contexts: seq<nat>, i: nat, flags: nat)
    requires i <= |contexts| && Linked(contexts, w) && w.script == []
    ensures var o := Pass(w, contexts, i, LOCK_CHECK, flags);
            && o.world == w
            && o.err == if forall j :: i <= j < |contexts| ==> Admits(w.drivers[contexts[j]], j, (flags / 16) % 2 == 0)
               then 0 else 19
    decreases |contexts| - i
  {
    hide LowerError, Admits, Excludes;
    if i == |contexts| {
    } else {
      var d := contexts[i];
      AdmitsIs(w.drivers[d], i);
      AdmitsOwner(w.drivers[d], i);
      assert w.drivers[d := w.drivers[d]] == w.drivers;
      CheckPass(w, contexts, i + 1, flags);
    }
  }

  lemma AdmitsOwner(d: Driver, i: nat)
    ensures Admits(d, i, false) <==> !Excludes(d.owner, i)
  {
  }

  /** A pass without any context's lock code being one of the three: the first context refuses it. */
  lemma InvalidPass(w: World, contexts: seq<nat>, lock: int, flags: nat)
    requires contexts != [] && Linked(contexts, w) && w.script == []
    requires lock !in {LOCK_RELEASE, LOCK_SET, LOCK_CHECK}
    requires (flags / 16) % 2 == 0 ==> Admits(w.drivers[contexts[0]], 0, true)
    ensures Pass(w, contexts, 0, lock, flags) == Outcome(34, w)
  {
    hide LowerError, Admits, Excludes;
    var d := contexts[0];
    AdmitsIs(w.drivers[d], 0);
    assert w.drivers[d := w.drivers[d]] == w.drivers;
  }

  /** CHECK, and codes that are none of the three: no driver changes. Without force they are refused with LOCKED (19)
      exactly if somebody else than the context has locked its driver or a device or subdevice below it; a forced CHECK
      looks at the drivers only. The other codes are never accepted. */
  lemma CheckResult(w: World, contexts: seq<nat>, lock: int, flags: nat)
    requires contexts != [] && Linked(contexts, w) && w.script == [] && lock != 0x00010001 && lock != 0x00010002
    ensures var free := (forall i :: 0 <= i < |contexts| ==> w.drivers[contexts[i]].owner in {Nobody, Mine(i)});
            var below := (forall i, m :: 0 <= i < |contexts| && 0 <= m < |w.drivers[contexts[i]].devices| ==>
                            var v := w.drivers[contexts[i]].devices[m];
                            && v.lock.owner in {Nobody, Mine(i)}
                            && forall s :: 0 <= s < |v.subdevices| ==> v.subdevices[s].owner in {Nobody, Mine(i)});
            var forced := (flags / 16) % 2 == 1;
            && Finish(w, contexts, lock, flags).world == w
            && Finish(w, contexts, lock, flags).err ==
               if lock == 0x00010003 then (if free && (forced || below) then 0 else 19)
               else if forced || (free && below) then 34 else 19
  {
    hide Pass, Admits;
    CheckPass(w, contexts, 0, flags);
    AllAdmit(w, contexts, (flags / 16) % 2 == 0);
    if lock != LOCK_CHECK && (Forced(flags) || Pass(w, contexts, 0, LOCK_CHECK, flags).err == 0) {
      InvalidPass(w, contexts, lock, flags);
    }
  }

  lemma AllAdmit(w: World, contexts: seq<nat>, below: bool)
    requires Linked(contexts, w)
    ensures (forall i :: 0 <= i < |contexts| ==> Admits(w.drivers[contexts[i]], i, below)) <==>
            && (forall i :: 0 <= i < |contexts| ==> w.drivers[contexts[i]].owner in {Nobody, Mine(i)})
            && (below ==> forall i, m :: 0 <= i < |contexts| && 0 <= m < |w.drivers[contexts[i]].devices| ==>
                  var v := w.drivers[contexts[i]].devices[m];
                  && v.lock.owner in {Nobody, Mine(i)}
                  && forall s :: 0 <= s < |v.subdevices| ==> v.subdevices[s].owner in {Nobody, Mine(i)})
  {
    if forall i :: 0 <= i < |contexts| ==> Admits(w.drivers[contexts[i]], i, below) {
      forall i, m | 0 <= i < |contexts| && 0 <= m < |w.drivers[contexts[i]].devices| && below
        ensures w.drivers[contexts[i]].devices[m].lock.owner in {Nobody, Mine(i)}
        ensures forall s :: 0 <= s < |w.drivers[contexts[i]].devices[m].subdevices| ==>
                  w.drivers[contexts[i]].devices[m].subdevices[s].owner in {Nobody, Mine(i)} {
        assert Admits(w.drivers[contexts[i]], i, below);
      }
    }
  }

  /** Without any context there is nothing to lock. */
  lemma NothingOpen(w: World, lock: int, flags: nat)
    ensures Finish(w, [], lock, flags) == Outcome(13, w)
  {
  }

  // Releasing.

  lemma {:induction false} UnlockedLength(subdevices: seq<Lock>)
    ensures |Unlocked(subdevices)| == |subdevices|
  {
    if subdevices == [] || subdevices[0].count > 0 {
    } else {
      UnlockedLength(subdevices[1..]);
    }
  }

  /** The subdevices of a device after a release: unlocked up to the first one with operations under way. */
  lemma {:induction false} UnlockedAt(subdevices: seq<Lock>, s: nat)
    requires s < |subdevices|
    ensures |Unlocked(subdevices)| == |subdevices|
    ensures Unlocked(subdevices)[s].count == subdevices[s].count
    ensures Unlocked(subdevices)[s].owner == if exists t :: 0 <= t <= s && subdevices[t].count > 0
            then subdevices[s].owner else Nobody
  {
    UnlockedLength(subdevices);
    if subdevices[0].count > 0 || s == 0 {
    } else {
      var prev := s - 1;
      UnlockedAt(subdevices[1..], prev);
      if exists t :: 0 <= t <= s && subdevices[t].count > 0 {
        var t :| 0 <= t <= s && subdevices[t].count > 0;
        assert subdevices[1..][t - 1].count > 0;
      }
    }
  }

  /** Releasing a device again on behalf of a context that does not exclude it changes nothing. */
  lemma {:induction false} UnlockedTwice(subdevices: seq<Lock>)
    ensures Unlocked(Unlocked(subdevices)) == Unlocked(subdevices)
  {
    if subdevices == [] || subdevices[0].count > 0 {
    } else {
      UnlockedTwice(subdevices[1..]);
      assert Unlocked(subdevices)[1..] == Unlocked(subdevices[1..]);
    }
  }

  /** The device after its release on behalf of somebody it does not exclude. */
  function Freed(d: Device): Device {
    if d.lock.count > 0 then d else Device(d.lock.(owner := Nobody), Unlocked(d.subdevices))
  }

  /** The driver, likewise; its devices are released only if no flag is set. */
  function FreedDriver(d: Driver, flags: nat): Driver {
    Driver(Nobody, d.count,
           if flags != 0 then d.devices
           else seq(|d.devices|, m requires 0 <= m < |d.devices| => Freed(d.devices[m])))
  }

  lemma FreedTwice(d: Driver, flags: nat)
    ensures FreedDriver(FreedDriver(d, flags), flags) == FreedDriver(d, flags)
  {
    hide Unlocked;
    forall m | 0 <= m < |d.devices| ensures Freed(Freed(d.devices[m])) == Freed(d.devices[m]) {
      UnlockedTwice(d.devices[m].subdevices);
    }
  }

  lemma FreedAdmits(d: Driver, flags: nat, i: nat)
    requires Admits(d, i, true)
    ensures Admits(FreedDriver(d, flags), i, true)
  {
    hide Unlocked;
    forall m, s | 0 <= m < |d.devices| && 0 <= s < |Freed(d.devices[m]).subdevices|
      ensures Freed(d.devices[m]).subdevices[s].owner in {Nobody, Mine(i)} {
      if d.devices[m].lock.count == 0 {
        UnlockedLength(d.devices[m].subdevices);
        UnlockedAt(d.devices[m].subdevices, s);
      }
    }
  }

  /** One release: refused only if operations are under way. */
  lemma ReleaseOne(d: Driver, flags: nat, i: nat)
    requires (flags / 16) % 2 == 0 ==> Admits(d, i, true)
    ensures Refusal(d, i, LOCK_RELEASE, flags) == if d.count > 0 then 28 else 0
    ensures AfterLock(d, i, LOCK_RELEASE, flags) == if d.count > 0 then d else FreedDriver(d, flags)
  {
    hide Unlocked;
    if (flags / 16) % 2 == 0 {
      AdmitsIs(d, i);
      assert !exists m :: 0 <= m < |d.devices| && DeviceExcludes(d.devices[m], i);
      assert forall m :: 0 <= m < |d.devices| ==> Released(d.devices[m], i) == Freed(d.devices[m]);
    }
  }

  /** The releases from context i on, up to the first driver with operations under way. */
  lemma {:induction false} ReleasePass(w: World, contexts: seq<nat>, i: nat, flags: nat, d: nat)
    requires i <= |contexts| && Linked(contexts, w) && w.script == [] && d < |w.drivers|
    requires (flags / 16) % 2 == 0 ==> forall j :: i <= j < |contexts| ==> Admits(w.drivers[contexts[j]], j, true)
    ensures var o, n := Pass(w, contexts, i, LOCK_RELEASE, flags), Reach(w, contexts, i);
            && o.world.script == []
            && o.err == (if n == |contexts| then 0 else 28)
            && o.world.drivers[d] == if exists k :: i <= k < n && contexts[k] == d then FreedDriver(w.drivers[d], flags)
               else w.drivers[d]
    decreases |contexts| - i
  {
    hide Admits, FreedDriver, Call;
    if i == |contexts| {
    } else {
      var c := contexts[i];
      ReleaseCall(w, contexts, i, flags);
      if w.drivers[c].count > 0 {
      } else {
        var v, next := w.(drivers := w.drivers[c := FreedDriver(w.drivers[c], flags)]), i + 1;
        FreedCount(w.drivers[c], flags);
        ReachIgnoresOwners(w, v, contexts, next);
        forall j | next <= j < |contexts| && (flags / 16) % 2 == 0 ensures Admits(v.drivers[contexts[j]], j, true) {
          if contexts[j] == c {
            FreedAdmits(w.drivers[c], flags, j);
          }
        }
        ReleasePass(v, contexts, next, flags, d);
        FreedTwice(w.drivers[c], flags);
      }
    }
  }

  lemma ReleaseCall(w: World, contexts: seq<nat>, i: nat, flags: nat)
    requires i < |contexts| && Linked(contexts, w) && w.script == []
    requires (flags / 16) % 2 == 0 ==> Admits(w.drivers[contexts[i]], i, true)
    ensures var d := w.drivers[contexts[i]];
            Call(w, contexts[i], i, LOCK_RELEASE, flags) ==
            if d.count > 0 then Outcome(28, w)
            else Outcome(0, w.(drivers := w.drivers[contexts[i] := FreedDriver(d, flags)]))
  {
    hide Admits, FreedDriver, Refusal, AfterLock;
    var c := contexts[i];
    ReleaseOne(w.drivers[c], flags, i);
    assert w.drivers[c := w.drivers[c]] == w.drivers;
  }

  lemma FreedCount(d: Driver, flags: nat)
    ensures FreedDriver(d, flags).count == d.count
  {
  }

  /** A RELEASE as a whole: without force it stops at the check, changing nothing, if somebody else than the context has
      locked its driver or a device or subdevice below it. Otherwise it goes up to the first driver with operations
      under way, forced or not: USED (28) if there is one, else SUCCESS. The drivers before it are free, their devices
      unchanged if any flag is set, and all other drivers are unchanged. */
  lemma ReleaseResult(w: World, contexts: seq<nat>, flags: nat, d: nat, n: nat)
    requires contexts != [] && Linked(contexts, w) && w.script == [] && d < |w.drivers| && n <= |contexts|
    requires forall k :: 0 <= k < n ==> w.drivers[contexts[k]].count == 0
    requires n < |contexts| ==> w.drivers[contexts[n]].count > 0
    ensures var free := (forall i :: 0 <= i < |contexts| ==> w.drivers[contexts[i]].owner in {Nobody, Mine(i)});
            var below := (forall i, m :: 0 <= i < |contexts| && 0 <= m < |w.drivers[contexts[i]].devices| ==>
                            var v := w.drivers[contexts[i]].devices[m];
                            && v.lock.owner in {Nobody, Mine(i)}
                            && forall s :: 0 <= s < |v.subdevices| ==> v.subdevices[s].owner in {Nobody, Mine(i)});
            var o := Finish(w, contexts, 0x00010001, flags);
            var was, now := w.drivers[d], o.world.drivers[d];
            && o.world.script == [] && |o.world.drivers| == |w.drivers|
            && if (flags / 16) % 2 == 0 && !(free && below) then o.err == 19 && now == was
               else
                 && o.err == (if n == |contexts| then 0 else 28)
                 && (if exists k :: 0 <= k < n && contexts[k] == d then
                       now.owner == Nobody && now.count == 0 && (flags != 0 ==> now.devices == was.devices)
                     else now == was)
  {
    hide Pass, Admits;
    var forced := (flags / 16) % 2 == 1;
    CheckPass(w, contexts, 0, flags);
    AllAdmit(w, contexts, true);
    ReachIs(w, contexts, 0, n);
    if forced || forall j :: 0 <= j < |contexts| ==> Admits(w.drivers[contexts[j]], j, true) {
      ReleasePass(w, contexts, 0, flags, d);
    }
  }

  lemma {:induction false} ReachIs(w: World, contexts: seq<nat>, i: nat, n: nat)
    requires i <= n <= |contexts| && Linked(contexts, w)
    requires forall k :: i <= k < n ==> w.drivers[contexts[k]].count == 0
    requires n < |contexts| ==> w.drivers[contexts[n]].count > 0
    ensures Reach(w, contexts, i) == n
    decreases n - i
  {
    if i == n {
    } else {
      ReachIs(w, contexts, i + 1, n);
    }
  }

  /** The devices of the released drivers, if no flag is set: a device with operations under way stays as it is; any
      other one is unlocked, together with its subdevices up to the first one with operations under way. */
  lemma ReleasedDevices(w: World, contexts: seq<nat>, k: nat, m: nat)
    requires Linked(contexts, w) && w.script == []
    requires k < |contexts| && forall j :: 0 <= j <= k ==> w.drivers[contexts[j]].count == 0
    requires m < |w.drivers[contexts[k]].devices| && Finish(w, contexts, 0x00010001, 0).err != 19
    ensures var was, after := w.drivers[contexts[k]].devices, Finish(w, contexts, 0x00010001, 0).world;
            var now := after.drivers[contexts[k]].devices;
            && |now| == |was|
            && now[m].lock.count == was[m].lock.count
            && (was[m].lock.count > 0 ==> now[m] == was[m])
            && (was[m].lock.count == 0 ==> now[m].lock.owner == Nobody)
            && |now[m].subdevices| == |was[m].subdevices|
            && forall s :: 0 <= s < |was[m].subdevices| ==>
                 && now[m].subdevices[s].count == was[m].subdevices[s].count
                 && now[m].subdevices[s].owner ==
                    if was[m].lock.count > 0 || exists t :: 0 <= t <= s && was[m].subdevices[t].count > 0
                    then was[m].subdevices[s].owner else Nobody
  {
    hide Pass, Admits, Unlocked;
    var d, n := contexts[k], Reach(w, contexts, 0);
    CheckPass(w, contexts, 0, 0);
    ReleasePass(w, contexts, 0, 0, d);
    assert k < n && contexts[k] == d;
    var was := w.drivers[d].devices[m];
    if was.lock.count == 0 {
      UnlockedLength(was.subdevices);
      forall s | 0 <= s < |was.subdevices|
        ensures Unlocked(was.subdevices)[s].count == was.subdevices[s].count
        ensures Unlocked(was.subdevices)[s].owner == if exists t :: 0 <= t <= s && was.subdevices[t].count > 0
                then was.subdevices[s].owner else Nobody {
        UnlockedAt(was.subdevices, s);
      }
    }
  }

  /** Whatever happens meanwhile: after an accepted RELEASE none of our contexts holds a driver of the list. */
  lemma ReleaseLeavesNone(w: World, contexts: seq<nat>, flags: nat)
    requires contexts != [] && Linked(contexts, w) && Finish(w, contexts, 0x00010001, flags).err == 0
    ensures forall j, c :: 0 <= j < |contexts| ==>
              Finish(w, contexts, 0x00010001, flags).world.drivers[contexts[j]].owner != Mine(c)
  {
    hide Pass;
    PassLeavesNone(if Forced(flags) then w else Pass(w, contexts, 0, LOCK_CHECK, flags).world, contexts, 0, flags);
  }

  lemma {:induction false} PassLeavesNone(w: World, contexts: seq<nat>, i: nat, flags: nat)
    requires i <= |contexts| && Linked(contexts, w) && Pass(w, contexts, i, LOCK_RELEASE, flags).err == ERRNO_SUCCESS
    requires forall j :: 0 <= j < i ==> !w.drivers[contexts[j]].owner.Mine?
    ensures var v := Pass(w, contexts, i, LOCK_RELEASE, flags).world;
            forall j :: 0 <= j < |contexts| ==> !v.drivers[contexts[j]].owner.Mine?
    decreases |contexts| - i
  {
    hide Call;
    if i == |contexts| {
    } else {
      var o := Call(w, contexts[i], i, LOCK_RELEASE, flags);
      forall j | 0 <= j <= i ensures !o.world.drivers[contexts[j]].owner.Mine? {
        CallOwners(w, contexts[i], i, LOCK_RELEASE, flags, contexts[j]);
      }
      PassLeavesNone(o.world, contexts, i + 1, flags);
    }
  }

  // Setting.

  /** A SET changes owners, and nothing else. */
  lemma {:induction false} PassKeepsRest(w: World, contexts: seq<nat>, i: nat, lock: int, flags: nat, d: nat)
    requires i <= |contexts| && Linked(contexts, w) && w.script == [] && d < |w.drivers|
    requires lock == LOCK_RELEASE ==> flags != 0
    ensures var o := Pass(w, contexts, i, lock, flags);
            && o.world.script == []
            && o.world.drivers[d].count == w.drivers[d].count && o.world.drivers[d].devices == w.drivers[d].devices
            && ((forall k :: i <= k < |contexts| ==> contexts[k] != d) ==> o.world.drivers[d] == w.drivers[d])
    decreases |contexts| - i
  {
    if i == |contexts| {
    } else {
      var o := Call(w, contexts[i], i, lock, flags);
      if o.err == ERRNO_SUCCESS {
        PassKeepsRest(o.world, contexts, i + 1, lock, flags, d);
      }
    }
  }

  lemma {:induction false} RollbackKeepsRest(w: World, contexts: seq<nat>, i: nat, d: nat)
    requires i <= |contexts| && Linked(contexts, w) && w.script == [] && d < |w.drivers|
    ensures var o := Rollback(w, contexts, i);
            && o.world.drivers[d].count == w.drivers[d].count && o.world.drivers[d].devices == w.drivers[d].devices
            && ((forall k :: i <= k < |contexts| ==> contexts[k] != d) ==> o.world.drivers[d] == w.drivers[d])
    decreases |contexts| - i
  {
    if i == |contexts| {
    } else {
      RollbackKeepsRest(Call(w, contexts[i], i, LOCK_RELEASE, LOCK_PRESERVE).world, contexts, i + 1, d);
    }
  }

  /** Whether it is accepted or not, forced or not, a SET leaves the counts and everything below the drivers as it
      was, and the drivers of no context altogether. */
  lemma SetKeepsRest(w: World, contexts: seq<nat>, flags: nat, d: nat)
    requires Linked(contexts, w) && w.script == [] && d < |w.drivers|
    ensures var was, now := w.drivers[d], Finish(w, contexts, 0x00010002, flags).world.drivers[d];
            && now.count == was.count && now.devices == was.devices
            && ((forall k :: 0 <= k < |contexts| ==> contexts[k] != d) ==> now == was)
  {
    hide Pass, Rollback;
    PassKeepsRest(w, contexts, 0, LOCK_CHECK, flags, d);
    PassKeepsRest(Pass(w, contexts, 0, LOCK_CHECK, flags).world, contexts, 0, LOCK_SET, flags, d);
    PassKeepsRest(w, contexts, 0, LOCK_SET, flags, d);
    RollbackKeepsRest(Attempt(w, contexts, LOCK_SET, flags).world, contexts, 0, d);
  }

  /** What the terms of the SET results mean. */
  lemma SetTerms(w: World, contexts: seq<nat>, i: nat)
    requires i < |contexts| && Linked(contexts, w)
    ensures var d := w.drivers[contexts[i]];
            var below := (forall m :: 0 <= m < |d.devices| ==>
                            && d.devices[m].lock.owner in {Nobody, Mine(i)}
                            && forall s :: 0 <= s < |d.devices[m].subdevices| ==>
                                 d.devices[m].subdevices[s].owner in {Nobody, Mine(i)});
            && (Lockable(w, contexts, i) <==> d.owner in {Nobody, Mine(i)} && below && d.count == 0)
            && (Stuck(w, contexts, i) <==> d.owner == Mine(i) && !(below && d.count == 0))
  {
    AdmitsIs(w.drivers[contexts[i]], i);
    AdmitsIs(w.drivers[contexts[i]].(owner := Nobody), i);
  }

  // What happens meanwhile.

  /** Before a call, what the script has for it happens, act by act. */
  lemma ElapsesInOrder(drivers: seq<Driver>, a: seq<Act>, act: Act, later: seq<seq<Act>>)
    ensures Elapse(World(drivers, [a + [act]] + later)).script == later
    ensures Elapse(World(drivers, [a + [act]] + later)).drivers
            == Meanwhile(Elapse(World(drivers, [a] + later)).drivers, [act])
    ensures Elapse(World(drivers, [[]] + later)).drivers == drivers && Elapse(World(drivers, [])) == World(drivers, [])
  {
    MeanwhileConcat(drivers, a, [act]);
    assert ([a + [act]] + later)[1..] == later;
  }

  lemma {:induction false} MeanwhileConcat(drivers: seq<Driver>, a: seq<Act>, b: seq<Act>)
    ensures Meanwhile(drivers, a + b) == Meanwhile(Meanwhile(drivers, a), b)
    decreases |a|
  {
    if a == [] {
      assert a + b == b;
    } else {
      var i := a[0].driver;
      assert (a + b)[1..] == a[1..] + b;
      MeanwhileConcat(if i < |drivers| then drivers[i := Changed(drivers[i], a[0])] else drivers, a[1..], b);
    }
  }

  /** What an act does to driver d: other processes take, drop and use any driver that none of our contexts holds, and
      ours uses any driver. Nothing else of any driver changes. */
  lemma ActInWords(drivers: seq<Driver>, act: Act, d: nat)
    requires d < |drivers|
    ensures var was, now := drivers[d], Meanwhile(drivers, [act])[d];
            var free := act.driver == d && (was.owner == Nobody || was.owner == Others);
            && now.owner == (if act.Take? && free then Others else if act.Drop? && free then Nobody else was.owner)
            && (now.count, now.devices) ==
               (if (act.Use? && free) || (act.OwnUse? && act.driver == d) then (act.count, act.devices)
                else (was.count, was.devices))
  {
    var next := if act.driver < |drivers| then drivers[act.driver := Changed(drivers[act.driver], act)] else drivers;
    assert Meanwhile(next, [act][1..]) == next;
  }
}
