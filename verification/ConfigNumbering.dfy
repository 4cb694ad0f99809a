/** What the numbering operations promise, on the sequence of logical numbers alone. */
module Numbering {
  import opened Sequences

  /** The number of an entry that has none yet. */
  const UNNUMBERED := -1

  /** `after` is `before` with the unnumbered entries numbered: in list order, with the least numbers from `start`
      on that are not in use. Every other entry keeps its number. */
  ghost predicate Filled(before: seq<int>, after: seq<int>, start: int) {
    && |after| == |before|
    && (forall i :: 0 <= i < |before| && before[i] != UNNUMBERED ==> after[i] == before[i])
    && (forall i :: 0 <= i < |before| && before[i] == UNNUMBERED ==> start <= after[i] && after[i] !in before)
    && (forall i, j :: 0 <= i < j < |before| && before[i] == before[j] == UNNUMBERED ==> after[i] < after[j])
    && (forall i, x :: 0 <= i < |before| && before[i] == UNNUMBERED && start <= x < after[i] ==>
          x in before || x in after[..i])
  }

  /** `Filled` leaves no choice. */
  lemma FilledIsUnique(before: seq<int>, a: seq<int>, b: seq<int>, start: int)
    requires Filled(before, a, start) && Filled(before, b, start)
    ensures a == b
  {
    SamePrefix(before, a, b, start, |before|);
    assert a[..|before|] == a && b[..|before|] == b;
  }

  lemma {:induction false} SamePrefix(before: seq<int>, a: seq<int>, b: seq<int>, start: int, n: nat)
    requires Filled(before, a, start) && Filled(before, b, start) && n <= |before|
    ensures a[..n] == b[..n]
  {
    if n == 0 {
    } else {
      SamePrefix(before, a, b, start, n - 1);
      SameNext(before, a, b, start, n - 1);
      assert a[..n] == a[..n - 1] + [a[n - 1]] && b[..n] == b[..n - 1] + [b[n - 1]];
    }
  }

  lemma SameNext(before: seq<int>, a: seq<int>, b: seq<int>, start: int, i: nat)
    requires Filled(before, a, start) && Filled(before, b, start)
    requires i < |before| && a[..i] == b[..i]
    ensures a[i] == b[i]
  {
  }

  /** After numbering, all numbers are distinct exactly if the preset ones were. */
  lemma FilledIsDistinct(before: seq<int>, after: seq<int>, start: int)
    requires Filled(before, after, start)
    ensures NoTwice(after) <==>
            forall i, j :: 0 <= i < j < |before| && before[i] != UNNUMBERED && before[j] != UNNUMBERED ==>
                before[i] != before[j]
  {
  }

  /** The state of the numbering loop before entry i: earlier entries are done, and from `start` on everything
      below `next` is in use. */
  ghost predicate FilledUpTo(before: seq<int>, nums: seq<int>, start: int, next: int, i: nat) {
    && i <= |nums| == |before|
    && start <= next
    && (forall k :: 0 <= k < |nums| && (before[k] != UNNUMBERED || i <= k) ==> nums[k] == before[k])
    && (forall k :: 0 <= k < i && before[k] == UNNUMBERED ==> start <= nums[k] < next && nums[k] !in before)
    && (forall j, k :: 0 <= j < k < i && before[j] == before[k] == UNNUMBERED ==> nums[j] < nums[k])
    && (forall k, x :: 0 <= k < i && before[k] == UNNUMBERED && start <= x < nums[k] ==> x in before || x in nums[..k])
    && (forall x :: start <= x < next ==> x in nums || x == UNNUMBERED)
  }

  lemma FilledStep(before: seq<int>, nums: seq<int>, start: int, next: int, i: nat, no: int)
    requires FilledUpTo(before, nums, start, next, i) && i < |before| && before[i] == UNNUMBERED
    requires no >= next && no !in nums && forall x :: next <= x < no ==> x in nums || x == UNNUMBERED
    ensures FilledUpTo(before, nums[i := no], start, no + 1, i + 1)
  {
    var after := nums[i := no];
    assert nums[i] == UNNUMBERED;
    forall k | 0 <= k < |before| ensures before[k] != no {
      assert before[k] == UNNUMBERED || nums[k] == before[k];
    }
    forall x | start <= x < no ensures x in before || x in after[..i] {
      if x != UNNUMBERED {
        assert x in nums;
        var k :| 0 <= k < |nums| && nums[k] == x;
        assert k < i ==> after[..i][k] == x;
      } else {
        assert before[i] == x;
      }
    }
    forall x | start <= x < no + 1 ensures x in after || x == UNNUMBERED {
      if x == no {
        assert after[i] == no;
      } else if x != UNNUMBERED {
        assert x in nums;
        var k :| 0 <= k < |nums| && nums[k] == x;
        assert nums[i] == UNNUMBERED;
        assert after[k] == x;
      }
    }
    forall k | 0 <= k < i ensures after[..k] == nums[..k] {
    }
  }

  lemma FilledNow(before: seq<int>, nums: seq<int>, start: int, next: int, i: nat)
    requires FilledUpTo(before, nums, start, next, i) && i < |before|
    ensures before[i] == nums[i]
  {
  }

  /** An entry that has a number is passed over. */
  lemma FilledSkip(before: seq<int>, nums: seq<int>, start: int, next: int, i: nat)
    requires FilledUpTo(before, nums, start, next, i) && i < |before| && nums[i] != UNNUMBERED
    ensures FilledUpTo(before, nums, start, next, i + 1)
  {
  }

  lemma FilledStart(before: seq<int>, start: int)
    ensures FilledUpTo(before, before, start, start, 0)
  {
  }

  lemma FilledDone(before: seq<int>, nums: seq<int>, start: int, next: int)
    requires FilledUpTo(before, nums, start, next, |before|)
    ensures Filled(before, nums, start)
  {
  }

  /** m different values do not fit in fewer than m places. */
  lemma {:induction false} Pigeonhole(nums: seq<int>, low: int, m: nat)
    requires forall x :: low <= x < low + m ==> x in nums
    ensures m <= |nums|
    decreases m
  {
    if m == 0 {
    } else {
      var top := low + m - 1;
      assert top in nums;
      var k :| 0 <= k < |nums| && nums[k] == top;
      var others := nums[..k] + nums[k + 1..];
      forall x | low <= x < low + m - 1 ensures x in others {
        assert x in nums;
        var i :| 0 <= i < |nums| && nums[i] == x;
        assert i < k ==> others[i] == x;
        assert i > k ==> others[i - 1] == x;
      }
      Pigeonhole(others, low, m - 1);
    }
  }

  /** New numbers stay below start + length: there are not enough other entries to use up more. A negative start
      may skip one number more, the marker of unnumbered entries. */
  lemma FilledIsBounded(before: seq<int>, after: seq<int>, start: int, i: nat)
    requires Filled(before, after, start)
    requires i < |before| && before[i] == UNNUMBERED
    ensures start >= 0 ==> after[i] < start + |before|
    ensures after[i] <= start + |before|
  {
    var others := after[..i] + after[i + 1..];
    forall x | start <= x < after[i] && x != UNNUMBERED ensures x in others {
      if x in before {
        var j :| 0 <= j < |before| && before[j] == x;
        assert after[j] == x;
        assert j < i ==> others[j] == x;
        assert j > i ==> others[j - 1] == x;
      }
    }
    if start >= 0 {
      Pigeonhole(others, start, after[i] - start);
    } else {
      forall x | start <= x < after[i] ensures x in others + [UNNUMBERED] {
        assert x != UNNUMBERED ==> x in others;
      }
      Pigeonhole(others + [UNNUMBERED], start, after[i] - start);
    }
  }
}

/** find_max_index, find_next_index, ConfigEnumerate, ConfigDenumerate, ConfigContinueEnumerate, ConfigVerify. */
module ConfigNumbering {
  import opened Defines
  import opened Sequences
  import opened Memory
  import opened Ownership
  import opened DeviceTree
  import opened Numbering
  import ConfigCopy

  /** The structs of a configuration can be read. */
  ghost predicate Readable(cells: map<Ptr, Cell>, c: Config) {
    && c.p in cells && cells[c.p] == ConfigCell(c.table, |c.devices|)
    && (c.devices != [] ==> c.table in cells && cells[c.table] == TableCell(DevicePtrs(c.devices) + c.spare))
    && forall k :: 0 <= k < |c.devices| ==>
         c.devices[k].p in cells && cells[c.devices[k].p] == DeviceStruct(c.devices[k])
  }

  lemma HasIsReadable(cells: map<Ptr, Cell>, c: Config)
    requires ConfigOk(c) && Has(cells, ConfigLayout(c))
    ensures Readable(cells, c)
  {
    hide Has, DevicesLayout, DeviceLayout, DeviceOk;
    ConfigCopy.ConfigHas(cells, c);
    if c.table != NULL {
      ConfigCopy.TableHas(cells, c.table, DevicePtrs(c.devices) + c.spare);
    }
    forall k | 0 <= k < |c.devices| ensures c.devices[k].p in cells
        && cells[c.devices[k].p] == DeviceStruct(c.devices[k]) {
      ConfigCopy.DevicesHas(cells, c.devices, k);
      ConfigCopy.DeviceHas(cells, c.devices[k]);
    }
  }

  lemma OwnsIsReadable(cells: map<Ptr, Cell>, c: Config, rest: map<Ptr, Cell>)
    requires ConfigOk(c) && Owns(cells, ConfigLayout(c), rest)
    ensures Readable(cells, c)
  {
    hide Owns, Has, ConfigLayout, ConfigOk, Readable;
    OwnsHas(cells, ConfigLayout(c), rest);
    HasIsReadable(cells, c);
  }

  ghost function Numbers(devices: seq<Device>): seq<int> {
    seq(|devices|, i requires 0 <= i < |devices| => devices[i].info.logicalNo)
  }

  method FindMaxIndex(heap: Heap<Cell>, cfg: Ptr, ghost c: Config) returns (max: int)
    requires cfg == c.p && Readable(heap.cells, c)
    ensures forall k :: 0 <= k < |c.devices| ==> c.devices[k].info.logicalNo <= max
    ensures max == -1 || max in Numbers(c.devices)
    ensures max >= -1
  {
    max := -1;
    var e := 0;
    while e < heap.cells[cfg].deviceCount
      invariant 0 <= e <= |c.devices|
      invariant forall k :: 0 <= k < e ==> c.devices[k].info.logicalNo <= max
      invariant max == -1 || max in Numbers(c.devices)
      invariant max >= -1
      decreases |c.devices| - e
    {
      var no := heap.cells[heap.cells[heap.cells[cfg].deviceList].slots[e]].info.logicalNo;
      assert no == Numbers(c.devices)[e];
      if max < no {
        max := no;
      }
      e := e + 1;
    }
  }

  /** The least number from `min` on that no entry has; an unnumbered entry has the marker -1, and as long as no number
      is above the marker it is passed over. */
  method FindNextIndex(heap: Heap<Cell>, cfg: Ptr, min: int, ghost c: Config) returns (next: int)
    requires cfg == c.p && Readable(heap.cells, c)
    ensures next >= min && next !in Numbers(c.devices)
    ensures next == UNNUMBERED ==> exists n :: n in Numbers(c.devices) && n >= 0
    ensures forall x :: min <= x < next ==>
              x in Numbers(c.devices) || (x == UNNUMBERED && forall n :: n in Numbers(c.devices) ==> n < 0)
  {
    ghost var nums := Numbers(c.devices);
    var max := FindMaxIndex(heap, cfg, c);
    assert forall x :: x in nums ==> x <= max by {
      forall x | x in nums ensures x <= max {
        var k :| 0 <= k < |nums| && nums[k] == x;
        assert c.devices[k].info.logicalNo <= max;
      }
    }
    if max < min {
      return min;
    }
    var i := min;
    while i < max
      invariant min <= i <= max
      invariant forall x :: min <= x < i ==> x in nums
    {
      var e := 0;
      while e < heap.cells[cfg].deviceCount
        invariant 0 <= e <= |c.devices|
        invariant forall k :: 0 <= k < e ==> nums[k] != i
        decreases |c.devices| - e
      {
        assert nums[e] == c.devices[e].info.logicalNo;
        if i == heap.cells[heap.cells[heap.cells[cfg].deviceList].slots[e]].info.logicalNo {
          break;
        }
        e := e + 1;
      }
      if e == heap.cells[cfg].deviceCount {
        return i;
      }
      i := i + 1;
    }
    return max + 1;
  }

  // Writing the pointer-free part of one device struct.

  ghost function WithInfo(c: Config, k: nat, info: DeviceInfo): Config
    requires k < |c.devices|
  {
    c.(devices := c.devices[k := c.devices[k].(info := info)])
  }

  lemma {:induction false} DevicesLayoutWrite(devices: seq<Device>, k: nat, d': Device) returns (j: nat)
    requires k < |devices| && d'.p == devices[k].p && DeviceParts(d') == DeviceParts(devices[k])
    ensures j < |DevicesLayout(devices)| && DevicesLayout(devices)[j] == Node(d'.p, DeviceStruct(devices[k]))
    ensures DevicesLayout(devices[k := d']) == DevicesLayout(devices)[j := Node(d'.p, DeviceStruct(d'))]
    decreases |devices|
  {
    hide DeviceParts;
    var n := |devices| - 1;
    if k < n {
      j := DevicesLayoutWrite(devices[..n], k, d');
      assert devices[k := d'][..n] == devices[..n][k := d'];
    } else {
      j := |DevicesLayout(devices[..n])|;
      assert devices[k := d'][..n] == devices[..n];
    }
  }

  lemma OwnsWriteInfo(whole: map<Ptr, Cell>, c: Config, k: nat, info: DeviceInfo, rest: map<Ptr, Cell>)
    requires k < |c.devices| && ConfigOk(c) && Owns(whole, ConfigLayout(c), rest)
    requires info.access == c.devices[k].info.access
    ensures ConfigOk(WithInfo(c, k, info))
    ensures Owns(whole[c.devices[k].p := DeviceStruct(c.devices[k].(info := info))],
                 ConfigLayout(WithInfo(c, k, info)), rest)
  {
    hide Owns, DevicesLayout, DeviceParts;
    var d, d', c' := c.devices[k], c.devices[k].(info := info), WithInfo(c, k, info);
    PartsIgnoreInfo(d, info);
    assert DevicePtrs(c'.devices) == DevicePtrs(c.devices);
    var j := DevicesLayoutWrite(c.devices, k, d');
    var head := [Node(c.p, ConfigCell(c.table, |c.devices|))] + TableLayout(c.table, DevicePtrs(c.devices) + c.spare);
    assert ConfigLayout(c) == head + DevicesLayout(c.devices);
    assert ConfigLayout(c') == head + DevicesLayout(c'.devices);
    OwnsWrite(whole, ConfigLayout(c), rest, |head| + j, DeviceStruct(d'));
    assert ConfigLayout(c)[|head| + j := Node(d.p, DeviceStruct(d'))] == ConfigLayout(c');
  }

  lemma PartsIgnoreInfo(d: Device, info: DeviceInfo)
    ensures DeviceParts(d.(info := info)) == DeviceParts(d)
  {
  }

  method WriteInfo(heap: Heap<Cell>, dev: Ptr, info: DeviceInfo, ghost c: Config, ghost k: nat,
                   ghost rest: map<Ptr, Cell>)
    returns (ghost c': Config)
    requires ConfigOk(c) && Owns(heap.cells, ConfigLayout(c), rest)
    requires k < |c.devices| && dev == c.devices[k].p && info.access == c.devices[k].info.access
    modifies heap
    ensures c' == WithInfo(c, k, info) && ConfigOk(c')
    ensures Owns(heap.cells, ConfigLayout(c'), rest) && Readable(heap.cells, c')
  {
    hide Owns, ConfigLayout, ConfigOk;
    OwnsIsReadable(heap.cells, c, rest);
    OwnsWriteInfo(heap.cells, c, k, info, rest);
    heap.Write(dev, heap.cells[dev].(info := info));
    c' := WithInfo(c, k, info);
    OwnsIsReadable(heap.cells, c', rest);
  }

  ghost function WithNumbers(devices: seq<Device>, nums: seq<int>): (r: seq<Device>)
    requires |nums| == |devices|
    ensures |r| == |devices|
  {
    seq(|devices|, i requires 0 <= i < |devices| => devices[i].(info := devices[i].info.(logicalNo := nums[i])))
  }

  lemma WithOwnNumbers(devices: seq<Device>)
    ensures WithNumbers(devices, Numbers(devices)) == devices
  {
  }

  lemma WithNumbersStep(devices: seq<Device>, nums: seq<int>, k: nat, no: int)
    requires k < |devices| == |nums|
    ensures var current := WithNumbers(devices, nums);
            current[k := current[k].(info := current[k].info.(logicalNo := no))] == WithNumbers(devices, nums[k := no])
    ensures Numbers(WithNumbers(devices, nums)) == nums
  {
  }

  /** entry->logical_device_no = no for the k-th entry. */
  method SetNumber(heap: Heap<Cell>, cfg: Ptr, k: nat, no: int, ghost c: Config, ghost nums: seq<int>,
                   ghost now: Config, ghost rest: map<Ptr, Cell>)
    returns (ghost next: Config)
    requires k < |c.devices| == |nums| && cfg == c.p
    requires now == c.(devices := WithNumbers(c.devices, nums)) && ConfigOk(now)
    requires Owns(heap.cells, ConfigLayout(now), rest) && Readable(heap.cells, now)
    modifies heap
    ensures next == c.(devices := WithNumbers(c.devices, nums[k := no])) && ConfigOk(next)
    ensures Owns(heap.cells, ConfigLayout(next), rest) && Readable(heap.cells, next)
  {
    hide Owns, ConfigLayout, ConfigOk;
    WithNumbersStep(c.devices, nums, k, no);
    var entry := heap.cells[heap.cells[cfg].deviceList].slots[k];
    next := WriteInfo(heap, entry, heap.cells[entry].info.(logicalNo := no), now, k, rest);
  }

  /** ConfigEnumerate. */
  method ConfigEnumerate(heap: Heap<Cell>, cfg: Ptr, start: int, ghost c: Config, ghost rest: map<Ptr, Cell>)
    returns (err: int, ghost c': Config)
    requires cfg != NULL ==> cfg == c.p && ConfigOk(c) && Owns(heap.cells, ConfigLayout(c), rest)
    modifies heap
    ensures cfg == NULL ==> err == ERRNO_INTERNAL && heap.cells == old(heap.cells) && c' == c
    ensures cfg != NULL ==>
            && err == ERRNO_SUCCESS && ConfigOk(c') && Owns(heap.cells, ConfigLayout(c'), rest)
            && c' == c.(devices := WithNumbers(c.devices, seq(|c.devices|, i => start + i)))
  {
    hide Owns, ConfigLayout, ConfigOk, WithNumbers;
    c' := c;
    if cfg == NULL {
      return ERRNO_INTERNAL, c;
    }
    ghost var nums := Numbers(c.devices);
    WithOwnNumbers(c.devices);
    OwnsIsReadable(heap.cells, c, rest);
    var i := 0;
    while i < heap.cells[cfg].deviceCount
      invariant 0 <= i <= |c.devices| == |nums|
      invariant c' == c.(devices := WithNumbers(c.devices, nums)) && ConfigOk(c') && |c'.devices| == |c.devices|
      invariant Owns(heap.cells, ConfigLayout(c'), rest) && Readable(heap.cells, c')
      invariant forall k :: 0 <= k < i ==> nums[k] == start + k
      decreases |c.devices| - i
    {
      c' := SetNumber(heap, cfg, i, start + i, c, nums, c', rest);
      nums := nums[i := start + i];
      i := i + 1;
    }
    assert nums == seq(|c.devices|, k => start + k);
    err := ERRNO_SUCCESS;
  }

  /** ConfigDenumerate is ConfigEnumerate with -1 everywhere; it makes ConfigContinueEnumerate number all entries. */
  method ConfigContinueEnumerate(heap: Heap<Cell>, cfg: Ptr, start: int, ghost c: Config, ghost rest: map<Ptr, Cell>)
    returns (err: int, ghost c': Config, ghost nums: seq<int>)
    requires cfg != NULL ==> cfg == c.p && ConfigOk(c) && Owns(heap.cells, ConfigLayout(c), rest)
    modifies heap
    ensures cfg == NULL ==> err == ERRNO_INTERNAL && heap.cells == old(heap.cells) && c' == c
    ensures cfg != NULL ==>
            && err == ERRNO_SUCCESS && ConfigOk(c') && Owns(heap.cells, ConfigLayout(c'), rest)
            && Filled(Numbers(c.devices), nums, start)
            && c' == c.(devices := WithNumbers(c.devices, nums))
  {
    hide Owns, ConfigLayout, ConfigOk, WithNumbers, Filled, FilledUpTo;
    c', nums := c, Numbers(c.devices);
    if cfg == NULL {
      return ERRNO_INTERNAL, c, nums;
    }
    ghost var before := nums;
    var startEnum := start;
    WithOwnNumbers(c.devices);
    FilledStart(before, start);
    OwnsIsReadable(heap.cells, c, rest);
    var i := 0;
    while i < heap.cells[cfg].deviceCount
      invariant 0 <= i <= |c.devices| == |nums|
      invariant c' == c.(devices := WithNumbers(c.devices, nums)) && ConfigOk(c') && Numbers(c'.devices) == nums
      invariant Owns(heap.cells, ConfigLayout(c'), rest) && Readable(heap.cells, c')
      invariant FilledUpTo(before, nums, start, startEnum, i)
      decreases |c.devices| - i
    {
      var entry := heap.cells[heap.cells[cfg].deviceList].slots[i];
      assert heap.cells[entry].info.logicalNo == Numbers(c'.devices)[i];
      if heap.cells[entry].info.logicalNo == UNNUMBERED {
        ghost var next := startEnum;
        startEnum := FindNextIndex(heap, cfg, startEnum, c');
        c' := SetNumber(heap, cfg, i, startEnum, c, nums, c', rest);
        FilledNow(before, nums, start, next, i);
        FilledStep(before, nums, start, next, i, startEnum);
        nums := nums[i := startEnum];
        WithNumbersStep(c.devices, nums, i, startEnum);
        startEnum := startEnum + 1;
      } else {
        FilledSkip(before, nums, start, startEnum, i);
      }
      i := i + 1;
    }
    FilledDone(before, nums, start, startEnum);
    err := ERRNO_SUCCESS;
  }

  /** What ConfigVerify makes of the control field: only a used entry with a real device stays usable. */
  function VerifiedInfo(info: DeviceInfo): DeviceInfo {
    info.(plugged := if info.deviceNo >= 0 && info.plugged == PluggedUsed then PluggedUsed else PluggedBlocked)
  }

  ghost function Verified(devices: seq<Device>, n: nat): (r: seq<Device>)
    requires n <= |devices|
    ensures |r| == |devices|
  {
    seq(|devices|, i requires 0 <= i < |devices| =>
      if i < n then devices[i].(info := VerifiedInfo(devices[i].info)) else devices[i])
  }

  lemma VerifiedStep(devices: seq<Device>, k: nat)
    requires k < |devices|
    ensures Verified(devices, k)[k] == devices[k]
    ensures Verified(devices, k)[k := devices[k].(info := VerifiedInfo(devices[k].info))] == Verified(devices, k + 1)
    ensures Verified(devices, 0) == devices
  {
  }

  /** The first loop of ConfigVerify: every number is looked up in the list of the numbers before it. */
  method CheckNumbers(heap: Heap<Cell>, cfg: Ptr, ghost c: Config) returns (err: int)
    requires cfg == c.p && Readable(heap.cells, c)
    ensures err == ERRNO_SUCCESS || err == ERRNO_INTERNAL
    ensures err == ERRNO_SUCCESS <==> NoTwice(Numbers(c.devices))
  {
    ghost var nums := Numbers(c.devices);
    err := ERRNO_SUCCESS;
    var seen: seq<int> := [];
    var e := 0;
    while e < heap.cells[cfg].deviceCount
      invariant 0 <= e <= |nums|
      invariant seen == nums[..e] && NoTwice(nums[..e])
      decreases |nums| - e
    {
      var no := heap.cells[heap.cells[heap.cells[cfg].deviceList].slots[e]].info.logicalNo;
      assert no == nums[e];
      var found, i := false, 0;
      while i < |seen|
        invariant 0 <= i <= |seen| && !found
        invariant forall k :: 0 <= k < i ==> seen[k] != no
      {
        if no == seen[i] {
          found := true;
          break;
        }
        i := i + 1;
      }
      if found {
        assert nums[i] == nums[e];
        return ERRNO_INTERNAL;
      }
      seen := seen + [no];
      e := e + 1;
    }
    assert nums[..e] == nums;
  }

  /** ConfigVerify. The control fields are set whether or not the numbers are in order. */
  method ConfigVerify(heap: Heap<Cell>, cfg: Ptr, ghost c: Config, ghost rest: map<Ptr, Cell>)
    returns (err: int, ghost c': Config)
    requires cfg == c.p && ConfigOk(c) && Owns(heap.cells, ConfigLayout(c), rest)
    modifies heap
    ensures err == ERRNO_SUCCESS || err == ERRNO_INTERNAL
    ensures err == ERRNO_SUCCESS <==> NoTwice(Numbers(c.devices))
    ensures c' == c.(devices := Verified(c.devices, |c.devices|)) && ConfigOk(c')
    ensures Owns(heap.cells, ConfigLayout(c'), rest)
  {
    hide Owns, ConfigLayout, ConfigOk, Verified, NoTwice;
    OwnsIsReadable(heap.cells, c, rest);
    err := CheckNumbers(heap, cfg, c);
    c' := c;
    var e := 0;
    if c.devices != [] {
      VerifiedStep(c.devices, 0);
    } else {
      assert Verified(c.devices, 0) == c.devices;
    }
    while e < heap.cells[cfg].deviceCount
      invariant 0 <= e <= |c.devices|
      invariant c' == c.(devices := Verified(c.devices, e)) && ConfigOk(c')
      invariant Owns(heap.cells, ConfigLayout(c'), rest) && Readable(heap.cells, c')
      decreases |c.devices| - e
    {
      VerifiedStep(c.devices, e);
      var entry := heap.cells[heap.cells[cfg].deviceList].slots[e];
      if heap.cells[entry].info.deviceNo < 0 {
        c' := WriteInfo(heap, entry, heap.cells[entry].info.(plugged := PluggedBlocked), c', e, rest);
      } else if heap.cells[entry].info.plugged != PluggedUsed {
        c' := WriteInfo(heap, entry, heap.cells[entry].info.(plugged := PluggedBlocked), c', e, rest);
      } else {
        assert c'.devices[e].(info := VerifiedInfo(c.devices[e].info)) == c'.devices[e];
        assert c'.devices[e := c'.devices[e]] == c'.devices;
      }
      e := e + 1;
    }
  }

  /** ConfigVerify accepts what ConfigContinueEnumerate numbered exactly if the preset numbers were distinct. */
  lemma NumberedVerifies(devices: seq<Device>, nums: seq<int>, start: int)
    requires Filled(Numbers(devices), nums, start)
    ensures NoTwice(Numbers(WithNumbers(devices, nums))) <==>
            forall i, j :: 0 <= i < j < |devices| && devices[i].info.logicalNo != UNNUMBERED &&
                           devices[j].info.logicalNo != UNNUMBERED ==>
                               devices[i].info.logicalNo != devices[j].info.logicalNo
  {
    var before := Numbers(devices);
    if |devices| > 0 {
      WithNumbersStep(devices, nums, 0, 0);
    }
    FilledIsDistinct(before, nums, start);
    assert forall i :: 0 <= i < |devices| ==> before[i] == devices[i].info.logicalNo;
    assert Numbers(WithNumbers(devices, nums)) == nums;
  }
}
