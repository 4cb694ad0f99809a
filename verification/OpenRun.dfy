/** ME_Open with an explicit address (library/meids_local.c:298-337): the configuration of a driver joins the global
    one, and its context the context list. */
module OpenRun {
  import opened Defines
  import opened Memory
  import opened Ownership
  import opened DeviceTree
  import opened ConfigCopy
  import opened ConfigRelease
  import opened ConfigNumbering
  import opened ContextList

  function Renumber(devices: seq<DeviceValue>): (r: seq<DeviceValue>)
    ensures |r| == |devices|
  {
    seq(|devices|, i requires 0 <= i < |devices| => devices[i].(info := devices[i].info.(logicalNo := i)))
  }

  /** What one successful open makes of the global configuration. */
  function OpenStep(global: seq<DeviceValue>, added: seq<DeviceValue>): seq<DeviceValue> {
    Renumber(Kept(global) + Kept(added))
  }

  /** The memory of both configurations and of their join; cleaning up the first two leaves the join. */
  lemma JoinMemory(whole: map<Ptr, Cell>, before: map<Ptr, Cell>, g: Config, n: Config, j: Config, rest: map<Ptr, Cell>)
    returns (m: map<Ptr, Cell>)
    requires Owns(before, ConfigLayout(g) + ConfigLayout(n), rest) && Owns(whole, ConfigLayout(j), before)
    ensures Owns(whole, ConfigLayout(g), m) && Owns(m, ConfigLayout(n) + ConfigLayout(j), rest)
  {
    hide Owns, ConfigLayout, Minus;
    var gl, nl, jl := ConfigLayout(g), ConfigLayout(n), ConfigLayout(j);
    OwnsConcat(whole, gl + nl, jl, before, rest);
    assert gl + nl + jl == [] + (gl + (nl + jl));
    OwnsExtract(whole, [], gl, nl + jl, rest);
    m := Minus(whole, gl);
    assert [] + (nl + jl) == nl + jl;
  }

  /** After the first clean-up: the empty global struct `g`, the driver's configuration and the join. */
  lemma SecondMemory(m: map<Ptr, Cell>, g: Ptr, n: Config, j: Config, rest: map<Ptr, Cell>) returns (m2: map<Ptr, Cell>)
    requires g != NULL && g !in m && Owns(m, ConfigLayout(n) + ConfigLayout(j), rest)
    ensures Owns(m[g := ConfigCell(NULL, 0)], ConfigLayout(n), m2)
    ensures Owns(m2, ConfigLayout(j) + [Node(g, ConfigCell(NULL, 0))], rest)
  {
    hide Owns, ConfigLayout, Minus;
    var nl, jl, empty := ConfigLayout(n), ConfigLayout(j), ConfigCell(NULL, 0);
    OwnsAppend(m, nl + jl, rest, g, empty);
    assert nl + jl + [Node(g, empty)] == [] + (nl + (jl + [Node(g, empty)]));
    OwnsExtract(m[g := empty], [], nl, jl + [Node(g, empty)], rest);
    m2 := Minus(m[g := empty], nl);
    assert [] + (jl + [Node(g, empty)]) == jl + [Node(g, empty)];
  }

  /** The table of the join moves into the global struct, and the struct of the join is freed. */
  lemma TakenOver(m2: map<Ptr, Cell>, g: Ptr, j: Config, rest: map<Ptr, Cell>)
    requires Owns(m2, ConfigLayout(j) + [Node(g, ConfigCell(NULL, 0))], rest)
    ensures g in m2 && j.p in m2 && m2[j.p] == ConfigCell(j.table, |j.devices|) && g != j.p
    ensures Owns(m2[g := ConfigCell(j.table, |j.devices|)] - {j.p}, ConfigLayout(j.(p := g)), rest)
  {
    hide Owns, Minus;
    var struct, parts := ConfigCell(j.table, |j.devices|), ConfigParts(j);
    var l := ConfigLayout(j) + [Node(g, ConfigCell(NULL, 0))];
    var w := m2[g := struct];
    assert l == [Node(j.p, struct)] + (parts + [Node(g, ConfigCell(NULL, 0))]);
    OwnsAt(m2, l, rest, 0);
    OwnsAt(m2, l, rest, |l| - 1);
    OwnsDistinct(m2, l, rest, 0, |l| - 1);
    OwnsWriteLast(m2, Node(j.p, struct), parts, g, ConfigCell(NULL, 0), rest, struct);
    assert [Node(j.p, struct)] + (parts + [Node(g, struct)]) == []
        + ([Node(j.p, struct)] + (parts + [Node(g, struct)]));
    OwnsFreeAt(w, [], j.p, struct, parts + [Node(g, struct)], rest);
    assert [] + (parts + [Node(g, struct)]) == parts + [Node(g, struct)];
    OwnsSwap(w - {j.p}, parts, [Node(g, struct)], rest);
    assert ConfigParts(j.(p := g)) == parts;
  }

  /** The successful path of ME_Open: `cfg` is the configuration just read from the driver, `context` its context. */
  method MeOpen(heap: Heap<Cell>, lists: Heap<ListCell>, locConfig: Ptr, locContext: Ptr, cfg: Ptr, context: Handle,
                ghost g: Config, ghost n: Config, ghost rest: map<Ptr, Cell>, ghost contexts: Chain,
                    ghost listRest: map<Ptr, ListCell>)
    returns (ghost g': Config, ghost contexts': Chain)
    requires locConfig == g.p && cfg == n.p && ConfigOk(g) && ConfigOk(n)
    requires Owns(heap.cells, ConfigLayout(g) + ConfigLayout(n), rest)
    requires Shaped(contexts) && locContext == contexts.ptrs[0] != NULL && contexts.tail == NULL && !contexts.looped
    requires Owns(lists.cells, ChainLayout(contexts), listRest)
    requires (heap as object) != lists
    modifies heap, lists
    ensures ConfigOk(g') && g'.p == g.p && Owns(heap.cells, ConfigLayout(g'), rest)
    ensures ValueOf(g'.devices) == OpenStep(ValueOf(g.devices), ValueOf(n.devices))
    ensures Shaped(contexts') && contexts'.contexts == contexts.contexts + [context] && contexts'.tail == NULL
    ensures !contexts'.looped
    ensures contexts'.ptrs[0] == locContext && Owns(lists.cells, ChainLayout(contexts'), listRest)
  {
    hide Owns, ConfigLayout, ChainLayout, DeviceOk, Kept;
    ghost var before: map<Ptr, Cell> := heap.cells;
    ghost var j, m, m2;
    var err, newGlobal;
    BothPresent(before, g, n, rest);
    err, newGlobal, j := ConfigJoin(heap, locConfig, cfg, g, n);
    m := JoinMemory(heap.cells, before, g, n, j, rest);
    ConfigClean(heap, locConfig, g, m);
    m2 := SecondMemory(m, locConfig, n, j, rest);
    ConfigClean(heap, cfg, n, m2);
    if cfg != NULL {
      heap.Free(cfg);
      assert heap.cells == m2;
    }
    TakenOver(m2, locConfig, j, rest);
    heap.Write(locConfig, ConfigCell(heap.cells[newGlobal].deviceList, heap.cells[newGlobal].deviceCount));
    heap.Free(newGlobal);
    ghost var taken := j.(p := locConfig);
    NewOwner(j, locConfig);
    err, g' := ConfigEnumerate(heap, locConfig, 0, taken, rest);
    EnumeratedValue(j.devices);
    err, contexts' := ContextAppend(lists, context, locContext, contexts, listRest);
  }

  lemma BothPresent(whole: map<Ptr, Cell>, g: Config, n: Config, rest: map<Ptr, Cell>)
    requires Owns(whole, ConfigLayout(g) + ConfigLayout(n), rest)
    ensures Has(whole, ConfigLayout(g)) && Has(whole, ConfigLayout(n))
  {
    hide Owns, Has, ConfigLayout;
    OwnsHas(whole, ConfigLayout(g) + ConfigLayout(n), rest);
    HasConcat(whole, ConfigLayout(g), ConfigLayout(n));
  }

  lemma NewOwner(j: Config, p: Ptr)
    requires ConfigOk(j) && p != NULL
    ensures ConfigOk(j.(p := p))
  {
  }

  lemma EnumeratedValue(devices: seq<Device>)
    ensures ValueOf(WithNumbers(devices, seq(|devices|, i => 0 + i))) == Renumber(ValueOf(devices))
  {
  }

  // Runs: all opens since the library was loaded, in order.

  /** The global configuration after a run. */
  function Run(opens: seq<seq<DeviceValue>>): seq<DeviceValue>
    decreases |opens|
  {
    if opens == [] then [] else OpenStep(Run(opens[..|opens| - 1]), opens[|opens| - 1])
  }

  function Flatten(opens: seq<seq<DeviceValue>>): seq<DeviceValue>
    decreases |opens|
  {
    if opens == [] then [] else Flatten(opens[..|opens| - 1]) + opens[|opens| - 1]
  }

  lemma {:induction false} KeptAll(devices: seq<DeviceValue>)
    requires AllSupported(devices)
    ensures Kept(devices) == devices
  {
    if devices == [] {
    } else {
      KeptAll(devices[1..]);
    }
  }

  lemma RenumberTwice(a: seq<DeviceValue>, b: seq<DeviceValue>)
    ensures Renumber(Renumber(a) + b) == Renumber(a + b)
  {
  }

  lemma SupportedRenumber(devices: seq<DeviceValue>)
    requires AllSupported(devices)
    ensures AllSupported(Renumber(devices))
  {
  }

  lemma StepConcatenates(before: seq<DeviceValue>, added: seq<DeviceValue>)
    requires AllSupported(before) && AllSupported(added)
    ensures OpenStep(Renumber(before), added) == Renumber(before + added)
    ensures AllSupported(before + added) && AllSupported(Renumber(before + added))
  {
    hide Kept, Renumber, Supported;
    SupportedRenumber(before);
    KeptAll(Renumber(before));
    KeptAll(added);
    RenumberTwice(before, added);
    assert AllSupported(before + added);
    SupportedRenumber(before + added);
  }

  lemma NothingSupported()
    ensures AllSupported([]) && Renumber([]) == []
  {
  }

  /** If all entries have a supported access type, the global configuration is the concatenation of everything opened,
      numbered 0, 1, 2, ... in list order. */
  lemma {:induction false} RunIsConcatenation(opens: seq<seq<DeviceValue>>)
    requires forall k :: 0 <= k < |opens| ==> AllSupported(opens[k])
    ensures Run(opens) == Renumber(Flatten(opens))
    ensures AllSupported(Flatten(opens)) && AllSupported(Run(opens))
    decreases |opens|
  {
    hide Kept, OpenStep, Renumber, AllSupported;
    NothingSupported();
    if opens == [] {
    } else {
      var n := |opens| - 1;
      RunIsConcatenation(opens[..n]);
      StepConcatenates(Flatten(opens[..n]), opens[n]);
    }
  }

  /** The k-th device of the result comes from the global list exactly if every entry before it there is supported. */
  lemma {:induction false} KeptReaches(devices: seq<DeviceValue>, k: nat)
    requires k < |devices|
    ensures k < |Kept(devices)| <==> AllSupported(devices[..k])
    ensures Kept(devices) <= devices
    decreases |devices|
  {
    hide AllSupported, Supported;
    KeptIsPrefix(devices);
    if k == 0 {
      NothingSupported();
    } else {
      KeptReaches(devices[1..], k - 1);
      SupportedOne(devices[0], devices[1..][..k - 1]);
      assert devices[..k] == [devices[0]] + devices[1..][..k - 1];
    }
  }

  lemma SupportedOne(d: DeviceValue, devices: seq<DeviceValue>)
    ensures AllSupported([d] + devices) <==> Supported(d.info.access) && AllSupported(devices)
  {
    assert forall k :: 0 <= k < |devices| ==> ([d] + devices)[k + 1] == devices[k];
    assert AllSupported([d] + devices) ==> Supported(([d] + devices)[0].info.access);
  }

  /** A device of the global configuration keeps its place, its number, its context and its real device number in the
      next open exactly if every entry before it has a supported access type; otherwise it is dropped, and its place
      is taken by a newly opened device or by none. */
  lemma DeviceSurvives(global: seq<DeviceValue>, added: seq<DeviceValue>, k: nat)
    requires k < |global| && forall i :: 0 <= i < |global| ==> global[i].info.logicalNo == i
    ensures k < |Kept(global)| <==> AllSupported(global[..k])
    ensures AllSupported(global[..k]) ==> k < |OpenStep(global, added)| && OpenStep(global, added)[k] == global[k]
    ensures !AllSupported(global[..k]) && k < |OpenStep(global, added)| ==>
            OpenStep(global, added)[k] == WithNumber(Kept(added)[k - |Kept(global)|], k)
  {
    KeptReaches(global, k);
    if AllSupported(global[..k]) {
      assert (Kept(global) + Kept(added))[k] == global[k];
    }
  }

  function WithNumber(d: DeviceValue, no: int): DeviceValue {
    d.(info := d.info.(logicalNo := no))
  }

  /** Only the last entry may have an access type that is not supported. */
  predicate AllButLastSupported(devices: seq<DeviceValue>) {
    devices == [] || AllSupported(devices[..|devices| - 1])
  }

  lemma KeptExactly(devices: seq<DeviceValue>)
    ensures |Kept(devices)| <= |devices|
    ensures Kept(devices) == devices <==> AllButLastSupported(devices)
    ensures |Kept(devices)| == |devices| <==> AllButLastSupported(devices)
  {
    if devices == [] {
    } else {
      KeptReaches(devices, |devices| - 1);
      KeptReaches(devices, 0);
    }
  }

  /** One open appends the new configuration to the global one exactly if both have nothing behind an entry of an
      access type that is not supported. */
  lemma StepAppendsExactly(global: seq<DeviceValue>, added: seq<DeviceValue>)
    ensures |OpenStep(global, added)| <= |global| + |added|
    ensures OpenStep(global, added) == Renumber(global + added)
            <==> AllButLastSupported(global) && AllButLastSupported(added)
    ensures |OpenStep(global, added)| == |global| + |added|
            <==> AllButLastSupported(global) && AllButLastSupported(added)
  {
    hide Kept, AllButLastSupported;
    KeptExactly(global);
    KeptExactly(added);
  }

  lemma SupportIgnoresNumbers(devices: seq<DeviceValue>)
    ensures AllButLastSupported(Renumber(devices)) <==> AllButLastSupported(devices)
  {
    if devices == [] {
    } else {
      var n := |devices| - 1;
      forall k | 0 <= k < n
        ensures Renumber(devices)[..n][k].info.access == devices[..n][k].info.access {
      }
    }
  }

  lemma {:induction false} RunIsShort(opens: seq<seq<DeviceValue>>)
    ensures |Run(opens)| <= |Flatten(opens)|
    decreases |opens|
  {
    if opens == [] {
    } else {
      var n := |opens| - 1;
      RunIsShort(opens[..n]);
      StepAppendsExactly(Run(opens[..n]), opens[n]);
    }
  }

  /** What was opened before the last open, and what was opened last, have nothing behind an entry of an access type
      that is not supported. */
  predicate Complete(opens: seq<seq<DeviceValue>>) {
    opens == [] || (AllButLastSupported(Flatten(opens[..|opens| - 1])) && AllButLastSupported(opens[|opens| - 1]))
  }

  lemma SupportOfConcat(a: seq<DeviceValue>, b: seq<DeviceValue>)
    requires AllButLastSupported(a + b)
    ensures AllButLastSupported(a) && AllButLastSupported(b)
  {
    forall k | 0 <= k < |a| - 1 ensures Supported(a[k].info.access) {
      assert (a + b)[..|a + b| - 1][k] == a[k];
    }
    forall k | 0 <= k < |b| - 1 ensures Supported(b[k].info.access) {
      assert (a + b)[..|a + b| - 1][|a| + k] == b[k];
    }
  }

  /** Over a whole run: the global configuration is everything opened, in order and numbered from 0, exactly if nothing
      was opened behind an entry of an access type that is not supported. */
  lemma {:induction false} RunAppendsExactly(opens: seq<seq<DeviceValue>>)
    ensures Run(opens) == Renumber(Flatten(opens)) <==> Complete(opens)
    ensures |Run(opens)| == |Flatten(opens)| <==> Complete(opens)
    decreases |opens|
  {
    hide Kept, OpenStep, Renumber, AllButLastSupported;
    NothingSupported();
    if opens == [] {
    } else {
      var n := |opens| - 1;
      var before := opens[..n];
      RunIsShort(before);
      RunAppendsExactly(before);
      StepAppendsExactly(Run(before), opens[n]);
      if AllButLastSupported(Flatten(before)) && before != [] {
        SupportOfConcat(Flatten(before[..n - 1]), before[n - 1]);
      }
      if Complete(before) {
        SupportIgnoresNumbers(Flatten(before));
        RenumberTwice(Flatten(before), opens[n]);
      }
    }
  }

  lemma {:induction false} RunIsNumbered(opens: seq<seq<DeviceValue>>)
    ensures forall i :: 0 <= i < |Run(opens)| ==> Run(opens)[i].info.logicalNo == i
  {
  }

  /** Over a whole run: the k-th device after the first n opens is the k-th device ever after. */
  lemma {:induction false} DeviceStays(opens: seq<seq<DeviceValue>>, n: nat, k: nat)
    requires n <= |opens| && k < |Run(opens[..n])|
    requires forall i :: 0 <= i < |opens| ==> AllSupported(opens[i])
    ensures k < |Run(opens)| && Run(opens)[k] == Run(opens[..n])[k]
    decreases |opens|
  {
    hide Kept, OpenStep, Flatten, Renumber;
    if n < |opens| {
      var last := |opens| - 1;
      assert opens[..last][..n] == opens[..n];
      DeviceStays(opens[..last], n, k);
      RunIsConcatenation(opens[..last]);
      RunIsNumbered(opens[..last]);
      DeviceSurvives(Run(opens[..last]), opens[last], k);
    } else {
      assert opens[..n] == opens;
    }
  }
}
