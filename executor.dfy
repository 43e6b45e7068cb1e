/** The system registry and its sequential runner (src/executor.rs). */
module Executor {
  import opened Types

  /** A registered system: its body, the handles it depends on and whether it
      takes part in a run. `S` stands for the opaque system body. */
  datatype SystemContainer<H, S> = SystemContainer(system: S, dependencies: seq<H>, active: bool)

  /** `SystemContainer::new`: a freshly registered system is active. */
  function NewContainer<H, S>(system: S, dependencies: seq<H>): SystemContainer<H, S>
  {
    SystemContainer(system, dependencies, true)
  }

  /** The one recoverable error of handle-keyed operations. */
  datatype Error = NoSuchSystem

  /** A handle-keyed lookup: a value, a `NoSuchSystem` error, or an abort
      (the `panic!` raised when a mapped handle names no live slot). */
  datatype Outcome<T> = Ok(value: T) | Err(error: Error) | Abort

  /** `SystemInsertionArguments`: what `add` accepts, after conversion. */
  datatype SystemInsertionArguments<H, S> =
    SystemInsertionArguments(handle: Option<H>, dependencies: seq<H>, system: S)

  /** `From<System>`: an anonymous system with no dependencies. */
  function FromSystem<H, S>(system: S): SystemInsertionArguments<H, S>
  {
    SystemInsertionArguments(None, [], system)
  }

  /** `From<(H, System)>`: a named system with no dependencies. */
  function FromHandle<H, S>(handle: H, system: S): SystemInsertionArguments<H, S>
  {
    SystemInsertionArguments(Some(handle), [], system)
  }

  /** `From<(Vec<H>, System)>`: an anonymous system with dependencies. */
  function FromDependencies<H, S>(dependencies: seq<H>, system: S): SystemInsertionArguments<H, S>
  {
    SystemInsertionArguments(None, dependencies, system)
  }

  /** `From<(H, Vec<H>, System)>`: a named system with dependencies. */
  function FromHandleAndDependencies<H, S>(handle: H, dependencies: seq<H>, system: S): SystemInsertionArguments<H, S>
  {
    SystemInsertionArguments(Some(handle), dependencies, system)
  }

  /** The four conversions keep the system, give a handle exactly when one is
      supplied and dependencies exactly when they are supplied; the forms
      without dependencies are the general forms at an empty list, and every
      argument value is reached by one of them. */
  lemma ConversionForms<H, S>(handle: H, dependencies: seq<H>, system: S, args: SystemInsertionArguments<H, S>)
    ensures FromSystem<H, S>(system) == FromDependencies([], system)
    ensures FromHandle(handle, system) == FromHandleAndDependencies(handle, [], system)
    ensures FromDependencies(dependencies, system).handle == None
    ensures FromHandleAndDependencies(handle, dependencies, system).handle == Some(handle)
    ensures FromDependencies(dependencies, system).dependencies == dependencies
    ensures FromHandleAndDependencies(handle, dependencies, system).dependencies == dependencies
    ensures FromDependencies(dependencies, system).system == system
    ensures FromHandleAndDependencies(handle, dependencies, system).system == system
    ensures args == if args.handle.Some? then FromHandleAndDependencies(args.handle.value, args.dependencies, args.system)
                    else FromDependencies(args.dependencies, args.system)
  {
  }

  /** The elements of a sequence occur once each. */
  predicate Distinct<T(==)>(s: seq<T>)
  {
    forall i, j :: 0 <= i < j < |s| ==> s[i] != s[j]
  }

  /** `free_indices.pop()` on a stack kept as a sequence (top at the end). */
  function Popped(s: seq<nat>): (r: seq<nat>)
    ensures |s| > 0 ==> |r| == |s| - 1 && r + [s[|s| - 1]] == s
    ensures |s| == 0 ==> r == s
  {
    if |s| > 0 then s[..|s| - 1] else s
  }

  /** `new_system_index`: the top free index if there is one, else the number
      of live systems. */
  function NextIndex<H, S>(systems: map<nat, SystemContainer<H, S>>, free: seq<nat>): nat
  {
    if |free| > 0 then free[|free| - 1] else |systems|
  }

  /** Every mapped handle names a live slot: the condition under which the
      `panic!` in `get_container` and `get_mut_container` is never reached. */
  ghost predicate HandlesResolve<H, S>(handles: map<H, nat>, systems: map<nat, SystemContainer<H, S>>)
  {
    forall h :: h in handles ==> handles[h] in systems
  }

  /** No two handles share a slot. */
  ghost predicate HandlesDistinct<H>(handles: map<H, nat>)
  {
    forall h, g :: h in handles && g in handles && h != g ==> handles[h] != handles[g]
  }

  /** Slot bookkeeping: the live slots and the free stack are disjoint, the
      free stack has no repeats, and together they are exactly the indices
      `0 .. |systems| + |free| - 1`. */
  ghost predicate SlotsAccounted<H, S>(systems: map<nat, SystemContainer<H, S>>, free: seq<nat>)
  {
    && Distinct(free)
    && (forall k :: k in free ==> k !in systems)
    && (forall k: nat :: k in systems || k in free <==> k < |systems| + |free|)
  }

  /** Under the slot bookkeeping, the index that `new_system_index` hands out
      is not a live slot. */
  lemma NextIndexIsVacant<H, S>(systems: map<nat, SystemContainer<H, S>>, free: seq<nat>)
    requires SlotsAccounted(systems, free)
    ensures NextIndex(systems, free) !in systems
  {
  }

  /** The number of dependencies of a slot, the key `maintain` sorts by. */
  function DependencyCount<H, S>(systems: map<nat, SystemContainer<H, S>>, k: nat): nat
  {
    if k in systems then |systems[k].dependencies| else 0
  }

  /** `k` has no more dependencies than any index in `keys`. */
  predicate Fewest<H, S>(systems: map<nat, SystemContainer<H, S>>, keys: set<nat>, k: nat)
  {
    k in keys && forall k' :: k' in keys ==> DependencyCount(systems, k) <= DependencyCount(systems, k')
  }

  /** A non-empty set of slots has one with the fewest dependencies. */
  lemma {:induction false} FewestExists<H, S>(systems: map<nat, SystemContainer<H, S>>, keys: set<nat>)
    requires keys != {}
    ensures exists k :: Fewest(systems, keys, k)
    decreases keys
  {
    var x :| x in keys;
    if keys != {x} {
      var rest := keys - {x};
      FewestExists(systems, rest);
      var m :| Fewest(systems, rest, m);
      if DependencyCount(systems, x) <= DependencyCount(systems, m) {
        assert Fewest(systems, keys, x);
      } else {
        assert Fewest(systems, keys, m);
      }
    } else {
      assert Fewest(systems, keys, x);
    }
  }

  /** `s` lists every live slot exactly once. */
  ghost predicate IsSchedule<H, S>(systems: map<nat, SystemContainer<H, S>>, s: seq<nat>)
  {
    && Distinct(s)
    && (forall i :: 0 <= i < |s| ==> s[i] in systems)
    && (forall k :: k in systems ==> k in s)
  }

  /** `s` is ordered by ascending dependency count. */
  ghost predicate ByDependencyCount<H, S>(systems: map<nat, SystemContainer<H, S>>, s: seq<nat>)
  {
    forall i, j :: 0 <= i < j < |s| ==> DependencyCount(systems, s[i]) <= DependencyCount(systems, s[j])
  }

  /** The collect-and-sort step of `maintain`: the live slot indices ordered
      by ascending dependency count. Ties come out in an unspecified order,
      as the keys of a hash map do. */
  method SortByDependencyCount<H, S>(systems: map<nat, SystemContainer<H, S>>) returns (sorted: seq<nat>)
    ensures IsSchedule(systems, sorted)
    ensures ByDependencyCount(systems, sorted)
    ensures |sorted| == |systems|
  {
    var remaining := systems.Keys;
    sorted := [];
    while remaining != {}
      invariant remaining <= systems.Keys
      invariant |sorted| + |remaining| == |systems|
      invariant Distinct(sorted)
      invariant forall i :: 0 <= i < |sorted| ==> sorted[i] in systems && sorted[i] !in remaining
      invariant forall k :: k in systems ==> k in remaining || k in sorted
      invariant ByDependencyCount(systems, sorted)
      invariant forall i, k :: 0 <= i < |sorted| && k in remaining ==>
        DependencyCount(systems, sorted[i]) <= DependencyCount(systems, k)
      decreases |remaining|
    {
      FewestExists(systems, remaining);
      var k :| Fewest(systems, remaining, k);
      sorted := sorted + [k];
      remaining := remaining - {k};
    }
  }

  /** The system registry `Executor<H>`. */
  class Executor<H(==), S> {
    var systems: map<nat, SystemContainer<H, S>>
    var handles: map<H, nat>
    var freeIndices: seq<nat>
    var sorted: seq<nat>
    var dirty: bool

    /** The registry invariant: handles resolve to distinct live slots and
        the slot bookkeeping is exact. */
    ghost predicate Valid()
      reads this
    {
      && HandlesResolve(handles, systems)
      && HandlesDistinct(handles)
      && SlotsAccounted(systems, freeIndices)
    }

    /** `Executor::default` and `Executor::new`: empty and dirty. */
    constructor()
      ensures systems == map[] && handles == map[] && freeIndices == [] && sorted == []
      ensures dirty
      ensures Valid()
    {
      systems := map[];
      handles := map[];
      freeIndices := [];
      sorted := [];
      dirty := true;
    }

    /** The slot that `add_inner` stores into for `handle`. */
    function InsertionIndex(handle: Option<H>): nat
      reads this
    {
      if handle.Some? && handle.value in handles then handles[handle.value]
      else NextIndex(systems, freeIndices)
    }

    /** `new_system_index`: pops the free stack, else mints `systems.len()`. */
    method NewSystemIndex() returns (index: nat)
      modifies this`freeIndices
      ensures index == old(NextIndex(systems, freeIndices))
      ensures freeIndices == Popped(old(freeIndices))
      ensures old(freeIndices) == [] ==> index == |systems|
    {
      if |freeIndices| > 0 {
        index := freeIndices[|freeIndices| - 1];
        freeIndices := freeIndices[..|freeIndices| - 1];
      } else {
        index := |systems|;
      }
    }

    /** The state `add_inner` leaves: the container is stored at the
        insertion index, an unmapped handle is mapped to a newly drawn index,
        a mapped one is left alone, the free stack is popped only when a new
        index is drawn, and the registry is dirty. */
    twostate predicate Registered(handle: Option<H>, dependencies: seq<H>, system: S)
      reads this
    {
      var index := old(InsertionIndex(handle));
      var draws := !(handle.Some? && handle.value in old(handles));
      && systems == old(systems)[index := NewContainer(system, dependencies)]
      && handles == (if handle.Some? && draws then old(handles)[handle.value := index] else old(handles))
      && freeIndices == (if draws then Popped(old(freeIndices)) else old(freeIndices))
      && sorted == old(sorted)
      && dirty
    }

    /** `add_inner`. It returns whatever occupied the slot it stored into.
        Under the registry invariant that is exactly the previous system of an
        already mapped handle; without the invariant a newly drawn index can
        be a live slot of another system, which is then overwritten. */
    method AddInner(handle: Option<H>, dependencies: seq<H>, system: S) returns (previous: Option<S>)
      modifies this
      ensures Registered(handle, dependencies, system)
      ensures var index := old(InsertionIndex(handle));
        previous == if index in old(systems) then Some(old(systems)[index].system) else None
      ensures old(Valid()) ==> Valid()
      ensures old(Valid()) ==> (previous.Some? <==> handle.Some? && handle.value in old(handles))
      ensures old(Valid()) && handle.Some? ==>
        GetContainer(handle.value) == Ok(NewContainer(system, dependencies))
    {
      ghost var valid := Valid();
      var index;
      if handle.Some? && handle.value in handles {
        index := handles[handle.value];
      } else {
        if valid {
          NextIndexIsVacant(systems, freeIndices);
        }
        index := NewSystemIndex();
        if handle.Some? {
          handles := handles[handle.value := index];
        }
      }
      dirty := true;
      previous := if index in systems then Some(systems[index].system) else None;
      ghost var oldSystems := systems;
      systems := systems[index := NewContainer(system, dependencies)];
      if valid {
        AddKeepsSlotsAccounted(oldSystems, old(freeIndices), index, NewContainer(system, dependencies));
      }
    }

    /** `add`: converts its argument and registers it. */
    method Add(args: SystemInsertionArguments<H, S>) returns (previous: Option<S>)
      modifies this
      ensures Registered(args.handle, args.dependencies, args.system)
      ensures var index := old(InsertionIndex(args.handle));
        previous == if index in old(systems) then Some(old(systems)[index].system) else None
      ensures old(Valid()) ==> Valid()
      ensures old(Valid()) ==> (previous.Some? <==> args.handle.Some? && args.handle.value in old(handles))
      ensures old(Valid()) && args.handle.Some? ==>
        GetContainer(args.handle.value) == Ok(NewContainer(args.system, args.dependencies))
    {
      previous := AddInner(args.handle, args.dependencies, args.system);
    }

    /** `with`: the builder form of `add`, returning the same executor. */
    method With(args: SystemInsertionArguments<H, S>) returns (self: Executor<H, S>)
      modifies this
      ensures self == this
      ensures Registered(args.handle, args.dependencies, args.system)
      ensures old(Valid()) ==> Valid()
    {
      var _ := Add(args);
      self := this;
    }

    /** `remove`, as written: unmaps the handle and deletes its slot, but
        never pushes the freed index onto the free stack. */
    method Remove(handle: H) returns (removed: Option<S>)
      modifies this`handles, this`systems, this`dirty
      ensures dirty
      ensures handles == old(handles) - {handle}
      ensures systems == if handle in old(handles) then old(systems) - {old(handles)[handle]} else old(systems)
      ensures removed == if handle in old(handles) && old(handles)[handle] in old(systems)
                         then Some(old(systems)[old(handles)[handle]].system) else None
      ensures GetContainer(handle) == Err(NoSuchSystem)
      ensures old(HandlesResolve(handles, systems) && HandlesDistinct(handles)) ==>
        HandlesResolve(handles, systems) && HandlesDistinct(handles)
    {
      dirty := true;
      removed := None;
      if handle in handles {
        var index := handles[handle];
        handles := handles - {handle};
        if index in systems {
          removed := Some(systems[index].system);
          systems := systems - {index};
        }
      }
    }

    /** `remove` with the freed index pushed onto the free stack, which the
        registry invariant needs and the source omits. */
    method RemoveRecycling(handle: H) returns (removed: Option<S>)
      modifies this`handles, this`systems, this`freeIndices, this`dirty
      ensures dirty
      ensures handles == old(handles) - {handle}
      ensures systems == if handle in old(handles) then old(systems) - {old(handles)[handle]} else old(systems)
      ensures removed == if handle in old(handles) && old(handles)[handle] in old(systems)
                         then Some(old(systems)[old(handles)[handle]].system) else None
      ensures freeIndices == if removed.Some? then old(freeIndices) + [old(handles)[handle]] else old(freeIndices)
      ensures GetContainer(handle) == Err(NoSuchSystem)
      ensures old(Valid()) ==> Valid()
    {
      ghost var valid := Valid();
      dirty := true;
      removed := None;
      if handle in handles {
        var index := handles[handle];
        handles := handles - {handle};
        if index in systems {
          removed := Some(systems[index].system);
          ghost var oldSystems := systems;
          systems := systems - {index};
          freeIndices := freeIndices + [index];
          if valid {
            RemoveKeepsSlotsAccounted(oldSystems, old(freeIndices), index);
          }
        }
      }
    }

    /** `get_container` and `get_mut_container`: the container of a handle,
        `NoSuchSystem` for an unmapped handle, and an abort when a mapped
        handle names no live slot, which the registry invariant excludes. */
    function GetContainer(handle: H): (r: Outcome<SystemContainer<H, S>>)
      reads this
      ensures r.Err? <==> handle !in handles
      ensures r.Ok? <==> handle in handles && handles[handle] in systems
      ensures r.Ok? ==> r.value == systems[handles[handle]]
      ensures r.Abort? <==> handle in handles && handles[handle] !in systems
      ensures HandlesResolve(handles, systems) ==> !r.Abort?
    {
      if handle !in handles then Err(NoSuchSystem)
      else if handles[handle] in systems then Ok(systems[handles[handle]])
      else Abort
    }

    /** `contains`: whether the handle is mapped, which is exactly when the
        handle-keyed operations do not fail with `NoSuchSystem`. */
    function Contains(handle: H): (b: bool)
      reads this
      ensures b <==> !GetContainer(handle).Err?
    {
      handle in handles
    }

    /** `get_mut`: access to the system body behind a handle. */
    function GetMut(handle: H): (r: Outcome<S>)
      reads this
      ensures r.Err? <==> !Contains(handle)
      ensures r.Ok? <==> GetContainer(handle).Ok?
      ensures r.Ok? ==> r.value == GetContainer(handle).value.system
    {
      match GetContainer(handle)
      case Ok(c) => Ok(c.system)
      case Err(e) => Err(e)
      case Abort => Abort
    }

    /** `is_active`. */
    function IsActive(handle: H): (r: Outcome<bool>)
      reads this
      ensures r.Err? <==> !Contains(handle)
      ensures r.Ok? <==> GetContainer(handle).Ok?
      ensures r.Ok? ==> r.value == GetContainer(handle).value.active
    {
      match GetContainer(handle)
      case Ok(c) => Ok(c.active)
      case Err(e) => Err(e)
      case Abort => Abort
    }

    /** `set_active`: changes only the `active` flag of the handle's
        container; it leaves the handles, the free stack, the cached order and
        the dirty flag as they were. */
    method SetActive(handle: H, active: bool) returns (r: Outcome<()>)
      modifies this`systems
      ensures r.Err? <==> !Contains(handle)
      ensures r.Ok? <==> old(GetContainer(handle)).Ok?
      ensures r.Ok? ==> systems == old(systems)[handles[handle] := old(systems)[handles[handle]].(active := active)]
      ensures !r.Ok? ==> systems == old(systems)
      ensures r.Ok? ==> IsActive(handle) == Ok(active)
      ensures old(Valid()) ==> Valid()
    {
      match GetContainer(handle)
      case Ok(c) =>
        systems := systems[handles[handle] := c.(active := active)];
        r := Ok(());
      case Err(e) =>
        r := Err(e);
      case Abort =>
        r := Abort;
    }

    /** `maintain`: rebuilds the cached order of all live slots by ascending
        dependency count and marks the registry clean. */
    method Maintain()
      modifies this`sorted, this`dirty
      ensures IsSchedule(systems, sorted) && ByDependencyCount(systems, sorted)
      ensures |sorted| == |systems|
      ensures !dirty
    {
      var order := SortByDependencyCount(systems);
      sorted := order;
      dirty := false;
    }

    /** `run`: rebuilds the cached order when dirty, then invokes every active
        system once, in the iteration order of the slot map (which is not the
        cached order). The returned trace lists the invoked slots. */
    method Run() returns (invoked: seq<nat>)
      modifies this`sorted, this`dirty
      ensures !dirty
      ensures old(dirty) ==> IsSchedule(systems, sorted) && ByDependencyCount(systems, sorted)
      ensures !old(dirty) ==> sorted == old(sorted)
      ensures Distinct(invoked)
      ensures forall i :: i in invoked <==> i in systems && systems[i].active
    {
      if dirty {
        Maintain();
      }
      var remaining := systems.Keys;
      invoked := [];
      while remaining != {}
        invariant remaining <= systems.Keys
        invariant Distinct(invoked)
        invariant forall i :: i in invoked ==> i in systems && systems[i].active && i !in remaining
        invariant forall i :: i in systems && systems[i].active && i !in remaining ==> i in invoked
        decreases |remaining|
      {
        var index :| index in remaining;
        if systems[index].active {
          invoked := invoked + [index];
        }
        remaining := remaining - {index};
      }
    }
  }

  /** Storing at a vacant next index, or overwriting a live slot, keeps the
      slot bookkeeping exact. */
  lemma AddKeepsSlotsAccounted<H, S>(systems: map<nat, SystemContainer<H, S>>, free: seq<nat>, index: nat, c: SystemContainer<H, S>)
    requires SlotsAccounted(systems, free)
    requires index in systems || index == NextIndex(systems, free)
    ensures index in systems ==> SlotsAccounted(systems[index := c], free)
    ensures index !in systems ==> SlotsAccounted(systems[index := c], Popped(free))
  {
    if index !in systems {
      var systems' := systems[index := c];
      var free' := Popped(free);
      assert systems'.Keys == systems.Keys + {index};
      assert |systems'| == |systems| + 1;
      if |free| > 0 {
        assert free == free' + [index];
        forall k | k in free' ensures k in free && k != index {
          var i :| 0 <= i < |free'| && free'[i] == k;
          assert free[i] == k;
        }
        forall k | k in free ensures k in free' || k == index {
        }
      }
    } else {
      assert systems[index := c].Keys == systems.Keys;
    }
  }

  /** Deleting a live slot and pushing its index keeps the bookkeeping exact. */
  lemma RemoveKeepsSlotsAccounted<H, S>(systems: map<nat, SystemContainer<H, S>>, free: seq<nat>, index: nat)
    requires SlotsAccounted(systems, free)
    requires index in systems
    ensures SlotsAccounted(systems - {index}, free + [index])
  {
    var systems' := systems - {index};
    assert systems'.Keys == systems.Keys - {index};
    assert |systems'| == |systems| - 1;
  }

  /** Register `h1` and `h2`, then remove `h1`: one live slot remains, at
      index 1, which equals `systems.len()`, while the free stack is empty. */
  method RegisterTwoRemoveFirst<H(==), S>(h1: H, h2: H, a: S, b: S) returns (e: Executor<H, S>)
    requires h1 != h2
    ensures fresh(e)
    ensures e.handles == map[h2 := 1] && e.systems == map[1 := NewContainer(b, [])]
    ensures e.freeIndices == [] && NextIndex(e.systems, e.freeIndices) == 1
  {
    e := new Executor();
    var _ := e.Add(FromHandle(h1, a));
    assert e.handles == map[h1 := 0] && e.systems.Keys == {0};
    var _ := e.Add(FromHandle(h2, b));
    assert e.handles == map[h1 := 0, h2 := 1] && e.systems.Keys == {0, 1};
    var _ := e.Remove(h1);
    assert e.systems.Keys == {1};
  }

  /** Remove, add, remove: after `remove(h1)` the next minted index is
      `systems.len()`, which is the live slot of `h2`. Adding `h3` therefore
      overwrites `h2`'s system (and returns it, although `h3` is new), and
      removing `h3` deletes the slot `h2` still names, so that every
      handle-keyed operation on `h2` now reaches the `panic!`. */
  method RemoveAddRemoveBreaksHandles<H(==), S>(h1: H, h2: H, h3: H, a: S, b: S, c: S)
    returns (e: Executor<H, S>, previous: Option<S>)
    requires h1 != h2 && h2 != h3 && h1 != h3
    ensures previous == Some(b)
    ensures e.Contains(h2)
    ensures e.IsActive(h2) == Abort && e.GetMut(h2) == Abort
    ensures !HandlesResolve(e.handles, e.systems)
  {
    e := RegisterTwoRemoveFirst(h1, h2, a, b);
    previous := e.Add(FromHandle(h3, c));
    assert e.handles == map[h2 := 1, h3 := 1];
    var _ := e.Remove(h3);
    assert e.handles == map[h2 := 1] && e.systems == map[];
  }

  /** A system switched off is still registered, reports inactive, and is
      not invoked by a run. */
  method InactiveSystemIsSkipped<H(==), S>(h: H, s: S) returns (e: Executor<H, S>, invoked: seq<nat>)
    ensures forall i :: i !in invoked
    ensures e.Contains(h) && e.IsActive(h) == Ok(false)
  {
    e := new Executor();
    var _ := e.Add(FromHandle(h, s));
    var _ := e.SetActive(h, false);
    invoked := e.Run();
  }
}
