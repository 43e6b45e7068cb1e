# yaks scheduler bookkeeping, modelled in Dafny

This project models three sequential pieces of the yaks entity-component
scheduler, and proves properties of each:

- **System registry** (`Executor<H>`, `src/executor.rs`). This is a class
  `Executor.Executor` with five fields:
  - `systems`: the slot index → `SystemContainer` map;
  - `handles`: the handle → slot index map;
  - `freeIndices`: the free-index stack, with its top at the end;
  - `sorted`: the cached order;
  - `dirty`: the flag that makes `run` rebuild the order.

  Each registry operation is a method or a function on this class. A
  container holds an opaque system body `S`, its dependency handles and its
  `active` flag. `run` returns the trace of slot indices it invoked.
- **Component access declaration** (`src/query_bundle.rs`). A query element
  is a datatype: `&C`, `&mut C` or `Option<Q>`. `write_metadata` is a method
  that updates the two component sets of a `SystemMetadata` object in place.
  It is specified by a pure function, `Written`.
- **Resource access declaration and fetching** (`src/resource_bundle.rs`).
  Resource elements follow the same scheme, over the resource sets of
  `SystemBorrows`. `fetch` is modelled against a resource store that is
  reduced to the set of resource types it holds. It yields a shared or an
  exclusive reference, or an abort when the resource is missing.

Where the documented intent and the code disagree, the model follows the
code:

- `remove` never pushes the freed slot onto the free-index stack. See
  "Findings" below.
- `maintain` sorts by dependency *count*, not in topological order.
- `run` dispatches in the iteration order of the slot map. It never reads
  the cached sorted list. The model therefore leaves the dispatch order
  unspecified: `Run` chooses the next slot nondeterministically.
- Re-registering under a mapped handle stores a fresh container. The
  `active` flag is reset along with the body and the dependencies.
- Dependencies are a list, not a set.
- Under the registry invariant `Valid()`, every drawn slot index is vacant.
  Handles then resolve to distinct live slots: `add`, `set_active`,
  `maintain` and `run` keep it. `remove` as written keeps only the
  handle-resolution half. The collision below shows what breaks after it.

## Model

| member | source | states |
|---|---|---|
| `QueryBundle.Base` | src/query_bundle.rs:86-88 | Peeling off every `Option` wrapper ends at a `&C` or `&mut C` element. |
| `QueryBundle.WriteMetadata` | src/query_bundle.rs:37-93 | The metadata's two component sets become exactly `Written(q, old sets)`. `&C` and `&mut C` do one insert each. `Option<Q>` forwards to `Q`. |
| `QueryBundle.BundleWriteMetadata` | src/query_bundle.rs:105-173 | The bundle forms write what their single element writes. The unit bundle writes nothing. |
| `QueryBundle.RefWritesImmutable` | src/query_bundle.rs:47-49 | `&C` adds C to the immutable set and leaves the mutable set unchanged. |
| `QueryBundle.RefMutWritesMutable` | src/query_bundle.rs:66-68 | `&mut C` adds C to the mutable set and leaves the immutable set unchanged. |
| `QueryBundle.WrittenIsBaseWritten` | src/query_bundle.rs:86-88 | For any nesting of `Option`s, an element writes what its base element writes, so optionality never changes the footprint. |
| `QueryBundle.OptionalWritesInner` | src/query_bundle.rs:86-88 | `Option<Q>` writes exactly what `Q` writes. |
| `QueryBundle.WrittenInsertsOnly` | src/query_bundle.rs:47-68 | The new sets are the old ones with the base component added to the immutable set (for `&C`) or the mutable set (for `&mut C`). The other set is untouched. |
| `QueryBundle.WrittenIdempotent` | src/query_bundle.rs:47-68 | Writing an element's metadata twice equals writing it once. |
| `QueryBundle.UnitBundleWritesNothing` | src/query_bundle.rs:165-173 | `()` leaves the metadata unchanged and has unit effectors. |
| `QueryBundle.SingleBundleAgrees` | src/query_bundle.rs:105-163 | For `&C`, `&mut C` and `Option<Q>`, the bundle writes the element's metadata and yields the element's own effector, which names that element's query. This is the contract of `QueryBundle.Effector` (src/query_bundle.rs:43-45, 62-64, 82-84) and of `QueryBundle.Effectors` (src/query_bundle.rs:112-114, 168) together with `QueryBundle.UnitBundleWritesNothing`. |
| `ResourceBundle.Effector` | src/resource_bundle.rs:46-73 | The effector names the element's resource. It is tagged `Mutable` exactly for `&mut R`. |
| `ResourceBundle.WriteBorrows` | src/resource_bundle.rs:56-72 | The borrow sets become exactly `Borrowed(r, old sets)`, a single insert. |
| `ResourceBundle.BundleWriteBorrows` | src/resource_bundle.rs:84-105 | The unit bundle writes nothing. The blanket bundle writes what its element writes. |
| `ResourceBundle.Fetch` | src/resource_bundle.rs:113-143 | Unit effectors fetch unit. A single effector aborts exactly when its resource is absent. Whenever the resource is present, it fetches a shared reference for `Immutable` and an exclusive one for `Mutable`, to its own resource. No other reference is ever returned. |
| `ResourceBundle.RefBorrowsImmutable` | src/resource_bundle.rs:46-59 | `&R` adds R to the immutable set only, and its effector is `Immutable`. |
| `ResourceBundle.RefMutBorrowsMutable` | src/resource_bundle.rs:61-74 | `&mut R` adds R to the mutable set only, and its effector is `Mutable`. |
| `ResourceBundle.UnitBundleBorrowsNothing` | src/resource_bundle.rs:84-117 | `()` borrows nothing, has unit effectors, and fetching through them yields unit whatever the store holds. |
| `ResourceBundle.SingleBundleAgrees` | src/resource_bundle.rs:92-105 | Every single element used as a bundle has the same effector and the same borrows. This is the contract of `ResourceBundle.Effectors` (src/resource_bundle.rs:87, 98-100) together with `ResourceBundle.UnitBundleBorrowsNothing`. |
| `ResourceBundle.BorrowedInsertsOnly` | src/resource_bundle.rs:56-73 | `write_borrows` only inserts. The other set is unchanged. Writing twice equals writing once. |
| `ResourceBundle.FetchWithinDeclaredBorrows` | src/resource_bundle.rs:46-143 | A bundle's effectors fetch only what its `write_borrows` declared, and in the declared mode: a shared reference only to a resource declared immutable, an exclusive one only to a resource declared mutable. The fetch aborts exactly when the declared resource is absent. A present resource is always fetched, shared for `&R` and exclusive for `&mut R`. |
| `Executor.ConversionForms` | src/executor.rs:186-236 | The four `From` conversions keep the system. They carry a handle exactly in the two handle forms, and carry the given dependencies or none. Every argument value is reached by one of them. This is the contract of `Executor.FromSystem` (src/executor.rs:186-197), `Executor.FromHandle` (src/executor.rs:199-210), `Executor.FromDependencies` (src/executor.rs:212-223) and `Executor.FromHandleAndDependencies` (src/executor.rs:225-236). |
| `Executor.NextIndexIsVacant` | src/executor.rs:47-53 | Under the slot bookkeeping invariant, the index `new_system_index` hands out is not a live slot. |
| `Executor.FewestExists` | src/executor.rs:58-72 | Every non-empty set of slots has one with the fewest dependencies. |
| `Executor.SortByDependencyCount` | src/executor.rs:56-72 | Lists every live slot exactly once (a permutation of the keys), ordered by ascending dependency count. |
| `Executor.AddKeepsSlotsAccounted` | src/executor.rs:99-114 | Storing at a live slot, or at a vacant drawn index with the stack popped, keeps live slots plus free indices exactly `0 .. n-1`. |
| `Executor.RemoveKeepsSlotsAccounted` | src/executor.rs:137-143 | Deleting a live slot and pushing its index keeps that accounting exact. |
| `Executor.Executor.constructor` | src/executor.rs:28-36 | A new executor has no systems, handles, free indices or cached order, is dirty, and satisfies `Valid()`. |
| `Executor.Executor.NewSystemIndex` | src/executor.rs:47-53 | Pops the top free index if there is one, else returns `systems.len()`. With an empty stack the result is always `systems.len()`. |
| `Executor.Executor.AddInner` | src/executor.rs:92-115 | A mapped handle keeps its slot and the handle map is unchanged. Otherwise a new index is drawn and a given handle is mapped to it. The container is replaced and `dirty` is set. The result is whatever occupied the slot. Under `Valid()`: the invariant is kept, a previous system is returned exactly for an already mapped handle, and the handle then resolves to the new container. |
| `Executor.Executor.Add` | src/executor.rs:117-127 | The same as `AddInner`, for the converted arguments. |
| `Executor.Executor.With` | src/executor.rs:129-135 | Registers like `add` and returns the same executor. |
| `Executor.Executor.Remove` | src/executor.rs:137-143 | Unmaps the handle, deletes its slot and returns its system. Sets `dirty` but leaves the free stack alone. An unknown handle gives `None` and no other change. Afterwards the handle gives `NoSuchSystem`. Handle resolution and distinctness survive. |
| `Executor.Executor.RemoveRecycling` | src/executor.rs:137-143 | The corrected removal. It also pushes the freed index, and so keeps the full invariant `Valid()`. |
| `Executor.Executor.GetContainer` | src/executor.rs:78-90 | Fails with `NoSuchSystem` exactly for unmapped handles. Succeeds exactly when the handle's own slot is live, and then returns that slot's container. Aborts exactly when the handle is mapped to a dead slot, so never while handles resolve. |
| `Executor.Executor.Contains` | src/executor.rs:145-147 | Holds exactly when a handle-keyed lookup does not fail with `NoSuchSystem`. |
| `Executor.Executor.GetMut` | src/executor.rs:149-155 | `NoSuchSystem` exactly when the handle is not contained. Otherwise gives the container's system when the lookup succeeds. |
| `Executor.Executor.IsActive` | src/executor.rs:157-159 | `NoSuchSystem` exactly when the handle is not contained. Otherwise gives the container's `active` flag. |
| `Executor.Executor.SetActive` | src/executor.rs:161-164 | `NoSuchSystem` for unmapped handles. Otherwise changes only that container's `active` flag, after which `IsActive` reports the new value. Handles, free stack, cached order and `dirty` are untouched. `Valid()` is kept. |
| `Executor.Executor.Maintain` | src/executor.rs:55-76 | The cached order becomes a permutation of the live slots, ordered by ascending dependency count, and `dirty` becomes false. |
| `Executor.Executor.Run` | src/executor.rs:166-174 | Rebuilds the order exactly when dirty, and leaves it alone otherwise. Ends clean. Invokes every active slot exactly once and no inactive one. |
| `Executor.RegisterTwoRemoveFirst` | src/executor.rs:137-143 | After `add(h1)`, `add(h2)`, `remove(h1)`: one live slot at index 1, an empty free stack, and a next index of 1. |
| `Executor.RemoveAddRemoveBreaksHandles` | src/executor.rs:92-143 | `add(h1)`, `add(h2)`, `remove(h1)`, `add(h3)`, `remove(h3)`. The third add overwrites `h2`'s system and returns it. Afterwards `h2` is still contained but names no live slot, so `is_active` and `get_mut` on it abort. |
| `Executor.InactiveSystemIsSkipped` | src/executor.rs:161-174 | A system switched off stays contained, reports inactive, and is not invoked by `run`. |

## Left out

- `write_touched_archetypes` (src/query_bundle.rs:51-53, 70-72, 90-92, 172) and `QueryEffector::query` (src/query_bundle.rs:22-24): they delegate to the external `hecs` world.
- Tuples of query and resource elements: src/impls_for_tuple.rs is not part of this model.
- The other fields of `SystemMetadata` and `SystemBorrows`, and the conflict rule between borrow sets: src/borrows.rs and the metadata module are not part of this model. Only the four sets the bundles write are modelled.
- src/resource/wrap.rs (atomic borrow counting) and src/lib.rs (re-exports only).
- `SystemContainer::new` is in src/system_container.rs, which is not part of this model. A new container is assumed to start active.
- The `World`, `Resources` and `ModQueuePool` arguments of `run`, and what a system body does when invoked: bodies are opaque. An invocation is recorded as its slot index in the returned trace, and containers are left unchanged.
- `Executor.Executor.GetMut`: returns the system value. Mutating the system through the returned guard is not modelled.
- `ResourceBundle.Fetch`: the resource store is reduced to the set of resource types it holds. Failures from the store's run-time borrow state are not modelled; the source treats every store failure as the same fatal abort.
- `Executor.Executor.Run`: the dispatch order is left unspecified, because the source iterates a hash map. `FxHasher` and hash-map internals are not modelled.
- `Executor.Executor.Maintain`: the stability of `sort_by` is not stated, because its input order is the hash map's key order.
- `SystemIndex` is a `usize`. It is modelled as an unbounded `nat`, and overflow of `systems.len()` is not considered.
- Dependency ordering and parallel dispatch: the source has neither.

## Findings

| source | as written | input that shows it | evidently intended | confidence | as-written member | corrected member |
|---|---|---|---|---|---|---|
| src/executor.rs:137-143 | `remove` deletes the slot but never pushes its index onto `free_indices`. `new_system_index` (line 51) then mints `systems.len()`, which after a removal can be a live slot. | `add(h1, a)`, `add(h2, b)`, `remove(h1)`, `add(h3, c)`. The last call overwrites `b` at slot 1 and returns it, although `h3` is new. A further `remove(h3)` leaves `h2` mapped to a deleted slot, and `is_active(h2)` panics. | `remove` pushes the freed index onto the free stack, so every drawn index is vacant and handles always resolve. | high; not executed | `Executor.RemoveAddRemoveBreaksHandles` | `Executor.Executor.RemoveRecycling` |
