# Aras.ViewModel session caches and search-grid paging, modelled in Dafny

This project models two parts of the Aras.ViewModel library.

The first is the per-client `Session` of `Aras.ViewModel.Manager`. It keeps the
server-side view-model in step with the client:

- The plugin and application factories build a control once and memoise it.
  Plugins are keyed by (name, context); applications by name.
- The control cache registers a control tree recursively. Each control is
  cached and subscribed to once. Its commands are cached the first time the
  control is seen. Its children are walked again on every registration.
- The command cache keeps each command and the name it was first exposed under.
- Two change queues hold the controls whose properties changed and the commands
  whose executability changed. Each drain returns the distinct entries in
  first-queued order and leaves its queue empty.
- A session expires when its expiry instant is before the current time.
  `UpdateExpire` moves that instant to now plus the configured lifetime.

The second is the paging and selection state of the `Search` grid:

- the current page and the page count;
- the next-page and previous-page commands and their executability;
- the reset to page 1 when the page size changes;
- the `Select` rule;
- the always-executable refresh, filters and clear commands.

## How the model is built

- **Arena.** Controls and commands live in a `World`: a sequence of control
  records and a count of commands. A control is identified by its handle,
  which stands for the object's `ID` Guid. A child's handle is always smaller
  than its parent's. This numbering makes every control tree acyclic, and it
  is the termination measure of the recursive registration. Because handles
  are also identities, the numbering fixes one order of the controls for the
  whole session (see "Left out").
- **Properties.** Each property of a control declares its kind: `Scalar`, a
  single control (possibly null) or a list of controls. This replaces the
  source's `HasProperty`, `GetPropertyValue` and `is` type tests.
- **Subscriptions.** An event subscription (`+=`) is an append to a
  subscription log. "Subscribed once" means the log has no repeated entry.
- **Pure specification.** Module `Registry` holds the caches as a datatype
  value, with the functions `AddCommand`, `Register`, `RegisterEach` and
  `PropertyRegistration`. The lemmas about the caches are proved on these
  functions.
- **Imperative model.** The class `Manager.Session` keeps the same caches as
  fields. Each method that changes the caches ensures `Caches() == F(old(Caches()))`
  for the matching pure function `F`. The expiry and queue methods leave the
  caches alone through their `modifies` frames.
- **Queue drains.** Both drains dequeue in a `while` loop; the loop is proved
  to compute `Dedup.Distinct` of the queue.
- **Factories.** Construction is an oracle parameter `made: Option<ControlId>`.
  `None` means that `Activator.CreateInstance`, `ControlType` or `SetBinding`
  threw. `Plugin` and `Application` return `None` where the source's final
  dictionary index throws `KeyNotFoundException`.
- **Time.** Time and the lifetime are parameters. Instants are `DateTime` tick
  counts (100 ns each), and a minute is 600,000,000 ticks. A new session's
  expiry is tick 0 (`DateTime.MinValue`, the field's default).
- **Search store.** The query and its store are abstracted to a `StorePage`
  (page count, items) that each refresh receives. `bound` records whether the
  grid has a binding, and therefore a query.

### Behaviour of the code worth noting

- A control's commands are registered only in the branch that first caches the
  control (Aras.ViewModel.Manager/Session.cs:145-158), so a cached control
  whose command list later grows does not get its new commands registered.
  The model does the same.
- Those children are walked again even when the control is already cached
  (Session.cs:160-164), so a cycle among controls makes `AddControlToCache`
  recurse without end. The model's requirement that a child's handle be
  smaller than its parent's excludes exactly such arenas.
- After a failed plugin construction, the inner dictionary for the name exists
  (created at Session.cs:95-98 if the name was new, kept with its other
  contexts otherwise) but has no entry for this context, and the lookup at
  line 115 then throws. The model keeps the inner map in the same state
  (`name in pluginCache`, this context absent, other contexts unchanged) and
  returns `None`. A later call retries the construction.
- Opening the filter dialog, or clearing it, builds the dialog from
  `Query.Store`. With no dialog yet and no binding, this dereferences a null
  query. `FiltersRun` and `ClearRun` then return `ok == false` and change
  nothing.

## Model

| member | source | states |
|---|---|---|
| `Dedup.DistinctSnoc` | Aras.ViewModel.Manager/Session.cs:215-223 | one dequeued entry is appended to the drain's result exactly when the result does not yet contain it |
| `Dedup.DistinctSameElements` | Aras.ViewModel.Manager/Session.cs:209-227 | an entity is in the drained list if and only if it was queued |
| `Dedup.DistinctNoDup` | Aras.ViewModel.Manager/Session.cs:219-222 | the drained list holds no entity twice |
| `Dedup.DistinctFirstOccurrenceOrder` | Aras.ViewModel.Manager/Session.cs:215-223 | of two drained entities, the one earlier in the list was first queued earlier |
| `Dedup.DistinctOfNoDup` | Aras.ViewModel.Manager/Session.cs:215-223 | a queue without repeats drains to itself, in order |
| `Dedup.DistinctIdempotent` | Aras.ViewModel.Manager/Session.cs:209-227 | de-duplicating a drained list changes nothing |
| `Registry.AddCommandKeepsFirstName` | Aras.ViewModel.Manager/Session.cs:233-246 | a cached command is left as it is, name included; a new one is cached, subscribed and named, and the cache invariant holds |
| `Registry.AddCommandsEffect` | Aras.ViewModel.Manager/Session.cs:154-157 | registering a control's commands caches exactly those commands, keeps every earlier name, leaves the control cache alone and preserves the invariant |
| `Registry.RegisterEffect` | Aras.ViewModel.Manager/Session.cs:141-166 | registration caches exactly the root and all its descendants, keeps earlier entries, names and subscriptions, and preserves the invariant that each cached object is subscribed exactly once |
| `Registry.RegisterEachEffect` | Aras.ViewModel.Manager/Session.cs:160-164 | the same for a list of children registered in order |
| `Registry.RegisterCommands` | Aras.ViewModel.Manager/Session.cs:145-158 | the commands a registration adds are exactly those of the controls it caches for the first time |
| `Registry.RegisterEachCommands` | Aras.ViewModel.Manager/Session.cs:160-164 | the same for a list of children |
| `Registry.RegisterCached` | Aras.ViewModel.Manager/Session.cs:145-164 | registering a tree that is already fully cached changes nothing: no new entries and no new subscriptions |
| `Registry.RegisterEachCached` | Aras.ViewModel.Manager/Session.cs:160-164 | the same for a list of cached children |
| `Registry.RegisterIdempotent` | Aras.ViewModel.Manager/Session.cs:141-166 | registering the same root a second time leaves the caches as the first registration left them |
| `Registry.PropertyRegistrationEffect` | Aras.ViewModel.Manager/Session.cs:179-195 | a property change caches exactly the control or controls the property holds, with their descendants, and preserves the invariant |
| `Expiry.RefreshedExpiry` | Aras.ViewModel.Manager/Session.cs:67-81 | after a refresh with a positive lifetime the session is not expired, and it is expired exactly at instants later than now plus the lifetime |
| `Expiry.ExpiredStaysExpired` | Aras.ViewModel.Manager/Session.cs:75-81 | without a refresh, an expired session stays expired as time goes on |
| `Manager.Session.constructor` | Aras.ViewModel.Manager/Session.cs:295-306 | a new session has empty caches and queues, satisfies the invariant, and has expiry at tick 0 |
| `Manager.Session.UpdateExpire` | Aras.ViewModel.Manager/Session.cs:67-73 | the expiry becomes now plus the configured minutes, and nothing else changes; afterwards `Expired` (Session.cs:75-81) holds exactly at instants later than that, so a positive lifetime leaves the session live now |
| `Manager.Session.Plugin` | Aras.ViewModel.Manager/Session.cs:93-116 | a cached (name, context) plugin is returned with no state change; otherwise a made plugin is cached in that slot and registered; a failure leaves the slot empty and returns `None`; other slots never change; the name's inner map always exists afterwards, and no other name gains or loses one |
| `Manager.Session.Application` | Aras.ViewModel.Manager/Session.cs:120-137 | the same memoisation keyed by name alone; `None` exactly when construction failed and nothing was cached |
| `Manager.Session.AddControlToCache` | Aras.ViewModel.Manager/Session.cs:141-166 | null changes nothing; otherwise the caches become `Register` of the old caches |
| `Manager.Session.Control` | Aras.ViewModel.Manager/Session.cs:168-171 | lookup succeeds exactly for cached identities; otherwise it is NotFound |
| `Manager.Session.ControlPropertyChanged` | Aras.ViewModel.Manager/Session.cs:173-196 | the sender is appended to the control queue, and the caches grow by exactly the controls the changed property holds, with their descendants; the invariant holds |
| `Manager.Session.AddControlToQueue` | Aras.ViewModel.Manager/Session.cs:201-207 | the control is appended to the queue |
| `Manager.Session.GetControlsFromQueue` | Aras.ViewModel.Manager/Session.cs:209-227 | returns `Distinct` of the queued controls and empties the queue |
| `Manager.Session.AddCommandToCache` | Aras.ViewModel.Manager/Session.cs:233-246 | the caches become `AddCommand` of the old caches |
| `Manager.Session.CommandCanExecuteChanged` | Aras.ViewModel.Manager/Session.cs:248-252 | the sender is appended to the command queue |
| `Manager.Session.AddCommandToQueue` | Aras.ViewModel.Manager/Session.cs:257-263 | the command is appended to the queue |
| `Manager.Session.GetCommandsFromQueue` | Aras.ViewModel.Manager/Session.cs:265-283 | returns `Distinct` of the queued commands and empties the queue |
| `Manager.Session.Command` | Aras.ViewModel.Manager/Session.cs:285-288 | lookup succeeds exactly for cached command identities |
| `Manager.Session.CommandName` | Aras.ViewModel.Manager/Session.cs:290-293 | a name is found exactly for the commands in the command cache, because the two caches share one key set |
| `Scenarios.PluginTwice` | Aras.ViewModel.Manager/Session.cs:95-115 | after a successful call, a second call with the same key returns the same control whatever the factory would make; after a failure the second call retries |
| `Scenarios.PluginTwoContexts` | Aras.ViewModel.Manager/Session.cs:95-115 | one name with two contexts fills two independent slots, and asking again for the first returns the first control |
| `Scenarios.RegisterSampleTree` | Aras.ViewModel.Manager/Session.cs:141-166 | registering a root with two children caches all three, registering it again leaves the cache as it was, and a session whose expiry was just refreshed is live |
| `Scenarios.NextThenPrevious` | Aras.ViewModel/Grids/Search.cs:469-514 | paging on and then back over a store of unchanged page count returns to the starting page with next-page executable, and previous-page is executable on the page in between |
| `Scenarios.NewGridFiltersFail` | Aras.ViewModel/Grids/Search.cs:431-450 | on a new grid with no binding the filters and clear commands both fail, and both stay executable |
| `Scenarios.TwoChangesDrainOnce` | Aras.ViewModel.Manager/Session.cs:173-227 | two changes of one control before a drain come back from the drain as one entry, and a second drain returns nothing |
| `Grids.IndexOf` | Aras.ViewModel/Grids/Search.cs:77-80 | the first index of the item (`Dedup.FirstIndex`), or -1 exactly when the item is not displayed |
| `Grids.ItemsAt` | Aras.ViewModel/Grids/Search.cs:360-365 | the items in the given rows, one per row, in row order |
| `Grids.Search.constructor` | Aras.ViewModel/Grids/Search.cs:373-412 | page 1 of 0, page size 25 within [5, 100], nothing displayed or selected, both paging commands disabled, the refresh, filters and clear commands enabled |
| `Grids.Search.NextPageRefresh` | Aras.ViewModel/Grids/Search.cs:478-488 | next-page is executable exactly when the page is below the page count |
| `Grids.Search.PreviousPageRefresh` | Aras.ViewModel/Grids/Search.cs:516-526 | previous-page is executable exactly when the page is above 1 |
| `Grids.Search.RefreshControl` | Aras.ViewModel/Grids/Search.cs:311-339 | with a query, the page count and items come from the store; without one, the page count is 0 and nothing is displayed; `Displayed` (Search.cs:56-69) is the store's items with a query and empty without one; the dialog exists afterwards whenever there is a query; both paging commands then match their guards |
| `Grids.Search.NextPageRun` | Aras.ViewModel/Grids/Search.cs:469-476 | moves exactly one page on and refreshes when the page is below the page count; otherwise nothing changes; the paging invariant holds |
| `Grids.Search.PreviousPageRun` | Aras.ViewModel/Grids/Search.cs:507-514 | moves exactly one page back and refreshes when the page is above 1; otherwise nothing changes; the page stays at least 1 |
| `Grids.Search.PageSizePropertyChanged` | Aras.ViewModel/Grids/Search.cs:300-309 | a change of `Value` takes the spinner's new page size, resets the page to 1 and refreshes, so previous-page is disabled and the page count and displayed items are the store's; any other property changes nothing |
| `Grids.Search.AfterBindingChanged` | Aras.ViewModel/Grids/Search.cs:286-298 | a new binding, or none, is followed by a refresh: the page count and displayed items are the store's with a binding, 0 and none without one |
| `Grids.Search.RefreshRun` | Aras.ViewModel/Grids/Search.cs:416-420 | re-runs the query: the page count and displayed items are the store's (0 and none without a query), and the command stays executable |
| `Grids.Search.FiltersRun` | Aras.ViewModel/Grids/Search.cs:431-435 | opens the filter dialog when it exists or can be built from the query; otherwise fails and changes nothing; stays executable |
| `Grids.Search.ClearRun` | Aras.ViewModel/Grids/Search.cs:446-450 | re-runs the query under the same condition as the filters command, after which the dialog exists and the page count and displayed items are the store's; otherwise fails and changes nothing; stays executable |
| `Grids.Search.Select` | Aras.ViewModel/Grids/Search.cs:73-97 | a null or undisplayed item changes nothing; otherwise the selection is exactly that item and the selected rows are exactly its first row |
| `Grids.Search.GridRowsSelected` | Aras.ViewModel/Grids/Search.cs:355-371 | the selection becomes the displayed items in the grid's selected rows, in row order |

## Left out

- Locking (the `lock` blocks of Session.cs) and all concurrency. The session is sequential, and each queue push and drain is a single step.
- `DateTime.UtcNow` and `Server.ExpireSession` are parameters. The lifetime is taken as whole minutes. The `ArgumentOutOfRangeException` that `AddMinutes` throws past `DateTime.MaxValue` is not modelled.
- `Activator.CreateInstance`, `Server.ControlType` and `SetBinding` are the `made` oracle. An exception raised inside `AddControlToCache` during a factory call is not modelled. Neither is a null command returned by `GetCommand`.
- Logging (`Log.Add`) and the `Database`, `Model` and `Log` accessors. `ID` and `Token` are the constant `id`.
- Reflection is replaced by the declared property kinds. Null entries inside a child list or a control-list property are not modelled. A null root and a null single-control property are.
- Two distinct objects sharing one Guid are not modelled, because a control's identity is its handle. The source's event handlers never unsubscribe, so unsubscription is not modelled either.
- Control handles are identities and also the acyclicity measure, so one `World` fixes the order of controls for the whole session. The source accepts a control later moved above a former ancestor (acyclic at every moment); the model cannot express that sequence of trees.
- `Registry.RegisterEffect`: says that already cached commands keep their names, but not which name a newly cached command gets when two newly cached controls expose it. `Register` itself fixes that by traversal order, and `Manager.Session.AddControlToCache` is stated exactly in terms of `Register`.
- `Registry.RegisterEachEffect`: likewise says that already cached commands keep their names, but not which name a newly cached command gets when two newly cached controls in the list expose it; `RegisterEach` fixes that by traversal order.
- Command records carry nothing in the model: a command's `CanExecute` flag is not tracked, only its change notification (`CommandCanExecuteChanged`).
- In Search.cs:
  - the domain objects (`Model.Query`, `Store`, `ItemType`, `Item`, `Property`);
  - filter conditions and `Dialogs.Filters`, including `_dialog_PropertyChanged`, which refreshes when the dialog closes;
  - `LoadRows`, `LoadColumns` and the grid cells;
  - the toolbar;
  - the `ItemsSelected` event;
  - `Add(Item)`;
  - the spinner's own handling of its value (its minimum and maximum are not enforced on `pageSize`).
- A `StorePage` is not tied to the page and page size the query was given. The grid's row count is taken to equal the number of displayed items.
- Aras.ViewModel/Cells/List.cs (binding to external list and relationship types) and FatalException.cs (HTTP response construction) are not part of this model.
