# SmartSync per-mailbox sync guard

SmartSync keeps the email accounts on a device synced. `EmailSyncManager` (in
`SmartSync/EmailSyncManager.cs`) does two things:

- It force-syncs every mailbox in list order (`SyncAllAccountsAsync`).
- It re-syncs a mailbox when the platform reports that the mailbox changed (`OnMailboxChanged`).

A sync is expected to cause one more change event on the same mailbox. To stop that event from starting
another sync, each mailbox id has an `AtomicGuard` in the `syncEnabled` table. Every guard starts
`true`. Each change event reads the guard and flips it in one step, and starts a sync only if the
guard was `true`. So each mailbox alternates between two states:

- ARMED: the next change event syncs.
- DISARMED: the next change event is suppressed.

The project has two modules:

- `GuardModel` (`guard_model.dfy`) describes the guard table as values. `Attach` is the set-up loop
  as a fold over the mailbox list. `Changed` is one change event. `Run` replays a sequence of change
  events and returns the syncs they start and the final table. The lemmas prove the set-up
  properties, the alternation of syncs on one mailbox and the independence of mailboxes.
- `EmailSync` (`email_sync_manager.dfy`) holds the classes. `AtomicGuard` has a `guard` field that
  `TestAndFlip` updates in place. `EmailSyncManager` has `mailboxes` and
  `syncEnabled: map<string, AtomicGuard>`; its ghost function `Guards()` reads the guard values. The
  set-up, the change handler and the force path are methods proved against the `GuardModel` functions.
  `DeliverChanges` feeds a sequence of change events to the handler and is proved to follow `Run`.

A mailbox is identified by its id. Starting a sync is shown by handing the id back to the caller.
`OnMailboxChanged` returns `Success(true)` when it starts a sync. `SyncAllAccounts` returns the ids it
syncs, in order. `SyncAllAccounts` has no `modifies` clause, so the verifier checks that it changes no
guard.

## Model

| member | source | states |
|---|---|---|
| `EmailSync.AtomicGuard.Default` | SmartSync/EmailSyncManager.cs:52-54 | A guard made with the no-argument constructor starts `false`. |
| `EmailSync.AtomicGuard.constructor` | SmartSync/EmailSyncManager.cs:60-64 | A guard made with `initialValue` starts at that value. |
| `EmailSync.AtomicGuard.TestAndFlip` | SmartSync/EmailSyncManager.cs:70-78 | Returns the value the guard held before the call; afterwards the guard holds its negation. |
| `EmailSync.EmailSyncManager.constructor` | SmartSync/EmailSyncManager.cs:101-104 | The manager keeps the given mailbox list and starts with an empty guard table. |
| `EmailSync.EmailSyncManager.Create` | SmartSync/EmailSyncManager.cs:101-107 | Construction succeeds exactly when the mailbox ids are pairwise distinct. On success the manager's guard table is the one `Attach` builds, and every id has its own guard object. On failure it reports the error `Attach` reports. |
| `EmailSync.EmailSyncManager.AttachChangeListeners` | SmartSync/EmailSyncManager.cs:131-138 | Adds one fresh guard per mailbox in list order, each set to `true`, and agrees with `Attach`. At the first mailbox whose id repeats an earlier one it stops with `DuplicateKey`, leaving guards only for the (distinct) mailboxes before it. |
| `EmailSync.EmailSyncManager.OnMailboxChanged` | SmartSync/EmailSyncManager.cs:145-152 | Does exactly what `Changed` says to the guard table: it starts a sync iff the mailbox's guard was `true`, and flips only that guard. An unknown id gives `KeyNotFound` and changes no guard. |
| `EmailSync.DeliverChanges` | SmartSync/EmailSyncManager.cs:136-152 | Delivering a sequence of change events to `OnMailboxChanged` one after another starts exactly the syncs `Run` gives, in order, and leaves the guards as `Run` leaves them. So the alternation lemmas hold for the manager's own guard objects. |
| `EmailSync.EmailSyncManager.SyncAllAccounts` | SmartSync/EmailSyncManager.cs:31-37 | Starts exactly one sync per mailbox, in `mailboxes` order, and changes no guard. |
| `GuardModel.AttachSucceedsIffDistinct` | SmartSync/EmailSyncManager.cs:131-138 | Set-up succeeds if and only if no two mailboxes share an id. |
| `GuardModel.AttachArmsEveryMailbox` | SmartSync/EmailSyncManager.cs:133-135 | After a successful set-up, the table's keys are exactly the mailbox ids and every guard is `true`. |
| `GuardModel.AttachFailsOnFirstDuplicate` | SmartSync/EmailSyncManager.cs:133-135 | A failed set-up reports `DuplicateKey` for the first mailbox whose id repeats an earlier one. All ids before it are distinct. |
| `GuardModel.Changed` | SmartSync/EmailSyncManager.cs:145-152 | One change event fails with `KeyNotFound` iff the id has no guard. Otherwise it syncs iff the guard was `true`, negates that guard, and keeps every other guard and the key set. |
| `GuardModel.ChangedTwiceRestores` | SmartSync/EmailSyncManager.cs:70-78 | Two consecutive change events on one mailbox give opposite decisions and leave the table as it was before the first. |
| `GuardModel.RunKeys` | SmartSync/EmailSyncManager.cs:145-152 | Replaying any change events never adds or removes a guard. |
| `GuardModel.RunGuard` | SmartSync/EmailSyncManager.cs:147-148 | After a replay, a mailbox's guard equals its start value iff the replay had an even number of events on that mailbox. |
| `GuardModel.RunSyncs` | SmartSync/EmailSyncManager.cs:145-152 | A replay with n events on a known mailbox syncs it ⌈n/2⌉ times if its guard started `true`, else ⌊n/2⌋ times. It never syncs an unknown mailbox. |
| `GuardModel.EventSyncsIffParity` | SmartSync/EmailSyncManager.cs:145-152 | In any replay, the i-th event syncs iff the parity of earlier events on the same mailbox matches that guard's start value. |
| `GuardModel.AttachedMailboxAlternates` | SmartSync/EmailSyncManager.cs:131-152 | From a freshly built table, a mailbox syncs on its 1st, 3rd, 5th, … change events and never on the 2nd, 4th, …. So when the change event a handler-started sync causes is the next event on that mailbox, it does not start a second sync. |
| `GuardModel.RunLeavesOtherMailboxes` | SmartSync/EmailSyncManager.cs:145-152 | Events on other mailboxes neither change a mailbox's guard nor sync it. |

## Left out

- Mailbox discovery (`GetAllMailboxesAsync`, SmartSync/EmailSyncManager.cs:113-125) queries the
  platform account store. The model takes the mailbox id list as a parameter instead.
- The `Lazy` singleton, `initState` and the blocking `Task.Run(...).Wait()` in the constructor
  (SmartSync/EmailSyncManager.cs:20, :26, :88, :104-105) are initialisation machinery. `Create` stands for the
  constructor. A failed construction yields no manager. The model therefore does not capture that
  `Lazy` caches the exception for later accesses of `Instance`.
- The `Mutex` in `AtomicGuard` (SmartSync/EmailSyncManager.cs:62, :72, :75) is not modelled. The model is
  sequential and `TestAndFlip` is one atomic step, so concurrent callers are not modelled.
- `mailbox.SyncManager.SyncAsync()` (SmartSync/EmailSyncManager.cs:35, :150) is a network call. Starting it
  is shown by returning the mailbox id. Its completion, its failures and the fire-and-forget versus
  awaited difference are not modelled.
- The model does not link a sync to the change event it causes. The alternation above is about the
  sequence of events as delivered. A sync started by `SyncAllAccounts` (SmartSync/EmailSyncManager.cs:35)
  also causes a change event, and the force path does not touch the guard. On an ARMED mailbox that
  event therefore starts a second sync, as `Run` shows for one event on a guard that is `true`.
- The `MailboxChanged` subscription (SmartSync/EmailSyncManager.cs:136) is a platform event API. The model
  has the caller deliver change events by id instead.
- `OnMailboxChanged` is static in the source and reaches the table through `Instance`. The model
  makes it an instance method of the manager.
- SmartSync/EmailManager.cs is an older manager with no guard: its handler syncs on every change.
  SmartSync/MainPage.xaml.cs is UI. SmartSync/BackgroundTasks.cs and
  RuntimeComponent1/BackgroundEmailSync.cs are background-task entry points that only touch a
  singleton; the `ForceSync` that BackgroundTasks.cs calls is defined in no class shown. None of
  these files is part of this model.
