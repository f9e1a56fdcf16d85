/**
 EmailSyncManager and its AtomicGuard, as classes over heap state.

 A mailbox is represented by its id. Starting a sync of a mailbox is
 represented by reporting that id to the caller: `OnMailboxChanged` returns
 whether it started one and `SyncAllAccounts` returns the ids it synced, in
 order. The guard's mutex is represented by `TestAndFlip` being a single step.
 */
module EmailSync {
  import opened GuardModel

  /** A boolean that is read and negated in one indivisible step. */
  class AtomicGuard {
    var guard: bool

    /** The no-argument constructor: the guard starts false. */
    constructor Default()
      ensures !guard
    {
      guard := false;
    }

    constructor (initialValue: bool)
      ensures guard == initialValue
    {
      guard := initialValue;
    }

    /** Returns the value held before the call and stores its negation. */
    method TestAndFlip() returns (previous: bool)
      modifies this
      ensures previous == old(guard)
      ensures guard == !previous
    {
      previous := guard;
      guard := !guard;
    }
  }

  class EmailSyncManager {
    /** Ids of the mailboxes found on the machine, in the order found. */
    const mailboxes: seq<string>
    /** One guard per mailbox id, deciding whether its next change event syncs. */
    var syncEnabled: map<string, AtomicGuard>

    /** Every mailbox id has a guard of its own. */
    ghost predicate Valid()
      reads this
    {
      forall a, b :: a in syncEnabled && b in syncEnabled && a != b ==> syncEnabled[a] != syncEnabled[b]
    }

    /** The value of every guard in the table. */
    ghost function Guards(): (t: Table)
      reads this, syncEnabled.Values
      ensures t.Keys == syncEnabled.Keys
    {
      map id | id in syncEnabled :: syncEnabled[id].guard
    }

    /** The manager for a mailbox list, before any guard is added. */
    constructor (mailboxes: seq<string>)
      ensures this.mailboxes == mailboxes
      ensures syncEnabled == map[] && Valid()
    {
      this.mailboxes := mailboxes;
      syncEnabled := map[];
    }

    /** Builds the manager for a mailbox list and adds its guards; fails, and
        yields no manager, when two mailboxes share an id. */
    static method Create(mailboxes: seq<string>) returns (r: Result<EmailSyncManager>)
      ensures r.Success? <==> Distinct(mailboxes)
      ensures r.Failure? ==> Attach(mailboxes) == Failure(r.error)
      ensures r.Success? ==> fresh(r.value) && r.value.Valid()
      ensures r.Success? ==> forall id | id in r.value.syncEnabled :: fresh(r.value.syncEnabled[id])
      ensures r.Success? ==> r.value.mailboxes == mailboxes && Attach(mailboxes) == Success(r.value.Guards())
    {
      var manager := new EmailSyncManager(mailboxes);
      var attached := manager.AttachChangeListeners();
      AttachSucceedsIffDistinct(mailboxes);
      if attached.Failure? {
        return Failure(attached.error);
      }
      r := Success(manager);
    }

    /** Adds a fresh guard set to true for each mailbox, in list order; stops
        at the first id already in the table. */
    method AttachChangeListeners() returns (r: Result<()>)
      requires syncEnabled == map[]
      modifies this
      ensures Valid()
      ensures forall id | id in syncEnabled :: fresh(syncEnabled[id])
      ensures r.Success? ==> Attach(mailboxes) == Success(Guards())
      ensures r.Failure? ==> Attach(mailboxes) == Failure(r.error)
      ensures r.Failure? ==> exists k :: 0 <= k < |mailboxes| && r.error == DuplicateKey(mailboxes[k])
                               && mailboxes[k] in mailboxes[..k] && Distinct(mailboxes[..k])
                               && Guards() == Armed(mailboxes[..k])
    {
      var i := 0;
      while i < |mailboxes|
        invariant 0 <= i <= |mailboxes|
        invariant Valid()
        invariant forall id | id in syncEnabled :: fresh(syncEnabled[id])
        invariant Attach(mailboxes) == AttachFrom(Guards(), mailboxes[i..])
        invariant Guards() == Armed(mailboxes[..i])
        invariant Distinct(mailboxes[..i])
      {
        var id := mailboxes[i];
        if id in syncEnabled {
          return Failure(DuplicateKey(id));
        }
        ghost var before := Guards();
        var guard := new AtomicGuard(true);
        syncEnabled := syncEnabled[id := guard];
        assert Guards() == before[id := true];
        assert mailboxes[i..][1..] == mailboxes[i + 1..];
        assert mailboxes[..i + 1] == mailboxes[..i] + [id];
        i := i + 1;
      }
      return Success(());
    }

    /** The change handler: flips the changed mailbox's guard and starts a
        sync of it exactly when the guard was true; fails on an unknown id. */
    method OnMailboxChanged(id: string) returns (r: Result<bool>)
      requires Valid()
      modifies if id in syncEnabled then {syncEnabled[id]} else {}
      ensures Valid()
      ensures Changed(old(Guards()), id) ==
                if r.Success? then Success(Step(r.value, Guards())) else Failure(r.error)
      ensures r.Failure? ==> Guards() == old(Guards())
    {
      if id !in syncEnabled {
        return Failure(KeyNotFound(id));
      }
      var previous := syncEnabled[id].TestAndFlip();
      assert Guards() == old(Guards())[id := !old(Guards())[id]];
      r := Success(previous);
    }

    /** Starts one sync per mailbox, in list order, whatever its guard holds. */
    method SyncAllAccounts() returns (synced: seq<string>)
      ensures synced == mailboxes
    {
      synced := [];
      for i := 0 to |mailboxes|
        invariant synced == mailboxes[..i]
      {
        synced := synced + [mailboxes[i]];
      }
    }
  }

  /** Delivers `events` to the change handler one after another, as the
      platform does; returns the syncs started, in order. The handler calls
      compose to the replay `Run` of the guard table. */
  method DeliverChanges(manager: EmailSyncManager, events: seq<string>) returns (syncs: seq<string>)
    requires manager.Valid()
    modifies manager.syncEnabled.Values
    ensures manager.Valid()
    ensures Run(old(manager.Guards()), events) == Trace(syncs, manager.Guards())
  {
    syncs := [];
    for i := 0 to |events|
      invariant manager.Valid()
      invariant Run(old(manager.Guards()), events[..i]) == Trace(syncs, manager.Guards())
    {
      var r := manager.OnMailboxChanged(events[i]);
      assert events[..i + 1][..i] == events[..i];
      RunLast(old(manager.Guards()), events[..i + 1]);
      if r.Success? && r.value {
        syncs := syncs + [events[i]];
      }
    }
    assert events[..|events|] == events;
  }
}
