/**
 The per-mailbox sync guards of EmailSyncManager, as values.

 A guard table maps a mailbox id to its guard. `Attach` is the set-up that
 adds one guard per mailbox, `Changed` is one run of the change handler and
 `Run` replays a sequence of change events. The classes in module EmailSync
 are proved against these functions.
 */
module GuardModel {

  /** `DuplicateKey` is what `Dictionary.Add` throws for an id already present;
      `KeyNotFound` is what the dictionary indexer throws for an absent id. */
  datatype Error = DuplicateKey(id: string) | KeyNotFound(id: string)

  datatype Result<T> = Success(value: T) | Failure(error: Error)

  /** Guard value of every mailbox in the table, by mailbox id. */
  type Table = map<string, bool>

  predicate Distinct(ids: seq<string>)
  {
    forall i, j :: 0 <= i < j < |ids| ==> ids[i] != ids[j]
  }

  /** The table with a guard set to true for every id in `ids`. */
  function Armed(ids: seq<string>): Table
  {
    map id | id in ids :: true
  }

  predicate Even(n: nat)
  {
    n % 2 == 0
  }

  /** The number of syncs that `n` change events start on one mailbox
      whose guard is `armed` before the first of them. */
  function SyncCount(armed: bool, n: nat): nat
  {
    if armed then (n + 1) / 2 else n / 2
  }

  // ---------------------------------------------------------------------
  // Set-up: one guard per mailbox, added in list order

  /** Adds a guard set to true for each id in turn, failing on the first id
      that is already in the table. */
  function AttachFrom(table: Table, ids: seq<string>): Result<Table>
    decreases |ids|
  {
    if ids == [] then Success(table)
    else if ids[0] in table then Failure(DuplicateKey(ids[0]))
    else AttachFrom(table[ids[0] := true], ids[1..])
  }

  /** The guard table built for the mailbox list `ids`. */
  function Attach(ids: seq<string>): Result<Table>
  {
    AttachFrom(map[], ids)
  }

  /** `ids[k]` is already in `table` or repeats an earlier id of `ids`. */
  predicate RepeatsAt(ids: seq<string>, table: Table, k: nat)
    requires k < |ids|
  {
    ids[k] in table || ids[k] in ids[..k]
  }

  /** No id of `ids` is in `table` and no two are equal. */
  predicate NewIds(table: Table, ids: seq<string>)
  {
    Distinct(ids) && forall i :: 0 <= i < |ids| ==> ids[i] !in table
  }

  lemma NewIdsCons(table: Table, ids: seq<string>)
    requires ids != []
    ensures NewIds(table, ids) <==> ids[0] !in table && NewIds(table[ids[0] := true], ids[1..])
  {
    var rest := ids[1..];
    if ids[0] !in table && NewIds(table[ids[0] := true], rest) {
      forall i, j | 0 <= i < j < |ids| ensures ids[i] != ids[j] {
        assert ids[j] == rest[j - 1];
        if i > 0 { assert ids[i] == rest[i - 1]; }
      }
      forall i | 0 <= i < |ids| ensures ids[i] !in table {
        if i > 0 { assert ids[i] == rest[i - 1]; }
      }
    }
    if NewIds(table, ids) {
      forall i | 0 <= i < |rest| ensures rest[i] !in table[ids[0] := true] {
        assert rest[i] == ids[i + 1];
        assert ids[0] != ids[i + 1];
      }
      forall i, j | 0 <= i < j < |rest| ensures rest[i] != rest[j] {
        assert rest[i] == ids[i + 1] && rest[j] == ids[j + 1];
      }
    }
  }

  lemma {:induction false} AttachFromSucceeds(table: Table, ids: seq<string>)
    ensures AttachFrom(table, ids).Success? <==> NewIds(table, ids)
    ensures AttachFrom(table, ids).Success? ==> AttachFrom(table, ids).value == table + Armed(ids)
    decreases |ids|
  {
    if ids == [] {
      assert Armed(ids) == map[];
    } else {
      NewIdsCons(table, ids);
      if ids[0] !in table {
        var rest := ids[1..];
        AttachFromSucceeds(table[ids[0] := true], rest);
        assert table[ids[0] := true] + Armed(rest) == table + Armed(ids);
      }
    }
  }

  lemma {:induction false} AttachFromFails(table: Table, ids: seq<string>)
    requires AttachFrom(table, ids).Failure?
    ensures exists k :: 0 <= k < |ids| && AttachFrom(table, ids).error == DuplicateKey(ids[k])
              && RepeatsAt(ids, table, k) && NewIds(table, ids[..k])
    decreases |ids|
  {
    assert ids != [];
    if ids[0] in table {
      assert ids[..0] == [];
      assert RepeatsAt(ids, table, 0);
    } else {
      var rest := ids[1..];
      var next := table[ids[0] := true];
      AttachFromFails(next, rest);
      var k :| 0 <= k < |rest| && AttachFrom(next, rest).error == DuplicateKey(rest[k])
               && RepeatsAt(rest, next, k) && NewIds(next, rest[..k]);
      var prefix := ids[..k + 1];
      assert prefix[1..] == rest[..k];
      assert rest[k] == ids[k + 1];
      NewIdsCons(table, prefix);
      assert prefix == [ids[0]] + rest[..k];
      assert RepeatsAt(ids, table, k + 1);
    }
  }

  /** Set-up succeeds exactly when no two mailboxes share an id. */
  lemma AttachSucceedsIffDistinct(ids: seq<string>)
    ensures Attach(ids).Success? <==> Distinct(ids)
  {
    AttachFromSucceeds(map[], ids);
  }

  /** After a successful set-up the table has exactly the mailbox ids as keys
      and every guard is true. */
  lemma AttachArmsEveryMailbox(ids: seq<string>)
    requires Attach(ids).Success?
    ensures Attach(ids).value.Keys == set i | 0 <= i < |ids| :: ids[i]
    ensures forall id | id in Attach(ids).value :: Attach(ids).value[id]
  {
    AttachFromSucceeds(map[], ids);
    assert map[] + Armed(ids) == Armed(ids);
    forall id | id in Armed(ids) ensures id in set i | 0 <= i < |ids| :: ids[i] {
      var i :| 0 <= i < |ids| && ids[i] == id;
    }
  }

  /** A failed set-up reports the first mailbox whose id repeats an earlier one. */
  lemma AttachFailsOnFirstDuplicate(ids: seq<string>)
    requires Attach(ids).Failure?
    ensures exists k :: 0 <= k < |ids| && Attach(ids).error == DuplicateKey(ids[k])
              && ids[k] in ids[..k] && Distinct(ids[..k])
  {
    AttachFromFails(map[], ids);
  }

  // ---------------------------------------------------------------------
  // One change event

  /** Whether the handler started a sync, and the table afterwards. */
  datatype Step = Step(synced: bool, table: Table)

  /** The change handler for mailbox `id`: test-and-flip its guard and start a
      sync exactly when the guard was true; an absent id fails. */
  function Changed(table: Table, id: string): (r: Result<Step>)
    ensures r.Failure? <==> id !in table
    ensures r.Failure? ==> r.error == KeyNotFound(id)
    ensures r.Success? ==> r.value.synced == table[id]
    ensures r.Success? ==> r.value.table.Keys == table.Keys && r.value.table[id] == !table[id]
    ensures r.Success? ==> forall other | other in table && other != id :: r.value.table[other] == table[other]
  {
    if id !in table then Failure(KeyNotFound(id))
    else Success(Step(table[id], table[id := !table[id]]))
  }

  /** Two change events on one mailbox give opposite decisions and leave its
      guard as it was before the first. */
  lemma ChangedTwiceRestores(table: Table, id: string)
    requires id in table
    ensures Changed(Changed(table, id).value.table, id).Success?
    ensures Changed(table, id).value.synced != Changed(Changed(table, id).value.table, id).value.synced
    ensures Changed(Changed(table, id).value.table, id).value.table == table
  {
    var once := Changed(table, id).value.table;
    assert once[id := !once[id]] == table;
  }

  // ---------------------------------------------------------------------
  // A sequence of change events

  /** The syncs started by a sequence of change events, in order, and the
      table afterwards. */
  datatype Trace = Trace(syncs: seq<string>, table: Table)

  /** Replays `events` one after another from `table`. An event whose id is
      not in the table fails in its own handler and changes nothing. */
  function Run(table: Table, events: seq<string>): Trace
    decreases |events|
  {
    if events == [] then Trace([], table)
    else
      var before := Run(table, events[..|events| - 1]);
      var id := events[|events| - 1];
      match Changed(before.table, id)
      case Failure(_) => before
      case Success(step) =>
        Trace(if step.synced then before.syncs + [id] else before.syncs, step.table)
  }

  /** The last step of a replay, unfolded. */
  lemma RunLast(table: Table, events: seq<string>)
    requires events != []
    ensures var before := Run(table, events[..|events| - 1]);
            var id := events[|events| - 1];
            Run(table, events) ==
              if id !in before.table then before
              else Trace(if before.table[id] then before.syncs + [id] else before.syncs,
                         before.table[id := !before.table[id]])
  {
  }

  /** Replaying events keeps the set of ids. */
  lemma {:induction false} RunKeys(table: Table, events: seq<string>)
    ensures Run(table, events).table.Keys == table.Keys
    decreases |events|
  {
    if events != [] {
      RunKeys(table, events[..|events| - 1]);
      RunLast(table, events);
    }
  }

  /** After replaying events, each mailbox's guard has been flipped once per
      event on that mailbox. */
  lemma {:induction false} RunGuard(table: Table, events: seq<string>, m: string)
    requires m in table
    ensures m in Run(table, events).table
    ensures Run(table, events).table[m] == (table[m] == Even(multiset(events)[m]))
    decreases |events|
  {
    RunKeys(table, events);
    if events != [] {
      var init := events[..|events| - 1];
      var id := events[|events| - 1];
      assert events == init + [id];
      assert multiset(events) == multiset(init) + multiset{id};
      RunGuard(table, init, m);
      RunKeys(table, init);
      RunLast(table, events);
    }
  }

  /** Replaying events starts, on each known mailbox, one sync for every other
      event on it, beginning with the first when its guard was true; unknown
      mailboxes never sync. */
  lemma {:induction false} RunSyncs(table: Table, events: seq<string>, m: string)
    ensures multiset(Run(table, events).syncs)[m] ==
              if m in table then SyncCount(table[m], multiset(events)[m]) else 0
    decreases |events|
  {
    if events != [] {
      var init := events[..|events| - 1];
      var id := events[|events| - 1];
      assert events == init + [id];
      assert multiset(events) == multiset(init) + multiset{id};
      RunSyncs(table, init, m);
      RunKeys(table, init);
      RunLast(table, events);
      var before := Run(table, init);
      if id in before.table {
        assert multiset(before.syncs + [id]) == multiset(before.syncs) + multiset{id};
        if id == m {
          RunGuard(table, init, m);
        }
      }
    }
  }

  /** The i-th event starts a sync exactly when the number of earlier events
      on the same mailbox has the parity that the guard's start value calls for. */
  lemma EventSyncsIffParity(table: Table, events: seq<string>, i: nat)
    requires i < |events| && events[i] in table
    ensures Changed(Run(table, events[..i]).table, events[i]).Success?
    ensures Changed(Run(table, events[..i]).table, events[i]).value.synced <==>
              (table[events[i]] == Even(multiset(events[..i])[events[i]]))
  {
    RunGuard(table, events[..i], events[i]);
  }

  /** From a freshly built table, the events on one mailbox start syncs on the
      1st, 3rd, 5th, ... of them and never on the 2nd, 4th, ...: the change
      event that a sync causes does not start another sync. */
  lemma AttachedMailboxAlternates(ids: seq<string>, events: seq<string>, i: nat)
    requires Attach(ids).Success?
    requires i < |events| && events[i] in ids
    ensures Changed(Run(Attach(ids).value, events[..i]).table, events[i]).Success?
    ensures Changed(Run(Attach(ids).value, events[..i]).table, events[i]).value.synced <==>
              Even(multiset(events[..i])[events[i]])
  {
    AttachArmsEveryMailbox(ids);
    var k :| 0 <= k < |ids| && ids[k] == events[i];
    EventSyncsIffParity(Attach(ids).value, events, i);
  }

  /** Events on other mailboxes neither change a mailbox's guard nor start a
      sync of it. */
  lemma RunLeavesOtherMailboxes(table: Table, events: seq<string>, m: string)
    requires m in table && m !in events
    ensures m in Run(table, events).table && Run(table, events).table[m] == table[m]
    ensures m !in Run(table, events).syncs
  {
    RunGuard(table, events, m);
    RunSyncs(table, events, m);
    assert multiset(events)[m] == 0;
  }
}
