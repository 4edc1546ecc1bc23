/** Advisory locks (pkg/db/advisory_locks.go) and the event filter built on them
    (pkg/controllers/event_filter.go). */
module Locks {
  import opened Wrappers

  type Tx = nat
  type Key = (int, int)

  /** The transactions and transaction scoped advisory locks of the database, shared by the lock
      factories of all replicas. */
  class LockTable {
    var holders: map<Key, Tx>
    var open: set<Tx>
    var nextTx: Tx

    ghost predicate Valid()
      reads this
    {
      && (forall tx :: tx in open ==> tx < nextTx)
      && (forall key :: key in holders ==> holders[key] in open)
    }

    constructor ()
      ensures Valid() && holders == map[]
    {
      holders, open, nextTx := map[], {}, 0;
    }

    method Begin() returns (tx: Tx)
      requires Valid()
      modifies this
      ensures Valid() && tx !in old(open) && open == old(open) + {tx}
      ensures holders == old(holders) && nextTx == old(nextTx) + 1 && tx == old(nextTx)
    {
      tx := nextTx;
      open, nextTx := open + {tx}, nextTx + 1;
    }

    /** A lock has one holder until its transaction ends. */
    method Try(tx: Tx, key: Key) returns (acquired: bool)
      requires Valid() && tx in open
      modifies this`holders
      ensures Valid() && acquired == (key !in old(holders) || old(holders)[key] == tx)
      ensures holders == if acquired then old(holders)[key := tx] else old(holders)
    {
      acquired := key !in holders || holders[key] == tx;
      if acquired { holders := holders[key := tx]; }
    }

    method Commit(tx: Tx)
      requires Valid()
      modifies this`holders, this`open
      ensures Valid() && open == old(open) - {tx}
      ensures holders == map key | key in old(holders) && old(holders)[key] != tx :: old(holders)[key]
    {
      open := open - {tx};
      holders := map key | key in holders && holders[key] != tx :: holders[key];
    }
  }

  /** One advisory lock: its transaction until it is unlocked. */
  class AdvisoryLock {
    var tx: Option<Tx>
    const id: string
    const lockType: string

    constructor (tx: Tx, id: string, lockType: string)
      ensures this.tx == Some(tx) && this.id == id && this.lockType == lockType
    {
      this.tx, this.id, this.lockType := Some(tx), id, lockType;
    }

    method Unlock(table: LockTable)
      requires table.Valid()
      modifies this, table`holders, table`open
      ensures table.Valid() && tx.None?
      ensures old(tx).None? ==> table.holders == old(table.holders) && table.open == old(table.open)
      ensures old(tx).Some? ==>
                && table.open == old(table.open) - {old(tx).value}
                && table.holders == Without(old(table.holders), old(tx).value)
    {
      if tx.Some? {
        table.Commit(tx.value);
        tx := None;
      }
    }
  }

  function Without(holders: map<Key, Tx>, tx: Tx): map<Key, Tx>
  {
    map key | key in holders && holders[key] != tx :: holders[key]
  }

  /** Ending a new transaction gives back exactly the lock it took. */
  lemma WithoutNew(holders: map<Key, Tx>, key: Key, tx: Tx)
    requires forall k :: k in holders ==> holders[k] != tx
    ensures Without(holders, tx) == holders
    ensures key !in holders ==> Without(holders[key := tx], tx) == holders
  {
  }

  /** The lock factory of one replica. Owner identifiers are random and come from the caller. */
  class LockFactory {
    const table: LockTable
    const hash: string -> int
    var store: map<string, AdvisoryLock>

    ghost predicate Valid()
      reads this, table, store.Values
    {
      && table.Valid() && "" !in store
      && (forall u :: u in store ==> store[u].tx.Some? && store[u].tx.value in table.open)
      && (forall u, v :: u in store && v in store && u != v ==>
            store[u] != store[v] && store[u].tx != store[v].tx)
    }

    constructor (table: LockTable, hash: string -> int)
      requires table.Valid()
      ensures Valid() && this.table == table && this.hash == hash && store == map[]
    {
      this.table, this.hash, store := table, hash, map[];
    }

    /** The two hashes side by side: two names share a key exactly when they collide in both. */
    function KeyOf(id: string, lockType: string): Key { (hash(id), hash(lockType)) }

    lemma KeysCollideIff(id: string, lockType: string, id': string, lockType': string)
      ensures KeyOf(id, lockType) == KeyOf(id', lockType') <==>
              hash(id) == hash(id') && hash(lockType) == hash(lockType')
    {}

    /** The key is held on behalf of this owner. */
    ghost predicate HeldBy(owner: string, key: Key)
      reads this, table, store.Values
    {
      owner in store && key in table.holders && store[owner].tx == Some(table.holders[key])
    }

    /** NewNonBlockingLock: acquired exactly when nobody holds the key; the lock is stored under
        its owner either way, and nobody else's lock is touched. */
    method NewNonBlockingLock(owner: string, id: string, lockType: string) returns (acquired: bool)
      requires Valid() && owner != "" && owner !in store
      modifies this, table
      ensures Valid() && owner in store && fresh(store[owner]) && store[owner].tx.Some?
      ensures store - {owner} == old(store)
      ensures Without(table.holders, store[owner].tx.value) == old(table.holders)
      ensures acquired == (KeyOf(id, lockType) !in old(table.holders))
      ensures acquired ==> HeldBy(owner, KeyOf(id, lockType))
      ensures !acquired ==> table.holders == old(table.holders)
    {
      var tx := table.Begin();
      ghost var before := table.holders;
      var lock := new AdvisoryLock(tx, id, lockType);
      acquired := table.Try(tx, KeyOf(id, lockType));
      store := store[owner := lock];
      WithoutNew(before, KeyOf(id, lockType), tx);
      assert store - {owner} == old(store);
    }

    /** NewAdvisoryLock waits for the key; when it gives up instead, its transaction is neither
        ended nor stored. */
    method NewAdvisoryLock(owner: string, id: string, lockType: string) returns (ok: bool)
      requires Valid() && owner != "" && owner !in store
      modifies this, table
      ensures Valid() && ok == (KeyOf(id, lockType) !in old(table.holders))
      ensures ok ==>
                && owner in store && fresh(store[owner]) && store[owner].tx.Some?
                && HeldBy(owner, KeyOf(id, lockType))
                && store - {owner} == old(store)
                && Without(table.holders, store[owner].tx.value) == old(table.holders)
      ensures !ok ==> store == old(store) && table.holders == old(table.holders)
    {
      var tx := table.Begin();
      ghost var before := table.holders;
      var lock := new AdvisoryLock(tx, id, lockType);
      ok := table.Try(tx, KeyOf(id, lockType));
      if ok {
        store := store[owner := lock];
        WithoutNew(before, KeyOf(id, lockType), tx);
        assert store - {owner} == old(store);
      }
    }

    /** Unlock ends the transaction of this owner and nothing else. */
    method Unlock(owner: string)
      requires Valid()
      modifies this, table, if owner in store then {store[owner]} else {}
      ensures Valid() && store == old(store) - {owner}
      ensures owner !in old(store) ==>
                table.holders == old(table.holders) && table.open == old(table.open)
      ensures owner in old(store) ==>
                && table.holders == Without(old(table.holders), old(store[owner].tx).value)
                && table.open == old(table.open) - {old(store[owner].tx).value}
      ensures table.nextTx == old(table.nextTx)
      ensures forall key :: key in old(table.holders) && !old(HeldBy(owner, key)) ==>
                key in table.holders && table.holders[key] == old(table.holders)[key]
    {
      if owner == "" || owner !in store {
        assert store == store - {owner};
        return;
      }
      store[owner].Unlock(table);
      store := store - {owner};
    }
  }

  /** LockBasedEventFilter. */
  class EventFilter {
    const factory: LockFactory
    var locks: map<string, string>

    constructor (factory: LockFactory)
      ensures this.factory == factory && locks == map[]
    {
      this.factory, locks := factory, map[];
    }

    /** Filter: process the event only under its lock; remember the owner either way. */
    method Filter(owner: string, id: string) returns (process: bool)
      requires factory.Valid() && owner != "" && owner !in factory.store
      modifies this, factory, factory.table
      ensures factory.Valid() && locks == old(locks)[id := owner]
      ensures owner in factory.store && fresh(factory.store[owner]) && factory.store[owner].tx.Some?
      ensures factory.store - {owner} == old(factory.store)
      ensures Without(factory.table.holders, factory.store[owner].tx.value) == old(factory.table.holders)
      ensures process == (factory.KeyOf(id, "events") !in old(factory.table.holders))
      ensures process ==> factory.HeldBy(owner, factory.KeyOf(id, "events"))
      ensures !process ==> factory.table.holders == old(factory.table.holders)
    {
      process := factory.NewNonBlockingLock(owner, id, "events");
      locks := locks[id := owner];
    }

    method DeferredAction(id: string)
      requires factory.Valid()
      modifies this, factory, factory.table
      modifies if id in locks && locks[id] in factory.store then {factory.store[locks[id]]} else {}
      ensures factory.Valid() && locks == old(locks) - {id}
      ensures factory.store == if id in old(locks) then old(factory.store) - {old(locks)[id]}
                               else old(factory.store)
      ensures factory.table.holders ==
              if id in old(locks) && old(locks)[id] in old(factory.store)
              then Without(old(factory.table.holders), old(factory.store[locks[id]].tx).value)
              else old(factory.table.holders)
    {
      if id in locks {
        factory.Unlock(locks[id]);
        locks := locks - {id};
      }
    }
  }
}
