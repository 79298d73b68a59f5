// The bridge object of mcp/main.go and the credential store of mcp/rotate.go, reduced to the
// fields the rotation protocol touches. Every method keeps the statement order of its source
// and is proved to compute the transition function of CredentialState.

module Bridges {
  import opened CredentialState
  import opened Options

  class CredentialStore {
    var file: Option<Record>
    var mtime: nat
    ghost var survivors: set<Option<Record>>

    constructor ()
      ensures View() == Disk(None, 0, {None})
    {
      file, mtime, survivors := None, 0, {None};
    }

    ghost function View(): Disk
      reads this
    {
      Disk(file, mtime, survivors)
    }

    method Stamp(statOk: bool) returns (stamp: Option<nat>)
      modifies {}
      ensures stamp == StampOf(View(), statOk)
    {
      if !statOk || file.None? {
        return None;
      }
      return Some(mtime);
    }

    method Read(fallback: Key, readable: bool) returns (ok: bool, record: Record)
      modifies {}
      ensures ok <==> readable && Load(View(), fallback).Valid()
      ensures ok ==> record == Load(View(), fallback)
    {
      record := if file.Some? then file.value else Record(fallback, None);
      ok := readable && record.Valid();
    }

    // A temporary file is written and synced, renamed over the record, and the directory is
    // synced. Only the last step makes the new version the one that survives a power loss.
    method Store(record: Record, outcome: PersistOutcome) returns (ok: bool)
      modifies this
      ensures ok == PersistOk(record, outcome)
      ensures View() == Persist(old(View()), record, outcome)
    {
      if !record.Valid() || outcome.FailedBeforeRename? {
        return false;
      }
      file, mtime, survivors := Some(record), outcome.mtime, survivors + {Some(record)};
      if outcome.FailedAfterRename? {
        return false;
      }
      survivors := {Some(record)};
      return true;
    }
  }

  class Bridge {
    const store: CredentialStore
    var apiKey: Key
    var pendingKey: Option<Key>
    var credentialStamp: Option<nat>
    var credentialReadOnly: bool

    constructor (store: CredentialStore, apiKey: Key)
      ensures this.store == store && View() == Cache(apiKey, None, None, false)
    {
      this.store, this.apiKey := store, apiKey;
      pendingKey, credentialStamp, credentialReadOnly := None, None, false;
    }

    ghost function View(): Cache
      reads this
    {
      Cache(apiKey, pendingKey, credentialStamp, credentialReadOnly)
    }

    ghost function After(status: Status): Step
      reads this, store
    {
      Step(View(), store.View(), status)
    }

    method Matches(statOk: bool) returns (matches: bool)
      modifies {}
      ensures matches == StampMatches(View(), store.View(), statOk)
    {
      var current := store.Stamp(statOk);
      matches := credentialStamp.Some? && current.Some? && credentialStamp.value == current.value;
    }

    // The body shared by the locked sections that adopt what a peer wrote: read the record,
    // re-persist it when it differs from the cached keys, then take it over.
    method ReloadLocked(fallback: Key, env: Env) returns (status: Status, record: Record)
      modifies this, store
      ensures After(status) == Reload(old(View()), old(store.View()), fallback, env)
      ensures status.Done? ==> record == Load(old(store.View()), fallback)
    {
      if !env.locked {
        return WriteUnavailable, Record(fallback, None);
      }
      var ok;
      ok, record := store.Read(fallback, env.readable);
      if !ok {
        credentialStamp := None;
        return Failed, record;
      }
      if record.current != apiKey || record.pending != pendingKey {
        ok := store.Store(record, env.confirm);
        if !ok {
          credentialStamp := None;
          return Failed, record;
        }
      }
      apiKey, pendingKey := record.current, record.pending;
      credentialStamp := store.Stamp(env.statAfter);
      status := Done;
    }

    method RefreshCredentialState(env: Env) returns (status: Status)
      modifies this, store
      ensures After(status) == Refresh(old(View()), old(store.View()), env)
    {
      var synced := Matches(env.statBefore);
      if synced {
        return Done;
      }
      if credentialReadOnly {
        var stamp := store.Stamp(env.statBefore);
        var ok, _ := store.Read(apiKey, env.readable);
        if !ok {
          credentialStamp := None;
          return Failed;
        }
        pendingKey, credentialStamp := None, stamp;
        return Done;
      }
      var record;
      status, record := ReloadLocked(apiKey, env);
    }

    method CredentialRecoveryKey(rejected: Key, env: Env) returns (status: Status, alternate: Option<Key>)
      modifies this, store
      ensures (After(status), alternate) == Recover(old(View()), old(store.View()), rejected, env)
    {
      alternate := None;
      var record;
      if credentialReadOnly {
        var ok;
        ok, record := store.Read(rejected, env.readable);
        if !ok {
          return Failed, None;
        }
        status := Done;
      } else {
        status, record := ReloadLocked(rejected, env);
        if !status.Done? {
          return;
        }
      }
      if record.current != rejected {
        alternate := Some(record.current);
      } else if record.pending.Some? && record.pending != Some(rejected) {
        alternate := record.pending;
      }
    }

    method AdoptRecoveryKey(key: Key, env: Env) returns (status: Status)
      modifies this, store
      ensures After(status) == Adopt(old(View()), old(store.View()), key, env)
    {
      if credentialReadOnly {
        apiKey, pendingKey := key, None;
        return Done;
      }
      status := PromoteLocked(key, env);
    }

    method AcknowledgeRotation(ack: Key, env: Env) returns (status: Status)
      modifies this, store
      ensures After(status) == Acknowledge(old(View()), old(store.View()), ack, env)
    {
      if credentialReadOnly || pendingKey != Some(ack) {
        return Done;
      }
      status := PromoteLocked(ack, env);
    }

    // Adoption and acknowledgement both make `key` current: they re-persist a promotion a peer
    // completed, promote a key that is still pending, and refuse any other record.
    method PromoteLocked(key: Key, env: Env) returns (status: Status)
      requires !credentialReadOnly
      modifies this, store
      ensures After(status) == Adopt(old(View()), old(store.View()), key, env)
    {
      if !env.locked {
        return WriteUnavailable;
      }
      var ok, record := store.Read(apiKey, env.readable);
      if ok {
        if record.pending == Some(key) {
          record := Record(key, None);
        } else if record.current != key || record.pending.Some? {
          ok := false;
        }
      }
      if ok {
        ok := store.Store(record, env.confirm);
      }
      if !ok {
        credentialStamp := None;
        return Failed;
      }
      credentialStamp := store.Stamp(env.statAfter);
      apiKey, pendingKey := key, None;
      status := Done;
    }

    method RotationProposal(env: Env) returns (ghost status: Status, offered: Option<Key>)
      modifies this, store
      ensures (After(status), offered) == Propose(old(View()), old(store.View()), env)
    {
      status, offered := Done, None;
      if credentialReadOnly {
        return;
      }
      var synced := Matches(env.statBefore);
      if pendingKey.Some? && synced {
        return Done, pendingKey;
      }
      var before := apiKey;
      var reload, record := ReloadLocked(apiKey, env);
      if !reload.Done? {
        return reload, None;
      }
      if record.current != before && record.pending.None? {
        return Done, None;
      }
      if pendingKey.Some? {
        return Done, pendingKey;
      }
      if env.minted.None? {
        credentialStamp := None;
        return Failed, None;
      }
      var ok := store.Store(Record(record.current, env.minted), env.commit);
      if !ok {
        credentialStamp := None;
        return Failed, None;
      }
      pendingKey := env.minted;
      credentialStamp := store.Stamp(env.statAfter);
      offered := pendingKey;
    }

    // initializeCredentialState: only a write denial that preceded the transition degrades.
    method InitializeCredentialState(env: Env, retry: Env) returns (ok: bool)
      requires !credentialReadOnly
      modifies this, store
      ensures var first := Refresh(old(View()), old(store.View()), env);
              var second := Refresh(first.cache.(readOnly := true, pendingKey := None), first.disk, retry);
              match first.status
              case Done => ok && After(Done) == first
              case Failed => !ok && After(Failed) == first
              case WriteUnavailable => ok == second.status.Done? && After(second.status) == second
    {
      var status := RefreshCredentialState(env);
      if !status.WriteUnavailable? {
        return status.Done?;
      }
      credentialReadOnly, pendingKey := true, None;
      status := RefreshCredentialState(retry);
      ok := status.Done?;
    }
  }
}
