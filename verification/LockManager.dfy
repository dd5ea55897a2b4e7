/** The lock manager's objects as the source writes them: the server connection, the handle and the
    manager, run by one caller at a time. LockSystem models their interleavings. */
module LockManager {
  import opened Types
  import opened TtlStore
  import Q = KeyQueue
  import S = LockSystem

  // ---- The backend's three calls: None stands for an error ------------------------------------------------

  /** If nothing else is sent, the token owns the key until a millisecond before `now + ttl` at least, and
      no longer than to the end of the duration, or of one millisecond. */
  ghost predicate LeasedFor(store: Store, key: Key, token: nat, now: Time, ttl: int) {
    && (forall t: Time :: now <= t <= now + ttl - 1_000_000 ==> Owns(store, key, token, t))
    && (forall t: Time :: now <= t < now + 1_000_000 && ttl < 1_000_000 ==> Owns(store, key, token, t))
    && (forall t: Time :: now + ttl <= t && now + 1_000_000 <= t ==> !Live(store, key, t))
  }

  lemma EntryLeases(store: Store, key: Key, token: nat, now: Time, span: int, ttl: int)
    requires key in store && store[key] == Entry(token, now + span)
    requires if ttl < 1_000_000 then 0 < ttl && span == 1_000_000 else ttl - 1_000_000 < span <= ttl
    ensures LeasedFor(store, key, token, now, ttl)
  {
  }

  lemma StoredLeases(store: Store, key: Key, token: nat, now: Time, ttl: int)
    requires 0 < ttl && key in store && store[key] == Entry(token, now + StoredSpan(ttl))
    ensures LeasedFor(store, key, token, now, ttl)
  {
    SpanValues(ttl);
    EntryLeases(store, key, token, now, StoredSpan(ttl), ttl);
  }

  lemma RefreshedLeases(store: Store, key: Key, token: nat, now: Time, ttl: int)
    requires 1_000_000 <= ttl && key in store && store[key] == Entry(token, now + RefreshSpan(ttl))
    ensures LeasedFor(store, key, token, now, ttl)
  {
    SpanValues(ttl);
    EntryLeases(store, key, token, now, RefreshSpan(ttl), ttl);
  }

  method BackendAcquire(server: RedisServer, key: Key, token: nat, ttl: int, net: Net) returns (granted: Option<bool>)
    requires server.Valid()
    modifies server`store, server`history
    ensures server.Valid()
    ensures granted == if net.Delivered? then Some(!Live(old(server.store), key, server.now)) else None
    ensures server.store ==
            if net.CommandLost? || Live(old(server.store), key, server.now) then old(server.store)
            else old(server.store)[key := Entry(token, server.now + StoredSpan(ttl))]
  {
    granted := server.RoundTrip(SetNx(key, token, StoredSpan(ttl)), net);
  }

  method BackendRelease(server: RedisServer, key: Key, token: nat, net: Net) returns (deleted: Option<bool>)
    requires server.Valid()
    modifies server`store, server`history
    ensures server.Valid()
    ensures deleted == if net.Delivered? then Some(Owns(old(server.store), key, token, server.now)) else None
    ensures server.store ==
            if net.CommandLost? || !Owns(old(server.store), key, token, server.now) then old(server.store)
            else old(server.store) - {key}
  {
    deleted := server.RoundTrip(CompareDelete(key, token), net);
  }

  method BackendRefresh(server: RedisServer, key: Key, token: nat, ttl: int, net: Net) returns (updated: Option<bool>)
    requires server.Valid()
    modifies server`store, server`history
    ensures server.Valid()
    ensures updated == if net.Delivered? then Some(Owns(old(server.store), key, token, server.now)) else None
    ensures server.store ==
            if net.CommandLost? || !Owns(old(server.store), key, token, server.now) then old(server.store)
            else if ttl < MILLISECOND then old(server.store) - {key}
            else old(server.store)[key := Entry(token, server.now + RefreshSpan(ttl))]
  {
    updated := server.RoundTrip(CompareExpire(key, token, RefreshSpan(ttl)), net);
  }

  class Lock {
    const server: RedisServer
    const queue: Q.LocalKeyQueue
    const key: Key
    const token: nat
    const ttl: int
    /** `finalizeOnce` has run; the stop channel is closed; the release closure has run. */
    var finalized: bool
    var stopCloses: nat
    var slotReturns: nat
    var released: bool

    ghost predicate Valid()
      reads this
    {
      && released == finalized
      && stopCloses == slotReturns == if finalized then 1 else 0
    }

    constructor (server: RedisServer, queue: Q.LocalKeyQueue, key: Key, token: nat, ttl: int)
      ensures Valid() && !released
      ensures this.server == server && this.queue == queue && this.key == key && this.token == token && this.ttl == ttl
    {
      this.server, this.queue, this.key, this.token, this.ttl := server, queue, key, token, ttl;
      finalized, stopCloses, slotReturns, released := false, 0, 0, false;
    }

    /** Runs once: a second call changes nothing. */
    method Finalize()
      requires Valid() && queue.Valid()
      modifies this, queue`keys, queue`closed, queue.keys.Values
      ensures Valid() && queue.Valid() && finalized
      ensures queue.View() == if old(finalized) then old(queue.View()) else Q.Release(old(queue.View()), key).0
    {
      if finalized {
        return;
      }
      released := true;
      stopCloses := stopCloses + 1;
      var _ := queue.ReleaseKey(key);
      slotReturns := slotReturns + 1;
      finalized := true;
    }

    /** Release: refused without a backend call once released; on any error but "not held" nothing is
        finalised and the slot stays with the handle, whatever the server did. */
    method Release(net: Net) returns (result: S.OpResult)
      requires Valid() && queue.Valid() && server.Valid()
      modifies this, server`store, server`history, queue`keys, queue`closed, queue.keys.Values
      ensures Valid() && queue.Valid() && server.Valid()
      ensures old(released) ==>
                result == S.AlreadyReleased && released
                && server.store == old(server.store) && queue.View() == old(queue.View())
      ensures !old(released) && !net.Delivered? ==>
                result == S.Failed && !released && queue.View() == old(queue.View())
      ensures !old(released) && net.Delivered? ==>
                && result == (if Owns(old(server.store), key, token, server.now) then S.Nil else S.NotHeld)
                && released && queue.View() == Q.Release(old(queue.View()), key).0
      ensures server.store ==
              if old(released) || net.CommandLost? || !Owns(old(server.store), key, token, server.now)
              then old(server.store) else old(server.store) - {key}
    {
      if released {
        return S.AlreadyReleased;
      }
      var answer := BackendRelease(server, key, token, net);
      match answer
      case None => result := S.Failed;
      case Some(deleted) =>
        Finalize();
        result := if deleted then S.Nil else S.NotHeld;
    }

    /** Refresh: finalises only when the server says "not held". An accepted refresh for less than a
        millisecond returns nil and deletes the lease. */
    method Refresh(duration: int, net: Net) returns (result: S.OpResult)
      requires Valid() && queue.Valid() && server.Valid()
      modifies this, server`store, server`history, queue`keys, queue`closed, queue.keys.Values
      ensures Valid() && queue.Valid() && server.Valid()
      ensures old(released) ==>
                result == S.AlreadyReleased && released
                && server.store == old(server.store) && queue.View() == old(queue.View())
      ensures !old(released) ==>
                var owned := Owns(old(server.store), key, token, server.now);
                && result == (if !net.Delivered? then S.Failed else if owned then S.Nil else S.NotHeld)
                && (released <==> result == S.NotHeld)
                && queue.View() == (if released then Q.Release(old(queue.View()), key).0 else old(queue.View()))
      ensures server.store ==
              if old(released) || net.CommandLost? || !Owns(old(server.store), key, token, server.now) then old(server.store)
              else if duration < MILLISECOND then old(server.store) - {key}
              else old(server.store)[key := Entry(token, server.now + RefreshSpan(duration))]
      ensures 1_000_000 <= duration && result == S.Nil ==> LeasedFor(server.store, key, token, server.now, duration)
      ensures duration < 1_000_000 && result == S.Nil ==> key !in server.store
    {
      if released {
        return S.AlreadyReleased;
      }
      var answer := BackendRefresh(server, key, token, duration, net);
      match answer
      case None => result := S.Failed;
      case Some(updated) =>
        if !updated {
          Finalize();
        } else if MILLISECOND <= duration {
          RefreshedLeases(server.store, key, token, server.now, duration);
        }
        result := if updated then S.Nil else S.NotHeld;
    }

    /** One tick of the watchdog: a refresh for the handle's own time-to-live, whose error is ignored. */
    method Tick(net: Net)
      requires Valid() && queue.Valid() && server.Valid()
      modifies this, server`store, server`history, queue`keys, queue`closed, queue.keys.Values
      ensures Valid() && queue.Valid() && server.Valid()
      ensures var owned := Owns(old(server.store), key, token, server.now);
              && (released <==> old(released) || (net.Delivered? && !owned))
              && (!old(released) && !net.CommandLost? && owned && 1_000_000 <= ttl ==>
                    LeasedFor(server.store, key, token, server.now, ttl))
              && (old(released) || net.CommandLost? || !owned ==> server.store == old(server.store))
    {
      var _ := Refresh(ttl, net);
      if !old(released) && !net.CommandLost? && Owns(old(server.store), key, token, server.now) && 1_000_000 <= ttl {
        RefreshedLeases(server.store, key, token, server.now, ttl);
      }
    }
  }

  datatype TryError = NoError | KeyRequired | TtlRequired | TokenError | BackendError

  datatype WithLockOutcome = CallbackError | ReleaseAnswer(answer: S.OpResult)

  class Manager {
    const server: RedisServer
    const queue: Q.LocalKeyQueue

    constructor (server: RedisServer)
      ensures this.server == server && fresh(queue) && queue.Valid() && queue.View() == map[]
    {
      this.server := server;
      queue := new Q.LocalKeyQueue();
    }

    /** Every key in the map is held, as LockSlots proves of all interleavings. */
    ghost predicate Valid()
      reads this, queue, queue.keys.Values
    {
      queue.Valid() && Q.AllHeld(queue.View())
    }

    /** TryLock once the slot is its own: one backend call, and the slot goes back unless it succeeds. */
    method TryWithSlot(key: Key, ttl: int, token: Option<nat>, net: Net)
      returns (lock: Lock?, err: TryError)
      requires queue.Valid() && server.Valid()
      modifies server`store, server`history, queue`keys, queue`closed, queue.keys.Values
      ensures queue.Valid() && server.Valid()
      ensures lock != null <==> token.Some? && net.Delivered? && !Live(old(server.store), key, server.now)
      ensures err == (if token.None? then TokenError else if !net.Delivered? then BackendError else NoError)
      ensures lock == null ==> queue.View() == Q.Release(old(queue.View()), key).0
      ensures lock != null ==>
                && fresh(lock) && lock.Valid() && !lock.released
                && lock.key == key && lock.token == token.value && lock.queue == queue && lock.server == server
                && queue.View() == old(queue.View())
                && server.store == old(server.store)[key := Entry(token.value, server.now + StoredSpan(ttl))]
                && (0 < ttl ==> LeasedFor(server.store, key, token.value, server.now, ttl))
      ensures token.None? || net.CommandLost? ==> server.store == old(server.store)
    {
      lock := null;
      var answer: Option<bool> := None;
      if token.Some? {
        answer := BackendAcquire(server, key, token.value, ttl, net);
      }
      err := if token.None? then TokenError else if answer.None? then BackendError else NoError;
      if answer == Some(true) {
        lock := new Lock(server, queue, key, token.value, ttl);
        if 0 < ttl {
          StoredLeases(server.store, key, token.value, server.now, ttl);
        }
      } else {
        var _ := queue.ReleaseKey(key);
      }
    }

    /** TryLock either returns a handle that owns the slot and the server's entry, or leaves the
        queue exactly as it found it. */
    method TryLock(key: Key, ttl: int, token: Option<nat>, net: Net)
      returns (lock: Lock?, err: TryError)
      requires Valid() && server.Valid()
      modifies server`store, server`history, queue`keys, queue`closed, queue.keys.Values
      ensures Valid() && server.Valid()
      ensures err == (if key.text == "" then KeyRequired
                      else if ttl <= 0 then TtlRequired
                      else if key in old(queue.View()) then NoError
                      else if token.None? then TokenError
                      else if !net.Delivered? then BackendError
                      else NoError)
      ensures lock != null <==> key.text != "" && 0 < ttl && key !in old(queue.View()) && token.Some?
                                && net.Delivered? && !Live(old(server.store), key, server.now)
      ensures lock == null ==> queue.View() == old(queue.View())
      ensures lock != null ==>
                && fresh(lock) && lock.Valid() && !lock.released
                && lock.key == key && lock.token == token.value && lock.queue == queue && lock.server == server
                && queue.View() == old(queue.View())[key := Q.KeyState(true, [])]
                && server.store == old(server.store)[key := Entry(token.value, server.now + StoredSpan(ttl))]
                && LeasedFor(server.store, key, token.value, server.now, ttl)
      ensures net.CommandLost? ==> server.store == old(server.store)
    {
      if key.text == "" {
        return null, KeyRequired;
      }
      if ttl <= 0 {
        return null, TtlRequired;
      }
      ghost var before := queue.View();
      Q.TakeAndGiveBack(before, key);
      var mine := queue.TryAcquireKey(key);
      if !mine {
        return null, NoError;
      }
      lock, err := TryWithSlot(key, ttl, token, net);
    }

    /** The end of WithLock, after its callback: the callback's error wins, and a release that fails
        for any reason but "not held" leaves the slot with the handle that is then dropped. The handle may
        have been finalised before, by the callback or by the watchdog. */
    method FinishWithLock(lock: Lock, callbackFailed: bool, net: Net) returns (outcome: WithLockOutcome)
      requires Valid() && server.Valid() && lock.Valid() && lock.queue == queue && lock.server == server
      modifies lock, server`store, server`history, queue`keys, queue`closed, queue.keys.Values
      ensures lock.Valid() && Valid() && server.Valid()
      ensures outcome ==
              if callbackFailed then CallbackError
              else ReleaseAnswer(if old(lock.released) then S.AlreadyReleased
                                 else if !net.Delivered? then S.Failed
                                 else if Owns(old(server.store), lock.key, lock.token, server.now) then S.Nil
                                 else S.NotHeld)
      ensures lock.released <==> old(lock.released) || net.Delivered?
      ensures queue.View() == if lock.released && !old(lock.released) then Q.Release(old(queue.View()), lock.key).0
                              else old(queue.View())
      ensures server.store ==
              if old(lock.released) || net.CommandLost? || !Owns(old(server.store), lock.key, lock.token, server.now)
              then old(server.store) else old(server.store) - {lock.key}
    {
      var releaseAnswer := lock.Release(net);
      outcome := if callbackFailed then CallbackError else ReleaseAnswer(releaseAnswer);
    }
  }
}
