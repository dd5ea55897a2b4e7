/** The process-local, per-key FIFO hand-off queue of one lock manager. */
module KeyQueue {
  import opened Types

  type WaiterId = nat

  datatype KeyState = KeyState(held: bool, waiters: seq<WaiterId>)

  const FRESH := KeyState(false, [])

  // ---- What each critical section does to the key map ------------------------------------

  function StateOf<K>(keys: map<K, KeyState>, k: K): KeyState {
    if k in keys then keys[k] else FRESH
  }

  function TryAcquire<K>(keys: map<K, KeyState>, k: K): (map<K, KeyState>, bool) {
    var st := StateOf(keys, k);
    if st.held then (keys[k := st], false) else (keys[k := st.(held := true)], true)
  }

  /** First half of `acquire`: take the free slot, or join the line as `w`. */
  function Join<K>(keys: map<K, KeyState>, k: K, w: WaiterId): (map<K, KeyState>, bool) {
    var st := StateOf(keys, k);
    if !st.held then (keys[k := st.(held := true)], true)
    else (keys[k := st.(waiters := st.waiters + [w])], false)
  }

  /** `ws` without the first occurrence of `w`. */
  function Without(ws: seq<WaiterId>, w: WaiterId): seq<WaiterId> {
    if ws == [] then [] else if ws[0] == w then ws[1..] else [ws[0]] + Without(ws[1..], w)
  }

  function Remove<K>(keys: map<K, KeyState>, k: K, w: WaiterId): map<K, KeyState> {
    if k !in keys then keys
    else
      var st := keys[k].(waiters := Without(keys[k].waiters, w));
      if !st.held && st.waiters == [] then keys - {k} else keys[k := st]
  }

  /** Hand the slot to the head of the line, or forget the key when nobody waits. */
  function Release<K>(keys: map<K, KeyState>, k: K): (map<K, KeyState>, Option<WaiterId>) {
    if k !in keys then (keys, None)
    else if keys[k].waiters == [] then (keys - {k}, None)
    else (keys[k := keys[k].(waiters := keys[k].waiters[1..])], Some(keys[k].waiters[0]))
  }

  /** Every known key is held. */
  ghost predicate AllHeld<K(!new)>(keys: map<K, KeyState>) {
    forall k :: k in keys ==> keys[k].held
  }

  /** Where every known key is held, TryAcquire takes exactly the unknown keys, and giving the slot
      straight back restores the map. */
  lemma TakeAndGiveBack<K(!new)>(keys: map<K, KeyState>, k: K)
    requires AllHeld(keys)
    ensures var (taken, ok) := TryAcquire(keys, k);
            && (ok <==> k !in keys)
            && (!ok ==> taken == keys)
            && (ok ==> taken == keys[k := KeyState(true, [])] && AllHeld(taken) && Release(taken, k).0 == keys)
  {
    assert k in keys ==> keys[k := keys[k]] == keys;
    assert k !in keys ==> keys[k := KeyState(true, [])] - {k} == keys;
  }

  // ---- Facts about Without -----------------------------------------------------------------

  predicate Distinct<T(==)>(ws: seq<T>) {
    forall i, j :: 0 <= i < j < |ws| ==> ws[i] != ws[j]
  }

  /** Removing the element at position i, when it is the first match, splices it out. */
  lemma {:induction false} WithoutAt(ws: seq<WaiterId>, w: WaiterId, i: nat)
    requires i < |ws| && ws[i] == w && w !in ws[..i]
    ensures Without(ws, w) == ws[..i] + ws[i + 1..]
  {
    if i > 0 {
      assert w !in ws[1..][..i - 1] by {
        assert forall j :: 0 <= j < i - 1 ==> ws[1..][j] == ws[..i][j + 1];
      }
      WithoutAt(ws[1..], w, i - 1);
    }
  }

  lemma {:induction false} WithoutAbsent(ws: seq<WaiterId>, w: WaiterId)
    requires w !in ws
    ensures Without(ws, w) == ws
  {
    if ws != [] {
      WithoutAbsent(ws[1..], w);
    }
  }

  /** In a line without duplicates, removing `w` removes exactly `w` and keeps the others distinct. */
  lemma {:induction false} WithoutMembers(ws: seq<WaiterId>, w: WaiterId)
    requires Distinct(ws)
    ensures Distinct(Without(ws, w))
    ensures forall v :: v in Without(ws, w) <==> v in ws && v != w
  {
    if ws != [] {
      var rest := ws[1..];
      WithoutMembers(rest, w);
      if ws[0] == w {
        assert w !in rest;
      } else {
        assert forall v :: v in Without(ws, w) <==> v == ws[0] || v in Without(rest, w);
        assert ws[0] !in rest;
      }
    }
  }

  /** Cancelling one waiter keeps the order of all the others. */
  lemma {:induction false} WithoutKeepsOrder(a: seq<WaiterId>, b: seq<WaiterId>, w: WaiterId)
    requires w !in a
    ensures Without(a + b, w) == a + Without(b, w)
  {
    if a == [] {
      assert a + b == b;
    } else {
      assert (a + b)[0] == a[0] && (a + b)[1..] == a[1..] + b;
      WithoutKeepsOrder(a[1..], b, w);
    }
  }

  // ---- The queue object ----------------------------------------------------------------------

  /** The mutable per-key record the queue's map points to. */
  class Line {
    var held: bool
    var waiters: seq<WaiterId>

    constructor ()
      ensures !held && waiters == []
    {
      held, waiters := false, [];
    }
  }

  /** removeWaiter's search: the first match is spliced out. */
  method SpliceOut(ws: seq<WaiterId>, waiter: WaiterId) returns (rest: seq<WaiterId>)
    ensures rest == Without(ws, waiter)
  {
    var index := 0;
    while index < |ws|
      invariant 0 <= index <= |ws|
      invariant waiter !in ws[..index]
    {
      if ws[index] == waiter {
        WithoutAt(ws, waiter, index);
        return ws[..index] + ws[index + 1..];
      }
      index := index + 1;
    }
    WithoutAbsent(ws, waiter);
    rest := ws;
  }

  class LocalKeyQueue {
    var keys: map<Key, Line>
    /** Channels made so far and channels closed so far, standing for Go's channel heap. */
    var made: nat
    var closed: set<WaiterId>

    ghost predicate Valid()
      reads this
    {
      forall a, b :: a in keys && b in keys && keys[a] == keys[b] ==> a == b
    }

    ghost function View(): map<Key, KeyState>
      reads this, keys.Values
    {
      map k | k in keys :: KeyState(keys[k].held, keys[k].waiters)
    }

    /** Only the record of one key differs from an earlier view. */
    lemma ViewWith(before: map<Key, KeyState>, key: Key)
      requires key in keys && keys.Keys == before.Keys + {key}
      requires forall k :: k in keys && k != key ==> KeyState(keys[k].held, keys[k].waiters) == before[k]
      ensures View() == before[key := KeyState(keys[key].held, keys[key].waiters)]
    {
    }

    constructor ()
      ensures Valid() && View() == map[] && closed == {}
    {
      keys, made, closed := map[], 0, {};
    }

    /** The `state == nil` branch shared by both entry points. */
    method Lookup(key: Key) returns (line: Line)
      requires Valid()
      modifies this`keys
      ensures Valid() && key in keys && keys[key] == line
      ensures keys == old(keys)[key := line]
      ensures key in old(keys) ==> line == old(keys[key])
      ensures key !in old(keys) ==> fresh(line) && !line.held && line.waiters == []
    {
      if key in keys {
        line := keys[key];
      } else {
        line := new Line();
        keys := keys[key := line];
      }
    }

    method TryAcquireKey(key: Key) returns (ok: bool)
      requires Valid()
      modifies this`keys, keys.Values
      ensures Valid() && fresh(keys.Values - old(keys.Values))
      ensures View() == TryAcquire(old(View()), key).0 && ok == TryAcquire(old(View()), key).1
    {
      var state := Lookup(key);
      if state.held {
        ViewWith(old(View()), key);
        return false;
      }
      state.held := true;
      ViewWith(old(View()), key);
      ok := true;
    }

    /** `acquire` up to the point where the caller either owns the slot or blocks on a channel. */
    method AcquireOrJoin(key: Key) returns (granted: bool, waiter: WaiterId)
      requires Valid()
      modifies this`keys, this`made, keys.Values
      ensures Valid() && fresh(keys.Values - old(keys.Values))
      ensures waiter == old(made)
      ensures View() == Join(old(View()), key, waiter).0 && granted == Join(old(View()), key, waiter).1
      ensures made == if granted then old(made) else old(made) + 1
    {
      waiter := made;
      var state := Lookup(key);
      if !state.held {
        state.held := true;
        granted := true;
      } else {
        made := made + 1;
        state.waiters := state.waiters + [waiter];
        granted := false;
      }
      ViewWith(old(View()), key);
    }

    method RemoveWaiter(key: Key, waiter: WaiterId)
      requires Valid()
      modifies this`keys, keys.Values
      ensures Valid() && keys.Values <= old(keys.Values)
      ensures View() == Remove(old(View()), key, waiter)
    {
      if key !in keys {
        return;
      }
      var state := keys[key];
      state.waiters := SpliceOut(state.waiters, waiter);
      ViewWith(old(View()), key);
      if !state.held && |state.waiters| == 0 {
        keys := keys - {key};
      }
    }

    /** The critical section of `release`, followed by closing the popped channel. */
    method ReleaseKey(key: Key) returns (next: Option<WaiterId>)
      requires Valid()
      modifies this`keys, this`closed, keys.Values
      ensures Valid() && keys.Values <= old(keys.Values)
      ensures View() == Release(old(View()), key).0 && next == Release(old(View()), key).1
      ensures closed == if next.Some? then old(closed) + {next.value} else old(closed)
    {
      if key !in keys {
        return None;
      }
      var state := keys[key];
      if |state.waiters| == 0 {
        keys := keys - {key};
        return None;
      }
      var head := state.waiters[0];
      state.waiters := state.waiters[1..];
      closed := closed + {head};
      next := Some(head);
    }
  }
}
