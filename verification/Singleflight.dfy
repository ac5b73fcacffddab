/** The reference-counted registry that coalesces callers of one cache key
    (src/ragbench/providers/upstage/client.py). An entry object is known by its index in `entries`;
    the registry may forget an entry that a late caller still holds a reference to, so the two are
    kept apart. A lock is its holder: any waiter may be the next one, which covers every queue order. */
module Singleflight {
  import opened Results

  type Key = string

  datatype Entry = Entry(users: int, holder: Option<nat>)

  datatype Registry = Registry(live: map<Key, nat>, entries: seq<Entry>)

  // ----- the three moments of `hold`

  function EntryFor(r: Registry, key: Key): nat {
    if key in r.live then r.live[key] else |r.entries|
  }

  /** Look up or create the key's entry, and count one more user of it. */
  function Entered(r: Registry, key: Key): Registry
    requires key in r.live ==> r.live[key] < |r.entries|
  {
    if key in r.live then
      var e := r.entries[r.live[key]];
      r.(entries := r.entries[r.live[key] := e.(users := e.users + 1)])
    else
      Registry(r.live[key := |r.entries|], r.entries + [Entry(1, None)])
  }

  function Acquired(r: Registry, id: nat, caller: nat): Registry
    requires id < |r.entries|
  {
    r.(entries := r.entries[id := r.entries[id].(holder := Some(caller))])
  }

  /** Release the lock if it was acquired, drop one user, and forget the entry when it was the last. */
  function Left(r: Registry, key: Key, id: nat, acquired: bool): Registry
    requires id < |r.entries|
  {
    var e := r.entries[id];
    var users := e.users - 1;
    var entries := r.entries[id := Entry(users, if acquired then None else e.holder)];
    Registry(if users == 0 && key in r.live && r.live[key] == id then r.live - {key} else r.live, entries)
  }

  class LocalSingleflightRegistry {
    var live: map<Key, nat>
    var entries: seq<Entry>

    constructor ()
      ensures State() == Registry(map[], [])
    {
      live, entries := map[], [];
    }

    function State(): Registry
      reads this
    {
      Registry(live, entries)
    }

    method Enter(key: Key) returns (id: nat)
      requires forall k :: k in live ==> live[k] < |entries|
      modifies this
      ensures id == EntryFor(old(State()), key) && State() == Entered(old(State()), key)
    {
      if key !in live {
        live := live[key := |entries|];
        entries := entries + [Entry(0, None)];
      }
      id := live[key];
      entries := entries[id := entries[id].(users := entries[id].users + 1)];
    }

    method Acquire(id: nat, caller: nat)
      requires id < |entries| && entries[id].holder == None
      modifies this
      ensures State() == Acquired(old(State()), id, caller)
    {
      entries := entries[id := entries[id].(holder := Some(caller))];
    }

    method Leave(key: Key, id: nat, acquired: bool)
      requires id < |entries|
      modifies this
      ensures State() == Left(old(State()), key, id, acquired)
    {
      if acquired {
        entries := entries[id := entries[id].(holder := None)];
      }
      entries := entries[id := entries[id].(users := entries[id].users - 1)];
      if entries[id].users == 0 && key in live && live[key] == id {
        live := live - {key};
      }
    }
  }

  // ----- many callers

  /** Where a caller is: outside `hold`, waiting for the lock of an entry, or holding it. */
  datatype Client = Outside | Waiting(id: nat) | Inside(id: nat)

  datatype System = System(registry: Registry, clients: seq<Client>)

  datatype Event = Enter(caller: nat) | Acquire(caller: nat) | CancelWait(caller: nat) | Exit(caller: nat)

  /** The caller's part of the event comes next, and the lock is free when it must be. */
  predicate Enabled(keys: seq<Key>, s: System, e: Event) {
    var r := s.registry;
    e.caller < |s.clients| && e.caller < |keys| &&
    var c := s.clients[e.caller];
    match e
    case Enter(i) => c.Outside? && (keys[i] in r.live ==> r.live[keys[i]] < |r.entries|)
    case Acquire(_) => c.Waiting? && c.id < |r.entries| && r.entries[c.id].holder == None
    case CancelWait(_) => c.Waiting? && c.id < |r.entries|
    case Exit(_) => c.Inside? && c.id < |r.entries|
  }

  /** The system after an event; one that is not enabled does not happen. */
  function Next(keys: seq<Key>, s: System, e: Event): System {
    if !Enabled(keys, s, e) then s
    else
      var r, i := s.registry, e.caller;
      match e
      case Enter(_) => System(Entered(r, keys[i]), s.clients[i := Waiting(EntryFor(r, keys[i]))])
      case Acquire(_) => System(Acquired(r, s.clients[i].id, i), s.clients[i := Inside(s.clients[i].id)])
      case CancelWait(_) => System(Left(r, keys[i], s.clients[i].id, false), s.clients[i := Outside])
      case Exit(_) => System(Left(r, keys[i], s.clients[i].id, true), s.clients[i := Outside])
  }

  predicate Uses(c: Client, id: nat) {
    !c.Outside? && c.id == id
  }

  function UserCount(clients: seq<Client>, id: nat): nat {
    if clients == [] then 0
    else UserCount(clients[..|clients| - 1], id) + if Uses(clients[|clients| - 1], id) then 1 else 0
  }

  /** The invariant: the registry maps each key in use, and only those, to the one entry its callers
      refer to; its count is the number of those callers; and the lock's holder is the caller inside. */
  ghost predicate Consistent(keys: seq<Key>, s: System) {
    var r := s.registry;
    && |keys| == |s.clients|
    && (forall k :: k in r.live ==> r.live[k] < |r.entries|)
    && (forall k, l :: k in r.live && l in r.live && r.live[k] == r.live[l] ==> k == l)
    && (forall i :: 0 <= i < |keys| && !s.clients[i].Outside? ==>
      keys[i] in r.live && r.live[keys[i]] == s.clients[i].id)
    && (forall k :: k in r.live ==> 0 < r.entries[r.live[k]].users == UserCount(s.clients, r.live[k]))
    && (forall i :: 0 <= i < |keys| && s.clients[i].Inside? ==> r.entries[s.clients[i].id].holder == Some(i))
    && (forall k :: k in r.live && r.entries[r.live[k]].holder.Some? ==>
          var i := r.entries[r.live[k]].holder.value; i < |s.clients| && s.clients[i] == Inside(r.live[k]))
  }

  lemma {:induction false} CountAfterUpdate(clients: seq<Client>, i: nat, c: Client, id: nat)
    requires i < |clients|
    ensures UserCount(clients[i := c], id)
         == UserCount(clients, id) - (if Uses(clients[i], id) then 1 else 0) + (if Uses(c, id) then 1 else 0)
  {
    var k := |clients| - 1;
    if i == k {
      assert clients[i := c][..k] == clients[..k];
    } else {
      assert clients[i := c][..k] == clients[..k][i := c];
      CountAfterUpdate(clients[..k], i, c, id);
    }
  }

  /** The counts of all live entries after one client moved. */
  lemma CountsAfterUpdate(clients: seq<Client>, i: nat, c: Client, live: map<Key, nat>)
    requires i < |clients|
    ensures forall k :: k in live ==>
      UserCount(clients[i := c], live[k]) ==
      UserCount(clients, live[k]) - (if Uses(clients[i], live[k]) then 1 else 0) + (if Uses(c, live[k]) then 1 else 0)
  {
    forall k | k in live {
      CountAfterUpdate(clients, i, c, live[k]);
    }
  }

  lemma {:induction false} CountPositive(clients: seq<Client>, id: nat)
    ensures UserCount(clients, id) > 0 <==> exists i :: 0 <= i < |clients| && Uses(clients[i], id)
  {
    if clients != [] {
      var k := |clients| - 1;
      CountPositive(clients[..k], id);
      if i :| 0 <= i < k && Uses(clients[..k][i], id) {
        assert Uses(clients[i], id);
      }
      if i :| 0 <= i < |clients| && Uses(clients[i], id) {
        assert i < k ==> Uses(clients[..k][i], id);
      }
    }
  }

  lemma NextConsistent(keys: seq<Key>, s: System, e: Event)
    requires Consistent(keys, s)
    ensures Consistent(keys, Next(keys, s, e))
  {
    if Enabled(keys, s, e) {
      match e
      case Enter(i) =>
        if keys[i] in s.registry.live {
          EnterUsedConsistent(keys, s, i);
        } else {
          EnterFreshConsistent(keys, s, i);
        }
      case Acquire(i) => AcquireConsistent(keys, s, i);
      case CancelWait(i) => LeaveConsistent(keys, s, i, false);
      case Exit(i) => LeaveConsistent(keys, s, i, true);
    }
  }

  lemma EnterUsedConsistent(keys: seq<Key>, s: System, i: nat)
    requires Consistent(keys, s) && i < |keys| && s.clients[i].Outside? && keys[i] in s.registry.live
    ensures Consistent(keys, System(Entered(s.registry, keys[i]),
      s.clients[i := Waiting(EntryFor(s.registry, keys[i]))]))
  {
    CountsAfterUpdate(s.clients, i, Waiting(EntryFor(s.registry, keys[i])), s.registry.live);
  }

  lemma EnterFreshConsistent(keys: seq<Key>, s: System, i: nat)
    requires Consistent(keys, s) && i < |keys| && s.clients[i].Outside? && keys[i] !in s.registry.live
    ensures Consistent(keys, System(Entered(s.registry, keys[i]),
      s.clients[i := Waiting(EntryFor(s.registry, keys[i]))]))
  {
    var r, n := s.registry, |s.registry.entries|;
    NobodyUsesNext(keys, s);
    FreshKeepsCounts(keys, s, i, r.live[keys[i] := n], r.entries + [Entry(1, None)], s.clients[i := Waiting(n)]);
  }

  lemma FreshKeepsCounts(keys: seq<Key>, s: System, i: nat, live: map<Key, nat>, entries: seq<Entry>,
                         clients: seq<Client>)
    requires Consistent(keys, s) && i < |keys| && s.clients[i].Outside? && keys[i] !in s.registry.live
    requires live == s.registry.live[keys[i] := |s.registry.entries|]
    requires entries == s.registry.entries + [Entry(1, None)]
    requires clients == s.clients[i := Waiting(|s.registry.entries|)] && UserCount(s.clients, |s.registry.entries|) == 0
    ensures Consistent(keys, System(Registry(live, entries), clients))
  {
    CountsAfterUpdate(s.clients, i, Waiting(|s.registry.entries|), live);
  }

  lemma AcquireConsistent(keys: seq<Key>, s: System, i: nat)
    requires Consistent(keys, s) && i < |keys| && s.clients[i].Waiting?
    requires s.registry.entries[s.clients[i].id].holder == None
    ensures Consistent(keys, System(Acquired(s.registry, s.clients[i].id, i), s.clients[i := Inside(s.clients[i].id)]))
  {
    CountsAfterUpdate(s.clients, i, Inside(s.clients[i].id), s.registry.live);
  }

  lemma LeaveConsistent(keys: seq<Key>, s: System, i: nat, acquired: bool)
    requires Consistent(keys, s) && i < |keys|
    requires if acquired then s.clients[i].Inside? else s.clients[i].Waiting?
    ensures Consistent(keys, System(Left(s.registry, keys[i], s.clients[i].id, acquired), s.clients[i := Outside]))
  {
    if s.registry.entries[s.clients[i].id].users == 1 {
      LastLeaves(keys, s, i, acquired);
    } else {
      OneOfManyLeaves(keys, s, i, acquired);
    }
  }

  lemma LastLeaves(keys: seq<Key>, s: System, i: nat, acquired: bool)
    requires Consistent(keys, s) && i < |keys| && !s.clients[i].Outside? && (acquired <==> s.clients[i].Inside?)
    requires s.registry.entries[s.clients[i].id].users == 1
    ensures Consistent(keys, System(Left(s.registry, keys[i], s.clients[i].id, acquired), s.clients[i := Outside]))
  {
    CountsAfterUpdate(s.clients, i, Outside, s.registry.live);
    OthersKeepEntry(keys, s, i);
  }

  lemma OneOfManyLeaves(keys: seq<Key>, s: System, i: nat, acquired: bool)
    requires Consistent(keys, s) && i < |keys| && !s.clients[i].Outside? && (acquired <==> s.clients[i].Inside?)
    requires s.registry.entries[s.clients[i].id].users > 1
    ensures Consistent(keys, System(Left(s.registry, keys[i], s.clients[i].id, acquired), s.clients[i := Outside]))
  {
    CountsAfterUpdate(s.clients, i, Outside, s.registry.live);
  }

  /** A fresh entry has no users yet. */
  lemma NobodyUsesNext(keys: seq<Key>, s: System)
    requires Consistent(keys, s)
    ensures UserCount(s.clients, |s.registry.entries|) == 0
  {
    CountPositive(s.clients, |s.registry.entries|);
  }

  /** The last user of an entry is the only one. */
  lemma OthersKeepEntry(keys: seq<Key>, s: System, i: nat)
    requires Consistent(keys, s) && i < |keys| && !s.clients[i].Outside?
    ensures s.registry.entries[s.clients[i].id].users == 1 ==>
      forall j :: 0 <= j < |keys| && j != i ==> !Uses(s.clients[j], s.clients[i].id)
  {
    var id := s.clients[i].id;
    CountAfterUpdate(s.clients, i, Outside, id);
    CountPositive(s.clients[i := Outside], id);
    forall j | 0 <= j < |keys| && j != i && s.registry.entries[id].users == 1 ensures !Uses(s.clients[j], id) {
      assert s.clients[i := Outside][j] == s.clients[j];
    }
  }

  function Start(keys: seq<Key>): System {
    System(Registry(map[], []), seq(|keys|, i => Outside))
  }

  function Run(keys: seq<Key>, events: seq<Event>): System {
    if events == [] then Start(keys)
    else Next(keys, Run(keys, events[..|events| - 1]), events[|events| - 1])
  }

  lemma {:induction false} RunConsistent(keys: seq<Key>, events: seq<Event>)
    ensures Consistent(keys, Run(keys, events))
  {
    if events != [] {
      RunConsistent(keys, events[..|events| - 1]);
      NextConsistent(keys, Run(keys, events[..|events| - 1]), events[|events| - 1]);
    }
  }

  /** Mutual exclusion per key, in every interleaving and with any cancelled waits. */
  lemma MutualExclusion(keys: seq<Key>, events: seq<Event>, i: nat, j: nat)
    requires i < |keys| && j < |keys| && keys[i] == keys[j]
    requires |Run(keys, events).clients| == |keys|
    requires Run(keys, events).clients[i].Inside? && Run(keys, events).clients[j].Inside?
    ensures i == j
  {
    RunConsistent(keys, events);
  }

  /** The registry keeps an entry for exactly the keys somebody is using; so none is left at the end. */
  lemma EntriesAreKeysInUse(keys: seq<Key>, events: seq<Event>, k: Key)
    ensures var s := Run(keys, events);
      k in s.registry.live <==> exists i :: 0 <= i < |keys| && i < |s.clients| && keys[i] == k && !s.clients[i].Outside?
  {
    var s := Run(keys, events);
    RunConsistent(keys, events);
    if k in s.registry.live {
      CountPositive(s.clients, s.registry.live[k]);
      var i :| 0 <= i < |keys| && Uses(s.clients[i], s.registry.live[k]);
      assert keys[i] == k;
    }
  }

  /** No deadlock: while somebody is inside `hold`, an event other than a cancellation can happen. */
  lemma SomebodyCanMove(keys: seq<Key>, s: System, i: nat)
    requires Consistent(keys, s) && i < |keys| && !s.clients[i].Outside?
    ensures exists e :: Enabled(keys, s, e) && (e.Acquire? || e.Exit?) && keys[e.caller] == keys[i]
  {
    if s.clients[i].Inside? {
      assert Enabled(keys, s, Exit(i));
    } else {
      var holder := s.registry.entries[s.clients[i].id].holder;
      if holder.None? {
        assert Enabled(keys, s, Acquire(i));
      } else {
        assert Enabled(keys, s, Exit(holder.value));
      }
    }
  }
}
