/** The cleaner's sweep over the client map: it disconnects the clients that stopped running
    and, in aggressive mode, erases them while it iterates.

    Here a client is what other threads can see of it between steps.  `Disconnect` joins its
    two threads, and the joins have the effect that module `Teardown` proves they have:
    `DisconnectAgrees` says that the two models of `disconnect` do the same. */
module Cleaning {
  import T = Teardown

  type Socket = T.Option<T.Socket>

  /** What is visible of a client. */
  datatype View = View(
    started: bool,
    disconnected: bool,
    readSocket: Socket,
    writeSocket: Socket,
    received: seq<T.Packet>,
    sended: seq<T.Packet>,
    main: seq<T.Packet>,
    sync: seq<T.Packet>)

  predicate Runs(v: View) {
    v.started && v.readSocket.Some? && v.writeSocket.Some?
  }

  /** Between calls of `createThreads` and `disconnect`. */
  predicate Settled(v: View) {
    v.started <==> !v.disconnected
  }

  function AfterDisconnect(v: View): View {
    if v.started && !v.disconnected then View(false, true, T.None, T.None, [], [], [], []) else v
  }

  /** A client whose threads ended, or not, on their own. */
  function AfterLosses(v: View, readLost: bool, writeLost: bool): View {
    v.(readSocket := if readLost then T.None else v.readSocket,
       writeSocket := if writeLost then T.None else v.writeSocket)
  }

  // ----- The same client, step by step -----

  function Seen(s: T.State): View {
    View(s.started, s.disconnected, s.readSocket, s.writeSocket, s.received, s.sended, s.main, s.sync)
  }

  /** Whenever `disconnect` has returned true in a run of the threads, and nothing was queued
      after its drain, the client looks as `AfterDisconnect` says, whatever it looked like when
      `disconnect` was called and whatever the threads did meanwhile. */
  lemma DisconnectAgrees(read: T.Socket, write: T.Socket, main: seq<T.Packet>, sync: seq<T.Packet>,
                         before: seq<T.Action>, during: seq<T.Action>)
    requires T.AllEnabled(T.Created(read, write, main, sync), before)
    requires var s := T.After(T.Created(read, write, main, sync), before);
             && s.started && s.disconnect.StopThreads? && T.AllEnabled(s, during)
             && T.After(s, during).disconnect == T.Returned(true) && T.After(s, during).main == []
    ensures var s := T.After(T.Created(read, write, main, sync), before);
            Seen(T.After(s, during)) == AfterDisconnect(Seen(s))
  {
    T.CreatedRunsKeepInv(read, write, main, sync, before);
    var s := T.After(T.Created(read, write, main, sync), before);
    T.RunKeepsInv(s, during, read, write);
  }

  /** And a thread that ends by itself resets its own socket and nothing else that is visible. */
  lemma LossesAgree(s: T.State, read: T.Socket, write: T.Socket)
    requires T.Inv(s, read, write)
    ensures s.receiver.ReceiverReset? ==>
              Seen(T.Next(s, T.ReceiverStep(T.TimedOut))) == AfterLosses(Seen(s), true, false)
    ensures s.sender.SenderReset? ==>
              Seen(T.Next(s, T.SenderStep(T.Send(false)))) == AfterLosses(Seen(s), false, true)
  {
  }

  // ----- The sweep, on one client -----

  /** The clients a sweep disconnects and counts. */
  predicate Inactive(v: View) {
    !Runs(v) && v.started && !v.disconnected
  }

  function Swept(v: View): View {
    if Inactive(v) then AfterDisconnect(v) else v
  }

  /** For a settled client that is: neither running nor disconnected.  A sweep leaves it settled,
      and leaves nothing for the next sweep to do. */
  lemma SweepSettles(v: View)
    requires Settled(v)
    ensures Inactive(v) <==> !Runs(v) && !v.disconnected
    ensures Settled(Swept(v)) && !Inactive(Swept(v))
    ensures Runs(v) || v.disconnected <==> Swept(v) == v
  {
  }

  /** In every run of the threads, whenever no teardown is under way, the client is settled, and
      the sweep picks it exactly when `isRunning()` is false and nobody has disconnected it. */
  lemma SweepFindsTheLost(read: T.Socket, write: T.Socket, main: seq<T.Packet>, sync: seq<T.Packet>, run: seq<T.Action>)
    requires T.AllEnabled(T.Created(read, write, main, sync), run)
    ensures var s := T.After(T.Created(read, write, main, sync), run);
            !T.TearingDown(s) ==>
              Settled(Seen(s)) && (Inactive(Seen(s)) <==> !T.IsRunning(s) && !s.disconnected)
  {
    T.CreatedRunsKeepInv(read, write, main, sync, run);
  }

  class ConnectedClient {
    var started: bool
    var disconnected: bool
    var readSocket: Socket
    var writeSocket: Socket
    var receivedPackets: seq<T.Packet>
    var sendedPackets: seq<T.Packet>
    var mainPackets: seq<T.Packet>
    var syncPackets: seq<T.Packet>

    ghost function Visible(): View
      reads this
    {
      View(started, disconnected, readSocket, writeSocket, receivedPackets, sendedPackets, mainPackets, syncPackets)
    }

    constructor ()
      ensures Visible() == View(false, true, T.None, T.None, [], [], [], []) && Settled(Visible())
    {
      started, disconnected := false, true;
      readSocket, writeSocket := T.None, T.None;
      receivedPackets, sendedPackets, mainPackets, syncPackets := [], [], [], [];
    }

    method CreateThreads()
      modifies this
      ensures Visible() == old(Visible()).(started := true, disconnected := false) && Settled(Visible())
    {
      started := true;
      disconnected := false;
    }

    /** Threads may end by themselves; each resets its own socket. */
    method LoseThreads(readLost: bool, writeLost: bool)
      modifies this
      ensures Visible() == AfterLosses(old(Visible()), readLost, writeLost)
    {
      if readLost {
        readSocket := T.None;
      }
      if writeLost {
        writeSocket := T.None;
      }
    }

    method Disconnect() returns (done: bool)
      modifies this
      ensures done <==> old(started) && !old(disconnected)
      ensures Visible() == AfterDisconnect(old(Visible()))
      ensures done ==> Visible() == View(false, true, T.None, T.None, [], [], [], [])
      ensures !done ==> Visible() == old(Visible())
    {
      if !started || disconnected {
        return false;
      }
      started := false;

      LoseThreads(true, true); // receiver.join(); sender.join()

      receivedPackets := [];
      sendedPackets := [];
      syncPackets := [];
      while mainPackets != []
        invariant Visible() == View(false, false, T.None, T.None, [], [], mainPackets, [])
        decreases |mainPackets|
      {
        mainPackets := mainPackets[1..];
      }

      disconnected := true;
      return true;
    }
  }

  datatype CleanerMode = OnlyDisconnect | AgressiveMode

  type Pool = map<nat, ConnectedClient>

  /** No two entries share a client. */
  ghost predicate Unshared(pool: Pool) {
    forall i, j :: i in pool && j in pool && i != j ==> pool[i] != pool[j]
  }

  /** An iterator of the ordered map: at the least key from `from` on, or at the end. */
  predicate At(it: T.Option<nat>, keys: set<nat>, from: nat) {
    && (it.Some? ==> it.value in keys && from <= it.value)
    && (forall k :: k in keys && from <= k ==> it.Some? && it.value <= k)
  }

  method KeyFrom(keys: set<nat>, from: nat) returns (it: T.Option<nat>)
    ensures At(it, keys, from)
  {
    it := T.None;
    var rest := keys;
    while rest != {}
      invariant rest <= keys && At(it, keys - rest, from)
      decreases |rest|
    {
      var k :| k in rest;
      assert keys - (rest - {k}) == (keys - rest) + {k};
      rest := rest - {k};
      if from <= k && (it.None? || k < it.value) {
        it := T.Some(k);
      }
    }
    assert keys - rest == keys;
  }

  /** `part` is the part of `keys` below the bound. */
  ghost predicate IsBelow(part: set<nat>, keys: set<nat>, bound: nat) {
    forall k :: k in part <==> k in keys && k < bound
  }

  /** The map during the sweep: an entry is gone exactly when its client was erased. */
  ghost predicate Kept(mode: CleanerMode, now: Pool, pool: Pool, gone: set<nat>) {
    && (forall k :: k in now <==> k in pool && (mode.AgressiveMode? ==> k !in gone))
    && (forall k :: k in now ==> now[k] == pool[k])
  }

  /** Erasing the entry of a victim, or not, at the key the iterator is at. */
  lemma KeptWithOneMore(mode: CleanerMode, now: Pool, pool: Pool, gone: set<nat>, victims: set<nat>, from: nat, key: nat)
    requires Kept(mode, now, pool, gone) && IsBelow(gone, victims, from)
    requires victims <= pool.Keys && At(T.Some(key), pool.Keys, from)
    ensures key !in gone
    ensures key in victims ==>
              && Kept(mode, if mode.AgressiveMode? then now - {key} else now, pool, gone + {key})
              && IsBelow(gone + {key}, victims, key + 1)
    ensures key !in victims ==> IsBelow(gone, victims, key + 1)
  {
  }

  lemma KeptAtTheEnd(mode: CleanerMode, now: Pool, pool: Pool, gone: set<nat>)
    requires Kept(mode, now, pool, gone)
    ensures now == if mode.AgressiveMode? then pool - gone else pool
  {
  }

  lemma {:induction false} AboveAll(keys: set<nat>) returns (top: nat)
    ensures forall k :: k in keys ==> k < top
    decreases |keys|
  {
    if keys == {} {
      top := 0;
    } else {
      var k :| k in keys;
      var rest := AboveAll(keys - {k});
      assert forall j :: j in keys ==> j == k || j in keys - {k};
      top := if rest < k + 1 then k + 1 else rest;
    }
  }

  /** The clients below the bound are swept; the others are as they will be found. */
  ghost predicate SweptBelow(pool: Pool, found: map<nat, View>, bound: nat, readLost: set<nat>, writeLost: set<nat>)
    requires found.Keys == pool.Keys
    reads pool.Values
  {
    && (forall k :: k in pool && k < bound ==> pool[k].Visible() == Swept(found[k]))
    && (forall k :: k in pool && bound <= k ==>
          AfterLosses(pool[k].Visible(), k in readLost, k in writeLost) == found[k])
  }

  /** The body of the sweep, for one client. */
  method Visit(client: ConnectedClient, readLost: bool, writeLost: bool) returns (done: bool)
    modifies client
    ensures done <==> Inactive(AfterLosses(old(client.Visible()), readLost, writeLost))
    ensures client.Visible() == Swept(AfterLosses(old(client.Visible()), readLost, writeLost))
  {
    client.LoseThreads(readLost, writeLost);
    var running := client.started && client.readSocket.Some? && client.writeSocket.Some?;
    if !running && !client.disconnected {
      done := client.Disconnect();
    } else {
      done := false;
    }
  }

  method VisitNext(ghost pool: Pool, ghost found: map<nat, View>, ghost from: nat, key: nat, client: ConnectedClient,
                   readLost: set<nat>, writeLost: set<nat>)
      returns (done: bool)
    requires Unshared(pool) && found.Keys == pool.Keys && At(T.Some(key), pool.Keys, from) && client == pool[key]
    requires SweptBelow(pool, found, from, readLost, writeLost)
    modifies client
    ensures done <==> Inactive(found[key])
    ensures SweptBelow(pool, found, key + 1, readLost, writeLost)
  {
    done := Visit(client, key in readLost, key in writeLost);
    assert forall k :: k in pool && k != key ==> pool[k].Visible() == old(pool[k].Visible());
  }

  class Server {
    var clientPool: Pool

    /** What the sweep finds when it visits a client: threads of the clients in the two sets
        have ended by then. */
    ghost function Found(k: nat, readLost: set<nat>, writeLost: set<nat>): View
      requires k in clientPool
      reads this, clientPool.Values
    {
      AfterLosses(clientPool[k].Visible(), k in readLost, k in writeLost)
    }

    /** The keys of the clients that are inactive when visited. */
    ghost function Victims(readLost: set<nat>, writeLost: set<nat>): set<nat>
      reads this, clientPool.Values
    {
      set k | k in clientPool && Inactive(Found(k, readLost, writeLost))
    }

    /** `Cleaner::cleanInactiveClients`.  Every client is visited once, also when entries are
        erased on the way: exactly the inactive ones are disconnected and counted, and in
        aggressive mode exactly their entries go. */
    method CleanInactiveClients(mode: CleanerMode, readLost: set<nat>, writeLost: set<nat>)
        returns (cleaned: nat)
      requires Unshared(clientPool)
      modifies this, clientPool.Values
      ensures forall k :: k in old(Victims(readLost, writeLost)) <==>
                k in old(clientPool) && Inactive(old(Found(k, readLost, writeLost)))
      ensures cleaned == |old(Victims(readLost, writeLost))|
      ensures clientPool == if mode.AgressiveMode? then old(clientPool) - old(Victims(readLost, writeLost))
                            else old(clientPool)
      ensures forall k :: k in old(clientPool) ==>
                old(clientPool)[k].Visible() == Swept(old(Found(k, readLost, writeLost)))
    {
      ghost var found := map k | k in clientPool :: Found(k, readLost, writeLost);
      cleaned := Sweep(mode, readLost, writeLost, found, Victims(readLost, writeLost));
    }

    /** How far a sweep got: the entries below the bound are dealt with. */
    ghost predicate Reached(mode: CleanerMode, pool: Pool, found: map<nat, View>, victims: set<nat>, bound: nat,
                            gone: set<nat>, readLost: set<nat>, writeLost: set<nat>)
      reads this, pool.Values
    {
      && Unshared(pool) && found.Keys == pool.Keys
      && Kept(mode, clientPool, pool, gone)
      && victims <= pool.Keys && (forall k :: k in pool ==> (k in victims <==> Inactive(found[k])))
      && IsBelow(gone, victims, bound)
      && SweptBelow(pool, found, bound, readLost, writeLost)
    }

    /** One pass of the loop, up to moving the iterator. */
    method CleanEntry(mode: CleanerMode, ghost pool: Pool, ghost found: map<nat, View>, ghost victims: set<nat>,
                      ghost from: nat, ghost gone: set<nat>, key: nat, readLost: set<nat>, writeLost: set<nat>)
        returns (done: bool, ghost goneNow: set<nat>)
      requires Reached(mode, pool, found, victims, from, gone, readLost, writeLost)
      requires At(T.Some(key), pool.Keys, from) && key in clientPool
      modifies this, pool.Values
      ensures Reached(mode, pool, found, victims, key + 1, goneNow, readLost, writeLost)
      ensures |goneNow| == |gone| + if done then 1 else 0
    {
      KeptWithOneMore(mode, clientPool, pool, gone, victims, from, key);
      ghost var now := clientPool;
      done := VisitNext(pool, found, from, key, clientPool[key], readLost, writeLost);
      assert clientPool == now;
      goneNow := gone;
      if done {
        goneNow := gone + {key};
        if mode == AgressiveMode {
          Erase(pool, found, key, readLost, writeLost);
        }
      }
    }

    /** `clientPool.erase(client_it)`. */
    method Erase(ghost pool: Pool, ghost found: map<nat, View>, key: nat, ghost readLost: set<nat>, ghost writeLost: set<nat>)
      requires found.Keys == pool.Keys && SweptBelow(pool, found, key + 1, readLost, writeLost)
      modifies this`clientPool
      ensures clientPool == old(clientPool) - {key}
      ensures SweptBelow(pool, found, key + 1, readLost, writeLost)
    {
      clientPool := clientPool - {key};
    }

    /** The iterator, moved in the remaining map, is one of the whole map: nothing ahead of it
        is erased. */
    method NextEntry(ghost mode: CleanerMode, ghost pool: Pool, ghost found: map<nat, View>, ghost victims: set<nat>,
                     from: nat, ghost gone: set<nat>, ghost readLost: set<nat>, ghost writeLost: set<nat>)
        returns (it: T.Option<nat>)
      requires Reached(mode, pool, found, victims, from, gone, readLost, writeLost)
      ensures At(it, pool.Keys, from) && (it.Some? ==> it.value in clientPool)
    {
      it := KeyFrom(clientPool.Keys, from);
      forall k | k in pool && from <= k
        ensures it.Some? && it.value <= k
      {
        assert k in clientPool;
      }
    }

    /** What is reached when the iterator is at the end. */
    lemma SweepEnds(mode: CleanerMode, pool: Pool, found: map<nat, View>, victims: set<nat>, from: nat,
                    gone: set<nat>, readLost: set<nat>, writeLost: set<nat>)
      requires Reached(mode, pool, found, victims, from, gone, readLost, writeLost)
      requires At(T.None, pool.Keys, from)
      ensures gone == victims
      ensures clientPool == if mode.AgressiveMode? then pool - victims else pool
      ensures forall k :: k in pool ==> pool[k].Visible() == Swept(found[k])
    {
      assert forall k :: k in pool ==> k < from;
      assert gone == victims;
      KeptAtTheEnd(mode, clientPool, pool, gone);
    }

    /** One pass of the loop. */
    method CleanAndMove(mode: CleanerMode, ghost pool: Pool, ghost found: map<nat, View>, ghost victims: set<nat>,
                        ghost from: nat, ghost gone: set<nat>, key: nat, readLost: set<nat>, writeLost: set<nat>)
        returns (done: bool, it: T.Option<nat>, ghost goneNow: set<nat>)
      requires Reached(mode, pool, found, victims, from, gone, readLost, writeLost)
      requires At(T.Some(key), pool.Keys, from) && key in clientPool
      modifies this, pool.Values
      ensures Reached(mode, pool, found, victims, key + 1, goneNow, readLost, writeLost)
      ensures |goneNow| == |gone| + if done then 1 else 0
      ensures At(it, pool.Keys, key + 1) && (it.Some? ==> it.value in clientPool)
    {
      done, goneNow := CleanEntry(mode, pool, found, victims, from, gone, key, readLost, writeLost);
      it := NextEntry(mode, pool, found, victims, key + 1, goneNow, readLost, writeLost);
    }

    /** The loop of the sweep, given what it will find and whom it will disconnect. */
    method Sweep(mode: CleanerMode, readLost: set<nat>, writeLost: set<nat>,
                 ghost found: map<nat, View>, ghost victims: set<nat>)
        returns (cleaned: nat)
      requires Reached(mode, clientPool, found, victims, 0, {}, readLost, writeLost)
      modifies this, clientPool.Values
      ensures cleaned == |victims|
      ensures clientPool == if mode.AgressiveMode? then old(clientPool) - victims else old(clientPool)
      ensures forall k :: k in old(clientPool) ==> old(clientPool)[k].Visible() == Swept(found[k])
    {
      ghost var pool := clientPool;
      ghost var from: nat, gone: set<nat> := 0, {};
      ghost var top := AboveAll(pool.Keys);
      cleaned := 0;
      var it := NextEntry(mode, pool, found, victims, 0, gone, readLost, writeLost);
      while it.Some?
        invariant At(it, pool.Keys, from) && (it.Some? ==> it.value in clientPool)
        invariant Reached(mode, pool, found, victims, from, gone, readLost, writeLost)
        invariant cleaned == |gone| && from <= top
        decreases top - from
      {
        var key := it.value;
        var done;
        done, it, gone := CleanAndMove(mode, pool, found, victims, from, gone, key, readLost, writeLost);
        if done {
          cleaned := cleaned + 1;
        }
        from := key + 1;
      }
      SweepEnds(mode, pool, found, victims, from, gone, readLost, writeLost);
    }
  }
}
