/**
 * The process-local registry of open SSE connections in
 * functions/api/slide.js: a table from class id to the set of stream
 * controllers of that class, mutated in place by add, remove and
 * broadcast; and the per-connection timers (heartbeat, watchdog) and
 * cleanup that remove a connection again.
 *
 * Each mutating method is specified by a function on the table
 * (`Added`, `Removed`, `Pruned`); the lemmas about the table are stated on
 * those functions.
 */
module SlideRegistry {
  import opened Js
  import opened SlideStore
  import opened Sse

  /** A stream controller; two handles are the same connection iff they are equal. */
  datatype Handle = Handle(id: nat)

  type Clients = map<string, set<Handle>>

  /** The handles registered under `classId`; none when the class has no entry. */
  function Members(m: Clients, classId: string): set<Handle>
  {
    if classId in m then m[classId] else {}
  }

  /** The table after `addClient(classId, h)`. */
  function Added(m: Clients, classId: string, h: Handle): (r: Clients)
    ensures r.Keys == m.Keys + {classId}
    ensures Members(r, classId) == Members(m, classId) + {h}
    ensures forall c :: c in m && c != classId ==> r[c] == m[c]
  {
    var clients := if classId in m then m[classId] else {};
    m[classId := clients + {h}]
  }

  /**
   * The table after `removeClient(classId, controller)`; `None` stands for a
   * falsy controller. A set left empty is deleted together with its key.
   */
  function Removed(m: Clients, classId: string, h: Option<Handle>): (r: Clients)
    ensures classId == "" || h.None? ==> r == m
    ensures classId != "" && h.Some? ==> Members(r, classId) == Members(m, classId) - {h.value}
    ensures classId != "" && h.Some? && classId in m && m[classId] <= {h.value} ==> classId !in r
    ensures forall c :: c != classId ==> (c in r <==> c in m) && (c in r ==> r[c] == m[c])
  {
    if classId == "" || h.None? || classId !in m then m
    else
      var clients := m[classId] - {h.value};
      if |clients| == 0 then m - {classId} else m[classId := clients]
  }

  /**
   * The table after `broadcastToClients(classId, data)` when the handles
   * for which `enqueueOk` is false fail to take the message. The entry is
   * kept even when every handle failed.
   */
  function Pruned(m: Clients, classId: string, enqueueOk: Handle -> bool): (r: Clients)
    ensures r.Keys == m.Keys
    ensures classId in m ==> r[classId] == set h | h in m[classId] && enqueueOk(h)
    ensures forall c :: c in m && c != classId ==> r[c] == m[c]
  {
    if classId in m then m[classId := set h | h in m[classId] && enqueueOk(h)] else m
  }

  /**
   * No class keeps an empty set. `removeClient` deletes a class's entry once
   * its set is empty (functions/api/slide.js:49-51), so add and remove never
   * leave one behind.
   */
  ghost predicate NoEmptySets(m: Clients)
  {
    forall c :: c in m ==> m[c] != {}
  }

  /** Adding and removing keep the table free of empty sets. */
  lemma AddRemoveKeepNoEmptySets(m: Clients, classId: string, h: Handle, g: Option<Handle>)
    requires NoEmptySets(m)
    ensures NoEmptySets(Added(m, classId, h))
    ensures NoEmptySets(Removed(m, classId, g))
  {
    var r := Removed(m, classId, g);
    forall c | c in r ensures r[c] != {} {
      if c == classId && g.Some? && classId != "" && classId in m {
        assert |m[classId] - {g.value}| != 0;
      }
    }
  }

  /** Broadcasting does not: a class whose every connection failed keeps an empty entry. */
  lemma BroadcastCanLeaveEmptySet()
    ensures var m := map["roomA" := {Handle(1)}];
            NoEmptySets(m) && !NoEmptySets(Pruned(m, "roomA", h => false))
  {
    var m := map["roomA" := {Handle(1)}];
    var r := Pruned(m, "roomA", h => false);
    assert "roomA" in r && r["roomA"] == {};
  }

  /** Removing the same connection twice changes nothing the second time. */
  lemma RemovedIdempotent(m: Clients, classId: string, h: Option<Handle>)
    ensures Removed(Removed(m, classId, h), classId, h) == Removed(m, classId, h)
  {
    var r := Removed(m, classId, h);
    if classId != "" && h.Some? && classId in r {
      assert h.value !in r[classId];
      assert r[classId] - {h.value} == r[classId];
    }
  }

  /** Removing a connection that was just added restores the table it was added to. */
  lemma {:induction false} RemoveUndoesAdd(m: Clients, classId: string, h: Handle)
    requires NoEmptySets(m) && classId != "" && h !in Members(m, classId)
    ensures Removed(Added(m, classId, h), classId, Some(h)) == m
  {
    var a := Added(m, classId, h);
    var r := Removed(a, classId, Some(h));
    assert a[classId] - {h} == Members(m, classId);
    if classId in m {
      assert r == m[classId := m[classId]];
    } else {
      assert r == m;
    }
  }

  /** The connection count grows by one exactly when a new connection is added. */
  lemma CountAfterAdd(m: Clients, classId: string, h: Handle)
    ensures |Members(Added(m, classId, h), classId)| ==
            |Members(m, classId)| + (if h in Members(m, classId) then 0 else 1)
  {
    var s := Members(m, classId);
    if h in s {
      assert s + {h} == s;
    }
  }

  class Registry {
    /** `connectedClients`: class id to the set of its open stream controllers. */
    var clients: Clients

    constructor ()
      ensures clients == map[]
    {
      clients := map[];
    }

    /** `getStudentCount`: the number of open connections of a class. */
    function StudentCount(classId: string): (n: nat)
      reads this
      ensures n == |Members(clients, classId)|
      ensures classId !in clients ==> n == 0
    {
      if classId in clients then |clients[classId]| else 0
    }

    /** `addClient`: register `h` under `classId`, creating the set if needed. */
    method AddClient(classId: string, h: Handle)
      modifies this
      ensures clients == Added(old(clients), classId, h)
    {
      if classId !in clients {
        clients := clients[classId := {}];
      }
      clients := clients[classId := clients[classId] + {h}];
    }

    /** `removeClient`: unregister `h`; a falsy class id or controller is ignored. */
    method RemoveClient(classId: string, h: Option<Handle>)
      modifies this
      ensures clients == Removed(old(clients), classId, h)
    {
      if classId == "" || h.None? {
        return;
      }
      if classId in clients {
        var remaining := clients[classId] - {h.value};
        clients := clients[classId := remaining];
        if |remaining| == 0 {
          clients := clients - {classId};
        }
      }
    }

    /**
     * `broadcastToClients`: enqueue the frame for `state` on every
     * connection of `classId`; a connection whose enqueue fails is deleted
     * from the set while the others still receive the frame.
     */
    method Broadcast(classId: string, state: SlideState, enqueueOk: Handle -> bool)
      returns (message: string, delivered: set<Handle>)
      modifies this
      ensures clients == Pruned(old(clients), classId, enqueueOk)
      ensures delivered == set h | h in Members(old(clients), classId) && enqueueOk(h)
      ensures message == Encode(Data(state))
    {
      message := Encode(Data(state));
      delivered := {};
      if classId in clients {
        ghost var start := clients[classId];
        var pending := clients[classId];
        while pending != {}
          invariant pending <= start
          invariant classId in clients
          invariant clients == old(clients)[classId := clients[classId]]
          invariant delivered == set h | h in start - pending && enqueueOk(h)
          invariant clients[classId] == delivered + pending
          decreases pending
        {
          var h :| h in pending;
          if enqueueOk(h) {
            delivered := delivered + {h};
          } else {
            clients := clients[classId := clients[classId] - {h}];
          }
          pending := pending - {h};
        }
        assert start - pending == start;
        assert clients[classId] == set h | h in start && enqueueOk(h);
      }
    }
  }

  // -----------------------------------------------------------------------
  // One SSE connection: the closure state of `start(controller)`

  const HeartbeatIntervalMs: int := 30000
  const WatchdogIntervalMs: int := 90000
  const HeartbeatTimeoutMs: int := 90000

  /** The watchdog's test: strictly more than 90 s since the last heartbeat. */
  predicate TimedOut(now: int, lastHeartbeat: int)
    ensures TimedOut(now, lastHeartbeat) ==> now - lastHeartbeat > 3 * HeartbeatIntervalMs
  {
    now - lastHeartbeat > HeartbeatTimeoutMs
  }

  lemma TimeoutBoundary(last: int)
    ensures !TimedOut(last + 90000, last) && TimedOut(last + 90001, last)
  {
  }

  /**
   * The effect of the stream's `cancel` hook as written: the argument the
   * stream passes to `cancel` is the cancellation reason, not the
   * controller, so `removeClient(classId, reason)` never deletes the
   * connection. A truthy reason only drops an already empty entry.
   */
  function CancelAsWritten(m: Clients, classId: string, reason: JsValue): (r: Clients)
    ensures forall c :: c in r ==> c in m && r[c] == m[c]
  {
    if classId == "" || !Truthy(reason) || classId !in m then m
    else if |m[classId]| == 0 then m - {classId}
    else m
  }

  /** After the cancel hook as written, the cancelled connection is still registered. */
  lemma CancelAsWrittenKeepsConnection(m: Clients, classId: string, reason: JsValue, h: Handle)
    requires h in Members(m, classId)
    ensures h in Members(CancelAsWritten(m, classId, reason), classId)
  {
  }

  /** Removing a connection by its own handle always unregisters it. */
  lemma RemoveUnregisters(m: Clients, classId: string, h: Handle)
    requires classId != ""
    ensures h !in Members(Removed(m, classId, Some(h)), classId)
  {
  }

  class Connection {
    const classId: string
    const handle: Handle
    /** `lastHeartbeatTime` */
    var lastHeartbeat: int
    /** whether `heartbeatInterval` is still scheduled */
    var heartbeatRunning: bool
    /** whether `timeoutCheckInterval` is still scheduled */
    var watchdogRunning: bool
    /** whether `controller.close()` has been called */
    var closed: bool

    /** The closure state right after `start(controller)` has registered the connection. */
    constructor (classId: string, handle: Handle, now: int)
      ensures this.classId == classId && this.handle == handle
      ensures lastHeartbeat == now && heartbeatRunning && watchdogRunning && !closed
    {
      this.classId := classId;
      this.handle := handle;
      lastHeartbeat := now;
      heartbeatRunning := true;
      watchdogRunning := true;
      closed := false;
    }

    /**
     * One firing of the 30 s heartbeat timer. A successful enqueue of the
     * comment frame records the time; a failed one stops this timer and
     * unregisters the connection (it neither closes it nor stops the
     * watchdog).
     */
    method HeartbeatTick(reg: Registry, now: int, enqueueOk: bool) returns (sent: Option<Frame>)
      modifies this, reg
      ensures !old(heartbeatRunning) ==>
                sent.None? && reg.clients == old(reg.clients) &&
                lastHeartbeat == old(lastHeartbeat) && !heartbeatRunning
      ensures old(heartbeatRunning) && enqueueOk ==>
                sent == Some(Heartbeat) && lastHeartbeat == now && heartbeatRunning &&
                reg.clients == old(reg.clients)
      ensures old(heartbeatRunning) && !enqueueOk ==>
                sent.None? && lastHeartbeat == old(lastHeartbeat) && !heartbeatRunning &&
                reg.clients == Removed(old(reg.clients), classId, Some(handle))
      ensures watchdogRunning == old(watchdogRunning) && closed == old(closed)
    {
      sent := None;
      if !heartbeatRunning {
        return;
      }
      if enqueueOk {
        sent := Some(Heartbeat);
        lastHeartbeat := now;
      } else {
        heartbeatRunning := false;
        reg.RemoveClient(classId, Some(handle));
      }
    }

    /**
     * One firing of the 90 s watchdog timer: when the last heartbeat is more
     * than 90 s old, both timers stop, the connection is unregistered and
     * closed; otherwise nothing changes.
     */
    method WatchdogTick(reg: Registry, now: int) returns (timedOut: bool)
      modifies this, reg
      ensures timedOut <==> old(watchdogRunning) && TimedOut(now, lastHeartbeat)
      ensures lastHeartbeat == old(lastHeartbeat)
      ensures timedOut ==>
                !heartbeatRunning && !watchdogRunning && closed &&
                reg.clients == Removed(old(reg.clients), classId, Some(handle))
      ensures !timedOut ==>
                heartbeatRunning == old(heartbeatRunning) && watchdogRunning == old(watchdogRunning) &&
                closed == old(closed) && reg.clients == old(reg.clients)
    {
      timedOut := watchdogRunning && TimedOut(now, lastHeartbeat);
      if timedOut {
        heartbeatRunning := false;
        watchdogRunning := false;
        reg.RemoveClient(classId, Some(handle));
        closed := true;
      }
    }

    /**
     * `cleanup`, run on the request's abort signal: stop both timers,
     * unregister and close. Running it again leaves the registry as it is
     * (see `RemovedIdempotent`).
     */
    method Cleanup(reg: Registry)
      modifies this, reg
      ensures !heartbeatRunning && !watchdogRunning && closed
      ensures lastHeartbeat == old(lastHeartbeat)
      ensures reg.clients == Removed(old(reg.clients), classId, Some(handle))
    {
      heartbeatRunning := false;
      watchdogRunning := false;
      reg.RemoveClient(classId, Some(handle));
      closed := true;
    }

    /**
     * The stream's `cancel` hook as evidently intended: unregister this
     * connection's own controller.
     */
    method Cancel(reg: Registry)
      modifies reg
      ensures reg.clients == Removed(old(reg.clients), classId, Some(handle))
      ensures classId != "" ==> handle !in Members(reg.clients, classId)
    {
      reg.RemoveClient(classId, Some(handle));
    }
  }
}
