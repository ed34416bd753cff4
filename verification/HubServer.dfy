/**
 The hub and its clients (`src/websocket/hub.cpp`) on mutable state. Clients are kept in a
 map by a number that stands for their address; the steps of `HubModel` specify each method.
 */
module HubServer {
  import opened HubModel
  import opened HubEffects

  ghost predicate Reaches(s: System, s': System) {
    exists run :: CanRun(s, run) && Run(s, run) == s'
  }

  lemma Stays(s: System)
    ensures Reaches(s, s)
  {
    assert CanRun(s, []) && Run(s, []) == s;
  }

  lemma {:induction false} RunThen(s: System, run: seq<Action>, a: Action)
    requires CanRun(s, run) && Enabled(Run(s, run), a)
    ensures CanRun(s, run + [a]) && Run(s, run + [a]) == Next(Run(s, run), a)
    decreases |run|
  {
    var longer := run + [a];
    if run == [] {
      assert longer == [a] && longer[1..] == [];
    } else {
      assert longer[0] == run[0] && longer[1..] == run[1..] + [a];
      RunThen(Next(s, run[0]), run[1..], a);
    }
  }

  lemma ReachesThen(s: System, s': System, a: Action)
    requires Reaches(s, s') && Enabled(s', a)
    ensures Reaches(s, Next(s', a))
  {
    var run :| CanRun(s, run) && Run(s, run) == s';
    RunThen(s, run, a);
  }

  /** The message has been put to the first n clients of the snapshot; those without space are
      remembered. */
  ghost predicate AllPut(before: map<Id, Client>, after: map<Id, Client>, snapshot: seq<Id>, n: nat, msg: Text, failed: set<Id>)
    requires n <= |snapshot|
  {
    && after.Keys == before.Keys
    && (forall id :: id in before ==>
          after[id] == if id in snapshot[..n] then Offered(before[id], msg) else before[id])
    && (forall id :: id in failed <==> id in snapshot[..n] && id in before && !HasSpace(before[id]))
  }

  lemma PutOneMore(before: map<Id, Client>, now: map<Id, Client>, snapshot: seq<Id>, n: nat, msg: Text, failed: set<Id>)
    requires n < |snapshot| && AllPut(before, now, snapshot, n, msg, failed) && snapshot[n] in now
    requires snapshot[n] !in snapshot[..n]
    ensures AllPut(before, now[snapshot[n] := Offered(now[snapshot[n]], msg)], snapshot, n + 1, msg,
                   failed + if HasSpace(now[snapshot[n]]) then {} else {snapshot[n]})
  {
    assert snapshot[..n + 1] == snapshot[..n] + [snapshot[n]];
  }

  /** What a broadcast without interference does: every member with space has the message at the
      end of its queue, every member without is closed and out of the room, and nothing else. */
  ghost predicate Broadcasted(s: System, s': System, room: string, msg: Text) {
    && s'.clients.Keys == s.clients.Keys
    && (forall id :: id in s.clients ==> s'.clients[id] == AfterBroadcast(s, id, room, msg))
    && (forall r, id :: id in Members(s'.rooms, r) <==>
          id in Members(s.rooms, r) && (r == room ==> id in s.clients && HasSpace(s.clients[id])))
  }

  function AfterBroadcast(s: System, id: Id, room: string, msg: Text): Client
    requires id in s.clients
  {
    var c := s.clients[id];
    if id !in Members(s.rooms, room) then c
    else if HasSpace(c) then WithMessage(c, msg)
    else Client(c.room, true, [], c.accepted, c.taken)
  }

  lemma BroadcastEffect(s: System, sent: System, s': System, t: nat)
    requires RoomsOk(s) && t in sent.tasks && Enabled(sent, Action.Finish(t)) && s' == Next(sent, Action.Finish(t))
    requires sent.rooms == s.rooms
    requires var b := sent.tasks[t];
             && b.room in s.rooms && IsSnapshot(b.snapshot, s.rooms[b.room])
             && AllPut(s.clients, sent.clients, b.snapshot, |b.snapshot|, b.msg, b.failed)
    ensures Broadcasted(s, s', sent.tasks[t].room, sent.tasks[t].msg)
  {
    var b := sent.tasks[t];
    RefusersHadNoSpace(s, sent, b);
    assert b.snapshot[..|b.snapshot|] == b.snapshot;
  }

  lemma RefusersHadNoSpace(s: System, sent: System, b: Broadcast)
    requires RoomsOk(s) && b.room in s.rooms && IsSnapshot(b.snapshot, s.rooms[b.room])
    requires AllPut(s.clients, sent.clients, b.snapshot, |b.snapshot|, b.msg, b.failed)
    ensures forall id :: id in s.rooms[b.room] ==> id in s.clients && !s.clients[id].closed
    ensures forall id :: id in b.failed <==> id in s.rooms[b.room] && !HasSpace(s.clients[id])
  {
    assert b.snapshot[..|b.snapshot|] == b.snapshot;
    forall id | id in s.rooms[b.room] ensures id in s.clients && !s.clients[id].closed {
      assert MemberOk(s, b.room, id);
    }
  }

  class Hub {
    var rooms: map<string, set<Id>>
    var clients: map<Id, Client>
    ghost var tasks: map<nat, Broadcast>
    ghost var attempts: seq<Attempt>

    ghost function State(): System
      reads this
    {
      System(rooms, clients, tasks, attempts)
    }

    constructor ()
      ensures State() == EMPTY
    {
      rooms, clients, tasks, attempts := map[], map[], map[], [];
    }

    method TrySend(id: Id, msg: Text) returns (ok: bool)
      requires id in clients
      modifies this`clients
      ensures ok == Accepts(old(clients)[id])
      ensures clients == old(clients)[id := Sent(old(clients)[id], msg)]
    {
      var c := clients[id];
      if c.closed || |c.queue| >= MAX_QUEUE {
        assert clients == clients[id := c];
        return false;
      }
      clients := clients[id := c.(queue := c.queue + [msg], accepted := c.accepted + [msg])];
      return true;
    }

    method Close(id: Id)
      requires id in clients
      modifies this`clients
      ensures clients == old(clients)[id := ClosedClient(old(clients)[id])]
    {
      var c := clients[id];
      if !c.closed {
        clients := clients[id := c.(closed := true, queue := [])];
      } else {
        assert clients == clients[id := c];
      }
    }

    method AddClient(id: Id, room: string)
      requires id !in clients
      modifies this
      ensures State() == Next(old(State()), Action.Add(id, room))
    {
      clients := clients[id := Client(room, false, [], [], [])];
      if room !in rooms {
        rooms := rooms[room := {}];
      }
      rooms := rooms[room := rooms[room] + {id}];
    }

    method RemoveClient(id: Id)
      requires id in clients
      modifies this
      ensures State() == Next(old(State()), Action.Leave(id))
    {
      var room := clients[id].room;
      if room in rooms {
        rooms := rooms[room := rooms[room] - {id}];
        Close(id);
        if rooms[room] == {} {
          rooms := rooms - {room};
        }
      }
    }

    method RoomSize(room: string) returns (size: nat)
      ensures size == |Members(rooms, room)|
    {
      size := if room in rooms then |rooms[room]| else 0;
    }

    /** A broadcast without interference; `task` names it in the record. The snapshot is in
        whatever order the hash table has. */
    method BroadcastToRoom(ghost task: nat, room: string, msg: Text, snapshot: seq<Id>)
      requires task !in tasks && TasksOk(State()) && RoomsOk(State())
      requires room in rooms ==> IsSnapshot(snapshot, rooms[room])
      modifies this
      ensures Reaches(old(State()), State())
      ensures room !in old(rooms) ==> State() == old(State())
      ensures room in old(rooms) ==>
                task in tasks && tasks[task].done && tasks[task].snapshot == snapshot && tasks[task].msg == msg
      ensures Broadcasted(old(State()), State(), room, msg)
    {
      ghost var s := State();
      Stays(s);
      if room !in rooms {
        return;
      }
      ReachesThen(s, s, Start(task, room, msg, snapshot));
      tasks := tasks[task := Broadcast(room, msg, snapshot, 0, {}, false)];
      StepKeepsTasks(s, Start(task, room, msg, snapshot));
      var failed := SendAll(task, room, msg, snapshot, s);
      ghost var sent := State();
      ReachesThen(s, sent, Action.Finish(task));
      CleanUp(task, room, failed);
      BroadcastEffect(s, sent, State(), task);
    }

    method SendAll(ghost task: nat, room: string, msg: Text, snapshot: seq<Id>, ghost s: System) returns (failed: set<Id>)
      requires task in tasks && tasks[task] == Broadcast(room, msg, snapshot, 0, {}, false)
      requires Reaches(s, State()) && TasksOk(State())
      modifies this
      ensures Reaches(s, State()) && TasksOk(State())
      ensures task in tasks && tasks[task] == Broadcast(room, msg, snapshot, |snapshot|, failed, false)
      ensures rooms == old(rooms) && AllPut(old(clients), clients, snapshot, |snapshot|, msg, failed)
    {
      failed := {};
      for i := 0 to |snapshot|
        invariant Reaches(s, State()) && TasksOk(State())
        invariant task in tasks && tasks[task] == Broadcast(room, msg, snapshot, i, failed, false)
        invariant rooms == old(rooms) && AllPut(old(clients), clients, snapshot, i, msg, failed)
      {
        ghost var now := State();
        assert TaskOk(now, now.tasks[task]);
        ReachesThen(s, now, SendNext(task));
        SendKeepsTasks(now, task);
        SendEffect(now, task);
        PutOneMore(old(clients), now.clients, snapshot, i, msg, failed);
        failed := SendOne(task, room, msg, snapshot, i, failed);
      }
    }

    method SendOne(ghost task: nat, ghost room: string, msg: Text, snapshot: seq<Id>, i: nat, before: set<Id>)
      returns (failed: set<Id>)
      requires i < |snapshot| && snapshot[i] in clients
      requires task in tasks && tasks[task] == Broadcast(room, msg, snapshot, i, before, false)
      modifies this
      ensures State() == Next(old(State()), SendNext(task))
      ensures tasks[task] == Broadcast(room, msg, snapshot, i + 1, failed, false)
    {
      failed := before;
      var ok := TrySend(snapshot[i], msg);
      if !ok {
        failed := failed + {snapshot[i]};
      }
      tasks := tasks[task := Broadcast(room, msg, snapshot, i + 1, failed, false)];
      attempts := attempts + [Attempt(task, snapshot[i])];
    }

    method CleanUp(ghost task: nat, room: string, failed: set<Id>)
      requires Enabled(State(), Action.Finish(task)) && tasks[task].failed == failed && tasks[task].room == room
      requires failed <= clients.Keys
      modifies this
      ensures State() == Next(old(State()), Action.Finish(task))
    {
      tasks := tasks[task := tasks[task].(done := true)];
      if failed != {} && room in rooms {
        EraseAll(room, failed);
      }
    }

    /** Erases the clients from the room and closes them, one after the other. */
    method EraseAll(room: string, failed: set<Id>)
      requires room in rooms && failed <= clients.Keys
      modifies this`rooms, this`clients
      ensures rooms == WithMembers(old(rooms), room, old(rooms)[room] - failed)
      ensures clients == CloseAll(old(clients), failed)
    {
      var todo, members := failed, rooms[room];
      ghost var closed: set<Id> := {};
      CloseNone(clients);
      while todo != {}
        invariant closed + todo == failed
        invariant clients.Keys == old(clients).Keys && clients == CloseAll(old(clients), closed)
        invariant members == old(rooms)[room] - closed && rooms == old(rooms)
        decreases |todo|
      {
        var id :| id in todo;
        members := members - {id};
        Close(id);
        CloseOneMore(old(clients), closed, id);
        todo, closed := todo - {id}, closed + {id};
      }
      assert closed == failed;
      rooms := rooms[room := members];
      if members == {} {
        rooms := rooms - {room};
      }
    }
  }

  lemma CloseNone(clients: map<Id, Client>)
    ensures CloseAll(clients, {}) == clients
  {
  }

  lemma CloseOneMore(clients: map<Id, Client>, ids: set<Id>, id: Id)
    requires id in clients
    ensures id in CloseAll(clients, ids)
    ensures CloseAll(clients, ids)[id := ClosedClient(CloseAll(clients, ids)[id])] == CloseAll(clients, ids + {id})
  {
  }

  lemma SendKeepsTasks(s: System, t: nat)
    requires TasksOk(s) && Enabled(s, SendNext(t))
    ensures TasksOk(Next(s, SendNext(t)))
  {
    var s' := Next(s, SendNext(t));
    forall u | u in s'.tasks ensures TaskOk(s', s'.tasks[u]) {
      TaskStays(s, SendNext(t), s.tasks[u]);
    }
  }
}
