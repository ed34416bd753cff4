/**
 Rooms and send queues of the hub (`src/websocket/hub.cpp`) as a state machine. Each region
 under a mutex is one step: adding and removing a client, taking the snapshot of a room,
 sending to one client of it, and the clean-up of the clients that could not be sent to.
 Any number of broadcasts run at the same time.
 */
module HubModel {

  type Id = nat
  type Text = (string, bool)

  const MAX_QUEUE := 256

  /** `accepted` and `taken` are records: what was put in the queue and what was sent. */
  datatype Client = Client(room: string, closed: bool, queue: seq<Text>, accepted: seq<Text>, taken: seq<Text>)

  /** A broadcast: the room and message, the snapshot, how much of it has been sent to, and
      the clients that refused. */
  datatype Broadcast = Broadcast(room: string, msg: Text, snapshot: seq<Id>, sent: nat, failed: set<Id>, done: bool)

  /** `attempts` records the sends of the broadcasts. */
  datatype Attempt = Attempt(task: nat, client: Id)

  datatype System = System(rooms: map<string, set<Id>>, clients: map<Id, Client>, tasks: map<nat, Broadcast>,
                           attempts: seq<Attempt>)

  const EMPTY := System(map[], map[], map[], [])

  datatype Action =
    | Add(id: Id, room: string)
    | Leave(id: Id)
    | Start(task: nat, room: string, msg: Text, snapshot: seq<Id>)
    | SendNext(task: nat)
    | Finish(task: nat)
    | Reply(id: Id, msg: Text)
    | Take(id: Id)

  // ---- Clients ----------------------------------------------------------------

  predicate Accepts(c: Client) {
    !c.closed && |c.queue| < MAX_QUEUE
  }

  function Sent(c: Client, msg: Text): Client {
    if Accepts(c) then c.(queue := c.queue + [msg], accepted := c.accepted + [msg]) else c
  }

  function ClosedClient(c: Client): Client {
    if c.closed then c else c.(closed := true, queue := [])
  }

  function TakenFrom(c: Client): Client
    requires c.queue != []
  {
    c.(queue := c.queue[1..], taken := c.taken + [c.queue[0]])
  }

  // ---- Rooms ------------------------------------------------------------------

  function Members(rooms: map<string, set<Id>>, room: string): set<Id> {
    if room in rooms then rooms[room] else {}
  }

  /** A room without members is erased. */
  function WithMembers(rooms: map<string, set<Id>>, room: string, members: set<Id>): map<string, set<Id>> {
    if members == {} then rooms - {room} else rooms[room := members]
  }

  function CloseAll(clients: map<Id, Client>, ids: set<Id>): map<Id, Client> {
    map id | id in clients :: if id in ids then ClosedClient(clients[id]) else clients[id]
  }

  // ---- Steps ------------------------------------------------------------------

  /** The snapshot lists the members, each once, in the order of the hash table. */
  predicate IsSnapshot(snapshot: seq<Id>, members: set<Id>) {
    && (forall id :: id in snapshot ==> id in members) && (forall id :: id in members ==> id in snapshot)
    && (forall i, j :: 0 <= i < j < |snapshot| ==> snapshot[i] != snapshot[j])
  }

  predicate Enabled(s: System, a: Action) {
    match a
    case Add(id, _) => id !in s.clients
    case Leave(id) => id in s.clients
    case Start(t, room, _, snapshot) => t !in s.tasks && room in s.rooms && IsSnapshot(snapshot, s.rooms[room])
    case SendNext(t) =>
      t in s.tasks && s.tasks[t].sent < |s.tasks[t].snapshot| && s.tasks[t].snapshot[s.tasks[t].sent] in s.clients
    case Finish(t) => t in s.tasks && !s.tasks[t].done && s.tasks[t].sent == |s.tasks[t].snapshot|
    case Reply(id, _) => id in s.clients
    case Take(id) => id in s.clients && s.clients[id].queue != []
  }

  function AfterSend(s: System, t: nat): System
    requires Enabled(s, SendNext(t))
  {
    var b := s.tasks[t];
    var id := b.snapshot[b.sent];
    var failed := if Accepts(s.clients[id]) then b.failed else b.failed + {id};
    s.(clients := s.clients[id := Sent(s.clients[id], b.msg)], tasks := s.tasks[t := b.(sent := b.sent + 1, failed := failed)],
       attempts := s.attempts + [Attempt(t, id)])
  }

  /** Does nothing if no send failed, or the room has gone. */
  function AfterFinish(s: System, t: nat): System
    requires Enabled(s, Finish(t))
  {
    var b := s.tasks[t];
    var s' := s.(tasks := s.tasks[t := b.(done := true)]);
    if b.failed == {} || b.room !in s.rooms then s'
    else s'.(rooms := WithMembers(s.rooms, b.room, s.rooms[b.room] - b.failed), clients := CloseAll(s.clients, b.failed))
  }

  function AfterLeave(s: System, id: Id): System
    requires id in s.clients
  {
    var room := s.clients[id].room;
    if room !in s.rooms then s
    else s.(rooms := WithMembers(s.rooms, room, s.rooms[room] - {id}), clients := s.clients[id := ClosedClient(s.clients[id])])
  }

  function Next(s: System, a: Action): System
    requires Enabled(s, a)
  {
    match a
    case Add(id, room) =>
      s.(rooms := s.rooms[room := Members(s.rooms, room) + {id}], clients := s.clients[id := Client(room, false, [], [], [])])
    case Leave(id) => AfterLeave(s, id)
    case Start(t, room, msg, snapshot) => s.(tasks := s.tasks[t := Broadcast(room, msg, snapshot, 0, {}, false)])
    case SendNext(t) => AfterSend(s, t)
    case Finish(t) => AfterFinish(s, t)
    case Reply(id, msg) => s.(clients := s.clients[id := Sent(s.clients[id], msg)])
    case Take(id) => s.(clients := s.clients[id := TakenFrom(s.clients[id])])
  }

  // ---- What every step keeps --------------------------------------------------

  predicate ClientOk(c: Client) {
    && |c.queue| <= MAX_QUEUE
    && (c.closed ==> c.queue == [])
    && c.taken <= c.accepted
    && (!c.closed ==> c.taken + c.queue == c.accepted)
  }

  ghost predicate ClientsOk(s: System) {
    forall id :: id in s.clients ==> ClientOk(s.clients[id])
  }

  predicate MemberOk(s: System, room: string, id: Id) {
    id in s.clients && s.clients[id].room == room && !s.clients[id].closed
  }

  /** Members are open clients of the room; rooms are not empty; open clients are members. */
  ghost predicate RoomsOk(s: System) {
    && (forall room :: room in s.rooms ==> s.rooms[room] != {})
    && (forall room, id :: room in s.rooms && id in s.rooms[room] ==> MemberOk(s, room, id))
    && (forall id :: id in s.clients && !s.clients[id].closed ==> id in Members(s.rooms, s.clients[id].room))
  }

  predicate TaskOk(s: System, b: Broadcast) {
    && b.sent <= |b.snapshot|
    && (forall i :: 0 <= i < |b.snapshot| ==> b.snapshot[i] in s.clients && s.clients[b.snapshot[i]].room == b.room)
    && (forall i, j :: 0 <= i < j < |b.snapshot| ==> b.snapshot[i] != b.snapshot[j])
    && (forall id :: id in b.failed ==> id in s.clients && s.clients[id].room == b.room)
  }

  ghost predicate TasksOk(s: System) {
    forall t :: t in s.tasks ==> TaskOk(s, s.tasks[t])
  }

  function Attempts(attempts: seq<Attempt>, t: nat, id: Id): nat {
    if attempts == [] then 0
    else (if attempts[|attempts| - 1] == Attempt(t, id) then 1 else 0) + Attempts(attempts[..|attempts| - 1], t, id)
  }

  /** Each client of a snapshot has been sent to once up to where the broadcast stands. */
  predicate AttemptsMatch(s: System, t: nat, id: Id) {
    Attempts(s.attempts, t, id)
    == if t in s.tasks && s.tasks[t].sent <= |s.tasks[t].snapshot| && id in s.tasks[t].snapshot[..s.tasks[t].sent] then 1 else 0
  }

  ghost predicate AttemptsOk(s: System) {
    forall t, id :: AttemptsMatch(s, t, id)
  }

  ghost predicate Inv(s: System) {
    ClientsOk(s) && RoomsOk(s) && TasksOk(s) && AttemptsOk(s)
  }

  lemma StepKeepsClients(s: System, a: Action)
    requires ClientsOk(s) && Enabled(s, a)
    ensures ClientsOk(Next(s, a))
  {
    match a
    case Take(id) =>
      var c := s.clients[id];
      assert ClientOk(c);
      assert c.taken + [c.queue[0]] + c.queue[1..] == c.taken + c.queue;
    case SendNext(t) =>
      SentOk(s.clients[s.tasks[t].snapshot[s.tasks[t].sent]], s.tasks[t].msg);
    case Reply(id, msg) => SentOk(s.clients[id], msg);
    case _ =>
  }

  lemma SentOk(c: Client, msg: Text)
    requires ClientOk(c)
    ensures ClientOk(Sent(c, msg))
  {
    assert c.taken + (c.queue + [msg]) == c.taken + c.queue + [msg];
  }

  lemma AddKeepsRooms(s: System, a: Action)
    requires RoomsOk(s) && Enabled(s, a) && a.Add?
    ensures RoomsOk(Next(s, a))
  {
    var s' := Next(s, a);
    forall room, id | room in s'.rooms && id in s'.rooms[room] ensures MemberOk(s', room, id) {
      if id != a.id { assert MemberOk(s, room, id); }
    }
  }

  lemma LeaveKeepsRooms(s: System, a: Action)
    requires RoomsOk(s) && Enabled(s, a) && a.Leave?
    ensures RoomsOk(Next(s, a))
  {
    var s' := Next(s, a);
    forall room, id | room in s'.rooms && id in s'.rooms[room] ensures MemberOk(s', room, id) {
      assert MemberOk(s, room, id);
    }
  }

  lemma FinishKeepsRooms(s: System, a: Action)
    requires RoomsOk(s) && TasksOk(s) && Enabled(s, a) && a.Finish?
    ensures RoomsOk(Next(s, a))
  {
    var s' := Next(s, a);
    assert TaskOk(s, s.tasks[a.task]);
    forall room, id | room in s'.rooms && id in s'.rooms[room] ensures MemberOk(s', room, id) {
      assert MemberOk(s, room, id);
    }
  }

  lemma OtherStepsKeepRooms(s: System, a: Action)
    requires RoomsOk(s) && Enabled(s, a) && !a.Add? && !a.Leave? && !a.Finish?
    ensures RoomsOk(Next(s, a))
  {
    var s' := Next(s, a);
    forall room, id | room in s'.rooms && id in s'.rooms[room] ensures MemberOk(s', room, id) {
      assert MemberOk(s, room, id);
    }
  }

  /** Clients never change their room, and are never forgotten. */
  lemma ClientsStay(s: System, a: Action, id: Id)
    requires Enabled(s, a) && id in s.clients
    ensures id in Next(s, a).clients && Next(s, a).clients[id].room == s.clients[id].room
    ensures s.clients[id].closed ==> Next(s, a).clients[id].closed
    ensures s.clients[id].closed && s.clients[id].queue == [] ==> Next(s, a).clients[id] == s.clients[id]
  {
  }

  lemma TaskStays(s: System, a: Action, b: Broadcast)
    requires Enabled(s, a) && TaskOk(s, b)
    ensures TaskOk(Next(s, a), b)
  {
    forall id | id in s.clients ensures id in Next(s, a).clients && Next(s, a).clients[id].room == s.clients[id].room {
      ClientsStay(s, a, id);
    }
  }

  lemma StepKeepsTasks(s: System, a: Action)
    requires RoomsOk(s) && TasksOk(s) && Enabled(s, a)
    ensures TasksOk(Next(s, a))
  {
    var s' := Next(s, a);
    forall t | t in s'.tasks ensures TaskOk(s', s'.tasks[t]) {
      if t in s.tasks {
        TaskStays(s, a, s.tasks[t]);
      } else {
        NewTaskOk(s, a);
      }
    }
  }

  lemma NewTaskOk(s: System, a: Action)
    requires RoomsOk(s) && Enabled(s, a) && a.Start?
    ensures TaskOk(Next(s, a), Next(s, a).tasks[a.task])
  {
    forall i | 0 <= i < |a.snapshot| ensures a.snapshot[i] in s.clients && s.clients[a.snapshot[i]].room == a.room {
      assert a.snapshot[i] in a.snapshot;
      assert MemberOk(s, a.room, a.snapshot[i]);
    }
  }

  lemma StepKeepsAttempts(s: System, a: Action)
    requires AttemptsOk(s) && TasksOk(s) && Enabled(s, a)
    ensures AttemptsOk(Next(s, a))
  {
    var s' := Next(s, a);
    forall t, id ensures AttemptsMatch(s', t, id) {
      assert AttemptsMatch(s, t, id);
      if a.SendNext? {
        SendCounted(s, a.task, t, id);
      }
    }
  }

  lemma SendCounted(s: System, sender: nat, t: nat, id: Id)
    requires TasksOk(s) && Enabled(s, SendNext(sender)) && AttemptsMatch(s, t, id)
    ensures AttemptsMatch(AfterSend(s, sender), t, id)
  {
    var b := s.tasks[sender];
    var to := b.snapshot[b.sent];
    assert TaskOk(s, b);
    assert (s.attempts + [Attempt(sender, to)])[..|s.attempts|] == s.attempts;
    assert b.snapshot[..b.sent + 1] == b.snapshot[..b.sent] + [to];
  }

  lemma StepKeepsInv(s: System, a: Action)
    requires Inv(s) && Enabled(s, a)
    ensures Inv(Next(s, a))
  {
    StepKeepsClients(s, a);
    if a.Add? { AddKeepsRooms(s, a); }
    else if a.Leave? { LeaveKeepsRooms(s, a); }
    else if a.Finish? { FinishKeepsRooms(s, a); }
    else { OtherStepsKeepRooms(s, a); }
    StepKeepsTasks(s, a);
    StepKeepsAttempts(s, a);
  }

  // ---- Whole runs -------------------------------------------------------------

  predicate CanRun(s: System, run: seq<Action>)
    decreases |run|
  {
    run == [] || (Enabled(s, run[0]) && CanRun(Next(s, run[0]), run[1..]))
  }

  function Run(s: System, run: seq<Action>): System
    requires CanRun(s, run)
    decreases |run|
  {
    if run == [] then s else Run(Next(s, run[0]), run[1..])
  }

  lemma {:induction false} RunKeepsInv(s: System, run: seq<Action>)
    requires Inv(s) && CanRun(s, run)
    ensures Inv(Run(s, run))
    decreases |run|
  {
    if run != [] {
      StepKeepsInv(s, run[0]);
      RunKeepsInv(Next(s, run[0]), run[1..]);
    }
  }

  /** Under any interleaving: no room is empty; the members of a room are exactly its open
      clients; no queue is longer than 256; a closed client's queue is empty. */
  lemma RoomsAndQueues(run: seq<Action>, room: string, id: Id)
    requires CanRun(EMPTY, run) && id in Run(EMPTY, run).clients
    ensures var s := Run(EMPTY, run);
            && (room in s.rooms ==> s.rooms[room] != {})
            && (id in Members(s.rooms, room) <==> s.clients[id].room == room && !s.clients[id].closed)
            && |s.clients[id].queue| <= MAX_QUEUE
            && (s.clients[id].closed ==> s.clients[id].queue == [])
  {
    assert Inv(EMPTY);
    RunKeepsInv(EMPTY, run);
    var s := Run(EMPTY, run);
    assert ClientOk(s.clients[id]);
    if id in Members(s.rooms, room) { assert MemberOk(s, room, id); }
  }

  /** What a client is sent is, in order, what its queue accepted, up to where it was closed. */
  lemma SentInOrder(run: seq<Action>, id: Id)
    requires CanRun(EMPTY, run) && id in Run(EMPTY, run).clients
    ensures var c := Run(EMPTY, run).clients[id];
            c.taken <= c.accepted && (!c.closed ==> c.taken + c.queue == c.accepted)
  {
    assert Inv(EMPTY);
    RunKeepsInv(EMPTY, run);
    assert ClientOk(Run(EMPTY, run).clients[id]);
  }

  /** A closed client stays as it is for ever: nothing is queued for it or sent to it. */
  lemma {:induction false} ClosedForEver(s: System, run: seq<Action>, id: Id)
    requires Inv(s) && CanRun(s, run) && id in s.clients && s.clients[id].closed
    ensures id in Run(s, run).clients && Run(s, run).clients[id] == s.clients[id]
    decreases |run|
  {
    if run != [] {
      assert ClientOk(s.clients[id]);
      ClientsStay(s, run[0], id);
      StepKeepsInv(s, run[0]);
      ClosedForEver(Next(s, run[0]), run[1..], id);
    }
  }

  /** A broadcast that has gone through its snapshot has sent to each client of it exactly
      once, and to nobody else. */
  lemma EachMemberOnce(run: seq<Action>, t: nat, id: Id)
    requires CanRun(EMPTY, run) && t in Run(EMPTY, run).tasks
    requires Run(EMPTY, run).tasks[t].sent == |Run(EMPTY, run).tasks[t].snapshot|
    ensures var s := Run(EMPTY, run);
            Attempts(s.attempts, t, id) == if id in s.tasks[t].snapshot then 1 else 0
  {
    assert Inv(EMPTY);
    RunKeepsInv(EMPTY, run);
    var s := Run(EMPTY, run);
    assert AttemptsMatch(s, t, id);
    assert s.tasks[t].snapshot[..|s.tasks[t].snapshot|] == s.tasks[t].snapshot;
  }

  /** After the clean-up of a broadcast every client that refused it is closed and in no
      room, even if the room had gone in the meantime. */
  lemma RefusersAreGone(s: System, t: nat, id: Id)
    requires Inv(s) && Enabled(s, Finish(t)) && id in s.tasks[t].failed
    ensures var s' := Next(s, Finish(t));
            id in s'.clients && s'.clients[id].closed && forall room :: id !in Members(s'.rooms, room)
  {
    var s' := Next(s, Finish(t));
    assert TaskOk(s, s.tasks[t]);
    StepKeepsInv(s, Finish(t));
    forall room ensures id !in Members(s'.rooms, room) {
      assert id in Members(s'.rooms, room) ==> MemberOk(s', room, id);
    }
  }
}
