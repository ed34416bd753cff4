/**
 What the steps of the hub do to each client and each room, and which messages a client's queue
 has accepted in the end.
 */
module HubEffects {
  import opened HubModel

  // ---- One step ---------------------------------------------------------------

  /** The client takes one more message: it is open and fewer than 256 are queued. */
  predicate HasSpace(c: Client) {
    !c.closed && |c.queue| < 256
  }

  function WithMessage(c: Client, msg: Text): Client {
    Client(c.room, c.closed, c.queue + [msg], c.accepted + [msg], c.taken)
  }

  /** A message put to a client that may have no space for it. */
  function Offered(c: Client, msg: Text): Client {
    if HasSpace(c) then WithMessage(c, msg) else c
  }

  /** All clients but these are as before and in the same rooms. */
  ghost predicate OthersStay(s: System, s': System, ids: set<Id>) {
    && s.clients.Keys <= s'.clients.Keys
    && (forall id :: id in s.clients && id !in ids ==> s'.clients[id] == s.clients[id])
    && (forall id, room :: id !in ids ==> (id in Members(s'.rooms, room) <==> id in Members(s.rooms, room)))
  }

  ghost predicate InNoRoom(s: System, id: Id) {
    forall room :: id !in Members(s.rooms, room)
  }

  /** A new client is open, with nothing queued, and in its room. */
  lemma AddEffect(s: System, id: Id, room: string)
    requires Inv(s) && Enabled(s, Action.Add(id, room))
    ensures var s' := Next(s, Action.Add(id, room));
            && s'.clients.Keys == s.clients.Keys + {id} && s'.clients[id] == Client(room, false, [], [], [])
            && id in Members(s'.rooms, room) && OthersStay(s, s', {id})
  {
  }

  /** A client that leaves is closed, has nothing queued and is in no room. */
  lemma LeaveEffect(s: System, id: Id)
    requires Inv(s) && Enabled(s, Action.Leave(id))
    ensures var s', c := Next(s, Action.Leave(id)), s.clients[id];
            && s'.clients.Keys == s.clients.Keys && s'.clients[id] == Client(c.room, true, [], c.accepted, c.taken)
            && InNoRoom(s', id) && OthersStay(s, s', {id})
  {
    var a := Action.Leave(id);
    var s' := Next(s, a);
    assert ClientOk(s.clients[id]);
    StepKeepsInv(s, a);
    if s.clients[id].room !in s.rooms {
      assert id !in Members(s.rooms, s.clients[id].room);
    }
    forall room ensures id !in Members(s'.rooms, room) {
      assert id in Members(s'.rooms, room) ==> MemberOk(s', room, id);
    }
  }

  /** A send puts the message of the broadcast at the end of the queue of the next client of the
      snapshot, if it has space, and remembers the client if it has not. */
  lemma SendEffect(s: System, t: nat)
    requires Enabled(s, SendNext(t))
    ensures var s', b := Next(s, SendNext(t)), s.tasks[t];
            var id := b.snapshot[b.sent];
            && s'.clients.Keys == s.clients.Keys && s'.clients[id] == Offered(s.clients[id], b.msg)
            && OthersStay(s, s', {id}) && s'.rooms == s.rooms
            && s'.tasks == s.tasks[t := Broadcast(b.room, b.msg, b.snapshot, b.sent + 1,
                                                  b.failed + (if HasSpace(s.clients[id]) then {} else {id}), b.done)]
  {
    var b := s.tasks[t];
    assert b.failed + {} == b.failed;
  }

  /** The clean-up closes exactly the clients that refused and takes them out of their room. */
  lemma FinishEffect(s: System, t: nat)
    requires Inv(s) && Enabled(s, Action.Finish(t))
    ensures var s', b := Next(s, Action.Finish(t)), s.tasks[t];
            && s'.clients.Keys == s.clients.Keys && OthersStay(s, s', b.failed)
            && forall id :: id in b.failed ==>
                 && id in s.clients && InNoRoom(s', id)
                 && s'.clients[id] == Client(b.room, true, [], s.clients[id].accepted, s.clients[id].taken)
  {
    var b := s.tasks[t];
    assert TaskOk(s, b);
    forall id | id in b.failed
      ensures id in s.clients && InNoRoom(Next(s, Action.Finish(t)), id)
      ensures Next(s, Action.Finish(t)).clients[id] == Client(b.room, true, [], s.clients[id].accepted, s.clients[id].taken)
    {
      RefusersAreGone(s, t, id);
      assert ClientOk(s.clients[id]);
    }
  }

  /** A reply is queued in the same way. */
  lemma ReplyEffect(s: System, id: Id, msg: Text)
    requires Enabled(s, Reply(id, msg))
    ensures var s' := Next(s, Reply(id, msg));
            s'.clients.Keys == s.clients.Keys && s'.clients[id] == Offered(s.clients[id], msg) && OthersStay(s, s', {id})
  {
  }

  /** What is sent is the first of the queue. */
  lemma TakeEffect(s: System, id: Id)
    requires Enabled(s, Take(id))
    ensures var s', c := Next(s, Take(id)), s.clients[id];
            && s'.clients.Keys == s.clients.Keys && OthersStay(s, s', {id})
            && [c.queue[0]] + s'.clients[id].queue == c.queue
            && s'.clients[id] == Client(c.room, c.closed, c.queue[1..], c.accepted, c.taken + [c.queue[0]])
  {
  }

  // ---- Runs -------------------------------------------------------------------

  /** The message a step offers to a client, if it has space for it then. */
  function OfferedBy(s: System, a: Action, id: Id): seq<Text>
    requires Enabled(s, a)
  {
    if id !in s.clients || !HasSpace(s.clients[id]) then []
    else match a
      case SendNext(t) => if s.tasks[t].snapshot[s.tasks[t].sent] == id then [s.tasks[t].msg] else []
      case Reply(to, msg) => if to == id then [msg] else []
      case _ => []
  }

  function AllOffered(s: System, run: seq<Action>, id: Id): seq<Text>
    requires CanRun(s, run)
    decreases |run|
  {
    if run == [] then [] else OfferedBy(s, run[0], id) + AllOffered(Next(s, run[0]), run[1..], id)
  }

  function AcceptedBy(s: System, id: Id): seq<Text> {
    if id in s.clients then s.clients[id].accepted else []
  }

  lemma StepOffers(s: System, a: Action, id: Id)
    requires Inv(s) && Enabled(s, a)
    ensures AcceptedBy(Next(s, a), id) == AcceptedBy(s, id) + OfferedBy(s, a, id)
  {
  }

  /** Under any interleaving of broadcasts, replies, joins and leaves: a client's queue has
      accepted exactly the messages that were put to it while it was open with fewer than 256
      queued, in that order. */
  lemma {:induction false} AcceptedExactly(s: System, run: seq<Action>, id: Id)
    requires Inv(s) && CanRun(s, run)
    ensures AcceptedBy(Run(s, run), id) == AcceptedBy(s, id) + AllOffered(s, run, id)
    decreases |run|
  {
    if run != [] {
      var s' := Next(s, run[0]);
      StepOffers(s, run[0], id);
      StepKeepsInv(s, run[0]);
      AcceptedExactly(s', run[1..], id);
      Regroup(AcceptedBy(s, id), OfferedBy(s, run[0], id), AllOffered(s', run[1..], id));
    }
  }

  lemma Regroup(a: seq<Text>, b: seq<Text>, c: seq<Text>)
    ensures a + b + c == a + (b + c)
  {
  }
}
