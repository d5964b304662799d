/** The JSON-RPC between the framework process and a sandboxed plugin process.
    Both processes issue requests on one pair of pipes and number them from 1
    on their own; calls nest in both directions. */
module SandboxRpc {
  import opened Options

  datatype Side = Parent | Worker

  function Peer(side: Side): Side {
    if side == Parent then Worker else Parent
  }

  datatype Answer = Result(value: int) | Error(message: string)

  /** One line on a pipe. `Noise` is a line the reader skips: invalid JSON or a worker error report. */
  datatype Line = Request(id: nat) | Response(id: nat, answer: Answer) | Noise

  datatype Future = Waiting | Completed(answer: Answer) | ReaderGone | Cancelled

  /** Where a request is: history only, no decision depends on it. */
  datatype Place = Unsent | Sent | Served | Answered(answer: Answer) | Delivered(answer: Answer) | Lost

  /** One process: its own requests and those of the peer it is serving. */
  datatype End = End(
    counter: nat,
    pending: set<nat>,
    futures: map<nat, Future>,
    open: set<nat>,                   // calls whose caller has not resumed yet
    issuer: map<nat, Option<nat>>,    // the peer request during whose service the call was made
    born: map<nat, nat>,              // creation order over both processes
    place: map<nat, Place>,
    serving: set<nat>,                // peer requests with a running task
    inbox: seq<Line>,
    reading: bool)

  // ---------------------------------------------------------------- what one process does

  /** A request is numbered, registered and written. When writing raises, the
      framework side unregisters it again; the worker writes outside its
      try block, so there the entry stays. */
  function Call(e: End, side: Side, issuer: Option<nat>, written: bool, now: nat): End {
    var id := e.counter + 1;
    e.(counter := id,
       pending := if written || side == Worker then e.pending + {id} else e.pending,
       futures := e.futures[id := Waiting],
       open := if written then e.open + {id} else e.open,
       issuer := e.issuer[id := issuer],
       born := e.born[id := now],
       place := e.place[id := if written then Sent else Unsent])
  }

  /** The reader handles one line: a response completes the future registered
      under its id, a request gets a task of its own. */
  function Receive(e: End, line: Line): End {
    match line
    case Noise => e
    case Request(id) => e.(serving := e.serving + {id})
    case Response(id, a) =>
      e.(pending := e.pending - {id},
         futures := if id in e.pending && id in e.futures && e.futures[id] == Waiting
                    then e.futures[id := Completed(a)] else e.futures,
         place := e.place[id := Delivered(a)])
  }

  function Expire(e: End, id: nat): End {
    e.(futures := e.futures[id := Cancelled])
  }

  function Resume(e: End, id: nat): End {
    e.(open := e.open - {id}, pending := e.pending - {id})
  }

  /** The reader ends. The framework side fails everything pending; the worker's reader just stops. */
  function StopReading(e: End, side: Side): End {
    if side == Worker then e.(reading := false)
    else
      e.(reading := false,
         futures := map id | id in e.futures ::
           if id in e.pending && e.futures[id] == Waiting then ReaderGone else e.futures[id],
         pending := {})
  }

  // ---------------------------------------------------------------- the two processes together

  datatype Network = Network(parent: End, worker: End, clock: nat) {
    function At(side: Side): End {
      if side == Parent then parent else worker
    }

    function With(side: Side, e: End): Network {
      if side == Parent then this.(parent := e) else this.(worker := e)
    }
  }

  const FreshEnd := End(0, {}, map[], {}, map[], map[], map[], {}, [], true)

  const Initial := Network(FreshEnd, FreshEnd, 0)

  /** The framework side waits for its line to be drained before it waits for the
      future: a caller that fails or is cancelled there gives up, and leaves a
      waiting, unregistered future behind. */
  datatype Step =
    | Send(side: Side, issuer: Option<nat>, written: bool)
    | WriteNoise(side: Side)
    | Deliver(side: Side)
    | Timeout(side: Side, id: nat)
    | Return(side: Side, id: nat)
    | GiveUp(side: Side, id: nat)
    | Finish(side: Side, id: nat, answer: Answer, written: bool)
    | ReaderExit(side: Side)

  predicate Enabled(s: Network, step: Step) {
    match step
    case Send(side, issuer, _) => issuer.Some? ==> issuer.value in s.At(side).serving
    case WriteNoise(_) => true
    case Deliver(side) => s.At(side).reading && s.At(side).inbox != []
    case Timeout(side, id) => id in s.At(side).open && id in s.At(side).futures && s.At(side).futures[id] == Waiting
    case Return(side, id) => id in s.At(side).open && id in s.At(side).futures && s.At(side).futures[id] != Waiting
    case GiveUp(side, id) => side == Parent && id in s.At(side).open
    case Finish(side, id, _, _) => id in s.At(side).serving && !Awaits(s.At(side), id)
    case ReaderExit(side) => s.At(side).reading
  }

  /** The task serving peer request `task` has a call of its own that has not returned. */
  predicate Awaits(e: End, task: nat) {
    exists c :: c in e.open && c in e.issuer && e.issuer[c] == Some(task)
  }

  function Put(e: End, line: Line): End {
    e.(inbox := e.inbox + [line])
  }

  /** What a step does to the two ends, the acting one first. */
  function NextPair(me: End, you: End, step: Step, clock: nat): (End, End) {
    match step
    case Send(side, issuer, written) =>
      (Call(me, side, issuer, written, clock), if written then Put(you, Request(me.counter + 1)) else you)
    case WriteNoise(_) => (me, Put(you, Noise))
    case Deliver(_) =>
      if me.inbox == [] then (me, you)
      else
        var line := me.inbox[0];
        (Receive(me.(inbox := me.inbox[1..]), line),
         if line.Request? then you.(place := you.place[line.id := Served]) else you)
    case Timeout(_, id) => (Expire(me, id), you)
    case Return(_, id) => (Resume(me, id), you)
    case GiveUp(_, id) => (Resume(me, id), you)
    case Finish(_, id, a, written) =>
      var moved := you.(place := you.place[id := if written then Answered(a) else Lost]);
      (me.(serving := me.serving - {id}), if written then Put(moved, Response(id, a)) else moved)
    case ReaderExit(side) => (StopReading(me, side), you)
  }

  function Next(s: Network, step: Step): Network
    requires Enabled(s, step)
  {
    var (me, you) := NextPair(s.At(step.side), s.At(Peer(step.side)), step, s.clock);
    s.With(step.side, me).With(Peer(step.side), you).(clock := if step.Send? then s.clock + 1 else s.clock)
  }

  // ---------------------------------------------------------------- invariant

  /** Bookkeeping of one process about its own requests. */
  ghost predicate OwnInv(e: End, side: Side) {
    && (forall id :: id in e.futures <==> 1 <= id <= e.counter)
    && e.place.Keys == e.futures.Keys && e.issuer.Keys == e.futures.Keys && e.born.Keys == e.futures.Keys
    && e.pending <= e.futures.Keys && e.open <= e.futures.Keys
    && (forall id {:trigger CallInv(e, side, id)} :: id in e.futures ==> CallInv(e, side, id))
  }

  ghost predicate CallInv(e: End, side: Side, id: nat)
    requires id in e.futures && id in e.place
  {
    && (id in e.open && e.futures[id] == Waiting ==> id in e.pending)
    && (id in e.pending ==> (e.futures[id] == Waiting || e.futures[id] == Cancelled))
    && (e.place[id] == Unsent ==> id !in e.open && (side == Parent ==> id !in e.pending))
    && (e.place[id] == Unsent && side == Worker ==> id in e.pending && e.futures[id] == Waiting)
    && (id in e.pending && id !in e.open ==> e.place[id] == Unsent)
    && (e.futures[id].Completed? ==> e.place[id] == Delivered(e.futures[id].answer))
    && (e.place[id].Delivered? ==> id !in e.pending)
  }

  /** The pipes and the tasks hold each request exactly where its history says. */
  ghost predicate TravelInv(e: End, peer: End) {
    && (forall l {:trigger RequestInv(e, l)} :: l in peer.inbox ==> RequestInv(e, l))
    && (forall l {:trigger ResponseInv(e, l)} :: l in e.inbox ==> ResponseInv(e, l))
    && (forall id {:trigger TaskInv(e, id)} :: id in peer.serving ==> TaskInv(e, id))
    && Once(peer.inbox) && Once(e.inbox)
    && (forall id {:trigger Present(e, peer, id)} :: id in e.place ==> Present(e, peer, id))
  }

  ghost predicate RequestInv(e: End, l: Line) {
    l.Request? ==> l.id in e.place && e.place[l.id] == Sent
  }

  ghost predicate ResponseInv(e: End, l: Line) {
    l.Response? ==> l.id in e.place && e.place[l.id] == Answered(l.answer)
  }

  ghost predicate TaskInv(e: End, id: nat) {
    id in e.place && e.place[id] == Served
  }

  /** No two lines of a pipe carry the same request, or responses to the same request. */
  ghost predicate Once(inbox: seq<Line>) {
    forall i, j {:trigger SameCall(inbox[i], inbox[j])} :: 0 <= i < j < |inbox| ==> !SameCall(inbox[i], inbox[j])
  }

  predicate SameCall(a: Line, b: Line) {
    (a.Request? && b.Request? && a.id == b.id) || (a.Response? && b.Response? && a.id == b.id)
  }

  ghost predicate Present(e: End, peer: End, id: nat)
    requires id in e.place
  {
    match e.place[id]
    case Sent => Request(id) in peer.inbox
    case Served => id in peer.serving
    case Answered(a) => Response(id, a) in e.inbox
    case _ => true
  }

  /** A call is younger than the request during whose service it was made. */
  ghost predicate AgeInv(e: End, peer: End, clock: nat) {
    && (forall id :: id in e.born ==> e.born[id] < clock)
    && (forall c {:trigger e.issuer[c]} :: c in e.issuer && c in e.born && e.issuer[c].Some? ==>
          e.issuer[c].value in peer.born && peer.born[e.issuer[c].value] < e.born[c])
  }

  ghost predicate PairInv(me: End, you: End, side: Side, clock: nat) {
    && OwnInv(me, side) && OwnInv(you, Peer(side))
    && TravelInv(me, you) && TravelInv(you, me)
    && AgeInv(me, you, clock) && AgeInv(you, me, clock)
  }

  ghost predicate Inv(s: Network) {
    PairInv(s.parent, s.worker, Parent, s.clock)
  }

  lemma InvEitherWay(s: Network, side: Side)
    ensures Inv(s) <==> PairInv(s.At(side), s.At(Peer(side)), side, s.clock)
  {
  }

  lemma InitialInv()
    ensures Inv(Initial)
  {
  }

  // ---------------------------------------------------------------- every step keeps it

  lemma PutKeepsTravel(e: End, peer: End, peer': End, line: Line)
    requires TravelInv(e, peer) && peer' == Put(peer, line)
    requires forall l :: l in peer.inbox ==> !SameCall(l, line)
    requires RequestInv(e, line)
    ensures TravelInv(e, peer')
  {
    assert forall l :: l in peer'.inbox ==> l in peer.inbox || l == line;
    assert forall l :: l in peer.inbox ==> l in peer'.inbox;
    forall l | l in peer'.inbox ensures RequestInv(e, l) {}
    forall x | x in e.place ensures Present(e, peer', x) {
      assert Present(e, peer, x);
    }
    assert forall i :: 0 <= i < |peer.inbox| ==> peer.inbox[i] in peer.inbox;
  }

  lemma PutKeepsBack(e: End, peer: End, e': End, line: Line)
    requires TravelInv(e, peer) && e' == Put(e, line)
    requires forall l :: l in e.inbox ==> !SameCall(l, line)
    requires ResponseInv(e, line)
    ensures TravelInv(e', peer)
  {
    assert forall l :: l in e'.inbox ==> l in e.inbox || l == line;
    assert forall l :: l in e.inbox ==> l in e'.inbox;
    forall l | l in e'.inbox ensures ResponseInv(e', l) {
      assert ResponseInv(e, l);
    }
    forall l | l in peer.inbox ensures RequestInv(e', l) {
      assert RequestInv(e, l);
    }
    forall x | x in peer.serving ensures TaskInv(e', x) {
      assert TaskInv(e, x);
    }
    forall x | x in e'.place ensures Present(e', peer, x) {
      assert Present(e, peer, x);
    }
    assert forall i :: 0 <= i < |e.inbox| ==> e.inbox[i] in e.inbox;
  }

  /** The travel invariant looks at the history and the pipes only. */
  lemma TravelFrame(e: End, peer: End, e': End, peer': End)
    requires TravelInv(e, peer)
    requires e'.place == e.place && e'.inbox == e.inbox
    requires peer'.inbox == peer.inbox && peer'.serving == peer.serving
    ensures TravelInv(e', peer')
  {
    forall l | l in peer'.inbox ensures RequestInv(e', l) { assert RequestInv(e, l); }
    forall l | l in e'.inbox ensures ResponseInv(e', l) { assert ResponseInv(e, l); }
    forall x | x in peer'.serving ensures TaskInv(e', x) { assert TaskInv(e, x); }
    forall x | x in e'.place ensures Present(e', peer', x) { assert Present(e, peer, x); }
  }

  /** One request changes its place; no line and no task mentions it. */
  lemma MoveKeepsTravel(e: End, peer: End, id: nat, to: Place)
    requires TravelInv(e, peer)
    requires forall l :: l in peer.inbox && l.Request? ==> l.id != id
    requires forall l :: l in e.inbox && l.Response? ==> l.id != id
    requires id !in peer.serving
    requires !to.Sent? && !to.Served? && !to.Answered?
    ensures TravelInv(e.(place := e.place[id := to]), peer)
  {
    var e' := e.(place := e.place[id := to]);
    forall l | l in peer.inbox ensures RequestInv(e', l) { assert RequestInv(e, l); }
    forall l | l in e'.inbox ensures ResponseInv(e', l) { assert ResponseInv(e, l); }
    forall x | x in peer.serving ensures TaskInv(e', x) { assert TaskInv(e, x); }
    forall x | x in e'.place ensures Present(e', peer, x) { if x != id { assert Present(e, peer, x); } }
  }

  lemma NewRequestTravels(e: End, peer: End, id: nat)
    requires TravelInv(e, peer) && id !in e.place
    ensures TravelInv(e.(place := e.place[id := Sent]), Put(peer, Request(id)))
  {
    var e', peer' := e.(place := e.place[id := Sent]), Put(peer, Request(id));
    NoMention(e, peer, id);
    assert peer'.inbox[|peer.inbox|] == Request(id);
    assert forall l :: l in peer'.inbox <==> l in peer.inbox || l == Request(id);
    forall l | l in peer'.inbox ensures RequestInv(e', l) { assert l == Request(id) || RequestInv(e, l); }
    forall l | l in e'.inbox ensures ResponseInv(e', l) { assert ResponseInv(e, l); }
    forall x | x in peer'.serving ensures TaskInv(e', x) { assert TaskInv(e, x); }
    forall x | x in e'.place ensures Present(e', peer', x) { if x != id { assert Present(e, peer, x); } }
    assert forall i :: 0 <= i < |peer.inbox| ==> peer.inbox[i] in peer.inbox;
  }

  /** A number that has not been used appears nowhere. */
  lemma NoMention(e: End, peer: End, id: nat)
    requires TravelInv(e, peer) && id !in e.place
    ensures forall l :: l in peer.inbox && l.Request? ==> l.id != id
    ensures forall l :: l in e.inbox && l.Response? ==> l.id != id
    ensures id !in peer.serving
  {
    forall l | l in peer.inbox && l.Request? ensures l.id != id { assert RequestInv(e, l); }
    forall l | l in e.inbox && l.Response? ensures l.id != id { assert ResponseInv(e, l); }
    assert id in peer.serving ==> TaskInv(e, id);
  }

  lemma HeadTaken(inbox: seq<Line>)
    requires Once(inbox) && inbox != []
    ensures Once(inbox[1..])
    ensures forall l :: l in inbox[1..] ==> l in inbox && !SameCall(inbox[0], l)
    ensures forall l :: l in inbox ==> l == inbox[0] || l in inbox[1..]
  {
    var t := inbox[1..];
    forall i, j | 0 <= i < j < |t| ensures !SameCall(t[i], t[j]) {
      assert t[i] == inbox[i + 1] && t[j] == inbox[j + 1];
      assert !SameCall(inbox[i + 1], inbox[j + 1]);
    }
    forall l | l in t ensures l in inbox && !SameCall(inbox[0], l) {
      var j :| 0 <= j < |t| && t[j] == l;
      assert !SameCall(inbox[0], inbox[j + 1]);
    }
  }

  /** Reading a request: from the pipe to a task. */
  lemma RequestRead(me: End, you: End)
    requires TravelInv(me, you) && TravelInv(you, me) && me.inbox != [] && me.inbox[0].Request?
    ensures var id := me.inbox[0].id;
      var me' := me.(inbox := me.inbox[1..], serving := me.serving + {id});
      var you' := you.(place := you.place[id := Served]);
      id in you.place && id !in me.serving && TravelInv(me', you') && TravelInv(you', me')
  {
    var id := me.inbox[0].id;
    var me' := me.(inbox := me.inbox[1..], serving := me.serving + {id});
    var you' := you.(place := you.place[id := Served]);
    HeadTaken(me.inbox);
    assert RequestInv(you, me.inbox[0]);
    assert id in me.serving ==> TaskInv(you, id);
    forall l | l in me'.inbox ensures RequestInv(you', l) && ResponseInv(me', l) {
      assert RequestInv(you, l) && ResponseInv(me, l);
    }
    forall l | l in you'.inbox ensures ResponseInv(you', l) && RequestInv(me', l) {
      assert ResponseInv(you, l) && RequestInv(me, l);
    }
    forall x | x in me'.serving ensures TaskInv(you', x) { assert x == id || TaskInv(you, x); }
    forall x | x in you'.serving ensures TaskInv(me', x) { assert TaskInv(me, x); }
    forall x | x in you'.place ensures Present(you', me', x) { if x != id { assert Present(you, me, x); } }
    forall x | x in me'.place ensures Present(me', you', x) { assert Present(me, you, x); }
  }

  /** Reading a response: it leaves the pipe for good. */
  lemma ResponseRead(me: End, you: End)
    requires TravelInv(me, you) && TravelInv(you, me) && me.inbox != [] && me.inbox[0].Response?
    ensures var line := me.inbox[0];
      var me' := me.(inbox := me.inbox[1..], place := me.place[line.id := Delivered(line.answer)]);
      && line.id in me.place && me.place[line.id] == Answered(line.answer)
      && TravelInv(me', you) && TravelInv(you, me')
  {
    var line := me.inbox[0];
    var id := line.id;
    var me' := me.(inbox := me.inbox[1..], place := me.place[id := Delivered(line.answer)]);
    HeadTaken(me.inbox);
    assert ResponseInv(me, line);
    forall l | l in me'.inbox ensures RequestInv(you, l) && ResponseInv(me', l) {
      assert RequestInv(you, l) && ResponseInv(me, l);
    }
    forall l | l in you.inbox ensures RequestInv(me', l) { assert RequestInv(me, l); }
    forall x | x in you.serving ensures TaskInv(me', x) { assert TaskInv(me, x); }
    forall x | x in you.place ensures Present(you, me', x) { assert Present(you, me, x); }
    forall x | x in me'.place ensures Present(me', you, x) { if x != id { assert Present(me, you, x); } }
  }

  lemma NoiseRead(me: End, you: End)
    requires TravelInv(me, you) && TravelInv(you, me) && me.inbox != [] && me.inbox[0].Noise?
    ensures var me' := me.(inbox := me.inbox[1..]); TravelInv(me', you) && TravelInv(you, me')
  {
    var me' := me.(inbox := me.inbox[1..]);
    HeadTaken(me.inbox);
    forall l | l in me'.inbox ensures RequestInv(you, l) && ResponseInv(me', l) {
      assert RequestInv(you, l) && ResponseInv(me, l);
    }
    forall l | l in you.inbox ensures RequestInv(me', l) { assert RequestInv(me, l); }
    forall x | x in you.serving ensures TaskInv(me', x) { assert TaskInv(me, x); }
    forall x | x in you.place ensures Present(you, me', x) { assert Present(you, me, x); }
    forall x | x in me'.place ensures Present(me', you, x) { assert Present(me, you, x); }
  }

  /** Answering a request: from the task to the pipe, or to nowhere when the pipe cannot be written. */
  lemma TaskEnds(me: End, you: End, id: nat, a: Answer, written: bool)
    requires TravelInv(me, you) && TravelInv(you, me) && id in me.serving
    ensures var me' := me.(serving := me.serving - {id});
      var moved := you.(place := you.place[id := if written then Answered(a) else Lost]);
      var you' := if written then Put(moved, Response(id, a)) else moved;
      id in you.place && you.place[id] == Served && TravelInv(me', you') && TravelInv(you', me')
  {
    var me' := me.(serving := me.serving - {id});
    assert TaskInv(you, id);
    var moved := you.(place := you.place[id := Lost]);
    forall l | l in me.inbox && l.Request? ensures l.id != id { assert RequestInv(you, l); }
    forall l | l in you.inbox && l.Response? ensures l.id != id { assert ResponseInv(you, l); }
    TravelFrame(me, you, me', moved);
    forall x | x in me'.serving ensures TaskInv(you, x) { assert TaskInv(you, x); }
    forall x | x in you.place && x != id ensures Present(you, me', x) { assert Present(you, me, x); }
    TaskEndsBack(me, you, id, moved);
    if written {
      AnswerTravels(moved, me', id, a);
      var sent := you.(place := you.place[id := Answered(a)]);
      assert moved.(place := moved.place[id := Answered(a)]) == sent;
      TravelFrame(me', moved, me', sent);
      PutKeepsTravel(me', sent, Put(sent, Response(id, a)), Response(id, a));
    }
  }

  lemma TaskEndsBack(me: End, you: End, id: nat, moved: End)
    requires TravelInv(you, me) && id in me.serving && moved == you.(place := you.place[id := Lost])
    ensures TravelInv(moved, me.(serving := me.serving - {id}))
  {
    var me' := me.(serving := me.serving - {id});
    assert TaskInv(you, id);
    forall l | l in me'.inbox ensures RequestInv(moved, l) { assert RequestInv(you, l); }
    forall l | l in moved.inbox ensures ResponseInv(moved, l) { assert ResponseInv(you, l); }
    forall x | x in me'.serving ensures TaskInv(moved, x) { assert TaskInv(you, x); }
    forall x | x in moved.place ensures Present(moved, me', x) { if x != id { assert Present(you, me, x); } }
  }

  lemma AnswerTravels(e: End, peer: End, id: nat, a: Answer)
    requires TravelInv(e, peer) && id in e.place && e.place[id] == Lost
    ensures TravelInv(Put(e.(place := e.place[id := Answered(a)]), Response(id, a)), peer)
  {
    var e' := Put(e.(place := e.place[id := Answered(a)]), Response(id, a));
    assert e'.inbox[|e.inbox|] == Response(id, a);
    assert forall l :: l in e'.inbox <==> l in e.inbox || l == Response(id, a);
    forall l | l in peer.inbox ensures RequestInv(e', l) { assert RequestInv(e, l); }
    forall l | l in e'.inbox ensures ResponseInv(e', l) {
      if l in e.inbox { assert ResponseInv(e, l); }
    }
    forall x | x in peer.serving ensures TaskInv(e', x) { assert TaskInv(e, x); }
    forall x | x in e'.place ensures Present(e', peer, x) { if x != id { assert Present(e, peer, x); } }
    forall i | 0 <= i < |e.inbox| ensures !SameCall(e.inbox[i], Response(id, a)) {
      assert e.inbox[i] in e.inbox && ResponseInv(e, e.inbox[i]);
    }
  }

  lemma CallOwn(e: End, side: Side, issuer: Option<nat>, written: bool, now: nat)
    requires OwnInv(e, side)
    ensures OwnInv(Call(e, side, issuer, written, now), side)
  {
    var e' := Call(e, side, issuer, written, now);
    forall x | x in e'.futures ensures CallInv(e', side, x) {
      assert x == e.counter + 1 || CallInv(e, side, x);
    }
  }

  lemma ResponseOwn(e: End, side: Side, id: nat, a: Answer)
    requires OwnInv(e, side) && id in e.place && e.place[id] == Answered(a)
    ensures OwnInv(Receive(e, Response(id, a)), side)
  {
    var e' := Receive(e, Response(id, a));
    forall x | x in e'.futures ensures CallInv(e', side, x) {
      assert CallInv(e, side, x);
    }
  }

  /** Changes of place that neither send nor deliver keep the bookkeeping. */
  lemma PlaceOwn(e: End, side: Side, id: nat, to: Place)
    requires OwnInv(e, side) && id in e.place && (e.place[id].Sent? || e.place[id].Served?)
    requires to.Served? || to.Answered? || to.Lost?
    ensures OwnInv(e.(place := e.place[id := to]), side)
  {
    var e' := e.(place := e.place[id := to]);
    forall x | x in e'.futures ensures CallInv(e', side, x) {
      assert CallInv(e, side, x);
    }
  }

  /** The bookkeeping does not look at pipes and tasks. */
  lemma OwnFrame(e: End, e': End, side: Side)
    requires OwnInv(e, side)
    requires e'.counter == e.counter && e'.pending == e.pending && e'.futures == e.futures && e'.open == e.open
    requires e'.issuer == e.issuer && e'.born == e.born && e'.place == e.place
    ensures OwnInv(e', side)
  {
    forall x | x in e'.futures ensures CallInv(e', side, x) {
      assert CallInv(e, side, x);
    }
  }

  lemma ExpireOwn(e: End, side: Side, id: nat)
    requires OwnInv(e, side) && id in e.open && id in e.futures && e.futures[id] == Waiting
    ensures OwnInv(Expire(e, id), side)
  {
    var e' := Expire(e, id);
    assert CallInv(e, side, id);
    forall x | x in e'.futures ensures CallInv(e', side, x) {
      assert CallInv(e, side, x);
    }
  }

  lemma ResumeOwn(e: End, side: Side, id: nat)
    requires OwnInv(e, side) && id in e.open
    ensures OwnInv(Resume(e, id), side)
  {
    var e' := Resume(e, id);
    assert CallInv(e, side, id);
    forall x | x in e'.futures ensures CallInv(e', side, x) {
      assert CallInv(e, side, x);
    }
  }

  lemma StopOwn(e: End, side: Side)
    requires OwnInv(e, side)
    ensures OwnInv(StopReading(e, side), side)
  {
    var e' := StopReading(e, side);
    forall x | x in e'.futures ensures CallInv(e', side, x) {
      assert CallInv(e, side, x);
    }
  }

  lemma SentTravels(me: End, you: End, side: Side, issuer: Option<nat>, clock: nat)
    requires TravelInv(me, you) && TravelInv(you, me) && me.counter + 1 !in me.place
    ensures var me', you' := Call(me, side, issuer, true, clock), Put(you, Request(me.counter + 1));
      TravelInv(me', you') && TravelInv(you', me')
  {
    var id := me.counter + 1;
    var me', you' := Call(me, side, issuer, true, clock), Put(you, Request(id));
    NoMention(me, you, id);
    NewRequestTravels(me, you, id);
    TravelFrame(me.(place := me.place[id := Sent]), you', me', you');
    TravelFrame(you, me, you, me');
    PutKeepsBack(you, me', you', Request(id));
  }

  lemma UnsentTravels(me: End, you: End, side: Side, issuer: Option<nat>, clock: nat)
    requires TravelInv(me, you) && TravelInv(you, me) && me.counter + 1 !in me.place
    ensures var me' := Call(me, side, issuer, false, clock); TravelInv(me', you) && TravelInv(you, me')
  {
    var id := me.counter + 1;
    var me' := Call(me, side, issuer, false, clock);
    NoMention(me, you, id);
    MoveKeepsTravel(me, you, id, Unsent);
    TravelFrame(me.(place := me.place[id := Unsent]), you, me', you);
    TravelFrame(you, me, you, me');
  }

  lemma CallAges(me: End, you: End, side: Side, issuer: Option<nat>, written: bool, clock: nat)
    requires AgeInv(me, you, clock) && AgeInv(you, me, clock) && TravelInv(you, me)
    requires me.counter + 1 !in me.born && you.born.Keys == you.place.Keys
    requires issuer.Some? ==> issuer.value in me.serving
    ensures var me' := Call(me, side, issuer, written, clock);
      AgeInv(me', you, clock + 1) && AgeInv(you, me', clock + 1)
  {
    if issuer.Some? {
      assert TaskInv(you, issuer.value);
    }
  }

  lemma SendKeeps(me: End, you: End, side: Side, issuer: Option<nat>, written: bool, clock: nat)
    requires PairInv(me, you, side, clock)
    requires issuer.Some? ==> issuer.value in me.serving
    ensures PairInv(Call(me, side, issuer, written, clock),
                    if written then Put(you, Request(me.counter + 1)) else you, side, clock + 1)
  {
    CallOwn(me, side, issuer, written, clock);
    CallAges(me, you, side, issuer, written, clock);
    if written {
      OwnFrame(you, Put(you, Request(me.counter + 1)), Peer(side));
      SentTravels(me, you, side, issuer, clock);
    } else {
      UnsentTravels(me, you, side, issuer, clock);
    }
  }

  lemma RequestKeeps(me: End, you: End, side: Side, clock: nat, id: nat)
    requires PairInv(me, you, side, clock) && me.inbox != [] && me.inbox[0] == Request(id)
    ensures PairInv(Receive(me.(inbox := me.inbox[1..]), me.inbox[0]),
                    you.(place := you.place[id := Served]), side, clock)
  {
    RequestRead(me, you);
    OwnFrame(me, Receive(me.(inbox := me.inbox[1..]), me.inbox[0]), side);
    assert RequestInv(you, me.inbox[0]);
    PlaceOwn(you, Peer(side), id, Served);
  }

  lemma ResponseKeeps(me: End, you: End, side: Side, clock: nat, id: nat, a: Answer)
    requires PairInv(me, you, side, clock) && me.inbox != [] && me.inbox[0] == Response(id, a)
    ensures PairInv(Receive(me.(inbox := me.inbox[1..]), me.inbox[0]), you, side, clock)
  {
    var me0 := me.(inbox := me.inbox[1..]);
    var me' := Receive(me0, me.inbox[0]);
    OwnFrame(me, me0, side);
    ResponseRead(me, you);
    var moved := me.(inbox := me.inbox[1..], place := me.place[id := Delivered(a)]);
    TravelFrame(moved, you, me', you);
    TravelFrame(you, moved, you, me');
    ResponseOwn(me0, side, id, a);
  }

  lemma DeliverKeeps(me: End, you: End, side: Side, clock: nat)
    requires PairInv(me, you, side, clock) && me.inbox != []
    ensures var line := me.inbox[0];
      PairInv(Receive(me.(inbox := me.inbox[1..]), line),
              if line.Request? then you.(place := you.place[line.id := Served]) else you, side, clock)
  {
    match me.inbox[0]
    case Noise =>
      NoiseRead(me, you);
      OwnFrame(me, me.(inbox := me.inbox[1..]), side);
    case Request(id) => RequestKeeps(me, you, side, clock, id);
    case Response(id, a) => ResponseKeeps(me, you, side, clock, id, a);
  }

  lemma FinishKeeps(me: End, you: End, side: Side, id: nat, a: Answer, written: bool, clock: nat)
    requires PairInv(me, you, side, clock) && id in me.serving
    ensures var moved := you.(place := you.place[id := if written then Answered(a) else Lost]);
      PairInv(me.(serving := me.serving - {id}), if written then Put(moved, Response(id, a)) else moved, side, clock)
  {
    var moved := you.(place := you.place[id := if written then Answered(a) else Lost]);
    TaskEnds(me, you, id, a, written);
    OwnFrame(me, me.(serving := me.serving - {id}), side);
    PlaceOwn(you, Peer(side), id, if written then Answered(a) else Lost);
    OwnFrame(moved, if written then Put(moved, Response(id, a)) else moved, Peer(side));
  }

  lemma LocalKeeps(me: End, me': End, you: End, side: Side, clock: nat)
    requires PairInv(me, you, side, clock) && OwnInv(me', side)
    requires me'.place == me.place && me'.inbox == me.inbox && me'.serving == me.serving
    requires me'.issuer == me.issuer && me'.born == me.born
    ensures PairInv(me', you, side, clock)
  {
    TravelFrame(me, you, me', you);
    TravelFrame(you, me, you, me');
  }

  lemma NoiseKeeps(me: End, you: End, side: Side, clock: nat)
    requires PairInv(me, you, side, clock)
    ensures PairInv(me, Put(you, Noise), side, clock)
  {
    PutKeepsTravel(me, you, Put(you, Noise), Noise);
    PutKeepsBack(you, me, Put(you, Noise), Noise);
    OwnFrame(you, Put(you, Noise), Peer(side));
  }

  lemma TimeoutKeeps(me: End, you: End, side: Side, id: nat, clock: nat)
    requires PairInv(me, you, side, clock) && id in me.open && id in me.futures && me.futures[id] == Waiting
    ensures PairInv(Expire(me, id), you, side, clock)
  {
    ExpireOwn(me, side, id);
    LocalKeeps(me, Expire(me, id), you, side, clock);
  }

  lemma ReturnKeeps(me: End, you: End, side: Side, id: nat, clock: nat)
    requires PairInv(me, you, side, clock) && id in me.open
    ensures PairInv(Resume(me, id), you, side, clock)
  {
    ResumeOwn(me, side, id);
    LocalKeeps(me, Resume(me, id), you, side, clock);
  }

  lemma ExitKeeps(me: End, you: End, side: Side, clock: nat)
    requires PairInv(me, you, side, clock)
    ensures PairInv(StopReading(me, side), you, side, clock)
  {
    StopOwn(me, side);
    LocalKeeps(me, StopReading(me, side), you, side, clock);
  }

  /** Steps in which one process touches only its own calls. */
  predicate IsLocal(step: Step) {
    step.Timeout? || step.Return? || step.GiveUp? || step.ReaderExit?
  }

  lemma LocalStepKeeps(me: End, you: End, step: Step, clock: nat)
    requires PairInv(me, you, step.side, clock) && IsLocal(step)
    requires step.Timeout? ==> step.id in me.open && step.id in me.futures && me.futures[step.id] == Waiting
    requires step.Return? || step.GiveUp? ==> step.id in me.open
    ensures PairInv(NextPair(me, you, step, clock).0, you, step.side, clock)
  {
    match step
    case Timeout(side, id) => TimeoutKeeps(me, you, side, id, clock);
    case ReaderExit(side) => ExitKeeps(me, you, side, clock);
    case Return(side, id) => ReturnKeeps(me, you, side, id, clock);
    case GiveUp(side, id) => ReturnKeeps(me, you, side, id, clock);
  }

  lemma SendStepKeeps(me: End, you: End, step: Step, clock: nat)
    requires PairInv(me, you, step.side, clock) && step.Send?
    requires step.issuer.Some? ==> step.issuer.value in me.serving
    ensures var n := NextPair(me, you, step, clock); PairInv(n.0, n.1, step.side, clock + 1)
  {
    assert NextPair(me, you, step, clock)
        == (Call(me, step.side, step.issuer, step.written, clock),
            if step.written then Put(you, Request(me.counter + 1)) else you);
    SendKeeps(me, you, step.side, step.issuer, step.written, clock);
  }

  lemma DeliverStepKeeps(me: End, you: End, step: Step, clock: nat)
    requires PairInv(me, you, step.side, clock) && step.Deliver?
    ensures var n := NextPair(me, you, step, clock); PairInv(n.0, n.1, step.side, clock)
  {
    if me.inbox != [] { DeliverKeeps(me, you, step.side, clock); }
  }

  lemma FinishStepKeeps(me: End, you: End, step: Step, clock: nat)
    requires PairInv(me, you, step.side, clock) && step.Finish? && step.id in me.serving
    ensures var n := NextPair(me, you, step, clock); PairInv(n.0, n.1, step.side, clock)
  {
    FinishKeeps(me, you, step.side, step.id, step.answer, step.written, clock);
  }

  lemma NoiseStepKeeps(me: End, you: End, step: Step, clock: nat)
    requires PairInv(me, you, step.side, clock) && step.WriteNoise?
    ensures var n := NextPair(me, you, step, clock); PairInv(n.0, n.1, step.side, clock)
  {
    NoiseKeeps(me, you, step.side, clock);
  }

  /** Every step of either process keeps the invariant. */
  lemma StepKeeps(s: Network, step: Step)
    requires Inv(s) && Enabled(s, step)
    ensures Inv(Next(s, step))
  {
    InvEitherWay(s, step.side);
    InvEitherWay(Next(s, step), step.side);
    var me, you := s.At(step.side), s.At(Peer(step.side));
    match step
    case Send(_, _, _) => SendStepKeeps(me, you, step, s.clock);
    case WriteNoise(_) => NoiseStepKeeps(me, you, step, s.clock);
    case Deliver(_) => DeliverStepKeeps(me, you, step, s.clock);
    case Finish(_, _, _, _) => FinishStepKeeps(me, you, step, s.clock);
    case _ => LocalStepKeeps(me, you, step, s.clock);
  }

  // ---------------------------------------------------------------- runs

  /** The state after a list of steps, or nothing when some step is not possible. */
  function Run(s: Network, steps: seq<Step>): Option<Network>
    decreases |steps|
  {
    if steps == [] then Some(s)
    else if !Enabled(s, steps[0]) then None
    else Run(Next(s, steps[0]), steps[1..])
  }

  lemma RunCons(s: Network, step: Step, rest: seq<Step>)
    requires Enabled(s, step)
    ensures Run(s, [step] + rest) == Run(Next(s, step), rest)
  {
    assert ([step] + rest)[1..] == rest;
  }

  lemma {:induction false} RunKeeps(s: Network, steps: seq<Step>)
    requires Inv(s) && Run(s, steps).Some?
    ensures Inv(Run(s, steps).value)
    decreases |steps|
  {
    if steps != [] {
      StepKeeps(s, steps[0]);
      RunKeeps(Next(s, steps[0]), steps[1..]);
    }
  }

  /** A future that is no longer waiting is never touched again. */
  lemma PairSettles(me: End, you: End, step: Step, clock: nat)
    requires me.counter + 1 !in me.futures
    requires step.Timeout? ==> step.id in me.futures && me.futures[step.id] == Waiting
    ensures var n := NextPair(me, you, step, clock);
      Settled(me, n.0) && Settled(you, n.1)
  {
  }

  ghost predicate Settled(e: End, e': End) {
    forall id :: id in e.futures && e.futures[id] != Waiting ==> id in e'.futures && e'.futures[id] == e.futures[id]
  }

  lemma StepSettles(s: Network, step: Step, side: Side)
    requires Inv(s) && Enabled(s, step)
    ensures Settled(s.At(side), Next(s, step).At(side))
  {
    InvEitherWay(s, step.side);
    PairSettles(s.At(step.side), s.At(Peer(step.side)), step, s.clock);
  }

  /** Whatever happens later, a completed, timed-out or failed call stays as it is. */
  lemma {:induction false} RunSettles(s: Network, steps: seq<Step>, side: Side)
    requires Inv(s) && Run(s, steps).Some?
    ensures Settled(s.At(side), Run(s, steps).value.At(side))
    decreases |steps|
  {
    if steps != [] {
      StepSettles(s, steps[0], side);
      StepKeeps(s, steps[0]);
      RunSettles(Next(s, steps[0]), steps[1..], side);
    }
  }

  // ---------------------------------------------------------------- what the caller can rely on

  /** A request is answered at most once: its place only moves forward, so an
      answer that was produced or delivered is never replaced. */
  function Rank(p: Place): nat {
    match p
    case Sent => 0
    case Served => 1
    case Answered(_) => 2
    case Delivered(_) => 3
    case Unsent => 3
    case Lost => 3
  }

  predicate Forward(p: Place, q: Place) {
    p == q || (Rank(p) < Rank(q) && (p.Answered? ==> q == Delivered(p.answer)))
  }

  ghost predicate Onward(e: End, e': End) {
    forall id {:trigger e.place[id]} {:trigger e'.place[id]} ::
      id in e.place ==> id in e'.place && Forward(e.place[id], e'.place[id])
  }

  /** What the invariant says about the things a step touches. */
  ghost predicate StepFacts(me: End, you: End, step: Step) {
    && me.counter + 1 !in me.futures && me.counter + 1 !in me.place
    && (step.Deliver? && me.inbox != [] ==>
          && RequestInv(you, me.inbox[0]) && ResponseInv(me, me.inbox[0])
          && (me.inbox[0].Request? ==> me.inbox[0].id !in me.serving))
    && (step.Finish? ==> step.id in me.serving && TaskInv(you, step.id))
  }

  lemma FactsHold(s: Network, step: Step)
    requires Inv(s) && Enabled(s, step)
    ensures StepFacts(s.At(step.side), s.At(Peer(step.side)), step)
  {
    var me, you := s.At(step.side), s.At(Peer(step.side));
    InvEitherWay(s, step.side);
    if step.Deliver? {
      assert RequestInv(you, me.inbox[0]) && ResponseInv(me, me.inbox[0]);
      assert me.inbox[0].Request? && me.inbox[0].id in me.serving ==> TaskInv(you, me.inbox[0].id);
    } else if step.Finish? {
      assert TaskInv(you, step.id);
    }
  }

  /** The answer is on its way to the caller or has been delivered. */
  predicate HasAnswer(e: End, id: nat, a: Answer) {
    id in e.place && (e.place[id] == Answered(a) || e.place[id] == Delivered(a))
  }

  lemma PairAnswers(me: End, you: End, step: Step, clock: nat, id: nat, a: Answer)
    requires StepFacts(me, you, step) && !IsLocal(step)
    ensures HasAnswer(NextPair(me, you, step, clock).0, id, a) ==> HasAnswer(me, id, a)
    ensures HasAnswer(NextPair(me, you, step, clock).1, id, a) ==>
      HasAnswer(you, id, a) || step == Finish(step.side, id, a, true)
  {
  }

  /** An answer comes from the task that finishes the request, and from nowhere else. */
  lemma StepAnswers(s: Network, step: Step, side: Side, id: nat, a: Answer)
    requires Inv(s) && Enabled(s, step) && HasAnswer(Next(s, step).At(side), id, a)
    ensures HasAnswer(s.At(side), id, a) || step == Finish(Peer(side), id, a, true)
  {
    FactsHold(s, step);
    if !IsLocal(step) {
      PairAnswers(s.At(step.side), s.At(Peer(step.side)), step, s.clock, id, a);
    }
  }

  lemma {:induction false} RunAnswers(s: Network, steps: seq<Step>, side: Side, id: nat, a: Answer)
    requires Inv(s) && Run(s, steps).Some? && HasAnswer(Run(s, steps).value.At(side), id, a)
    ensures HasAnswer(s.At(side), id, a) || Finish(Peer(side), id, a, true) in steps
    decreases |steps|
  {
    if steps != [] {
      StepKeeps(s, steps[0]);
      RunAnswers(Next(s, steps[0]), steps[1..], side, id, a);
      if HasAnswer(Next(s, steps[0]).At(side), id, a) {
        StepAnswers(s, steps[0], side, id, a);
      }
    }
  }

  /** In every run from the start, a call that completed with an answer did so
      because the peer's task for this very request finished with this answer
      and wrote it, although both sides number from 1 on the same pipes. */
  lemma OwnAnswerOnly(steps: seq<Step>, side: Side, id: nat)
    requires Run(Initial, steps).Some?
    requires var e := Run(Initial, steps).value.At(side); id in e.futures && e.futures[id].Completed?
    ensures var e := Run(Initial, steps).value.At(side);
      Finish(Peer(side), id, e.futures[id].answer, true) in steps
  {
    InitialInv();
    RunKeeps(Initial, steps);
    var s := Run(Initial, steps).value;
    InvEitherWay(s, side);
    assert CallInv(s.At(side), side, id);
    RunAnswers(Initial, steps, side, id, s.At(side).futures[id].answer);
  }

  // ---------------------------------------------------------------- what each step does

  /** A waiting call is completed with an answer exactly when its end reads this answer
      to it while it is registered, cancelled exactly when it times out, and failed
      exactly when the reader of the framework side ends while it is registered. */
  lemma WaitingEndsIff(s: Network, step: Step, side: Side, id: nat, a: Answer)
    requires Inv(s) && Enabled(s, step) && id in s.At(side).futures && s.At(side).futures[id] == Waiting
    ensures var e, n := s.At(side), Next(s, step).At(side);
      && id in n.futures
      && (n.futures[id] == Completed(a) <==>
            step == Deliver(side) && e.inbox[0] == Response(id, a) && id in e.pending)
      && (n.futures[id] == Cancelled <==> step == Timeout(side, id))
      && (n.futures[id] == ReaderGone <==> step == ReaderExit(Parent) && side == Parent && id in e.pending)
  {
    FactsHold(s, step);
    var me, you := s.At(step.side), s.At(Peer(step.side));
    if side == step.side {
      ActingEndsIff(me, you, step, s.clock, id, a);
    } else {
      PeerGoesOn(me, you, step, s.clock);
    }
  }

  lemma ActingEndsIff(me: End, you: End, step: Step, clock: nat, id: nat, a: Answer)
    requires id in me.futures && me.futures[id] == Waiting && me.counter + 1 !in me.futures
    requires step.Deliver? ==> me.inbox != []
    ensures var n := NextPair(me, you, step, clock).0;
      && id in n.futures
      && (n.futures[id] == Completed(a) <==> step.Deliver? && me.inbox[0] == Response(id, a) && id in me.pending)
      && (n.futures[id] == Cancelled <==> step == Timeout(step.side, id))
      && (n.futures[id] == ReaderGone <==> step == ReaderExit(Parent) && id in me.pending)
  {
  }

  lemma PeerGoesOn(me: End, you: End, step: Step, clock: nat)
    ensures NextPair(me, you, step, clock).1.futures == you.futures
  {
  }

  /** A call is registered when it is sent, unless the framework side could not write
      it; the answer, the return and the end of the framework's reader unregister it. */
  lemma RegisteredIff(s: Network, step: Step, side: Side, id: nat)
    requires Inv(s) && Enabled(s, step)
    ensures var e, n := s.At(side), Next(s, step).At(side);
      id in n.pending <==>
        if step.Send? && step.side == side && id == e.counter + 1 then step.written || side == Worker
        else
          && id in e.pending
          && !(step == Deliver(side) && e.inbox[0].Response? && e.inbox[0].id == id)
          && step != Return(side, id) && step != GiveUp(side, id)
          && !(step == ReaderExit(Parent) && side == Parent)
  {
    FactsHold(s, step);
  }

  /** A call is in flight from its writing until its caller resumes. */
  lemma InFlightIff(s: Network, step: Step, side: Side, id: nat)
    requires Inv(s) && Enabled(s, step)
    ensures id in Next(s, step).At(side).open <==>
      || (step.Send? && step.side == side && id == s.At(side).counter + 1 && step.written)
      || (id in s.At(side).open && step != Return(side, id) && step != GiveUp(side, id))
  {
    FactsHold(s, step);
  }

  /** Requests, answers and noise are written behind what is on the pipe; reading
      takes the first line; a request read gets a task until it is finished. */
  lemma PipesAndTasks(s: Network, step: Step, side: Side)
    requires Inv(s) && Enabled(s, step)
    ensures var e, n, peer := s.At(side), Next(s, step).At(side), s.At(Peer(side));
      && n.inbox ==
        (if step == Deliver(side) then e.inbox[1..]
         else if step.side == side then e.inbox
         else if step.Send? && step.written then e.inbox + [Request(peer.counter + 1)]
         else if step.Finish? && step.written then e.inbox + [Response(step.id, step.answer)]
         else if step.WriteNoise? then e.inbox + [Noise] else e.inbox)
      && (forall id :: id in n.serving <==>
            || (step == Deliver(side) && e.inbox[0] == Request(id))
            || (id in e.serving && !(step.Finish? && step.side == side && step.id == id)))
      && n.counter == e.counter + (if step.Send? && step.side == side then 1 else 0)
      && n.reading == (e.reading && step != ReaderExit(side))
  {
    FactsHold(s, step);
  }

  lemma OnwardPlace(e: End, e': End, id: nat, to: Place)
    requires e'.place == e.place[id := to] && (id in e.place ==> Forward(e.place[id], to))
    ensures Onward(e, e')
  {
  }

  lemma PairMovesOn(me: End, you: End, step: Step, clock: nat)
    requires StepFacts(me, you, step) && !IsLocal(step)
    ensures var n := NextPair(me, you, step, clock); Onward(me, n.0) && Onward(you, n.1)
  {
    var n := NextPair(me, you, step, clock);
    match step
    case Send(_, _, written) => OnwardPlace(me, n.0, me.counter + 1, if written then Sent else Unsent);
    case WriteNoise(_) =>
    case Deliver(_) =>
      if me.inbox != [] {
        match me.inbox[0]
        case Request(id) => OnwardPlace(you, n.1, id, Served);
        case Response(id, a) => OnwardPlace(me, n.0, id, Delivered(a));
        case Noise =>
      }
    case Finish(_, id, a, written) => OnwardPlace(you, n.1, id, if written then Answered(a) else Lost);
  }

  lemma StepMovesOn(s: Network, step: Step, side: Side)
    requires Inv(s) && Enabled(s, step)
    ensures Onward(s.At(side), Next(s, step).At(side))
  {
    FactsHold(s, step);
    if !IsLocal(step) {
      PairMovesOn(s.At(step.side), s.At(Peer(step.side)), step, s.clock);
    }
  }

  lemma {:induction false} RunMovesOn(s: Network, steps: seq<Step>, side: Side)
    requires Inv(s) && Run(s, steps).Some?
    ensures Onward(s.At(side), Run(s, steps).value.At(side))
    decreases |steps|
  {
    if steps != [] {
      var s1 := Next(s, steps[0]);
      StepMovesOn(s, steps[0], side);
      StepKeeps(s, steps[0]);
      RunMovesOn(s1, steps[1..], side);
      OnwardTwice(s.At(side), s1.At(side), Run(s, steps).value.At(side));
    }
  }

  lemma OnwardTwice(a: End, b: End, c: End)
    requires Onward(a, b) && Onward(b, c)
    ensures Onward(a, c)
  {
    forall id | id in a.place ensures id in c.place && Forward(a.place[id], c.place[id]) {
      assert Forward(a.place[id], b.place[id]);
      assert Forward(b.place[id], c.place[id]);
    }
  }

  /** The entries that outlive their call are exactly the worker's requests that
      could not be written; the framework side has none. Its arguments are made
      plain before they get here, so that turning them into a line, which it does
      between registering and its `try`, cannot fail. */
  lemma PendingAfterReturn(steps: seq<Step>, side: Side, id: nat)
    requires Run(Initial, steps).Some?
    requires var e := Run(Initial, steps).value.At(side); id in e.futures && id !in e.open
    ensures var e := Run(Initial, steps).value.At(side);
      id in e.pending <==> side == Worker && id in e.place && e.place[id] == Unsent
  {
    InitialInv();
    RunKeeps(Initial, steps);
    var s := Run(Initial, steps).value;
    InvEitherWay(s, side);
    assert CallInv(s.At(side), side, id);
  }

  /** When the framework's reader ends, nothing stays pending and no call is left
      waiting that was pending; later lines cannot change that. */
  lemma ReaderExitFailsAll(s: Network, steps: seq<Step>, id: nat)
    requires Inv(s) && Enabled(s, ReaderExit(Parent)) && Run(Next(s, ReaderExit(Parent)), steps).Some?
    requires id in s.parent.pending
    ensures Next(s, ReaderExit(Parent)).parent.pending == {}
    ensures var e := Run(Next(s, ReaderExit(Parent)), steps).value.parent;
      id in e.futures && e.futures[id] == (if s.parent.futures[id] == Waiting then ReaderGone else s.parent.futures[id])
  {
    StepKeeps(s, ReaderExit(Parent));
    assert CallInv(s.parent, Parent, id);
    RunSettles(Next(s, ReaderExit(Parent)), steps, Parent);
  }

  /** A response to a call that is no longer pending changes no future. */
  lemma LateResponseDropped(s: Network, side: Side, id: nat, a: Answer)
    requires Inv(s) && Enabled(s, Deliver(side)) && s.At(side).inbox[0] == Response(id, a)
    requires id !in s.At(side).open
    ensures var e := Next(s, Deliver(side)).At(side);
      e.futures == s.At(side).futures && e.pending == s.At(side).pending && e.open == s.At(side).open
  {
    InvEitherWay(s, side);
    var e := s.At(side);
    assert ResponseInv(e, e.inbox[0]);
    assert CallInv(e, side, id);
  }

  // ---------------------------------------------------------------- no cyclic wait

  /** No call in flight has lost its request or its answer to a broken pipe. */
  ghost predicate NothingLost(s: Network) {
    KeepsAll(s.parent) && KeepsAll(s.worker)
  }

  ghost predicate Youngest(s: Network, side: Side, id: nat) {
    && id in s.At(side).open && id in s.At(side).born
    && (forall x :: x in s.At(side).open && x in s.At(side).born ==> s.At(side).born[x] <= s.At(side).born[id])
    && (forall x :: x in s.At(Peer(side)).open && x in s.At(Peer(side)).born
          ==> s.At(Peer(side)).born[x] <= s.At(side).born[id])
  }

  lemma {:induction false} YoungestOf(e: End, ids: set<nat>) returns (m: nat)
    requires ids != {} && ids <= e.born.Keys
    ensures m in ids && forall x :: x in ids ==> e.born[x] <= e.born[m]
  {
    var one :| one in ids;
    var rest := ids - {one};
    m := one;
    assert forall x :: x in ids ==> x == one || x in rest;
    if rest != {} {
      var r := YoungestOf(e, rest);
      if e.born[one] < e.born[r] {
        m := r;
      }
    }
  }

  lemma FindYoungest(s: Network) returns (side: Side, id: nat)
    requires Inv(s) && (s.parent.open != {} || s.worker.open != {})
    ensures Youngest(s, side, id)
  {
    if s.parent.open == {} {
      side := Worker;
      id := YoungestOf(s.worker, s.worker.open);
    } else if s.worker.open == {} {
      side := Parent;
      id := YoungestOf(s.parent, s.parent.open);
    } else {
      var p := YoungestOf(s.parent, s.parent.open);
      var w := YoungestOf(s.worker, s.worker.open);
      if s.parent.born[p] <= s.worker.born[w] { side, id := Worker, w; } else { side, id := Parent, p; }
    }
  }

  /** A step of the kind that needs no timeout, no new request and no failure. */
  predicate Progress(step: Step) {
    step.Deliver? || step.Return? || (step.Finish? && step.written)
  }

  /** With both readers alive and nothing lost, calls in flight never wait for
      each other in a circle: the youngest one can always be moved on. */
  lemma SomethingMoves(s: Network) returns (step: Step)
    requires Inv(s) && NothingLost(s) && s.parent.reading && s.worker.reading
    requires s.parent.open != {} || s.worker.open != {}
    ensures Progress(step) && Enabled(s, step)
  {
    var side, id := FindYoungest(s);
    InvEitherWay(s, side);
    var e, peer := s.At(side), s.At(Peer(side));
    assert CallInv(e, side, id);
    assert Present(e, peer, id);
    if e.futures[id] != Waiting {
      step := Return(side, id);
    } else if e.place[id].Sent? {
      step := Deliver(Peer(side));
    } else if e.place[id].Answered? {
      step := Deliver(side);
    } else {
      assert e.place[id].Served?;
      step := Finish(Peer(side), id, Result(0), true);
      ServedAwaitsNothing(s, side, id);
    }
  }

  /** The task that serves the youngest call has no call of its own in flight. */
  lemma ServedAwaitsNothing(s: Network, side: Side, id: nat)
    requires Inv(s) && Youngest(s, side, id)
    ensures !Awaits(s.At(Peer(side)), id)
  {
    InvEitherWay(s, side);
    var e, peer := s.At(side), s.At(Peer(side));
    forall c | c in peer.open && c in peer.issuer ensures peer.issuer[c] != Some(id) {
      assert c in peer.born && peer.born[c] <= e.born[id];
    }
  }

  function Weight(inbox: seq<Line>): nat {
    if inbox == [] then 0
    else (match inbox[0] case Request(_) => 3 case Response(_, _) => 1 case Noise => 1) + Weight(inbox[1..])
  }

  lemma {:induction false} WeightPut(inbox: seq<Line>, line: Line)
    ensures Weight(inbox + [line]) == Weight(inbox) + Weight([line])
  {
    if inbox == [] {
      assert inbox + [line] == [line];
    } else {
      assert (inbox + [line])[1..] == inbox[1..] + [line];
      WeightPut(inbox[1..], line);
    }
  }

  function EndWork(e: End): nat {
    Weight(e.inbox) + 2 * |e.serving| + |e.open|
  }

  /** How many more progress steps are possible at most without new requests. */
  function Work(s: Network): nat {
    EndWork(s.parent) + EndWork(s.worker)
  }

  lemma DeliverWorks(me: End, you: End, step: Step, clock: nat)
    requires StepFacts(me, you, step) && step.Deliver? && me.inbox != []
    ensures var n := NextPair(me, you, step, clock); EndWork(n.0) + EndWork(n.1) < EndWork(me) + EndWork(you)
  {
    var line, rest := me.inbox[0], me.inbox[1..];
    assert Weight(me.inbox) == (if line.Request? then 3 else 1) + Weight(rest);
    if line.Request? {
      assert |me.serving + {line.id}| == |me.serving| + 1;
    }
  }

  lemma FinishWorks(me: End, you: End, step: Step, clock: nat)
    requires StepFacts(me, you, step) && step.Finish? && step.written
    ensures var n := NextPair(me, you, step, clock); EndWork(n.0) + EndWork(n.1) < EndWork(me) + EndWork(you)
  {
    assert me.serving == (me.serving - {step.id}) + {step.id};
    assert |me.serving - {step.id}| == |me.serving| - 1;
    WeightPut(you.inbox, Response(step.id, step.answer));
    assert Weight([Response(step.id, step.answer)]) == 1 + Weight([]);
  }

  lemma ReturnWorks(me: End, you: End, step: Step, clock: nat)
    requires step.Return? && step.id in me.open
    ensures var n := NextPair(me, you, step, clock); EndWork(n.0) + EndWork(n.1) < EndWork(me) + EndWork(you)
  {
    assert me.open == (me.open - {step.id}) + {step.id};
  }

  lemma ProgressWorks(s: Network, step: Step)
    requires Inv(s) && Enabled(s, step) && Progress(step)
    ensures Work(Next(s, step)) < Work(s)
  {
    FactsHold(s, step);
    var me, you := s.At(step.side), s.At(Peer(step.side));
    match step
    case Deliver(_) => DeliverWorks(me, you, step, s.clock);
    case Finish(_, _, _, _) => FinishWorks(me, you, step, s.clock);
    case Return(_, _) => ReturnWorks(me, you, step, s.clock);
  }

  ghost predicate KeepsAll(e: End) {
    forall id {:trigger e.place[id]} :: id in e.open && id in e.place ==> e.place[id] != Lost
  }

  lemma PairLosesNothing(me: End, you: End, step: Step, clock: nat)
    requires StepFacts(me, you, step) && Progress(step) && KeepsAll(me) && KeepsAll(you)
    ensures var n := NextPair(me, you, step, clock);
      KeepsAll(n.0) && KeepsAll(n.1) && n.0.reading == me.reading && n.1.reading == you.reading
  {
  }

  lemma ProgressLosesNothing(s: Network, step: Step)
    requires Inv(s) && Enabled(s, step) && Progress(step) && NothingLost(s)
    ensures NothingLost(Next(s, step))
    ensures Next(s, step).parent.reading == s.parent.reading && Next(s, step).worker.reading == s.worker.reading
  {
    FactsHold(s, step);
    PairLosesNothing(s.At(step.side), s.At(Peer(step.side)), step, s.clock);
  }

  /** A waiting call in flight goes on waiting in flight, or is answered. */
  ghost predicate WaitsOrAnswered(e: End, id: nat) {
    && id in e.futures && (e.futures[id] == Waiting || e.futures[id].Completed?)
    && (e.futures[id] == Waiting ==> id in e.open)
  }

  lemma ProgressAnswers(s: Network, step: Step, side: Side, id: nat)
    requires Inv(s) && Enabled(s, step) && Progress(step) && WaitsOrAnswered(s.At(side), id)
    ensures WaitsOrAnswered(Next(s, step).At(side), id)
  {
    var e, n := s.At(side), Next(s, step).At(side);
    StepSettles(s, step, side);
    if e.futures[id] == Waiting {
      WaitingEndsIff(s, step, side, id, Result(0));
      InFlightIff(s, step, side, id);
      assert n.futures[id] != Cancelled && n.futures[id] != ReaderGone;
    }
  }

  lemma {:induction false} AllProgressAnswers(s: Network, steps: seq<Step>, side: Side, id: nat)
    requires Inv(s) && Run(s, steps).Some? && AllProgress(steps) && WaitsOrAnswered(s.At(side), id)
    ensures WaitsOrAnswered(Run(s, steps).value.At(side), id)
    decreases |steps|
  {
    if steps != [] {
      assert Progress(steps[0]) && AllProgress(steps[1..]);
      StepKeeps(s, steps[0]);
      ProgressAnswers(s, steps[0], side, id);
      AllProgressAnswers(Next(s, steps[0]), steps[1..], side, id);
    }
  }

  /** The call has the answer that was on its way, or that its task finished with. */
  ghost predicate AnsweredIn(s: Network, steps: seq<Step>, side: Side, id: nat) {
    && Run(s, steps).Some? && id in Run(s, steps).value.At(side).futures
    && var f := Run(s, steps).value.At(side).futures[id];
    && f.Completed?
    && (HasAnswer(s.At(side), id, f.answer) || Finish(Peer(side), id, f.answer, true) in steps)
  }

  /** A call that waited in flight and returned by progress alone returned with its answer. */
  lemma ReturnsAnswered(s: Network, steps: seq<Step>, side: Side, id: nat)
    requires Inv(s) && Run(s, steps).Some? && AllProgress(steps)
    requires id in s.At(side).open && id in s.At(side).futures && s.At(side).futures[id] == Waiting
    requires id !in Run(s, steps).value.At(side).open
    ensures AnsweredIn(s, steps, side, id)
  {
    AllProgressAnswers(s, steps, side, id);
    RunKeeps(s, steps);
    var end := Run(s, steps).value;
    InvEitherWay(end, side);
    assert CallInv(end.At(side), side, id);
    RunAnswers(s, steps, side, id, end.At(side).futures[id].answer);
  }

  /** From every such state all calls in flight, nested as they may be, can return
      within `Work` deliveries, answers and resumptions, those that wait with their answer. */
  lemma Drains(s: Network) returns (steps: seq<Step>)
    requires Inv(s) && NothingLost(s) && s.parent.reading && s.worker.reading
    ensures |steps| <= Work(s) && AllProgress(steps)
    ensures Run(s, steps).Some?
    ensures var end := Run(s, steps).value; end.parent.open == {} && end.worker.open == {}
    ensures forall side, id {:trigger AnsweredIn(s, steps, side, id)} ::
      id in s.At(side).open && id in s.At(side).futures && s.At(side).futures[id] == Waiting ==>
        AnsweredIn(s, steps, side, id)
  {
    steps := DrainSteps(s);
    forall side, id | id in s.At(side).open && id in s.At(side).futures && s.At(side).futures[id] == Waiting
      ensures AnsweredIn(s, steps, side, id)
    {
      ReturnsAnswered(s, steps, side, id);
    }
  }

  lemma {:induction false} DrainSteps(s: Network) returns (steps: seq<Step>)
    requires Inv(s) && NothingLost(s) && s.parent.reading && s.worker.reading
    ensures |steps| <= Work(s) && AllProgress(steps)
    ensures Run(s, steps).Some?
    ensures var end := Run(s, steps).value; end.parent.open == {} && end.worker.open == {}
    decreases Work(s)
  {
    if s.parent.open == {} && s.worker.open == {} {
      steps := [];
    } else {
      var step := SomethingMoves(s);
      StepKeeps(s, step);
      ProgressWorks(s, step);
      ProgressLosesNothing(s, step);
      var rest := DrainSteps(Next(s, step));
      steps := [step] + rest;
      RunCons(s, step, rest);
      ProgressCons(step, rest);
    }
  }

  predicate AllProgress(steps: seq<Step>) {
    forall i :: 0 <= i < |steps| ==> Progress(steps[i])
  }

  lemma ProgressCons(step: Step, rest: seq<Step>)
    requires Progress(step) && AllProgress(rest)
    ensures AllProgress([step] + rest)
  {
  }
}
