/**
 The job event stream of internal/core/events/job.go: an append-only log with
 replay, live delivery, one terminal event and cancellation.

 `Emit` appends under the job's lock and pushes to subscribers after releasing
 it, so a push may interleave with anything. The classes model the locked
 sections; the state machine below interleaves those sections, one step each.
 */
module JobEvents {
  import opened Prelude

  datatype State = Started | Succeeded | Failed

  datatype Event = Event(jobId: string, step: string, state: State, detail: string, timestamp: int)

  /** Only a whole-job event, one with an empty step, ends the stream. */
  predicate EndsJob(ev: Event) {
    ev.step == "" && ev.state != Started
  }

  /** One subscriber's queue as `forward` sees it under the subscriber's lock. */
  datatype Feed = Feed(queue: seq<Event>, closed: bool, done: bool) {
    function Push(ev: Event): Feed { this.(queue := queue + [ev]) }

    function Close(): Feed { this.(closed := true) }

    function Abandon(): Feed { this.(closed := true, done := true) }

    /** What one `Emit` of `ev` does to a subscriber it was registered with. */
    function Deliver(ev: Event): Feed {
      if EndsJob(ev) then Push(ev).Close() else Push(ev)
    }
  }

  class Subscriber {
    var queue: seq<Event>
    var closed: bool
    var done: bool

    function View(): Feed
      reads this
    {
      Feed(queue, closed, done)
    }

    constructor (backlog: seq<Event>)
      ensures View() == Feed(backlog, false, false)
    {
      queue, closed, done := backlog, false, false;
    }

    method Push(ev: Event)
      modifies this
      ensures queue == old(queue) + [ev] && closed == old(closed) && done == old(done)
      ensures View() == old(View()).Push(ev)
    {
      queue := queue + [ev];
    }

    method Close()
      modifies this
      ensures queue == old(queue) && closed && done == old(done)
      ensures View() == old(View()).Close()
    {
      closed := true;
    }

    method Abandon()
      modifies this
      ensures queue == old(queue) && closed && done
      ensures View() == old(View()).Abandon()
    {
      Close();
      done := true;
    }

    /** `forward` on a closed subscriber whose caller keeps reading: what the
        channel carries before it closes is the whole queue, in order. */
    method Forward() returns (out: seq<Event>)
      requires closed && !done
      modifies this
      ensures out == old(queue)
      ensures View() == Feed([], true, false)
    {
      out := [];
      while queue != []
        invariant out + queue == old(queue)
        invariant closed && !done
        decreases |queue|
      {
        var ev := queue[0];
        queue := queue[1..];
        out := out + [ev];
      }
    }
  }

  /** The second half of `Emit`, outside the job's lock, when nothing interferes. */
  method PushAll(targets: map<nat, Subscriber>, ev: Event)
    requires forall j, k :: j in targets && k in targets && targets[j] == targets[k] ==> j == k
    modifies targets.Values
    ensures forall k :: k in targets ==> targets[k].View() == old(targets[k].View()).Deliver(ev)
  {
    var todo := targets.Keys;
    while todo != {}
      invariant todo <= targets.Keys
      invariant forall k :: k in todo ==> targets[k].View() == old(targets[k].View())
      invariant forall k :: k in targets && k !in todo ==> targets[k].View() == old(targets[k].View()).Deliver(ev)
      decreases |todo|
    {
      var k :| k in todo;
      targets[k].Push(ev);
      if EndsJob(ev) {
        targets[k].Close();
      }
      todo := todo - {k};
    }
  }

  /** A job as its subscribers see it: the log, whether it ended, and the registered feeds. */
  datatype JobView = JobView(log: seq<Event>, terminal: bool, feeds: map<nat, Feed>) {
    function Emit(ev: Event): JobView {
      JobView(log + [ev], EndsJob(ev), if EndsJob(ev) then map[] else map k | k in feeds :: feeds[k].Deliver(ev))
    }

    function Subscribe(handle: nat): JobView {
      if terminal then this else this.(feeds := feeds[handle := Feed(log, false, false)])
    }
  }

  class Job {
    const id: string
    var events: seq<Event>
    var subs: map<nat, Subscriber>
    var nextSub: nat
    var terminal: bool

    ghost predicate Valid()
      reads this
    {
      && (forall k :: k in subs ==> k < nextSub)
      && (forall j, k :: j in subs && k in subs && subs[j] == subs[k] ==> j == k)
      && (terminal ==> subs == map[])
      && LogShape(events, terminal)
    }

    ghost function View(): JobView
      reads this, subs.Values
    {
      JobView(events, terminal, map k | k in subs :: subs[k].View())
    }

    constructor (id: string)
      ensures Valid() && this.id == id && events == [] && subs == map[] && !terminal
    {
      this.id, events, subs, nextSub, terminal := id, [], map[], 0, false;
    }

    /** The panic of an emit after the terminal event is the `None` result. */
    method Emit(step: string, state: State, detail: string, now: int) returns (r: Option<Event>)
      requires Valid()
      modifies this, subs.Values
      ensures Valid() && nextSub == old(nextSub)
      ensures r == if old(terminal) then None else Some(Event(id, step, state, detail, now))
      ensures events == old(events) + (if r.Some? then [r.value] else [])
      ensures terminal == (old(terminal) || EndsJob(r.value))
      ensures subs == if terminal then map[] else old(subs)
      ensures r.Some? ==> forall k :: k in old(subs) ==> old(subs)[k].View() == old(subs[k].View()).Deliver(r.value)
      ensures r.Some? ==> (terminal <==> step == "" && (state == Succeeded || state == Failed))
      ensures r.Some? ==> forall k :: k in old(subs) ==>
                && old(subs)[k].queue == old(subs[k].queue) + [r.value]
                && (old(subs)[k].closed <==> old(subs[k].closed) || terminal)
                && (old(subs)[k].done <==> old(subs[k].done))
      ensures View() == if r.Some? then old(View()).Emit(r.value) else old(View())
    {
      hide LogShape;
      if terminal {
        return None;
      }
      var ev := Event(id, step, state, detail, now);
      LogGrows(events, ev);
      events := events + [ev];
      var targets := subs;
      if EndsJob(ev) {
        terminal := true;
        subs := map[];
      }
      PushAll(targets, ev);
      return Some(ev);
    }

    /** A subscriber starts with the whole log; `id` is absent once the job has ended. */
    method Subscribe() returns (sub: Subscriber, handle: Option<nat>)
      requires Valid()
      modifies this
      ensures Valid() && fresh(sub)
      ensures events == old(events) && terminal == old(terminal)
      ensures sub.View() == Feed(events, terminal, false)
      ensures terminal ==> handle == None && subs == old(subs) && nextSub == old(nextSub)
      ensures !terminal ==> handle == Some(old(nextSub)) && subs == old(subs)[old(nextSub) := sub]
      ensures View() == old(View()).Subscribe(old(nextSub))
    {
      sub := new Subscriber(events);
      if terminal {
        sub.Close();
        return sub, None;
      }
      handle := Some(nextSub);
      nextSub := nextSub + 1;
      subs := subs[handle.value := sub];
    }

    method Cancel(handle: Option<nat>, sub: Subscriber)
      requires Valid()
      modifies this, sub
      ensures Valid() && events == old(events) && terminal == old(terminal) && nextSub == old(nextSub)
      ensures subs == if handle.Some? then old(subs) - {handle.value} else old(subs)
      ensures sub.queue == old(sub.queue) && sub.closed && sub.done
      ensures sub.View() == old(sub.View()).Abandon()
    {
      if handle.Some? {
        subs := subs - {handle.value};
      }
      sub.Abandon();
    }
  }

  /** The log holds a terminal event exactly when the job is terminal, and then only at its end. */
  ghost predicate LogShape(log: seq<Event>, terminal: bool) {
    && (forall i :: 0 <= i < |log| - 1 ==> !EndsJob(log[i]))
    && (terminal <==> log != [] && EndsJob(Last(log)))
  }

  lemma LogGrows(log: seq<Event>, ev: Event)
    requires LogShape(log, false)
    ensures LogShape(log + [ev], EndsJob(ev))
  {
  }

  // The interleaving of the locked sections.

  /** One subscription: its feed, what `forward` holds between its dequeue and its
      send, what its reader received, and whether the channel is closed. */
  datatype Client = Client(feed: Feed, hand: Option<Event>, received: seq<Event>, ended: bool, cancelled: bool) {
    function Taken(): seq<Event> {
      received + (if hand.Some? then [hand.value] else []) + feed.queue
    }

    /** The same events without their order. */
    ghost function Held(): multiset<Event> {
      multiset(received) + (if hand.Some? then multiset{hand.value} else multiset{}) + multiset(feed.queue)
    }
  }

  /** An `Emit` that has released the job's lock: who still has to be pushed to,
      and whom it pushed to but has yet to close. */
  datatype Delivery = Delivery(ev: Event, todo: set<nat>, closing: Option<nat>)

  datatype System = System(
    log: seq<Event>, terminal: bool, registered: set<nat>, next: nat,
    clients: map<nat, Client>, deliveries: seq<Delivery>)

  datatype Step =
    | Append(ev: Event)
    | PushTo(emit: nat, who: nat)
    | CloseOne(emit: nat)
    | Return(emit: nat)
    | Subscribe
    | Take(who: nat)
    | Send(who: nat)
    | Drop(who: nat)
    | Exit(who: nat)
    | Unregister(who: nat)
    | Abandon(who: nat)

  const INITIAL := System([], false, {}, 0, map[], [])

  predicate Enabled(s: System, step: Step) {
    match step
    case Append(_) => !s.terminal
    case PushTo(e, w) =>
      e < |s.deliveries| && w in s.deliveries[e].todo && w in s.clients && s.deliveries[e].closing.None?
    case CloseOne(e) =>
      e < |s.deliveries| && s.deliveries[e].closing.Some? && s.deliveries[e].closing.value in s.clients
    case Return(e) => e < |s.deliveries| && s.deliveries[e].todo == {} && s.deliveries[e].closing.None?
    case Subscribe => true
    case Take(w) => w in s.clients && !s.clients[w].ended && s.clients[w].hand.None? && s.clients[w].feed.queue != []
    case Send(w) => w in s.clients && !s.clients[w].ended && s.clients[w].hand.Some?
    case Drop(w) => w in s.clients && !s.clients[w].ended && s.clients[w].hand.Some? && s.clients[w].feed.done
    case Exit(w) => w in s.clients && !s.clients[w].ended && s.clients[w].hand.None?
                    && s.clients[w].feed.queue == [] && s.clients[w].feed.closed
    case Unregister(w) => w in s.clients
    case Abandon(w) => w in s.clients && s.clients[w].cancelled
  }

  function Next(s: System, step: Step): System
    requires Enabled(s, step)
  {
    match step
    case Append(ev) =>
      s.(log := s.log + [ev],
         terminal := EndsJob(ev),
         registered := if EndsJob(ev) then {} else s.registered,
         deliveries := s.deliveries + [Delivery(ev, s.registered, None)])
    case PushTo(e, w) =>
      var d := s.deliveries[e];
      var c := s.clients[w];
      s.(clients := s.clients[w := c.(feed := c.feed.Push(d.ev))],
         deliveries := s.deliveries[e := d.(todo := d.todo - {w}, closing := if EndsJob(d.ev) then Some(w) else None)])
    case CloseOne(e) =>
      var d := s.deliveries[e];
      var c := s.clients[d.closing.value];
      s.(clients := s.clients[d.closing.value := c.(feed := c.feed.Close())],
         deliveries := s.deliveries[e := d.(closing := None)])
    case Return(e) =>
      s.(deliveries := s.deliveries[..e] + s.deliveries[e + 1..])
    case Subscribe =>
      s.(next := s.next + 1,
         registered := if s.terminal then s.registered else s.registered + {s.next},
         clients := s.clients[s.next := Client(Feed(s.log, s.terminal, false), None, [], false, false)])
    case Take(w) =>
      var c := s.clients[w];
      s.(clients := s.clients[w := c.(feed := c.feed.(queue := c.feed.queue[1..]), hand := Some(c.feed.queue[0]))])
    case Send(w) =>
      var c := s.clients[w];
      s.(clients := s.clients[w := c.(hand := None, received := c.received + [c.hand.value])])
    case Drop(w) =>
      s.(clients := s.clients[w := s.clients[w].(hand := None, ended := true)])
    case Exit(w) =>
      s.(clients := s.clients[w := s.clients[w].(ended := true)])
    case Unregister(w) =>
      s.(registered := s.registered - {w}, clients := s.clients[w := s.clients[w].(cancelled := true)])
    case Abandon(w) =>
      s.(clients := s.clients[w := s.clients[w].(feed := s.clients[w].feed.Abandon())])
  }

  /** Every step of the run is enabled where it is taken. */
  predicate IsRun(s: System, steps: seq<Step>)
    decreases |steps|
  {
    steps == [] || (Enabled(s, steps[0]) && IsRun(Next(s, steps[0]), steps[1..]))
  }

  function Exec(s: System, steps: seq<Step>): System
    requires IsRun(s, steps)
    decreases |steps|
  {
    if steps == [] then s else Exec(Next(s, steps[0]), steps[1..])
  }

  /** One emitter at a time: an emit starts only after the last one returned. */
  predicate OneEmitter(s: System, steps: seq<Step>)
    requires IsRun(s, steps)
    decreases |steps|
  {
    steps != [] ==> (steps[0].Append? ==> s.deliveries == []) && OneEmitter(Next(s, steps[0]), steps[1..])
  }

  /** The events emitted but not yet pushed to `w`, in the order of their emits. */
  function Pending(ds: seq<Delivery>, w: nat): seq<Event> {
    if ds == [] then [] else (if w in ds[0].todo then [ds[0].ev] else []) + Pending(ds[1..], w)
  }

  ghost predicate Shape(s: System) {
    && s.registered <= s.clients.Keys
    && (forall w :: w in s.clients ==> w < s.next)
    && (forall e :: 0 <= e < |s.deliveries| ==> s.deliveries[e].todo <= s.clients.Keys)
    && (s.terminal ==> s.registered == {})
    && (forall w :: w in s.clients && !s.clients[w].cancelled ==>
          !s.clients[w].feed.done && (!s.terminal ==> w in s.registered))
    && LogShape(s.log, s.terminal)
  }

  /** Nothing is lost and nothing is duplicated, whatever overlaps. */
  ghost predicate Conserved(s: System) {
    forall w :: w in s.clients && !s.clients[w].cancelled ==> ClientConserved(s, w)
  }

  /** With one emitter the order is the log's, and a closed feed is a finished one. */
  ghost predicate Ordered(s: System) {
    && |s.deliveries| <= 1
    && (forall w :: w in s.clients && !s.clients[w].cancelled ==> ClientOrdered(s, w))
    && (|s.deliveries| == 1 && s.deliveries[0].closing.Some? ==>
          s.terminal && s.deliveries[0].closing.value !in s.deliveries[0].todo)
    && (|s.deliveries| == 1 && EndsJob(s.deliveries[0].ev) ==> s.terminal)
  }

  ghost predicate ClientOrdered(s: System, w: nat)
    requires w in s.clients
  {
    var c := s.clients[w];
    && c.Taken() + Pending(s.deliveries, w) == s.log
    && (c.feed.closed ==> s.terminal && Pending(s.deliveries, w) == [])
    && (c.ended ==> c.feed.closed && c.hand.None? && c.feed.queue == [])
  }

  lemma {:induction false} PendingAppend(ds: seq<Delivery>, d: Delivery, w: nat)
    ensures Pending(ds + [d], w) == Pending(ds, w) + (if w in d.todo then [d.ev] else [])
  {
    if ds == [] {
      assert ds + [d] == [d];
    } else {
      PendingAppend(ds[1..], d, w);
      assert (ds + [d])[1..] == ds[1..] + [d];
    }
  }

  lemma {:induction false} PendingRemove(ds: seq<Delivery>, e: nat, w: nat)
    requires e < |ds| && w !in ds[e].todo
    ensures Pending(ds[..e] + ds[e + 1..], w) == Pending(ds, w)
  {
    if e == 0 {
      assert ds[..0] + ds[1..] == ds[1..];
    } else {
      PendingRemove(ds[1..], e - 1, w);
      assert (ds[..e] + ds[e + 1..])[1..] == ds[1..][..e - 1] + ds[1..][e..];
    }
  }

  lemma {:induction false} PendingUpdate(ds: seq<Delivery>, e: nat, d: Delivery, w: nat)
    requires e < |ds| && d.ev == ds[e].ev
    ensures (w in d.todo <==> w in ds[e].todo) ==> Pending(ds[e := d], w) == Pending(ds, w)
    ensures w !in d.todo && w in ds[e].todo ==>
              multiset(Pending(ds[e := d], w)) + multiset{d.ev} == multiset(Pending(ds, w))
  {
    if e == 0 {
      assert ds[e := d][1..] == ds[1..];
      assert Pending(ds, w) == (if w in ds[0].todo then [ds[0].ev] else []) + Pending(ds[1..], w);
    } else {
      PendingUpdate(ds[1..], e - 1, d, w);
      assert ds[e := d][1..] == ds[1..][e - 1 := d];
      assert Pending(ds, w) == (if w in ds[0].todo then [ds[0].ev] else []) + Pending(ds[1..], w);
      assert Pending(ds[e := d], w) == (if w in ds[0].todo then [ds[0].ev] else []) + Pending(ds[1..][e - 1 := d], w);
    }
  }

  lemma AppendKeepsShape(s: System, ev: Event)
    requires Shape(s) && Enabled(s, Append(ev))
    ensures Shape(Next(s, Append(ev)))
  {
    var t := Next(s, Append(ev));
    assert forall i :: 0 <= i < |t.log| - 1 ==> t.log[i] == s.log[i];
  }

  lemma DeliveryKeepsShape(s: System, step: Step)
    requires Shape(s) && Enabled(s, step) && (step.PushTo? || step.CloseOne? || step.Return?)
    ensures Shape(Next(s, step))
  {
    hide LogShape;
  }

  lemma NewcomerKeepsShape(s: System)
    requires Shape(s)
    ensures Shape(Next(s, Subscribe))
  {
    hide LogShape;
  }

  lemma ForwardKeepsShape(s: System, step: Step)
    requires Shape(s) && Enabled(s, step) && (step.Take? || step.Send? || step.Drop? || step.Exit?)
    ensures Shape(Next(s, step))
  {
    hide LogShape;
  }

  lemma CancelKeepsShape(s: System, step: Step)
    requires Shape(s) && Enabled(s, step) && (step.Unregister? || step.Abandon?)
    ensures Shape(Next(s, step))
  {
    hide LogShape;
  }

  lemma NextKeepsShape(s: System, step: Step)
    requires Shape(s) && Enabled(s, step)
    ensures Shape(Next(s, step))
  {
    hide *;
    match step
    case Append(ev) => AppendKeepsShape(s, ev);
    case Subscribe => NewcomerKeepsShape(s);
    case Unregister(_) => CancelKeepsShape(s, step);
    case Abandon(_) => CancelKeepsShape(s, step);
    case PushTo(_, _) => DeliveryKeepsShape(s, step);
    case CloseOne(_) => DeliveryKeepsShape(s, step);
    case Return(_) => DeliveryKeepsShape(s, step);
    case _ => ForwardKeepsShape(s, step);
  }

  ghost predicate ClientConserved(s: System, w: nat)
    requires w in s.clients
  {
    s.clients[w].Held() + multiset(Pending(s.deliveries, w)) == multiset(s.log)
  }

  lemma AppendConserves(s: System, ev: Event, w: nat)
    requires Shape(s) && !s.terminal && w in s.registered && ClientConserved(s, w)
    ensures ClientConserved(Next(s, Append(ev)), w)
  {
    PendingAppend(s.deliveries, Delivery(ev, s.registered, None), w);
  }

  lemma PushConserves(s: System, e: nat, v: nat, w: nat)
    requires Enabled(s, PushTo(e, v)) && w in s.clients && ClientConserved(s, w)
    ensures ClientConserved(Next(s, PushTo(e, v)), w)
  {
    hide Pending;
    var t := Next(s, PushTo(e, v));
    PendingUpdate(s.deliveries, e, t.deliveries[e], w);
    if v == w {
      assert t.clients[w].Held() == s.clients[w].Held() + multiset{s.deliveries[e].ev};
    }
  }

  lemma TakeKeepsHeld(c: Client)
    requires c.hand.None? && c.feed.queue != []
    ensures c.(feed := c.feed.(queue := c.feed.queue[1..]), hand := Some(c.feed.queue[0])).Held() == c.Held()
  {
    var q := c.feed.queue;
    assert q == [q[0]] + q[1..];
  }

  lemma SendKeepsHeld(c: Client)
    requires c.hand.Some?
    ensures c.(hand := None, received := c.received + [c.hand.value]).Held() == c.Held()
  {
  }

  lemma ForwardConserves(s: System, step: Step, w: nat)
    requires step.Take? || step.Send?
    requires Enabled(s, step) && w in s.clients && ClientConserved(s, w)
    ensures ClientConserved(Next(s, step), w)
  {
    hide Pending;
    if step.who == w && step.Take? {
      TakeKeepsHeld(s.clients[w]);
    } else if step.who == w {
      SendKeepsHeld(s.clients[w]);
    }
    assert Next(s, step).clients[w].Held() == s.clients[w].Held();
    hide *;
    SameHoldings(s, Next(s, step), w) by {
      StepLeavesLog(s, step);
    }
  }

  lemma StepLeavesLog(s: System, step: Step)
    requires Enabled(s, step) && !step.Append? && !step.PushTo? && !step.CloseOne? && !step.Return?
    ensures Next(s, step).log == s.log && Next(s, step).deliveries == s.deliveries
    ensures forall w :: w in s.clients ==> w in Next(s, step).clients
  {
  }

  lemma SameHoldings(s: System, t: System, w: nat)
    requires w in s.clients && w in t.clients && t.clients[w].Held() == s.clients[w].Held()
    requires t.log == s.log && t.deliveries == s.deliveries && ClientConserved(s, w)
    ensures ClientConserved(t, w)
  {
    hide Pending;
  }

  lemma DeliveryEndConserves(s: System, step: Step, w: nat)
    requires step.CloseOne? || step.Return?
    requires Enabled(s, step) && w in s.clients && ClientConserved(s, w)
    ensures ClientConserved(Next(s, step), w)
  {
    hide Pending;
    match step
    case CloseOne(e) => PendingUpdate(s.deliveries, e, Next(s, step).deliveries[e], w);
    case Return(e) => PendingRemove(s.deliveries, e, w);
  }

  /** A step that moves no event of `w`. */
  lemma IdleKeepsHeld(s: System, step: Step, w: nat)
    requires step.Subscribe? || step.Exit? || step.Unregister? || step.Abandon? || step.Drop?
    requires Enabled(s, step) && w in s.clients && w < s.next
    requires step.Drop? ==> step.who != w
    ensures w in Next(s, step).clients
    ensures Next(s, step).clients[w].Held() == s.clients[w].Held()
  {
  }

  lemma IdleConserves(s: System, step: Step, w: nat)
    requires step.Subscribe? || step.Exit? || step.Unregister? || step.Abandon? || step.Drop?
    requires Enabled(s, step) && w in s.clients && w < s.next && ClientConserved(s, w)
    requires step.Drop? ==> step.who != w
    ensures ClientConserved(Next(s, step), w)
  {
    hide *;
    IdleKeepsHeld(s, step, w);
    StepLeavesLog(s, step);
    SameHoldings(s, Next(s, step), w);
  }

  lemma NewcomerConserves(s: System)
    requires Shape(s)
    ensures ClientConserved(Next(s, Subscribe), s.next)
  {
    NoDeliveryToStranger(s.deliveries, s.next);
  }

  lemma StepConserves(s: System, step: Step, w: nat)
    requires Shape(s) && Enabled(s, step) && w in s.clients && !s.clients[w].cancelled && ClientConserved(s, w)
    ensures ClientConserved(Next(s, step), w)
  {
    hide Pending, ClientConserved, Next;
    match step
    case Append(ev) => AppendConserves(s, ev, w);
    case PushTo(e, v) => PushConserves(s, e, v, w);
    case CloseOne(_) => DeliveryEndConserves(s, step, w);
    case Return(_) => DeliveryEndConserves(s, step, w);
    case Take(_) => ForwardConserves(s, step, w);
    case Send(_) => ForwardConserves(s, step, w);
    case _ => IdleConserves(s, step, w);
  }

  lemma NextConserves(s: System, step: Step)
    requires Shape(s) && Conserved(s) && Enabled(s, step)
    ensures Conserved(Next(s, step))
  {
    hide Pending, ClientConserved;
    forall w | w in Next(s, step).clients && !Next(s, step).clients[w].cancelled
      ensures ClientConserved(Next(s, step), w)
    {
      if step.Subscribe? && w == s.next {
        NewcomerConserves(s);
      } else {
        StepConserves(s, step, w);
      }
    }
  }

  lemma {:induction false} NoDeliveryToStranger(ds: seq<Delivery>, w: nat)
    requires forall e :: 0 <= e < |ds| ==> w !in ds[e].todo
    ensures Pending(ds, w) == []
  {
    if ds != [] {
      NoDeliveryToStranger(ds[1..], w);
    }
  }

  lemma PendingOfOne(ds: seq<Delivery>, w: nat)
    requires |ds| <= 1
    ensures Pending(ds, w) == if ds != [] && w in ds[0].todo then [ds[0].ev] else []
  {
  }

  lemma AppendKeepsOrder(s: System, ev: Event, w: nat)
    requires Shape(s) && !s.terminal && s.deliveries == [] && w in s.registered && ClientOrdered(s, w)
    ensures ClientOrdered(Next(s, Append(ev)), w)
  {
    hide Pending;
    PendingOfOne(s.deliveries, w);
    PendingOfOne(Next(s, Append(ev)).deliveries, w);
  }

  lemma PushKeepsOrder(s: System, e: nat, v: nat, w: nat)
    requires Enabled(s, PushTo(e, v)) && w in s.clients && Ordered(s) && !s.clients[w].cancelled
    ensures ClientOrdered(Next(s, PushTo(e, v)), w)
  {
    hide Pending;
    assert ClientOrdered(s, w);
    PendingOfOne(s.deliveries, w);
    PendingOfOne(Next(s, PushTo(e, v)).deliveries, w);
    if v == w {
      assert Next(s, PushTo(e, v)).clients[w].Taken() == s.clients[w].Taken() + [s.deliveries[0].ev];
    }
  }

  lemma ForwardKeepsOrder(s: System, step: Step, w: nat)
    requires step.Take? || step.Send? || step.Exit?
    requires Enabled(s, step) && w in s.clients && ClientOrdered(s, w)
    ensures ClientOrdered(Next(s, step), w)
  {
    hide Pending;
    var q := s.clients[w].feed.queue;
    if step.Take? && step.who == w {
      assert q == [q[0]] + q[1..];
    }
    assert Next(s, step).clients[w].Taken() == s.clients[w].Taken();
  }

  lemma DeliveryEndKeepsOrder(s: System, step: Step, w: nat)
    requires step.CloseOne? || step.Return?
    requires Shape(s) && Ordered(s) && Enabled(s, step) && w in s.clients && !s.clients[w].cancelled
    ensures ClientOrdered(Next(s, step), w)
  {
    hide Pending;
    assert ClientOrdered(s, w);
    PendingOfOne(s.deliveries, w);
    PendingOfOne(Next(s, step).deliveries, w);
  }

  lemma IdleKeepsOrder(s: System, step: Step, w: nat)
    requires step.Subscribe? || step.Unregister? || step.Abandon? || step.Drop?
    requires Enabled(s, step) && w in s.clients && w < s.next && ClientOrdered(s, w)
    requires (step.Drop? || step.Abandon?) ==> step.who != w
    ensures ClientOrdered(Next(s, step), w)
  {
    hide Pending;
  }

  lemma NewcomerIsOrdered(s: System)
    requires Shape(s)
    ensures ClientOrdered(Next(s, Subscribe), s.next)
  {
    NoDeliveryToStranger(s.deliveries, s.next);
    assert Next(s, Subscribe).clients[s.next].Taken() == s.log;
  }

  lemma StepKeepsOrder(s: System, step: Step, w: nat)
    requires Shape(s) && Ordered(s) && Enabled(s, step) && (step.Append? ==> s.deliveries == [])
    requires w in s.clients && !s.clients[w].cancelled
    ensures ClientOrdered(Next(s, step), w)
  {
    hide Pending, ClientOrdered, Next;
    match step
    case Append(ev) => AppendKeepsOrder(s, ev, w);
    case PushTo(e, v) => PushKeepsOrder(s, e, v, w);
    case CloseOne(_) => DeliveryEndKeepsOrder(s, step, w);
    case Return(_) => DeliveryEndKeepsOrder(s, step, w);
    case Take(_) => ForwardKeepsOrder(s, step, w);
    case Send(_) => ForwardKeepsOrder(s, step, w);
    case Exit(_) => ForwardKeepsOrder(s, step, w);
    case _ => IdleKeepsOrder(s, step, w);
  }

  lemma NextKeepsOrdered(s: System, step: Step)
    requires Shape(s) && Ordered(s) && Enabled(s, step) && (step.Append? ==> s.deliveries == [])
    ensures Ordered(Next(s, step))
  {
    hide Pending, ClientOrdered;
    forall w | w in Next(s, step).clients && !Next(s, step).clients[w].cancelled
      ensures ClientOrdered(Next(s, step), w)
    {
      if step.Subscribe? && w == s.next {
        NewcomerIsOrdered(s);
      } else {
        StepKeepsOrder(s, step, w);
      }
    }
  }

  lemma {:induction false} RunConserves(s: System, steps: seq<Step>)
    requires Shape(s) && Conserved(s) && IsRun(s, steps)
    ensures Shape(Exec(s, steps)) && Conserved(Exec(s, steps))
    decreases |steps|
  {
    if steps != [] {
      NextKeepsShape(s, steps[0]);
      NextConserves(s, steps[0]);
      RunConserves(Next(s, steps[0]), steps[1..]);
    }
  }

  lemma {:induction false} RunKeepsOrdered(s: System, steps: seq<Step>)
    requires Shape(s) && Ordered(s) && IsRun(s, steps) && OneEmitter(s, steps)
    ensures Shape(Exec(s, steps)) && Ordered(Exec(s, steps))
    decreases |steps|
  {
    if steps != [] {
      NextKeepsShape(s, steps[0]);
      NextKeepsOrdered(s, steps[0]);
      RunKeepsOrdered(Next(s, steps[0]), steps[1..]);
    }
  }

  /** Under every interleaving, overlapping emits included, a subscriber whose
      caller has not cancelled has each logged event exactly once: received, in
      hand, queued, or still to be pushed. */
  lemma EveryEventExactlyOnce(steps: seq<Step>, w: nat)
    requires IsRun(INITIAL, steps)
    requires w in Exec(INITIAL, steps).clients && !Exec(INITIAL, steps).clients[w].cancelled
    ensures var s := Exec(INITIAL, steps);
            s.clients[w].Held() + multiset(Pending(s.deliveries, w)) == multiset(s.log)
  {
    RunConserves(INITIAL, steps);
    assert ClientConserved(Exec(INITIAL, steps), w);
  }

  /** With one emitter at a time the stream is the log itself: in order, whenever
      the subscriber attached, and the channel closes only once the whole log,
      which ends in its one terminal event, was received. */
  lemma StreamIsTheLog(steps: seq<Step>, w: nat)
    requires IsRun(INITIAL, steps) && OneEmitter(INITIAL, steps)
    requires w in Exec(INITIAL, steps).clients && !Exec(INITIAL, steps).clients[w].cancelled
    ensures var s := Exec(INITIAL, steps);
            && s.clients[w].Taken() + Pending(s.deliveries, w) == s.log
            && (s.clients[w].ended ==>
                  && s.clients[w].received == s.log != []
                  && Last(s.log).step == "" && (Last(s.log).state == Succeeded || Last(s.log).state == Failed)
                  && forall i :: 0 <= i < |s.log| - 1 ==> s.log[i].step != "" || s.log[i].state == Started)
  {
    RunKeepsOrdered(INITIAL, steps);
    OpenExactly(steps);
    hide Exec, IsRun, OneEmitter;
    assert ClientOrdered(Exec(INITIAL, steps), w);
  }

  /** Read off the log, whatever ran: the job takes another event exactly while the last one logged is
      not a whole-job success or failure, and none before the last is one. */
  lemma OpenExactly(steps: seq<Step>)
    requires IsRun(INITIAL, steps)
    ensures var s := Exec(INITIAL, steps);
            && (forall ev :: Enabled(s, Append(ev)) <==>
                  s.log == [] || Last(s.log).step != "" || Last(s.log).state == Started)
            && (forall i :: 0 <= i < |s.log| - 1 ==> s.log[i].step != "" || s.log[i].state == Started)
  {
    RunConserves(INITIAL, steps);
    hide Exec, IsRun;
  }

  /** A whole-job success and a whole-job failure both end the log: from any state, whatever runs after
      such an event, nothing more is logged, no emit is accepted and nobody is registered. */
  lemma EndIsFinal(s: System, ev: Event, after: seq<Step>, late: Event)
    requires Enabled(s, Append(ev)) && IsRun(Next(s, Append(ev)), after)
    requires ev.step == "" && (ev.state == Succeeded || ev.state == Failed)
    ensures var t := Exec(Next(s, Append(ev)), after);
            t.log == s.log + [ev] && !Enabled(t, Append(late)) && t.registered == {}
  {
    EndedStaysEnded(Next(s, Append(ev)), after);
  }

  lemma {:induction false} EndedStaysEnded(s: System, steps: seq<Step>)
    requires s.terminal && s.registered == {} && IsRun(s, steps)
    ensures var t := Exec(s, steps);
            t.terminal && t.registered == {} && t.log == s.log
    decreases |steps|
  {
    if steps != [] {
      assert Next(s, steps[0]).terminal && Next(s, steps[0]).log == s.log && Next(s, steps[0]).registered == {};
      hide Next, Enabled;
      EndedStaysEnded(Next(s, steps[0]), steps[1..]);
    }
  }

  /** No wake-up is lost: once the last event logged is a whole-job success or failure, no emit is in
      flight and the forwarder of `w` has no step left, its channel is closed and complete. */
  lemma StuckMeansComplete(steps: seq<Step>, w: nat)
    requires IsRun(INITIAL, steps) && OneEmitter(INITIAL, steps)
    requires var s := Exec(INITIAL, steps);
             && s.log != [] && Last(s.log).step == "" && (Last(s.log).state == Succeeded || Last(s.log).state == Failed)
             && s.deliveries == [] && w in s.clients && !s.clients[w].cancelled
             && !Enabled(s, Take(w)) && !Enabled(s, Send(w)) && !Enabled(s, Exit(w))
    ensures Exec(INITIAL, steps).clients[w].ended
    ensures Exec(INITIAL, steps).clients[w].received == Exec(INITIAL, steps).log
  {
    RunKeepsOrdered(INITIAL, steps);
    RunCloses(INITIAL, steps);
    assert Exec(INITIAL, steps).terminal;
    assert ClientOrdered(Exec(INITIAL, steps), w);
  }

  // When the forwarder leaves.

  /** Only the end of the job closes a feed whose reader stays, and only its terminal event is going to. */
  ghost predicate ClosedAtEnd(s: System) {
    && (forall w :: w in s.clients && !s.clients[w].cancelled && s.clients[w].feed.closed ==> s.terminal)
    && (forall e :: 0 <= e < |s.deliveries| && (EndsJob(s.deliveries[e].ev) || s.deliveries[e].closing.Some?) ==>
          s.terminal)
  }

  lemma NextClosesAtEnd(s: System, step: Step)
    requires ClosedAtEnd(s) && Enabled(s, step)
    ensures ClosedAtEnd(Next(s, step))
  {
  }

  lemma {:induction false} RunClosesAtEnd(s: System, steps: seq<Step>)
    requires ClosedAtEnd(s) && IsRun(s, steps)
    ensures ClosedAtEnd(Exec(s, steps))
    decreases |steps|
  {
    if steps != [] {
      hide ClosedAtEnd, Next, Enabled;
      NextClosesAtEnd(s, steps[0]);
      RunClosesAtEnd(Next(s, steps[0]), steps[1..]);
    }
  }

  /** After the end nothing is logged, and a reader whose channel closed receives nothing. */
  lemma {:induction false} NothingMoreIsReceived(s: System, steps: seq<Step>, w: nat)
    requires IsRun(s, steps) && s.terminal && w in s.clients && s.clients[w].ended && w < s.next
    ensures var t := Exec(s, steps);
            t.log == s.log && w in t.clients && t.clients[w].received == s.clients[w].received
    decreases |steps|
  {
    if steps != [] {
      StepReceivesNothing(s, steps[0], w);
      hide Next, Enabled;
      NothingMoreIsReceived(Next(s, steps[0]), steps[1..], w);
    }
  }

  lemma StepReceivesNothing(s: System, step: Step, w: nat)
    requires Enabled(s, step) && s.terminal && w in s.clients && s.clients[w].ended && w < s.next
    ensures var t := Next(s, step);
            t.log == s.log && t.terminal && w in t.clients && t.clients[w].ended && w < t.next
            && t.clients[w].received == s.clients[w].received
  {
  }

  /** What a reader misses is decided when its forwarder finds the closed queue empty and leaves, and is
      final: whatever overlaps and whatever runs afterwards, it has missed an event exactly when one was
      still to be pushed to it at that moment. */
  lemma MissesExactly(before: seq<Step>, w: nat, after: seq<Step>)
    requires IsRun(INITIAL, before) && Enabled(Exec(INITIAL, before), Exit(w))
    requires !Exec(INITIAL, before).clients[w].cancelled
    requires IsRun(Next(Exec(INITIAL, before), Exit(w)), after)
    ensures var s := Exec(INITIAL, before);
            var t := Exec(Next(s, Exit(w)), after);
            w in t.clients
            && (multiset(t.clients[w].received) != multiset(t.log) <==> Pending(s.deliveries, w) != [])
  {
    assert ClosedAtEnd(INITIAL);
    RunClosesAtEnd(INITIAL, before);
    RunConserves(INITIAL, before);
    EveryEventExactlyOnce(before, w);
    assert w < Exec(INITIAL, before).next;
    hide Exec, IsRun, Pending;
    var s := Exec(INITIAL, before);
    var left := Next(s, Exit(w));
    assert left.log == s.log && left.clients[w].received == s.clients[w].received && left.clients[w].ended;
    NothingMoreIsReceived(left, after, w);
    var pending := Pending(s.deliveries, w);
    assert multiset(s.clients[w].received) + multiset(pending) == multiset(s.log);
    assert |multiset(pending)| == |pending|;
    assert |multiset(s.log)| == |multiset(s.clients[w].received)| + |pending|;
  }

  /** A forwarder waits for nobody but its reader: by taking and sending alone, whatever the job does, it
      gets to the reader everything it holds, in order. */
  lemma {:induction false} ForwarderDrains(s: System, w: nat) returns (steps: seq<Step>)
    requires w in s.clients && !s.clients[w].ended
    ensures IsRun(s, steps) && forall step :: step in steps ==> step == Take(w) || step == Send(w)
    ensures w in Exec(s, steps).clients
    ensures var before, after := s.clients[w], Exec(s, steps).clients[w];
            && after.received == before.received + (if before.hand.Some? then [before.hand.value] else [])
                                 + before.feed.queue
            && after.hand.None? && after.feed.queue == [] && !after.ended
    decreases |s.clients[w].feed.queue|, if s.clients[w].hand.Some? then 1 else 0
  {
    var c := s.clients[w];
    if c.hand.None? && c.feed.queue == [] {
      return [];
    }
    var step := if c.hand.Some? then Send(w) else Take(w);
    var rest := ForwarderDrains(Next(s, step), w);
    steps := [step] + rest;
    assert steps[1..] == rest && steps[0] == step;
  }

  /** An abandoned subscriber's forwarder ends by itself: from anywhere it has at most two steps to go, and
      its reader need not take anything. */
  lemma AbandonedLeaves(s: System, w: nat) returns (steps: seq<Step>)
    requires w in s.clients && s.clients[w].feed.done && s.clients[w].feed.closed && !s.clients[w].ended
    ensures |steps| <= 2 && Send(w) !in steps && IsRun(s, steps)
    ensures w in Exec(s, steps).clients && Exec(s, steps).clients[w].ended
  {
    forall step: Step ensures [step][1..] == [] {
    }
    if s.clients[w].hand.Some? {
      steps := [Drop(w)];
      assert Next(s, Drop(w)).clients[w].ended;
    } else if s.clients[w].feed.queue == [] {
      steps := [Exit(w)];
      assert Next(s, Exit(w)).clients[w].ended;
    } else {
      steps := [Take(w), Drop(w)];
      var t := Next(s, Take(w));
      assert steps[1..] == [Drop(w)] && Next(t, Drop(w)).clients[w].ended;
      assert Exec(t, [Drop(w)]) == Next(t, Drop(w));
    }
  }

  // A relay: a reader that emits what it receives on another job, leaving out whole-job events.

  function StepEvents(log: seq<Event>): seq<Event> {
    if log == [] then [] else PassedOn(log[0]) + StepEvents(log[1..])
  }

  function PassedOn(ev: Event): seq<Event> {
    if ev.step == "" then [] else [ev]
  }

  /** Step events are those with a step, each as often as in the log. */
  lemma {:induction false} StepEventsAre(log: seq<Event>, ev: Event)
    ensures multiset(StepEvents(log))[ev] == if ev.step != "" then multiset(log)[ev] else 0
  {
    if log != [] {
      StepEventsAre(log[1..], ev);
      assert log == [log[0]] + log[1..];
    }
  }

  lemma {:induction false} StepEventsConcat(a: seq<Event>, b: seq<Event>)
    ensures StepEvents(a + b) == StepEvents(a) + StepEvents(b)
  {
    hide PassedOn;
    if a == [] {
      assert a + b == b;
    } else {
      StepEventsConcat(a[1..], b);
      assert (a + b)[1..] == a[1..] + b && (a + b)[0] == a[0];
    }
  }

  /** While the job runs, what its relay has passed on, having handled `n` of the events received, is a
      leading part of the log's step events in order; once the stream closed and all were handled, it
      is all of them. */
  lemma RelayIsLive(steps: seq<Step>, w: nat, n: nat)
    requires IsRun(INITIAL, steps) && OneEmitter(INITIAL, steps)
    requires w in Exec(INITIAL, steps).clients && !Exec(INITIAL, steps).clients[w].cancelled
    requires n <= |Exec(INITIAL, steps).clients[w].received|
    ensures var s := Exec(INITIAL, steps);
            var passed := StepEvents(s.clients[w].received[..n]);
            && passed <= StepEvents(s.log)
            && (s.clients[w].ended && n == |s.clients[w].received| ==> passed == StepEvents(s.log))
  {
    StreamIsTheLog(steps, w);
    hide Exec, IsRun, OneEmitter, StepEvents;
    var s := Exec(INITIAL, steps);
    var c := s.clients[w];
    var inHand := if c.hand.Some? then [c.hand.value] else [];
    var rest := c.received[n..] + inHand + c.feed.queue + Pending(s.deliveries, w);
    assert s.log == c.received[..n] + rest;
    StepEventsConcat(c.received[..n], rest);
    assert c.received[..|c.received|] == c.received;
  }

  /** After the terminal event, whoever is not closed is still to be pushed to or to be closed. */
  ghost predicate Closing(s: System) {
    s.terminal ==> forall w :: w in s.clients && !s.clients[w].cancelled && !s.clients[w].feed.closed ==>
      && |s.deliveries| == 1 && EndsJob(s.deliveries[0].ev)
      && (w in s.deliveries[0].todo || s.deliveries[0].closing == Some(w))
  }

  lemma {:induction false} RunCloses(s: System, steps: seq<Step>)
    requires Shape(s) && Ordered(s) && Closing(s) && IsRun(s, steps) && OneEmitter(s, steps)
    ensures Closing(Exec(s, steps))
    decreases |steps|
  {
    if steps != [] {
      NextKeepsShape(s, steps[0]);
      NextKeepsOrdered(s, steps[0]);
      NextCloses(s, steps[0]);
      RunCloses(Next(s, steps[0]), steps[1..]);
    }
  }

  predicate CanStep(s: System, step: Step) {
    Enabled(s, step) && (step.Append? ==> s.deliveries == [])
  }

  lemma AppendCloses(s: System, step: Step)
    requires Shape(s) && Ordered(s) && Closing(s) && CanStep(s, step) && step.Append?
    ensures Closing(Next(s, step))
  {
  }

  lemma PushCloses(s: System, step: Step)
    requires Shape(s) && Ordered(s) && Closing(s) && CanStep(s, step) && step.PushTo?
    ensures Closing(Next(s, step))
  {
  }

  lemma CloseCloses(s: System, step: Step)
    requires Shape(s) && Ordered(s) && Closing(s) && CanStep(s, step) && step.CloseOne?
    ensures Closing(Next(s, step))
  {
  }

  lemma ReturnCloses(s: System, step: Step)
    requires Shape(s) && Ordered(s) && Closing(s) && CanStep(s, step) && step.Return?
    ensures Closing(Next(s, step))
  {
  }

  lemma NewcomerCloses(s: System, step: Step)
    requires Shape(s) && Ordered(s) && Closing(s) && CanStep(s, step) && step.Subscribe?
    ensures Closing(Next(s, step))
  {
  }

  lemma ForwardCloses(s: System, step: Step)
    requires Shape(s) && Ordered(s) && Closing(s) && CanStep(s, step)
    requires step.Take? || step.Send? || step.Drop? || step.Exit?
    ensures Closing(Next(s, step))
  {
  }

  lemma CancelCloses(s: System, step: Step)
    requires Shape(s) && Ordered(s) && Closing(s) && CanStep(s, step)
    requires step.Unregister? || step.Abandon?
    ensures Closing(Next(s, step))
  {
  }

  lemma NextCloses(s: System, step: Step)
    requires Shape(s) && Ordered(s) && Closing(s) && CanStep(s, step)
    ensures Closing(Next(s, step))
  {
    hide *;
    match step
    case Append(_) => AppendCloses(s, step);
    case PushTo(_, _) => PushCloses(s, step);
    case CloseOne(_) => CloseCloses(s, step);
    case Return(_) => ReturnCloses(s, step);
    case Subscribe => NewcomerCloses(s, step);
    case Unregister(_) => CancelCloses(s, step);
    case Abandon(_) => CancelCloses(s, step);
    case _ => ForwardCloses(s, step);
  }

  const STARTED := Event("job", "step", Started, "", 0)
  const DONE := Event("job", "", Succeeded, "", 1)

  /** Two emits in flight at once, both still to be pushed to subscriber 0. */
  const OVERLAPPED := System([STARTED, DONE], true, {}, 1,
                             map[0 := Client(Feed([], false, false), None, [], false, false)],
                             [Delivery(STARTED, {0}, None), Delivery(DONE, {0}, None)])

  /** The terminal emit pushed and closed first, and the reader drained the feed. */
  const SHORTENED := System([STARTED, DONE], true, {}, 1,
                            map[0 := Client(Feed([], true, false), None, [DONE], true, false)],
                            [Delivery(STARTED, {0}, None), Delivery(DONE, {}, None)])

  lemma ReachOverlapped(rest: seq<Step>) returns (steps: seq<Step>)
    requires IsRun(OVERLAPPED, rest)
    ensures IsRun(INITIAL, steps) && Exec(INITIAL, steps) == Exec(OVERLAPPED, rest)
  {
    hide IsRun, Exec;
    var s1 := Next(INITIAL, Subscribe);
    assert s1.registered == {0};
    var s2 := Next(s1, Append(STARTED));
    assert Next(s2, Append(DONE)).deliveries == OVERLAPPED.deliveries;
    assert Next(s2, Append(DONE)) == OVERLAPPED;
    steps := RunCons(s2, Append(DONE), rest);
    steps := RunCons(s1, Append(STARTED), steps);
    steps := RunCons(INITIAL, Subscribe, steps);
  }

  lemma ReachShortened(rest: seq<Step>) returns (steps: seq<Step>)
    requires IsRun(SHORTENED, rest)
    ensures IsRun(OVERLAPPED, steps) && Exec(OVERLAPPED, steps) == Exec(SHORTENED, rest)
  {
    hide IsRun, Exec;
    var s1 := Next(OVERLAPPED, PushTo(1, 0));
    assert s1.deliveries[1].todo == {};
    var s2 := Next(s1, CloseOne(1));
    var s3 := Next(s2, Take(0));
    var s4 := Next(s3, Send(0));
    assert s4.deliveries == SHORTENED.deliveries;
    assert s4.clients[0].feed.queue == [] && s4.clients[0].received == [DONE];
    assert Next(s4, Exit(0)).clients == SHORTENED.clients;
    assert Next(s4, Exit(0)) == SHORTENED;
    steps := RunCons(s4, Exit(0), rest);
    steps := RunCons(s3, Send(0), steps);
    steps := RunCons(s2, Take(0), steps);
    steps := RunCons(s1, CloseOne(1), steps);
    steps := RunCons(OVERLAPPED, PushTo(1, 0), steps);
  }

  /** Why one emitter: of two overlapping emits the terminal one may push and close
      first, and the reader then sees its channel close without the other event. */
  lemma OverlapLosesAnEvent()
    ensures exists steps :: IsRun(INITIAL, steps) && Exec(INITIAL, steps).clients.Keys == {0} &&
                            var c := Exec(INITIAL, steps).clients[0];
                            !c.cancelled && c.ended && c.received != Exec(INITIAL, steps).log
  {
    var tail := ReachShortened([]);
    var steps := ReachOverlapped(tail);
    assert Exec(INITIAL, steps) == SHORTENED;
  }

  lemma RunCons(s: System, step: Step, rest: seq<Step>) returns (steps: seq<Step>)
    requires Enabled(s, step) && IsRun(Next(s, step), rest)
    ensures steps == [step] + rest && IsRun(s, steps) && Exec(s, steps) == Exec(Next(s, step), rest)
  {
    steps := [step] + rest;
  }

  // A job's methods are runs of the system.

  /** The system as its subscribers see it. */
  function ViewOf(s: System): JobView {
    JobView(s.log, s.terminal, map w | w in s.registered && w in s.clients :: s.clients[w].feed)
  }

  function Delivered(clients: map<nat, Client>, order: seq<nat>, ev: Event): map<nat, Client> {
    map w | w in clients ::
      if w in order then clients[w].(feed := clients[w].feed.Deliver(ev)) else clients[w]
  }

  /** The pushes of one emit, each with its close where the event ends the job. */
  function PushSteps(e: nat, order: seq<nat>, closes: bool): seq<Step> {
    if order == [] then []
    else [PushTo(e, order[0])] + (if closes then [CloseOne(e)] else []) + PushSteps(e, order[1..], closes)
  }

  function EmitSteps(e: nat, ev: Event, order: seq<nat>): seq<Step> {
    [Append(ev)] + PushSteps(e, order, EndsJob(ev)) + [Return(e)]
  }

  lemma {:induction false} RunConcat(s: System, a: seq<Step>, b: seq<Step>)
    requires IsRun(s, a) && IsRun(Exec(s, a), b)
    ensures IsRun(s, a + b) && Exec(s, a + b) == Exec(Exec(s, a), b)
    decreases |a|
  {
    hide Next, Enabled;
    if a == [] {
      assert a + b == b;
    } else {
      assert (a + b)[1..] == a[1..] + b && (a + b)[0] == a[0];
      RunConcat(Next(s, a[0]), a[1..], b);
    }
  }

  /** The state once the pushes of delivery `e` to `order` are made. */
  function Pushed(s: System, e: nat, order: seq<nat>): System
    requires e < |s.deliveries|
  {
    var d := s.deliveries[e];
    s.(clients := Delivered(s.clients, order, d.ev),
       deliveries := s.deliveries[e := d.(todo := d.todo - set w | w in order)])
  }

  lemma PushOne(s: System, e: nat, w: nat)
    requires e < |s.deliveries| && s.deliveries[e].closing.None? && w in s.deliveries[e].todo && w in s.clients
    ensures var steps := [PushTo(e, w)] + if EndsJob(s.deliveries[e].ev) then [CloseOne(e)] else [];
            IsRun(s, steps) && Exec(s, steps) == Pushed(s, e, [w])
  {
    var d := s.deliveries[e];
    var one := Next(s, PushTo(e, w));
    var rest := if EndsJob(d.ev) then [CloseOne(e)] else [];
    assert ([PushTo(e, w)] + rest)[1..] == rest;
    assert (set v | v in [w]) == {w} && d.todo - (set v | v in [w]) == d.todo - {w};
    assert Pushed(s, e, [w]).deliveries[e] == d.(todo := d.todo - {w});
    if EndsJob(d.ev) {
      var two := Next(one, CloseOne(e));
      assert rest[1..] == [] && Exec(one, rest) == two;
      assert two.clients == Pushed(s, e, [w]).clients;
      assert two.deliveries[e] == d.(todo := d.todo - {w});
      assert two.deliveries == Pushed(s, e, [w]).deliveries;
    } else {
      assert one.clients == Pushed(s, e, [w]).clients;
      assert one.deliveries[e] == d.(todo := d.todo - {w});
      assert one.deliveries == Pushed(s, e, [w]).deliveries;
    }
  }

  lemma PushedInTurn(s: System, e: nat, w: nat, rest: seq<nat>)
    requires e < |s.deliveries| && w !in rest
    ensures Pushed(Pushed(s, e, [w]), e, rest) == Pushed(s, e, [w] + rest)
  {
    var both := [w] + rest;
    var ev := s.deliveries[e].ev;
    assert Delivered(Delivered(s.clients, [w], ev), rest, ev) == Delivered(s.clients, both, ev);
    assert (set v | v in both) == {w} + set v | v in rest;
    var d := s.deliveries[e];
    assert d.todo - (set v | v in [w]) - (set v | v in rest) == d.todo - set v | v in both;
  }

  lemma {:induction false} PushAllSteps(s: System, e: nat, order: seq<nat>)
    requires e < |s.deliveries| && s.deliveries[e].closing.None? && Distinct(order)
    requires forall w :: w in order ==> w in s.deliveries[e].todo && w in s.clients
    ensures var steps := PushSteps(e, order, EndsJob(s.deliveries[e].ev));
            IsRun(s, steps) && Exec(s, steps) == Pushed(s, e, order)
    decreases |order|
  {
    var closes := EndsJob(s.deliveries[e].ev);
    if order == [] {
      assert Delivered(s.clients, [], s.deliveries[e].ev) == s.clients;
      assert s.deliveries[e].todo - (set v | v in []) == s.deliveries[e].todo;
      assert Pushed(s, e, []).deliveries == s.deliveries;
      assert Pushed(s, e, []) == s;
    } else {
      var w, rest := order[0], order[1..];
      assert order == [w] + rest && w !in rest;
      PushOne(s, e, w);
      var one := Pushed(s, e, [w]);
      PushAllSteps(one, e, rest);
      PushedInTurn(s, e, w, rest);
      hide Next, Enabled, IsRun, Exec, Pushed;
      RunConcat(s, [PushTo(e, w)] + if closes then [CloseOne(e)] else [], PushSteps(e, rest, closes));
    }
  }

  /** With nothing in between, Append, each PushTo with its CloseOne and Return do to the job what Emit
      does, and to each subscriber registered before it what Deliver says, in any order of them. */
  lemma EmitIsItsSteps(s: System, ev: Event, order: seq<nat>)
    requires Shape(s) && !s.terminal && Distinct(order) && forall w :: w in order <==> w in s.registered
    ensures var steps := EmitSteps(|s.deliveries|, ev, order);
            && IsRun(s, steps)
            && ViewOf(Exec(s, steps)) == ViewOf(s).Emit(ev)
            && Exec(s, steps).clients == Delivered(s.clients, order, ev)
            && Exec(s, steps).deliveries == s.deliveries && Exec(s, steps).next == s.next
  {
    var e := |s.deliveries|;
    var appended := Next(s, Append(ev));
    PushAllSteps(appended, e, order);
    var pushed := Pushed(appended, e, order);
    assert pushed.deliveries[e].todo == {};
    assert pushed.deliveries[..e] == s.deliveries && pushed.deliveries[e + 1..] == [];
    var returned := Next(pushed, Return(e));
    assert returned.deliveries == s.deliveries;
    EmitRun(s, ev, order, appended, pushed);
    hide IsRun, Exec;
    assert ViewOf(returned).feeds == ViewOf(s).Emit(ev).feeds;
  }

  lemma EmitRun(s: System, ev: Event, order: seq<nat>, appended: System, pushed: System)
    requires var e := |s.deliveries|;
             && Enabled(s, Append(ev)) && appended == Next(s, Append(ev))
             && IsRun(appended, PushSteps(e, order, EndsJob(ev)))
             && pushed == Exec(appended, PushSteps(e, order, EndsJob(ev))) && Enabled(pushed, Return(e))
    ensures var steps := EmitSteps(|s.deliveries|, ev, order);
            IsRun(s, steps) && Exec(s, steps) == Next(pushed, Return(|s.deliveries|))
  {
    hide Next, Enabled;
    var e, pushes := |s.deliveries|, PushSteps(|s.deliveries|, order, EndsJob(ev));
    var first, last := [Append(ev)], [Return(e)];
    assert first[1..] == [] && last[1..] == [];
    assert IsRun(s, first) && Exec(s, first) == appended;
    assert IsRun(pushed, last) && Exec(pushed, last) == Next(pushed, Return(e));
    RunConcat(s, first, pushes);
    RunConcat(s, first + pushes, last);
  }

  lemma SubscribeIsItsStep(s: System)
    requires Shape(s)
    ensures ViewOf(Next(s, Subscribe)) == ViewOf(s).Subscribe(s.next)
  {
    assert ViewOf(Next(s, Subscribe)).feeds == ViewOf(s).Subscribe(s.next).feeds;
  }
}
