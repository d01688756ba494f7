/**
 The dashboard hub's event loop on values (dashboard/hub.go): registrations, removals and broadcasts are
 handled one at a time; clients read their buffers, and history replay pushes into them, at any time in
 between. The client type is a parameter, so that the objects themselves can serve as keys.
 */
module HubModel {

  const SEND_BUFFER: nat := 256
  const BROADCAST_BUFFER: nat := 256

  /** A message in a client's buffer; `live` tells the loop's messages from replayed history. */
  datatype Item = Item(body: string, live: bool)

  /**
   A client's channel and its history: what was received from it, which live messages the loop put in,
   and how many messages the loop had dequeued when the client registered.
   */
  datatype Chan = Chan(buf: seq<Item>, closes: nat, received: seq<Item>, live: seq<string>, since: nat)

  /** `chans` has every client that was ever registered. */
  datatype Hub<C> = Hub(clients: set<C>, chans: map<C, Chan>, queue: seq<string>, dequeued: seq<string>)

  datatype Step<C> =
    | Register(client: C)
    | Unregister(client: C)
    | Broadcast(message: string)
    | Deliver
    | Receive(client: C)
    | Replay(client: C, message: string)

  function NewChan(since: nat): Chan { Chan([], 0, [], [], since) }

  predicate HasRoom(ch: Chan) { |ch.buf| < SEND_BUFFER }

  function Sent(ch: Chan, message: string): Chan {
    ch.(buf := ch.buf + [Item(message, true)], live := ch.live + [message])
  }

  function Closed(ch: Chan): Chan { ch.(closes := ch.closes + 1) }

  /** A client with room gets the message, one without is dropped and its channel closed. */
  function Offered(ch: Chan, message: string): Chan {
    if HasRoom(ch) then Sent(ch, message) else Closed(ch)
  }

  predicate Consistent<C(==)>(h: Hub<C>) { h.clients <= h.chans.Keys }

  /** A client object registers once in its life. */
  predicate Enabled<C(==)>(h: Hub<C>, step: Step<C>) {
    match step
    case Register(c) => c !in h.chans
    case Deliver => h.queue != []
    case Receive(c) => c in h.chans && h.chans[c].buf != []
    case Replay(c, _) => c in h.clients
    case _ => true
  }

  function Next<C(==)>(h: Hub<C>, step: Step<C>): Hub<C>
    requires Consistent(h) && Enabled(h, step)
  {
    match step
    case Register(c) =>
      h.(clients := h.clients + {c}, chans := h.chans[c := NewChan(|h.dequeued|)])
    case Unregister(c) =>
      if c in h.clients then h.(clients := h.clients - {c}, chans := h.chans[c := Closed(h.chans[c])]) else h
    case Broadcast(m) =>
      if |h.queue| < BROADCAST_BUFFER then h.(queue := h.queue + [m]) else h
    case Deliver =>
      var m := h.queue[0];
      h.(queue := h.queue[1..], dequeued := h.dequeued + [m],
         clients := (set c | c in h.clients && HasRoom(h.chans[c])),
         chans := (map c | c in h.chans :: if c in h.clients then Offered(h.chans[c], m) else h.chans[c]))
    case Receive(c) =>
      var ch := h.chans[c];
      h.(chans := h.chans[c := ch.(buf := ch.buf[1..], received := ch.received + [ch.buf[0]])])
    case Replay(c, m) =>
      var ch := h.chans[c];
      if HasRoom(ch) then h.(chans := h.chans[c := ch.(buf := ch.buf + [Item(m, false)])]) else h
  }

  function LiveOf(s: seq<Item>): seq<string> {
    if s == [] then []
    else LiveOf(s[..|s| - 1]) + if s[|s| - 1].live then [s[|s| - 1].body] else []
  }

  lemma {:induction false} LiveConcat(a: seq<Item>, b: seq<Item>)
    ensures LiveOf(a + b) == LiveOf(a) + LiveOf(b)
    decreases |b|
  {
    if b == [] {
      assert a + b == a;
    } else {
      assert (a + b)[..|a + b| - 1] == a + b[..|b| - 1];
      LiveConcat(a, b[..|b| - 1]);
    }
  }

  /** The loop's messages to one client are a gap-free stretch of all it dequeued, from registration on. */
  predicate ChanOk(ch: Chan, dequeued: seq<string>, open: bool) {
    && |ch.buf| <= SEND_BUFFER
    && ch.closes == (if open then 0 else 1)
    && ch.since + |ch.live| <= |dequeued|
    && ch.live == dequeued[ch.since..ch.since + |ch.live|]
    && (open ==> ch.since + |ch.live| == |dequeued|)
    && LiveOf(ch.received + ch.buf) == ch.live
  }

  ghost predicate Inv<C>(h: Hub<C>) {
    && Consistent(h)
    && |h.queue| <= BROADCAST_BUFFER
    && forall c :: c in h.chans ==> ChanOk(h.chans[c], h.dequeued, c in h.clients)
  }

  lemma OfferKeeps(ch: Chan, dequeued: seq<string>, m: string)
    requires ChanOk(ch, dequeued, true)
    ensures ChanOk(Offered(ch, m), dequeued + [m], HasRoom(ch))
  {
    if HasRoom(ch) {
      assert ch.received + (ch.buf + [Item(m, true)]) == (ch.received + ch.buf) + [Item(m, true)];
      LiveConcat(ch.received + ch.buf, [Item(m, true)]);
      assert [Item(m, true)][..0] == [];
    }
  }

  lemma GrowKeeps(ch: Chan, dequeued: seq<string>, m: string)
    requires ChanOk(ch, dequeued, false)
    ensures ChanOk(ch, dequeued + [m], false)
  {
  }

  lemma ReceiveKeeps(ch: Chan, dequeued: seq<string>, open: bool)
    requires ChanOk(ch, dequeued, open) && ch.buf != []
    ensures ChanOk(ch.(buf := ch.buf[1..], received := ch.received + [ch.buf[0]]), dequeued, open)
  {
    assert (ch.received + [ch.buf[0]]) + ch.buf[1..] == ch.received + ch.buf;
  }

  lemma ReplayKeeps(ch: Chan, dequeued: seq<string>, m: string, open: bool)
    requires ChanOk(ch, dequeued, open) && HasRoom(ch)
    ensures ChanOk(ch.(buf := ch.buf + [Item(m, false)]), dequeued, open)
  {
    assert ch.received + (ch.buf + [Item(m, false)]) == (ch.received + ch.buf) + [Item(m, false)];
    LiveConcat(ch.received + ch.buf, [Item(m, false)]);
    assert [Item(m, false)][..0] == [];
  }

  lemma StepKeepsInv<C>(h: Hub<C>, step: Step<C>)
    requires Inv(h) && Enabled(h, step)
    ensures Inv(Next(h, step))
  {
    var h' := Next(h, step);
    forall c | c in h'.chans ensures ChanOk(h'.chans[c], h'.dequeued, c in h'.clients) {
      if c in h.chans {
        var ch := h.chans[c];
        assert ChanOk(ch, h.dequeued, c in h.clients);
        match step
        case Deliver =>
          if c in h.clients {
            OfferKeeps(ch, h.dequeued, h.queue[0]);
          } else {
            GrowKeeps(ch, h.dequeued, h.queue[0]);
          }
        case Receive(d) => if c == d { ReceiveKeeps(ch, h.dequeued, c in h.clients); }
        case Replay(d, m) => if c == d && HasRoom(ch) { ReplayKeeps(ch, h.dequeued, m, true); }
        case _ =>
      }
    }
  }

  predicate Possible<C(==)>(h: Hub<C>, steps: seq<Step<C>>)
    requires Consistent(h)
    decreases |steps|
  {
    steps != [] ==> Enabled(h, steps[0]) && Consistent(Next(h, steps[0])) && Possible(Next(h, steps[0]), steps[1..])
  }

  function Run<C(==)>(h: Hub<C>, steps: seq<Step<C>>): Hub<C>
    requires Consistent(h) && Possible(h, steps)
    decreases |steps|
  {
    if steps == [] then h else Run(Next(h, steps[0]), steps[1..])
  }

  lemma {:induction false} RunKeepsInv<C>(h: Hub<C>, steps: seq<Step<C>>)
    requires Inv(h) && Possible(h, steps)
    ensures Inv(Run(h, steps))
    decreases |steps|
  {
    if steps != [] {
      StepKeepsInv(h, steps[0]);
      RunKeepsInv(Next(h, steps[0]), steps[1..]);
    }
  }

  function Start<C>(): Hub<C> { Hub({}, map[], [], []) }

  // ---- What is broadcast and what arrives ----

  /** The messages broadcast while fewer than 256 were waiting, in order: the others are dropped. */
  function Accepted<C(==)>(h: Hub<C>, steps: seq<Step<C>>): seq<string>
    requires Consistent(h) && Possible(h, steps)
    decreases |steps|
  {
    if steps == [] then []
    else
      (if steps[0].Broadcast? && |h.queue| < 256 then [steps[0].message] else [])
      + Accepted(Next(h, steps[0]), steps[1..])
  }

  /** The broadcast channel is first-in-first-out and loses nothing it accepted. */
  lemma {:induction false} QueueKeepsTheOrder<C>(h: Hub<C>, steps: seq<Step<C>>)
    requires Consistent(h) && Possible(h, steps)
    ensures var r := Run(h, steps); r.dequeued + r.queue == h.dequeued + h.queue + Accepted(h, steps)
    decreases |steps|
  {
    if steps != [] {
      var h' := Next(h, steps[0]);
      var first := if steps[0].Broadcast? && |h.queue| < 256 then [steps[0].message] else [];
      assert h'.dequeued + h'.queue == h.dequeued + h.queue + first;
      QueueKeepsTheOrder(h', steps[1..]);
      assert h.dequeued + h.queue + first + Accepted(h', steps[1..]) == h.dequeued + h.queue + (first + Accepted(h', steps[1..]));
    }
  }

  /** What one step puts into a client's buffer: a delivery or a replay that finds fewer than 256 messages there. */
  function PushedBy<C(==)>(h: Hub<C>, step: Step<C>, c: C): seq<Item>
    requires Consistent(h) && Enabled(h, step)
  {
    if c !in h.clients || |h.chans[c].buf| >= 256 then []
    else
      match step
      case Deliver => [Item(h.queue[0], true)]
      case Replay(d, m) => if d == c then [Item(m, false)] else []
      case _ => []
  }

  function Pushed<C(==)>(h: Hub<C>, steps: seq<Step<C>>, c: C): seq<Item>
    requires Consistent(h) && Possible(h, steps)
    decreases |steps|
  {
    if steps == [] then [] else PushedBy(h, steps[0], c) + Pushed(Next(h, steps[0]), steps[1..], c)
  }

  /** What a client has received and has still to read. */
  function ItemsOf<C(==)>(h: Hub<C>, c: C): seq<Item> {
    if c in h.chans then h.chans[c].received + h.chans[c].buf else []
  }

  lemma PushedNext<C>(h: Hub<C>, step: Step<C>, c: C)
    requires Consistent(h) && Enabled(h, step)
    ensures ItemsOf(Next(h, step), c) == ItemsOf(h, c) + PushedBy(h, step, c)
  {
    if step.Receive? && step.client == c {
      var ch := h.chans[c];
      assert (ch.received + [ch.buf[0]]) + ch.buf[1..] == ch.received + ch.buf;
    } else if c in h.chans && PushedBy(h, step, c) != [] {
      var ch := h.chans[c];
      assert ch.received + (ch.buf + PushedBy(h, step, c)) == (ch.received + ch.buf) + PushedBy(h, step, c);
    }
  }

  /** A client receives exactly what was put into its buffer, live and replayed messages alike, in that order. */
  lemma {:induction false} EverythingPushedArrives<C>(h: Hub<C>, steps: seq<Step<C>>, c: C)
    requires Consistent(h) && Possible(h, steps)
    ensures ItemsOf(Run(h, steps), c) == ItemsOf(h, c) + Pushed(h, steps, c)
    decreases |steps|
  {
    if steps != [] {
      PushedNext(h, steps[0], c);
      EverythingPushedArrives(Next(h, steps[0]), steps[1..], c);
      assert ItemsOf(h, c) + PushedBy(h, steps[0], c) + Pushed(Next(h, steps[0]), steps[1..], c)
        == ItemsOf(h, c) + (PushedBy(h, steps[0], c) + Pushed(Next(h, steps[0]), steps[1..], c));
    }
  }

  /**
   In every run: each client ever registered has been sent a contiguous stretch of the accepted broadcasts,
   in the order they were sent, that begins with the first not yet taken from the queue when it registered,
   and all that have been taken since while it stays connected; what it has received and
   still has in its buffer is exactly that, in order; its channel is closed once if it is gone and not at
   all while it is connected, so the loop never sends on a closed channel nor closes one twice.
   */
  lemma {:induction false} EveryClientGetsAContiguousStretch<C>(steps: seq<Step<C>>, c: C)
    requires Consistent(Start<C>()) && Possible(Start<C>(), steps)
    requires c in Run(Start<C>(), steps).chans
    ensures var h := Run(Start<C>(), steps); var ch := h.chans[c]; var sent := Accepted(Start<C>(), steps);
      && h.dequeued + h.queue == sent
      && ch.since + |ch.live| <= |h.dequeued| && ch.live == sent[ch.since..ch.since + |ch.live|]
      && (c in h.clients ==> ch.live == h.dequeued[ch.since..])
      && LiveOf(ch.received) + LiveOf(ch.buf) == ch.live
      && ch.closes == if c in h.clients then 0 else 1
  {
    RunKeepsInv(Start<C>(), steps);
    var h := Run(Start<C>(), steps);
    var ch := h.chans[c];
    assert ChanOk(ch, h.dequeued, c in h.clients);
    LiveConcat(ch.received, ch.buf);
    QueueKeepsTheOrder(Start<C>(), steps);
    assert Start<C>().dequeued + Start<C>().queue + Accepted(Start<C>(), steps) == Accepted(Start<C>(), steps);
    assert (h.dequeued + h.queue)[ch.since..ch.since + |ch.live|] == h.dequeued[ch.since..ch.since + |ch.live|];
  }

  /** Only a full buffer makes the loop drop a client, and then no other message is lost for anyone. */
  lemma DeliveryDropsOnlyTheFull<C>(h: Hub<C>, c: C)
    requires Inv(h) && h.queue != [] && c in h.clients
    ensures var h' := Next(h, Deliver);
      && (c !in h'.clients <==> |h.chans[c].buf| == 256)
      && h'.chans[c].live == h.chans[c].live + (if c in h'.clients then [h.queue[0]] else [])
  {
    assert ChanOk(h.chans[c], h.dequeued, true);
  }

  /** A client is connected from its registration until it is unregistered or found full, and by nothing else. */
  lemma ConnectedAfterStepIff<C>(h: Hub<C>, step: Step<C>, c: C)
    requires Inv(h) && Enabled(h, step)
    ensures c in Next(h, step).clients <==>
      || step == Register(c)
      || (c in h.clients && step != Unregister(c) && !(step.Deliver? && |h.chans[c].buf| == 256))
  {
    if c in h.clients {
      assert ChanOk(h.chans[c], h.dequeued, true);
    }
  }

  // ---- The agent summary cache ----

  /** Database versions stand for its contents; a version is cached, or none. */
  datatype Summaries = Summaries(version: nat, cached: nat, valid: bool, invalidated: nat)

  datatype Event = Insert | Invalidate | Query(ok: bool)

  datatype Answer = NoAnswer | Payload(version: nat)

  function Handle(s: Summaries, e: Event): (Summaries, Answer) {
    match e
    case Insert => (s.(version := s.version + 1), NoAnswer)
    case Invalidate => (s.(valid := false, invalidated := s.version), NoAnswer)
    case Query(ok) =>
      if s.valid then (s, Payload(s.cached))
      else if ok then (s.(cached := s.version, valid := true), Payload(s.version))
      else (s, NoAnswer)
  }

  predicate FreshEnough(s: Summaries) {
    s.invalidated <= s.version && s.cached <= s.version && (s.valid ==> s.invalidated <= s.cached)
  }

  function HandleAll(s: Summaries, es: seq<Event>): Summaries {
    if es == [] then s else Handle(HandleAll(s, es[..|es| - 1]), es[|es| - 1]).0
  }

  lemma {:induction false} SummariesStayFresh(s: Summaries, es: seq<Event>)
    requires FreshEnough(s)
    ensures FreshEnough(HandleAll(s, es))
  {
    if es != [] {
      SummariesStayFresh(s, es[..|es| - 1]);
    }
  }

  /** No summary is ever older than the last invalidation; with no insert since, it is current. */
  lemma {:induction false} SummariesAreNeverStale(es: seq<Event>, ok: bool)
    ensures var s := HandleAll(Summaries(0, 0, false, 0), es);
      var answer := Handle(s, Query(ok)).1;
      && (answer.Payload? ==> s.invalidated <= answer.version <= s.version)
      && (answer.Payload? && s.invalidated == s.version ==> answer.version == s.version)
  {
    SummariesStayFresh(Summaries(0, 0, false, 0), es);
  }

  /** A summary is sent whenever one is cached or the database answers. */
  lemma SummaryIsSentIff(s: Summaries, ok: bool)
    ensures Handle(s, Query(ok)).1.Payload? <==> s.valid || ok
  {
  }

  /** Until the next invalidation every query repeats the last summary, also while the database does not answer. */
  lemma {:induction false} SummaryIsReused(s: Summaries, ok: bool, es: seq<Event>, again: bool)
    requires Handle(s, Query(ok)).1.Payload? && Invalidate !in es
    ensures Handle(HandleAll(Handle(s, Query(ok)).0, es), Query(again)).1 == Handle(s, Query(ok)).1
  {
    StaysCached(Handle(s, Query(ok)).0, es);
  }

  lemma {:induction false} StaysCached(s: Summaries, es: seq<Event>)
    requires s.valid && Invalidate !in es
    ensures var r := HandleAll(s, es); r.valid && r.cached == s.cached
  {
    if es != [] {
      StaysCached(s, es[..|es| - 1]);
    }
  }
}
