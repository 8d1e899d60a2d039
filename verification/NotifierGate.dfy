/**
 The websocket notifier: the response gate, the event queue and the writer loop, run
 concurrently with the connection's request handler and any number of producers.

 One step of the machine is one lock-protected block (or one channel operation) of the code.
 */
module NotifierGate {
  import opened Common
  import opened Traces

  const QUEUE_CAPACITY := 50

  datatype Event = Note(id: Id, payload: nat) | UnsubSignal

  /** What the client sees on the websocket, in the order it is written. */
  datatype Frame = Response(ids: set<Id>) | Notification(id: Id, payload: nat)

  /** The channel pointer `subscriptionIdPending`; channels are numbered as they are made. */
  datatype Gate = Gate(pending: Option<nat>, closed: set<nat>, next: nat)

  /**
   The request handler. `ids` are the subscriptions of the current batch whose response is not
   written yet; a handler that is gone keeps those it never answered.
   */
  datatype Handler =
    | Reading
    | Serving(ids: set<Id>, subscribing: bool)
    | Written
    | Closing
    | Gone(ids: set<Id>)

  datatype Writer =
    | Idle
    | Dequeued(event: Event)
    | Waiting(event: Event, gate: nat)
    | Ready(event: Event)
    | Exited

  datatype State = State(
    gate: Gate,
    handler: Handler,
    writer: Writer,
    queue: seq<Event>,
    issued: set<Id>,
    enqueued: seq<Event>,
    wire: seq<Frame>)

  datatype Step =
    | ReadBatch
    | RequireResponse
    | Register(id: Id)
    | SubscribeFails
    | WriteResponse
    | LoseConnection
    | CheckPending
    | ClosePending
    | Enqueue(event: Event)
    | Dequeue
    | ReadGate
    | PassGate
    | WriteEvent
    | WriteError
    | Cancel

  // ----- the lock-protected blocks on the gate

  function Require(g: Gate): Gate {
    g.(pending := Some(g.next), next := g.next + 1)
  }

  function Sent(g: Gate): Gate {
    if g.pending.Some? then g.(pending := None, closed := g.closed + {g.pending.value}) else g
  }

  ghost predicate Open(g: Gate) {
    g.pending.Some? && g.pending.value !in g.closed
  }

  // ----- the transition system

  const INITIAL := State(Gate(Some(0), {}, 1), Reading, Idle, [], {}, [], [])

  ghost predicate Enabled(s: State, step: Step) {
    match step
    case ReadBatch => s.handler.Reading?
    case RequireResponse => s.handler.Serving? && !s.handler.subscribing
    case Register(id) => s.handler.Serving? && s.handler.subscribing && id !in s.issued
    case SubscribeFails => s.handler.Serving? && s.handler.subscribing
    case WriteResponse => s.handler.Serving? && !s.handler.subscribing
    case LoseConnection => s.handler.Reading? || s.handler.Serving?
    case CheckPending => s.handler.Written?
    case ClosePending => s.handler.Closing?
    case Enqueue(e) => !s.writer.Exited? && |s.queue| < QUEUE_CAPACITY && (e.Note? ==> e.id in s.issued)
    case Dequeue => s.writer.Idle? && s.queue != []
    case ReadGate => s.writer.Dequeued?
    case PassGate => s.writer.Waiting? && s.writer.gate in s.gate.closed
    case WriteEvent => s.writer.Ready?
    case WriteError => s.writer.Ready? && s.writer.event.Note?
    case Cancel => s.writer.Idle? || s.writer.Waiting?
  }

  ghost function Apply(s: State, step: Step): State
    requires Enabled(s, step)
  {
    match step
    case ReadBatch => s.(handler := Serving({}, false))
    case RequireResponse => s.(gate := Require(s.gate), handler := s.handler.(subscribing := true))
    case Register(id) =>
      s.(handler := Serving(s.handler.ids + {id}, false), issued := s.issued + {id})
    case SubscribeFails => s.(handler := s.handler.(subscribing := false))
    case WriteResponse => s.(handler := Written, wire := s.wire + [Response(s.handler.ids)])
    case LoseConnection => s.(handler := Gone(Outstanding(s.handler)))
    case CheckPending => s.(handler := if s.gate.pending.None? then Reading else Closing)
    case ClosePending => s.(gate := Sent(s.gate), handler := Reading)
    case Enqueue(e) => s.(queue := s.queue + [e], enqueued := s.enqueued + [e])
    case Dequeue => s.(writer := Dequeued(s.queue[0]), queue := s.queue[1..])
    case ReadGate =>
      s.(writer := if s.gate.pending.None? then Ready(s.writer.event)
                   else Waiting(s.writer.event, s.gate.pending.value))
    case PassGate => s.(writer := Ready(s.writer.event))
    case WriteEvent => s.(writer := Idle, wire := s.wire + Frames(s.writer.event))
    case WriteError => s.(writer := Exited)
    case Cancel => s.(writer := Exited)
  }

  function Outstanding(h: Handler): set<Id> {
    if h.Serving? || h.Gone? then h.ids else {}
  }

  /** The frames one event puts on the wire: a flush signal writes nothing. */
  function Frames(e: Event): seq<Frame> {
    match e
    case Note(id, payload) => [Notification(id, payload)]
    case UnsubSignal => []
  }

  ghost predicate Behaviour(states: seq<State>, steps: seq<Step>) {
    && |states| == |steps| + 1
    && states[0] == INITIAL
    && forall i {:trigger steps[i]} :: 0 <= i < |steps| ==>
         Enabled(states[i], steps[i]) && states[i + 1] == Apply(states[i], steps[i])
  }

  // ----- what the client may rely on

  ghost predicate AnsweredBefore(wire: seq<Frame>, n: nat, id: Id)
    requires n <= |wire|
  {
    exists i :: 0 <= i < n && wire[i].Response? && id in wire[i].ids
  }

  /** Every notification on the wire comes after the response that carries its id. */
  ghost predicate ResponsesFirst(wire: seq<Frame>) {
    forall j :: 0 <= j < |wire| && wire[j].Notification? ==> AnsweredBefore(wire, j, wire[j].id)
  }

  function Notifications(wire: seq<Frame>): seq<Frame> {
    Keep((f: Frame) => f.Notification?, wire)
  }

  function AllFrames(events: seq<Event>): seq<Frame> {
    if events == [] then [] else Frames(events[0]) + AllFrames(events[1..])
  }

  lemma {:induction false} AllFramesConcat(a: seq<Event>, b: seq<Event>)
    ensures AllFrames(a + b) == AllFrames(a) + AllFrames(b)
  {
    if a == [] {
      assert a + b == b;
    } else {
      assert (a + b)[1..] == a[1..] + b;
      AllFramesConcat(a[1..], b);
    }
  }

  // ----- the inductive invariant

  function InHand(w: Writer): seq<Event> {
    if w.Dequeued? || w.Waiting? || w.Ready? then [w.event] else []
  }

  ghost predicate Known(s: State, e: Event) {
    e.Note? ==> e.id in s.issued
  }

  ghost predicate GateInv(s: State) {
    && (forall c :: c in s.gate.closed ==> c < s.gate.next)
    && (s.gate.pending.Some? ==> s.gate.pending.value < s.gate.next)
    && (Outstanding(s.handler) != {} || (s.handler.Serving? && s.handler.subscribing) ==> Open(s.gate))
    && (s.writer.Waiting? ==> s.writer.gate < s.gate.next)
  }

  ghost predicate WriterInv(s: State) {
    && (forall i :: 0 <= i < |s.queue| ==> Known(s, s.queue[i]))
    && (forall i :: 0 <= i < |InHand(s.writer)| ==> Known(s, InHand(s.writer)[i]))
    && (s.writer.Waiting? && s.writer.event.Note? && s.writer.event.id in Outstanding(s.handler)
        ==> s.writer.gate !in s.gate.closed)
    && (s.writer.Ready? && s.writer.event.Note? ==> s.writer.event.id !in Outstanding(s.handler))
  }

  ghost predicate IssuedInv(s: State) {
    && Outstanding(s.handler) <= s.issued
    && forall id :: id in s.issued && id !in Outstanding(s.handler) ==> AnsweredBefore(s.wire, |s.wire|, id)
  }

  ghost predicate OrderInv(s: State) {
    && Notifications(s.wire) <= AllFrames(s.enqueued)
    && (!s.writer.Exited? ==>
          AllFrames(s.enqueued) == Notifications(s.wire) + AllFrames(InHand(s.writer)) + AllFrames(s.queue))
  }

  ghost predicate Inv(s: State) {
    GateInv(s) && WriterInv(s) && IssuedInv(s) && ResponsesFirst(s.wire) && OrderInv(s)
  }

  lemma WireGrows(wire: seq<Frame>, more: seq<Frame>)
    requires ResponsesFirst(wire)
    requires forall f :: f in more && f.Notification? ==> AnsweredBefore(wire, |wire|, f.id)
    ensures ResponsesFirst(wire + more)
    ensures forall id :: AnsweredBefore(wire, |wire|, id) ==> AnsweredBefore(wire + more, |wire + more|, id)
  {
    var w := wire + more;
    forall id | AnsweredBefore(wire, |wire|, id) ensures AnsweredBefore(w, |w|, id) {
      var i :| 0 <= i < |wire| && wire[i].Response? && id in wire[i].ids;
      assert w[i] == wire[i];
    }
    forall j | 0 <= j < |w| && w[j].Notification? ensures AnsweredBefore(w, j, w[j].id) {
      if j < |wire| {
        assert wire[j] == w[j];
        var i :| 0 <= i < j && wire[i].Response? && wire[j].id in wire[i].ids;
        assert w[i] == wire[i];
      } else {
        assert w[j] in more;
        var i :| 0 <= i < |wire| && wire[i].Response? && w[j].id in wire[i].ids;
        assert w[i] == wire[i];
      }
    }
  }

  lemma GateStep(s: State, step: Step)
    requires Inv(s) && Enabled(s, step)
    ensures GateInv(Apply(s, step)) && WriterInv(Apply(s, step))
  {
    var t := Apply(s, step);
    forall e | Known(s, e) ensures Known(t, e) {}
    if InHand(s.writer) != [] {
      assert Known(s, InHand(s.writer)[0]);
    }
    assert forall i :: 0 <= i < |t.queue| ==> Known(t, t.queue[i]);
  }

  lemma WireStep(s: State, step: Step)
    requires Inv(s) && Enabled(s, step)
    ensures IssuedInv(Apply(s, step)) && ResponsesFirst(Apply(s, step).wire)
  {
    var t := Apply(s, step);
    match step {
      case WriteResponse =>
        WireGrows(s.wire, [Response(s.handler.ids)]);
        assert t.wire[|s.wire|] == Response(s.handler.ids);
      case WriteEvent =>
        assert Known(s, InHand(s.writer)[0]);
        WireGrows(s.wire, Frames(s.writer.event));
      case _ =>
    }
  }

  lemma NotificationsAppend(wire: seq<Frame>, more: seq<Frame>)
    requires |more| <= 1
    ensures Notifications(wire + more) ==
            Notifications(wire) + if |more| == 1 && more[0].Notification? then more else []
  {
    KeepConcat((f: Frame) => f.Notification?, wire, more);
  }

  /** Order is kept by a step that only moves an event from the queue into the writer's hand. */
  lemma OrderMoves(s: State)
    requires OrderInv(s) && Enabled(s, Dequeue)
    ensures OrderInv(Apply(s, Dequeue))
  {
    var t := Apply(s, Dequeue);
    assert AllFrames(InHand(t.writer)) == Frames(s.queue[0]);
    assert AllFrames(InHand(s.writer)) == [];
    assert t.wire == s.wire && t.enqueued == s.enqueued;
  }

  lemma OrderEnqueue(s: State, e: Event)
    requires OrderInv(s) && Enabled(s, Enqueue(e))
    ensures OrderInv(Apply(s, Enqueue(e)))
  {
    FramesOfOne(e);
    AllFramesConcat(s.enqueued, [e]);
    AllFramesConcat(s.queue, [e]);
  }

  lemma FramesOfOne(e: Event)
    ensures AllFrames([e]) == Frames(e)
  {
    assert AllFrames([e][1..]) == [];
  }

  lemma OrderWrite(s: State)
    requires OrderInv(s) && Enabled(s, WriteEvent)
    ensures OrderInv(Apply(s, WriteEvent))
  {
    var f, t := Frames(s.writer.event), Apply(s, WriteEvent);
    NotificationsAppend(s.wire, f);
    assert InHand(s.writer) == [s.writer.event] && InHand(t.writer) == [];
    FramesOfOne(s.writer.event);
    assert Notifications(t.wire) == Notifications(s.wire) + f;
  }

  lemma OrderStep(s: State, step: Step)
    requires OrderInv(s) && Enabled(s, step)
    ensures OrderInv(Apply(s, step))
  {
    match step {
      case WriteResponse => NotificationsAppend(s.wire, [Response(s.handler.ids)]);
      case Enqueue(e) => OrderEnqueue(s, e);
      case Dequeue => OrderMoves(s);
      case WriteEvent => OrderWrite(s);
      case _ => OrderQuiet(s, step);
    }
  }

  /** The remaining steps touch neither the queue, nor the wire, nor the event in hand. */
  lemma OrderQuiet(s: State, step: Step)
    requires OrderInv(s) && Enabled(s, step)
    requires !step.WriteResponse? && !step.Enqueue? && !step.Dequeue? && !step.WriteEvent?
    ensures OrderInv(Apply(s, step))
  {
    var t := Apply(s, step);
    assert t.wire == s.wire && t.enqueued == s.enqueued && t.queue == s.queue;
    assert t.writer.Exited? || InHand(t.writer) == InHand(s.writer);
  }

  lemma {:induction false} InvariantHolds(states: seq<State>, steps: seq<Step>, n: nat)
    requires Behaviour(states, steps) && n < |states|
    ensures Inv(states[n])
  {
    if n > 0 {
      InvariantHolds(states, steps, n - 1);
      GateStep(states[n - 1], steps[n - 1]);
      WireStep(states[n - 1], steps[n - 1]);
      OrderStep(states[n - 1], steps[n - 1]);
    }
  }

  /**
   In every interleaving of handler, producers and writer loop, no notification is written
   before the response that carries its subscription id, and what has been written is, in
   order, a prefix of what has been enqueued.
   */
  lemma NotificationsFollowResponses(states: seq<State>, steps: seq<Step>, n: nat)
    requires Behaviour(states, steps) && n < |states|
    ensures ResponsesFirst(states[n].wire)
    ensures Notifications(states[n].wire) <= AllFrames(states[n].enqueued)
  {
    InvariantHolds(states, steps, n);
  }

  // ----- what the responses carry

  /** No id is in two responses, and none that was answered is outstanding or was never issued. */
  ghost predicate ResponsesInv(s: State) {
    && (forall i, j, id :: 0 <= i < j < |s.wire| && Carried(s.wire, i, id) ==> !Carried(s.wire, j, id))
    && (forall i, id :: 0 <= i < |s.wire| && Carried(s.wire, i, id) ==> id in s.issued && id !in Outstanding(s.handler))
  }

  ghost predicate Carried(wire: seq<Frame>, i: nat, id: Id) {
    i < |wire| && wire[i].Response? && id in wire[i].ids
  }

  lemma ResponsesStep(s: State, step: Step)
    requires ResponsesInv(s) && IssuedInv(s) && Enabled(s, step)
    ensures ResponsesInv(Apply(s, step))
  {
    var t := Apply(s, step);
    forall i, id | 0 <= i < |t.wire| && Carried(t.wire, i, id)
      ensures Carried(s.wire, i, id) || (step.WriteResponse? && i == |s.wire| && id in s.handler.ids)
    {
      assert i < |s.wire| ==> t.wire[i] == s.wire[i];
    }
  }

  lemma {:induction false} ResponsesHold(states: seq<State>, steps: seq<Step>, n: nat)
    requires Behaviour(states, steps) && n < |states|
    ensures ResponsesInv(states[n])
  {
    if n > 0 {
      ResponsesHold(states, steps, n - 1);
      InvariantHolds(states, steps, n - 1);
      ResponsesStep(states[n - 1], steps[n - 1]);
    }
  }

  /** In every reachable state each id issued is either outstanding or in one response, and never in two. */
  lemma AnsweredOnce(states: seq<State>, steps: seq<Step>, n: nat, id: Id)
    requires Behaviour(states, steps) && n < |states|
    ensures id in states[n].issued <==>
            || id in Outstanding(states[n].handler)
            || exists i :: 0 <= i < |states[n].wire| && Carried(states[n].wire, i, id)
    ensures forall i, j :: 0 <= i < j < |states[n].wire| && Carried(states[n].wire, i, id) ==>
              !Carried(states[n].wire, j, id) && id !in Outstanding(states[n].handler)
  {
    InvariantHolds(states, steps, n);
    ResponsesHold(states, steps, n);
    var s := states[n];
    if id in s.issued && id !in Outstanding(s.handler) {
      var i :| 0 <= i < |s.wire| && s.wire[i].Response? && id in s.wire[i].ids;
      assert Carried(s.wire, i, id);
    }
  }

  // ----- what is written, event by event

  /** The notifications of some events, in order. */
  function NotesOf(events: seq<Event>): seq<Event> {
    Keep((e: Event) => e.Note?, events)
  }

  /** Some frames are some notes, one frame for each, with its id and its payload. */
  ghost predicate Carries(frames: seq<Frame>, notes: seq<Event>) {
    |frames| == |notes| && forall k :: 0 <= k < |notes| ==>
      notes[k].Note? && frames[k] == Notification(notes[k].id, notes[k].payload)
  }

  lemma CarriesConcat(f: seq<Frame>, g: seq<Frame>, a: seq<Event>, b: seq<Event>)
    requires Carries(f, a) && Carries(g, b)
    ensures Carries(f + g, a + b)
  {
  }

  lemma {:induction false} FramesCarryNotes(events: seq<Event>)
    ensures Carries(AllFrames(events), NotesOf(events))
  {
    if events != [] {
      FramesCarryNotes(events[1..]);
      var head, rest := Frames(events[0]), AllFrames(events[1..]);
      CarriesConcat(head, rest, NotesOf([events[0]]), NotesOf(events[1..]));
      KeepConcat((e: Event) => e.Note?, [events[0]], events[1..]);
      assert [events[0]] + events[1..] == events;
    }
  }

  /** Frames that carry both some notes and the first of others show that these begin alike. */
  lemma CarriedIsPrefix(f: seq<Frame>, g: seq<Frame>, notes: seq<Event>)
    requires Carries(f + g, notes)
    ensures |f| <= |notes| && Carries(f, notes[..|f|]) && Carries(g, notes[|f|..])
  {
    assert forall k :: 0 <= k < |f| ==> (f + g)[k] == f[k];
    assert forall k :: 0 <= k < |g| ==> (f + g)[|f| + k] == g[k];
  }

  lemma CarriedOnce(f: seq<Frame>, a: seq<Event>, b: seq<Event>)
    requires Carries(f, a) && Carries(f, b)
    ensures a == b
  {
    forall k | 0 <= k < |a| ensures a[k] == b[k] {
    }
  }

  /**
   In every reachable state the k-th notification on the wire has the id and the payload of the k-th
   note that was enqueued, and while the writer has not exited the notes not yet written are those in
   hand and in the queue: each note is written as one frame, and nothing is lost on the way.
   */
  lemma WrittenAsEnqueued(states: seq<State>, steps: seq<Step>, n: nat)
    requires Behaviour(states, steps) && n < |states|
    ensures var written, notes := Keep((f: Frame) => f.Notification?, states[n].wire), NotesOf(states[n].enqueued);
      && |written| <= |notes|
      && (forall k :: 0 <= k < |written| ==>
            notes[k].Note? && written[k] == Notification(notes[k].id, notes[k].payload))
      && (!states[n].writer.Exited? ==>
            notes[|written|..] == NotesOf(InHand(states[n].writer) + states[n].queue))
  {
    InvariantHolds(states, steps, n);
    WrittenInState(states[n]);
  }

  lemma WrittenInState(s: State)
    requires OrderInv(s)
    ensures var written, notes := Notifications(s.wire), NotesOf(s.enqueued);
      && |written| <= |notes| && Carries(written, notes[..|written|])
      && (!s.writer.Exited? ==> notes[|written|..] == NotesOf(InHand(s.writer) + s.queue))
  {
    var written, notes := Notifications(s.wire), NotesOf(s.enqueued);
    var left := AllFrames(s.enqueued)[|written|..];
    FramesCarryNotes(s.enqueued);
    assert AllFrames(s.enqueued) == written + left;
    CarriedIsPrefix(written, left, notes);
    if !s.writer.Exited? {
      var ahead := InHand(s.writer) + s.queue;
      AllFramesConcat(InHand(s.writer), s.queue);
      assert left == AllFrames(ahead);
      FramesCarryNotes(ahead);
      CarriedOnce(left, notes[|written|..], NotesOf(ahead));
    }
  }

  // ----- when the writer can be left behind

  /** The writer waits on a channel that was replaced before anyone closed it. */
  ghost predicate Stranded(s: State) {
    && s.writer.Waiting?
    && s.writer.gate !in s.gate.closed
    && s.gate.pending != Some(s.writer.gate)
  }

  lemma StrandedStep(s: State, step: Step)
    requires GateInv(s) && Stranded(s) && Enabled(s, step)
    ensures Apply(s, step).writer.Exited? || (Stranded(Apply(s, step)) && Apply(s, step).writer == s.writer)
    ensures Notifications(Apply(s, step).wire) == Notifications(s.wire)
  {
    if step.WriteResponse? {
      NotificationsAppend(s.wire, [Response(s.handler.ids)]);
    }
  }

  /** A stranded writer stays stranded until the connection ends and never writes again. */
  lemma {:induction false} StrandedForever(states: seq<State>, steps: seq<Step>, i: nat, j: nat)
    requires Behaviour(states, steps) && i <= j < |states| && Stranded(states[i])
    ensures states[j].writer.Exited? || (Stranded(states[j]) && states[j].writer == states[i].writer)
    ensures Notifications(states[j].wire) == Notifications(states[i].wire)
  {
    if i < j {
      StrandedForever(states, steps, i, j - 1);
      InvariantHolds(states, steps, j - 1);
      var s, step := states[j - 1], steps[j - 1];
      if s.writer.Exited? {
        ExitedStep(s, step);
      } else {
        StrandedStep(s, step);
      }
    }
  }

  lemma ExitedStep(s: State, step: Step)
    requires s.writer.Exited? && Enabled(s, step)
    ensures Apply(s, step).writer.Exited? && Notifications(Apply(s, step).wire) == Notifications(s.wire)
  {
    if step.WriteResponse? {
      NotificationsAppend(s.wire, [Response(s.handler.ids)]);
    }
  }

  /** `ResponseRequired` replaces the open channel on which the writer is waiting. */
  ghost predicate Strands(s: State, step: Step) {
    && step.RequireResponse?
    && s.writer.Waiting? && s.gate.pending == Some(s.writer.gate) && s.writer.gate !in s.gate.closed
  }

  /** That step, and no other, strands a writer. */
  lemma StrandedByReplacement(s: State, step: Step)
    requires GateInv(s) && Enabled(s, step) && !Stranded(s)
    ensures Stranded(Apply(s, step)) <==> Strands(s, step)
  {
  }

  /** And only the end of the connection ends it. */
  lemma StrandedUntilCancelled(s: State, step: Step)
    requires GateInv(s) && Enabled(s, step) && Stranded(s)
    ensures Stranded(Apply(s, step)) <==> !step.Cancel?
  {
  }

  lemma StrandedAfter(states: seq<State>, steps: seq<Step>, m: nat)
    requires Behaviour(states, steps) && m < |steps|
    ensures Stranded(states[m + 1]) <==> Strands(states[m], steps[m]) || (Stranded(states[m]) && !steps[m].Cancel?)
  {
    InvariantHolds(states, steps, m);
    if Stranded(states[m]) {
      StrandedUntilCancelled(states[m], steps[m]);
    } else {
      StrandedByReplacement(states[m], steps[m]);
    }
  }

  ghost function Stranding(states: seq<State>, steps: seq<Step>): nat -> bool {
    (i: nat) => i < |steps| < |states| && Strands(states[i], steps[i])
  }

  ghost function Cancelling(steps: seq<Step>): nat -> bool {
    (k: nat) => k < |steps| && steps[k].Cancel?
  }

  ghost function StrandedAt(states: seq<State>): nat -> bool {
    (m: nat) => m < |states| && Stranded(states[m])
  }

  lemma StrandedSwitches(states: seq<State>, steps: seq<Step>)
    requires Behaviour(states, steps)
    ensures !StrandedAt(states)(0)
    ensures forall m: nat :: m < |steps| ==>
              Switches(StrandedAt(states), Stranding(states, steps), Cancelling(steps), m)
  {
    forall m: nat | m < |steps|
      ensures Switches(StrandedAt(states), Stranding(states, steps), Cancelling(steps), m)
    {
      StrandedAfter(states, steps, m);
      StrandedSwitch(states, steps, m);
    }
  }

  lemma StrandedSwitch(states: seq<State>, steps: seq<Step>, m: nat)
    requires m < |steps| < |states|
    requires Stranded(states[m + 1]) <==> Strands(states[m], steps[m]) || (Stranded(states[m]) && !steps[m].Cancel?)
    ensures Switches(StrandedAt(states), Stranding(states, steps), Cancelling(steps), m)
  {
  }

  /**
   In every run the writer is stranded exactly when `ResponseRequired` has replaced the open channel
   it was waiting on, and the connection has not ended since.
   */
  lemma StrandedIffReplaced(states: seq<State>, steps: seq<Step>, n: nat)
    requires Behaviour(states, steps) && n <= |steps|
    ensures Stranded(states[n]) <==> Since(Stranding(states, steps), Cancelling(steps), n)
  {
    StrandedSwitches(states, steps);
    SinceIff(StrandedAt(states), Stranding(states, steps), Cancelling(steps), n);
  }

  /** So a waiting writer is released by the handler's next `ResponseSent` exactly when that has not happened. */
  lemma ReleasedIffNotReplaced(states: seq<State>, steps: seq<Step>, n: nat)
    requires Behaviour(states, steps) && n <= |steps|
    requires states[n].writer.Waiting? && Enabled(states[n], ClosePending)
    ensures Enabled(Apply(states[n], ClosePending), PassGate) <==>
            !Since(Stranding(states, steps), Cancelling(steps), n)
  {
    StrandedIffReplaced(states, steps, n);
  }

  /** Once a response is written, the handler's next steps leave no channel to wait on, and it reads again. */
  lemma HandlerOpensTheGate(s: State)
    requires s.handler.Written?
    ensures Enabled(s, CheckPending)
    ensures var t := Apply(s, CheckPending);
            var u := if s.gate.pending.None? then t else Apply(t, ClosePending);
      && (s.gate.pending.Some? ==> Enabled(t, ClosePending) && s.gate.pending.value in u.gate.closed)
      && u.gate.pending.None? && u.handler.Reading? && u.writer == s.writer
  {
  }

  // ----- batches with one subscription strand nobody

  /** Whether the current batch has called `ResponseRequired` among the first `n` steps. */
  ghost predicate Required(steps: seq<Step>, n: nat)
    requires n <= |steps|
  {
    n > 0 && !steps[n - 1].ReadBatch? && (steps[n - 1].RequireResponse? || Required(steps, n - 1))
  }

  /** Producers send nothing but notifications: no code sends the flush signal. */
  ghost predicate OnlyNotes(steps: seq<Step>) {
    forall i {:trigger steps[i]} :: 0 <= i < |steps| && steps[i].Enqueue? ==> steps[i].event.Note?
  }

  ghost predicate OnePerBatch(steps: seq<Step>) {
    forall i {:trigger steps[i]} :: 0 <= i < |steps| && steps[i].RequireResponse? ==> !Required(steps, i)
  }

  /** Between batches, and in one that has not subscribed yet, no channel guards an issued id. */
  ghost predicate QuietInv(s: State, required: bool) {
    && (s.handler.Reading? || (s.handler.Serving? && !required) ==> s.gate.pending.None? || s.issued == {})
    && (s.handler.Serving? && s.handler.subscribing ==> required)
    && (Stranded(s) ==> s.writer.event == UnsubSignal)
  }

  lemma QuietStep(s: State, step: Step, required: bool)
    requires GateInv(s) && WriterInv(s) && Enabled(s, step) && QuietInv(s, required)
    requires step.RequireResponse? ==> !required
    ensures QuietInv(Apply(s, step), !step.ReadBatch? && (step.RequireResponse? || required))
  {
    if InHand(s.writer) != [] {
      assert Known(s, InHand(s.writer)[0]);
    }
    if Stranded(s) {
      StrandedUntilCancelled(s, step);
    } else {
      StrandedByReplacement(s, step);
    }
  }

  lemma {:induction false} QuietHolds(states: seq<State>, steps: seq<Step>, n: nat)
    requires Behaviour(states, steps) && OnePerBatch(steps) && n <= |steps|
    ensures QuietInv(states[n], Required(steps, n))
  {
    if n > 0 {
      QuietHolds(states, steps, n - 1);
      InvariantHolds(states, steps, n - 1);
      QuietStep(states[n - 1], steps[n - 1], Required(steps, n - 1));
    }
  }

  ghost predicate HoldsNotes(s: State) {
    && (forall i :: 0 <= i < |s.queue| ==> s.queue[i].Note?)
    && (forall i :: 0 <= i < |InHand(s.writer)| ==> InHand(s.writer)[i].Note?)
  }

  lemma NotesStep(s: State, step: Step)
    requires HoldsNotes(s) && Enabled(s, step) && (step.Enqueue? ==> step.event.Note?)
    ensures HoldsNotes(Apply(s, step))
  {
    assert InHand(s.writer) != [] ==> InHand(s.writer)[0].Note?;
  }

  lemma {:induction false} OnlyNotesAreHeld(states: seq<State>, steps: seq<Step>, n: nat)
    requires Behaviour(states, steps) && OnlyNotes(steps) && n <= |steps|
    ensures HoldsNotes(states[n])
  {
    if n > 0 {
      OnlyNotesAreHeld(states, steps, n - 1);
      NotesStep(states[n - 1], steps[n - 1]);
    }
  }

  /**
   When every batch calls `ResponseRequired` at most once, counting subscriptions that fail, the
   writer is never stranded, so no notification is held back for good, in hand or in the queue.
   */
  lemma SingleSubscriptionsNeverStrand(states: seq<State>, steps: seq<Step>, n: nat)
    requires Behaviour(states, steps) && OnePerBatch(steps) && OnlyNotes(steps) && n <= |steps|
    ensures !Stranded(states[n])
  {
    QuietHolds(states, steps, n);
    OnlyNotesAreHeld(states, steps, n);
    assert states[n].writer.Waiting? ==> states[n].writer.event == InHand(states[n].writer)[0];
  }

  /** A batch of two eth_subscribe calls strands the writer: the second replaces the channel. */
  lemma TwoSubscriptionsInABatchCanStrand() returns (states: seq<State>, steps: seq<Step>)
    ensures Behaviour(states, steps) && Stranded(states[|steps|])
  {
    var s1 := Apply(INITIAL, ReadBatch);
    var s2 := Apply(s1, RequireResponse);
    var s3 := Apply(s2, Register("a"));
    var s4 := Apply(s3, Enqueue(Note("a", 0)));
    var s5 := Apply(s4, Dequeue);
    var s6 := Apply(s5, ReadGate);
    var s7 := Apply(s6, RequireResponse);
    states := [INITIAL, s1, s2, s3, s4, s5, s6, s7];
    steps := [ReadBatch, RequireResponse, Register("a"), Enqueue(Note("a", 0)), Dequeue, ReadGate, RequireResponse];
  }

  // ----- the notifier object

  class Notifier {
    var subscriptionIdPending: Option<nat>
    var closedChannels: set<nat>
    var nextChannel: nat
    var queue: seq<Event>

    ghost function View(): Gate
      reads this
    {
      Gate(subscriptionIdPending, closedChannels, nextChannel)
    }

    constructor ()
      ensures View() == INITIAL.gate && queue == INITIAL.queue
    {
      subscriptionIdPending, closedChannels, nextChannel, queue := Some(0), {}, 1, [];
    }

    method ResponseRequired()
      modifies this`subscriptionIdPending, this`nextChannel
      ensures View() == Require(old(View()))
      ensures subscriptionIdPending == Some(old(nextChannel)) && nextChannel == old(nextChannel) + 1
    {
      var pending := nextChannel;
      nextChannel := nextChannel + 1;
      subscriptionIdPending := Some(pending);
    }

    /** Both locked blocks; between them only the handler could change the pointer, and it is here. */
    method ResponseSent()
      modifies this`subscriptionIdPending, this`closedChannels
      ensures View() == Sent(old(View()))
      ensures subscriptionIdPending == None
      ensures closedChannels == old(closedChannels) +
              if old(subscriptionIdPending).Some? then {old(subscriptionIdPending).value} else {}
    {
      var pending := subscriptionIdPending;
      if pending.None? {
        return;
      }
      if subscriptionIdPending.Some? {
        closedChannels := closedChannels + {subscriptionIdPending.value};
        subscriptionIdPending := None;
      }
    }

    /** A send on a full queue blocks: it is the step that is not enabled. */
    method Send(event: Event) returns (blocked: bool)
      modifies this`queue
      ensures blocked <==> |old(queue)| >= QUEUE_CAPACITY
      ensures queue == if blocked then old(queue) else old(queue) + [event]
    {
      blocked := |queue| >= QUEUE_CAPACITY;
      if !blocked {
        queue := queue + [event];
      }
    }
  }
}
