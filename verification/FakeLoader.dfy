/** The in-memory loader's hand-over between injectors and its pump, as interleaved steps
    (internal/bpf/fake.go). */
module FakeLoader {
  import opened Wire

  const OUT_CAPACITY: nat := 32

  datatype Kind = Exec | Fork | Exit | Connect | SelfProtect | PtraceEnh | LDPreload | Instrument | Unknown

  /** A stamp of zero stands for the zero time. */
  datatype Event = KernelEvent(kind: Kind, stamp: nat, body: string)

  predicate Fast(e: Event) {
    e.kind in {Exec, SelfProtect, PtraceEnh, LDPreload, Instrument}
  }

  function Stamp(e: Event, now: nat): Event {
    if e.stamp == 0 then e.(stamp := now) else e
  }

  /** Where the pump is: before Load, about to look for an event, blocked on the wake-up channel,
      holding an event it took, done sending it, or returned. */
  datatype Pump = NotStarted | Looking | Waiting | Holding(e: Event) | Sent(e: Event) | Returned

  /** Where a call of Inject is: past the flag check, or past its append and about to signal. */
  datatype Injector = Entered(e: Event) | Appended

  datatype State = State(
    pending: seq<Event>,
    cursor: nat,
    token: bool,
    loaded: bool,
    closed: bool,
    pump: Pump,
    injectors: map<nat, Injector>,
    received: seq<Event>,
    out: seq<Event>,
    fast: seq<Event>,
    fastTaken: nat)

  datatype Action =
    | Load
    | Close
    | InjectEnter(id: nat, e: Event)
    | InjectAppend(id: nat)
    | InjectSignal(id: nat)
    | PumpLook(now: nat)
    | PumpWake
    | PumpSend
    | PumpFast
    | PumpStop
    | Receive
    | ReceiveFast

  function Start(events: seq<Event>): State {
    State(events, 0, false, false, false, NotStarted, map[], [], [], [], 0)
  }

  predicate Enabled(s: State, a: Action) {
    match a
    case Load => !s.loaded
    case Close => s.loaded && !s.closed
    case InjectEnter(id, e) => !s.closed && s.loaded && id !in s.injectors
    case InjectAppend(id) => id in s.injectors && s.injectors[id].Entered?
    case InjectSignal(id) => id in s.injectors && s.injectors[id].Appended?
    case PumpLook(now) => s.pump.Looking?
    case PumpWake => s.pump.Waiting? && s.token
    case PumpSend => s.pump.Holding? && |s.out| < OUT_CAPACITY
    case PumpFast => s.pump.Sent?
    case PumpStop => s.closed && (s.pump.Waiting? || s.pump.Holding?)
    case Receive => s.out != []
    case ReceiveFast => s.fastTaken < |s.fast|
  }

  /** One atomic step; the append and the look each happen under the lock, the signal is a send
      that is dropped when a token is already there. */
  function Step(s: State, a: Action): State
    requires Enabled(s, a)
  {
    match a
    case Load => s.(loaded := true, pump := Looking)
    case Close => s.(closed := true)
    case InjectEnter(id, e) => s.(injectors := s.injectors[id := Entered(e)])
    case InjectAppend(id) => s.(pending := s.pending + [s.injectors[id].e], injectors := s.injectors[id := Appended])
    case InjectSignal(id) => s.(token := true, injectors := s.injectors - {id})
    case PumpLook(now) =>
      if s.cursor >= |s.pending| then s.(pump := Waiting)
      else s.(pump := Holding(Stamp(s.pending[s.cursor], now)), cursor := s.cursor + 1)
    case PumpWake => s.(token := false, pump := Looking)
    case PumpSend => s.(out := s.out + [s.pump.e], pump := Sent(s.pump.e))
    case PumpFast =>
      if Fast(s.pump.e) && |s.fast| - s.fastTaken < OUT_CAPACITY then s.(fast := s.fast + [s.pump.e], pump := Looking)
      else s.(pump := Looking)
    case PumpStop => s.(pump := Returned)
    case Receive => s.(received := s.received + [s.out[0]], out := s.out[1..])
    case ReceiveFast => s.(fastTaken := s.fastTaken + 1)
  }

  /** The state after a run; None when some action is not enabled where it is taken. */
  function After(s: State, actions: seq<Action>): (t: Option<State>) {
    if actions == [] then Some(s) else
    match After(s, actions[..|actions| - 1])
    case None => None
    case Some(m) => if Enabled(m, actions[|actions| - 1]) then Some(Step(m, actions[|actions| - 1])) else None
  }

  /** Everything sent so far, in order. */
  function Delivered(s: State): seq<Event> {
    s.received + s.out
  }

  /** `sent` is `e`, with a time filled in if it had none. */
  predicate SameEvent(e: Event, sent: Event) {
    sent == e || (e.stamp == 0 && sent == e.(stamp := sent.stamp))
  }

  ghost predicate SentInOrder(s: State) {
    && |Delivered(s)| <= s.cursor <= |s.pending|
    && forall i :: 0 <= i < |Delivered(s)| ==> SameEvent(s.pending[i], Delivered(s)[i])
  }

  /** How far delivery is behind the cursor. */
  ghost predicate InStep(s: State) {
    (s.pump.NotStarted? <==> !s.loaded) &&
    match s.pump
    case Holding(e) =>
      |Delivered(s)| + 1 == s.cursor && s.cursor <= |s.pending| && SameEvent(s.pending[s.cursor - 1], e)
    case Sent(e) => |Delivered(s)| == s.cursor && s.cursor > 0 && Delivered(s)[s.cursor - 1] == e
    case Returned => s.closed && |Delivered(s)| <= s.cursor <= |Delivered(s)| + 1
    case NotStarted => s.cursor == 0 == |Delivered(s)|
    case _ => |Delivered(s)| == s.cursor
  }

  /** An injector is between its append and its signal. */
  ghost predicate SignalComing(s: State) {
    exists id :: id in s.injectors && s.injectors[id].Appended?
  }

  ghost predicate NoLostWakeUp(s: State) {
    s.pump.Waiting? && s.cursor < |s.pending| ==> s.token || SignalComing(s)
  }

  ghost predicate FastFromSent(s: State) {
    && s.fastTaken <= |s.fast| <= s.fastTaken + 32
    && forall i :: 0 <= i < |s.fast| ==> Fast(s.fast[i]) && s.fast[i] in Delivered(s)
  }

  ghost predicate Inv(s: State) {
    SentInOrder(s) && InStep(s) && NoLostWakeUp(s) && FastFromSent(s) && |s.out| <= 32
  }

  lemma SameDelivered(s: State, a: Action)
    requires Enabled(s, a) && !a.PumpSend?
    ensures Delivered(Step(s, a)) == Delivered(s)
  {
    if a.Receive? {
      assert s.received + [s.out[0]] + s.out[1..] == s.received + s.out;
    }
  }

  lemma SendDelivers(s: State)
    requires Enabled(s, PumpSend)
    ensures Delivered(Step(s, PumpSend)) == Delivered(s) + [s.pump.e]
  {
  }

  lemma DeliveryKept(s: State, a: Action)
    requires SentInOrder(s) && InStep(s) && Enabled(s, a)
    ensures SentInOrder(Step(s, a)) && InStep(Step(s, a))
  {
    if a.PumpSend? {
      SendDelivers(s);
    } else {
      SameDelivered(s, a);
    }
  }

  lemma WakeUpKept(s: State, a: Action)
    requires Inv(s) && Enabled(s, a)
    ensures NoLostWakeUp(Step(s, a))
  {
    var t := Step(s, a);
    if t.pump.Waiting? && t.cursor < |t.pending| && !t.token {
      if a.InjectAppend? {
        assert t.injectors[a.id].Appended?;
      } else {
        var id :| id in s.injectors && s.injectors[id].Appended?;
        assert t.injectors[id].Appended?;
      }
    }
  }

  lemma FastKept(s: State, a: Action)
    requires Inv(s) && Enabled(s, a)
    ensures FastFromSent(Step(s, a)) && |Step(s, a).out| <= 32
  {
    if a.PumpSend? {
      SendDelivers(s);
    } else {
      SameDelivered(s, a);
    }
  }

  lemma StepKeepsInv(s: State, a: Action)
    requires Inv(s) && Enabled(s, a)
    ensures Inv(Step(s, a)) && s.pending <= Step(s, a).pending
  {
    DeliveryKept(s, a);
    WakeUpKept(s, a);
    FastKept(s, a);
  }

  lemma {:induction false} ReachableInv(events: seq<Event>, actions: seq<Action>, t: State)
    requires After(Start(events), actions) == Some(t)
    ensures Inv(t) && events <= t.pending
  {
    if actions != [] {
      var n := |actions| - 1;
      var m := After(Start(events), actions[..n]).value;
      ReachableInv(events, actions[..n], m);
      StepKeepsInv(m, actions[n]);
    }
  }

  /** In every interleaving of injectors, pump, consumer and Close: what was sent is a prefix of
      what was queued, in order and without repeats; what the fast path got was sent; and a pump
      that waits with unread events has a wake-up token, or an injector about to give it one. */
  lemma DeliveryAndWakeUp(events: seq<Event>, actions: seq<Action>, t: State)
    requires After(Start(events), actions) == Some(t)
    ensures |Delivered(t)| <= |t.pending| && events <= t.pending
    ensures forall i :: 0 <= i < |Delivered(t)| ==> SameEvent(t.pending[i], Delivered(t)[i])
    ensures forall i :: 0 <= i < |t.fast| ==> Fast(t.fast[i]) && t.fast[i] in Delivered(t)
    ensures t.pump.Waiting? && |Delivered(t)| < |t.pending| ==> t.token || SignalComing(t)
    ensures |t.out| <= 32 && |t.fast| - t.fastTaken <= 32
  {
    ReachableInv(events, actions, t);
  }

  /** So a pump at rest, with no token and no injector under way, has sent everything queued. */
  lemma RestMeansAllSent(events: seq<Event>, actions: seq<Action>, t: State)
    requires After(Start(events), actions) == Some(t)
    requires t.pump.Waiting? && !t.token && t.injectors == map[]
    ensures |Delivered(t)| == |t.pending|
  {
    ReachableInv(events, actions, t);
  }

  /** And whenever an event is unread and the loader is open and loaded, some step of the pump,
      the consumer or an injector's signal can be taken: the hand-over never gets stuck. */
  lemma NeverStuck(events: seq<Event>, actions: seq<Action>, t: State)
    requires After(Start(events), actions) == Some(t)
    requires t.loaded && !t.closed && |Delivered(t)| < |t.pending|
    ensures exists a :: Enabled(t, a) &&
              (a.PumpLook? || a.PumpWake? || a.PumpSend? || a.PumpFast? || a.Receive? || a.InjectSignal?)
  {
    ReachableInv(events, actions, t);
    PumpMoves(t);
  }

  lemma PumpMoves(t: State)
    requires Inv(t) && t.loaded && !t.closed && |Delivered(t)| < |t.pending|
    ensures exists a :: Enabled(t, a) &&
              (a.PumpLook? || a.PumpWake? || a.PumpSend? || a.PumpFast? || a.Receive? || a.InjectSignal?)
  {
    match t.pump
    case Looking => assert Enabled(t, PumpLook(0));
    case Holding(e) => assert Enabled(t, PumpSend) || Enabled(t, Receive);
    case Sent(e) => assert Enabled(t, PumpFast);
    case Waiting =>
      if t.token {
        assert Enabled(t, PumpWake);
      } else {
        var id :| id in t.injectors && t.injectors[id].Appended?;
        assert Enabled(t, InjectSignal(id));
      }
  }

  // ---------------------------------------------------------------- stamps and the fast path

  ghost predicate Stamped(s: State) {
    && (s.pump.Holding? || s.pump.Sent? ==> s.pump.e.stamp > 0)
    && forall i :: 0 <= i < |Delivered(s)| ==> Delivered(s)[i].stamp > 0
  }

  lemma StampedStep(s: State, a: Action)
    requires Enabled(s, a) && Stamped(s) && (a.PumpLook? ==> a.now > 0)
    ensures Stamped(Step(s, a))
  {
    if a.PumpSend? {
      SendDelivers(s);
    } else {
      SameDelivered(s, a);
    }
  }

  /** With a clock past zero, everything sent carries a time: its own, or the one at which the pump
      took it up. */
  lemma {:induction false} StampsFilled(events: seq<Event>, actions: seq<Action>, t: State)
    requires After(Start(events), actions) == Some(t)
    requires forall i :: 0 <= i < |actions| && actions[i].PumpLook? ==> actions[i].now > 0
    ensures Stamped(t) && |Delivered(t)| <= |t.pending|
    ensures forall i :: 0 <= i < |Delivered(t)| ==>
              && Delivered(t)[i].kind == t.pending[i].kind && Delivered(t)[i].body == t.pending[i].body
              && (t.pending[i].stamp > 0 ==> Delivered(t)[i].stamp == t.pending[i].stamp)
  {
    ReachableInv(events, actions, t);
    if actions != [] {
      var n := |actions| - 1;
      var m := After(Start(events), actions[..n]).value;
      StampsFilled(events, actions[..n], m);
      ReachableInv(events, actions[..n], m);
      StampedStep(m, actions[n]);
    }
  }

  /** The events that take the fast path as well, in order. */
  function FastOnes(sent: seq<Event>): seq<Event> {
    if sent == [] then [] else
    var e := sent[|sent| - 1];
    FastOnes(sent[..|sent| - 1]) +
    if e.kind in {Exec, SelfProtect, PtraceEnh, LDPreload, Instrument} then [e] else []
  }

  /** Everything sent, but for an event the pump has yet to offer to the fast path. */
  function Offered(s: State): seq<Event> {
    if s.pump.Sent? && Delivered(s) != [] then Delivered(s)[..|Delivered(s)| - 1] else Delivered(s)
  }

  lemma OfferedStep(s: State, a: Action)
    requires Inv(s) && Enabled(s, a)
    ensures Offered(Step(s, a)) == if a.PumpFast? then Offered(s) + [s.pump.e] else Offered(s)
  {
    if a.PumpSend? {
      SendOffer(s);
    } else if a.PumpFast? {
      FastOffer(s);
    } else {
      SameOffer(s, a);
    }
  }

  lemma SendOffer(s: State)
    requires Inv(s) && Enabled(s, PumpSend)
    ensures Offered(Step(s, PumpSend)) == Offered(s)
  {
    SendDelivers(s);
  }

  lemma FastOffer(s: State)
    requires Inv(s) && Enabled(s, PumpFast)
    ensures Offered(Step(s, PumpFast)) == Offered(s) + [s.pump.e]
  {
    var n := |Delivered(s)| - 1;
    assert Delivered(s) == Delivered(s)[..n] + [Delivered(s)[n]];
  }

  lemma SameOffer(s: State, a: Action)
    requires Inv(s) && Enabled(s, a) && !a.PumpSend? && !a.PumpFast?
    ensures Delivered(Step(s, a)) == Delivered(s) && (Step(s, a).pump.Sent? <==> s.pump.Sent?)
  {
    SameDelivered(s, a);
  }

  /** What the fast path should have got. */
  function FastDue(s: State): seq<Event> {
    FastOnes(Offered(s))
  }

  lemma FastDueStep(s: State, a: Action)
    requires Inv(s) && Enabled(s, a)
    ensures FastDue(Step(s, a)) == FastDue(s) + if a.PumpFast? && Fast(s.pump.e) then [s.pump.e] else []
  {
    OfferedStep(s, a);
    if a.PumpFast? {
      FastOnesSnoc(Offered(s), s.pump.e);
    } else {
      assert FastDue(s) + [] == FastDue(s);
    }
  }

  lemma FastOnesSnoc(sent: seq<Event>, e: Event)
    ensures FastOnes(sent + [e]) == FastOnes(sent) + if Fast(e) then [e] else []
  {
    assert (sent + [e])[..|sent|] == sent;
  }

  /** The fast path loses nothing before its 32 places are taken: up to that many fast events, it has
      got exactly those sent, in order, each passed on right after it was sent. */
  lemma {:induction false} FastPathComplete(events: seq<Event>, actions: seq<Action>, t: State)
    requires After(Start(events), actions) == Some(t)
    ensures |FastDue(t)| <= 32 ==> t.fast == FastDue(t)
  {
    if actions != [] {
      var n := |actions| - 1;
      var m := After(Start(events), actions[..n]).value;
      FastPathComplete(events, actions[..n], m);
      ReachableInv(events, actions[..n], m);
      FastDueStep(m, actions[n]);
    }
  }

  /** No event is under way to the queue. */
  predicate NoneEntered(s: State) {
    forall id :: id in s.injectors ==> !s.injectors[id].Entered?
  }

  /** Once the loader is closed and no call of Inject is under way, the queue stays as it is. */
  lemma {:induction false} ShutQueue(s: State, actions: seq<Action>, t: State)
    requires After(s, actions) == Some(t) && NoneEntered(s) && s.loaded && s.closed
    ensures t.pending == s.pending && NoneEntered(t) && t.closed && t.loaded
  {
    if actions != [] {
      var n := |actions| - 1;
      ShutQueue(s, actions[..n], After(s, actions[..n]).value);
    }
  }

  /** Before Load nothing else can happen. */
  lemma LoadComesFirst(events: seq<Event>, a: Action)
    ensures Enabled(Start(events), a) <==> a == Load
  {
  }
}
