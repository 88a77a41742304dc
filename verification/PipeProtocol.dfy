/**
 The named-pipe listener as a protocol on its log: what a pass adds depends on the last event and the
 answers of the operating system alone. The listener with its fields refines it, and what must happen,
 and how often it disconnects, is proved about it.
 */
module PipeProtocol {
  import opened NativeTypes
  import opened NamedPipe
  import opened PipeDelivery
  import opened Texts

  // ----- the protocol -----

  function Reissued(a: ConnectAnswer): seq<PipeEvent> {
    if a.ConnectPending? then [ConnectIssued] else []
  }

  function Dropped(a: Answers): seq<PipeEvent> {
    [Disconnected] + Reissued(a.reconnect)
  }

  /** Bytes that have been read go to the callback if they are a whole message. */
  function Handed(data: seq<byte>, a: Answers, size: nat): seq<PipeEvent> {
    if |data| == size then [Delivered(data)] else Dropped(a)
  }

  function NextRead(a: Answers): seq<PipeEvent> {
    [ReadIssued] +
    match a.read
    case ReadPending => []
    case ReadDone(data) => if data == [] then Dropped(a) else [ReadCompleted(data)]
    case ReadFailed => Dropped(a)
  }

  /** What a pass adds to a log that ends in the given event. */
  function Reaction(last: Neighbour, a: Answers, size: nat): seq<PipeEvent> {
    match a.wait
    case TimedOut => []
    case WaitFailed => Dropped(a)
    case Signalled =>
      match last
      case Some(ReadCompleted(data)) => Handed(data, a, size)
      case Some(ReadIssued) =>
        if a.overlapped.success && a.overlapped.data != [] then
          [ReadCompleted(a.overlapped.data)] + Handed(a.overlapped.data, a, size)
        else Dropped(a)
      case Some(ConnectIssued) =>
        if !a.overlapped.success then []
        else (if a.stillActive then [ClientConnected] else []) + NextRead(a)
      case _ => NextRead(a)
  }

  /** A pending connect that fails ends the thread. */
  predicate Stops(last: Neighbour, a: Answers) {
    a.wait.Signalled? && last == Some(ConnectIssued) && !a.overlapped.success
  }

  function Protocol(log: seq<PipeEvent>, answers: seq<Answers>, size: nat): seq<PipeEvent>
    decreases |answers|
  {
    if answers == [] then log
    else
      var longer := log + Reaction(Last(log), answers[0], size);
      if Stops(Last(log), answers[0]) then longer else Protocol(longer, answers[1..], size)
  }

  // ----- the listener refines it -----

  lemma DroppedIs(l: Listener, a: Answers)
    ensures Reconnected(l, a.reconnect).log == l.log + Dropped(a)
  {}

  /** What is done after the pending operation has been looked at. */
  lemma ActRefines(l: Listener, a: Answers, size: nat)
    requires |l.request| == size && Fits(a, size)
    requires l.state == Reading || (l.state == Callback && l.bytesRead <= size)
    ensures Act(l, a, size).log == l.log +
      if l.state == Reading then NextRead(a) else Handed(l.request[..l.bytesRead], a, size)
  {
    if l.state == Reading {
      var issued := l.(log := l.log + [ReadIssued]);
      DroppedIs(issued, a);
      DroppedIs(issued.(bytesRead := 0), a);
      hide Reconnected, Dropped, Filled;
      match a.read
      case ReadPending =>
      case ReadFailed => Regroup(l.log, [ReadIssued], Dropped(a));
      case ReadDone(data) => Regroup(l.log, [ReadIssued], if data == [] then Dropped(a) else [ReadCompleted(data)]);
    } else {
      DroppedIs(l, a);
      hide Reconnected, Dropped;
      assert l.request[..|l.request|] == l.request;
    }
  }

  /** A pass of the listener adds exactly what the protocol says. */
  lemma StepRefines(l: Listener, a: Answers, size: nat)
    requires Invariant(l, size) && Fits(a, size)
    ensures Step(l, a, size).l.log == l.log + Reaction(Last(l.log), a, size)
    ensures Step(l, a, size).Ended? <==> Stops(Last(l.log), a)
  {
    DroppedIs(l, a);
    hide Ordered, Reconnected, Dropped, Act, NextRead, Handed;
    if a.wait.Signalled? {
      if l.pendingIo && l.state == Reading {
        var data := a.overlapped.data;
        if a.overlapped.success && data != [] {
          var read := l.(pendingIo := false, state := Callback, bytesRead := |data|,
                         request := Filled(l.request, data), log := l.log + [ReadCompleted(data)]);
          FilledFront(l.request, data);
          hide Filled;
          ActRefines(read, a, size);
          Regroup(l.log, [ReadCompleted(data)], Handed(data, a, size));
        }
      } else if l.pendingIo {
        var connected := l.(state := Reading, log := if a.stillActive then l.log + [ClientConnected] else l.log);
        ActRefines(connected, a, size);
        Regroup(l.log, [ClientConnected], NextRead(a));
        assert [] + NextRead(a) == NextRead(a);
      } else {
        ActRefines(l, a, size);
      }
    }
  }

  lemma {:induction false} RunRefines(l: Listener, answers: seq<Answers>, size: nat)
    requires Invariant(l, size) && forall a <- answers :: Fits(a, size)
    ensures Run(l, answers, size).log == Protocol(l.log, answers, size)
    decreases |answers|
  {
    if answers != [] {
      assert answers[0] in answers;
      StepRefines(l, answers[0], size);
      StepKeepsInvariant(l, answers[0], size);
      hide Invariant, Step, Reaction, Stops;
      var o := Step(l, answers[0], size);
      if o.Alive? {
        InvariantKeepsSize(o.l, size);
        RunRefines(o.l, answers[1..], size);
      }
    }
  }

  /** Over every run the listener's log is the protocol's. */
  lemma LogIsProtocol(first: ConnectAnswer, answers: seq<Answers>, size: nat)
    requires forall a <- answers :: Fits(a, size)
    ensures Run(Connected(Initial(size), first), answers, size).log == Protocol(Reissued(first), answers, size)
  {
    var l := Connected(Initial(size), first);
    ConnectedKeepsInvariant(Initial(size), first, size);
    assert l.log == Reissued(first);
    hide Run, Protocol, Invariant;
    RunRefines(l, answers, size);
  }

  // ----- what must follow -----

  ghost predicate WaitsSucceed(answers: seq<Answers>) {
    forall a <- answers :: !a.wait.WaitFailed?
  }

  ghost predicate StaysActive(answers: seq<Answers>) {
    forall a <- answers :: a.stillActive
  }

  /**
   Every whole message that was read is handed on right away, and as long as the thread is active every
   pending connect is answered, unless it is the end.
   */
  ghost predicate Served(log: seq<PipeEvent>, size: nat, active: bool) {
    forall i :: 0 <= i < |log| - 1 ==> Serves(log[i], log[i + 1], size, active)
  }

  predicate Serves(event: PipeEvent, next: PipeEvent, size: nat, active: bool) {
    && (event.ReadCompleted? && |event.data| == size ==> next == Delivered(event.data))
    && (event.ConnectIssued? && active ==> next == ClientConnected)
  }

  lemma ServedConcat(log: seq<PipeEvent>, more: seq<PipeEvent>, size: nat, active: bool)
    requires Served(log, size, active) && Served(more, size, active)
    requires log != [] && more != [] ==> Serves(log[|log| - 1], more[0], size, active)
    ensures Served(log + more, size, active)
  {
    var longer := log + more;
    forall i | 0 <= i < |longer| - 1 ensures Serves(longer[i], longer[i + 1], size, active) {
      if i < |log| - 1 {
        assert Serves(log[i], log[i + 1], size, active);
      } else if i >= |log| {
        assert Serves(more[i - |log|], more[i - |log| + 1], size, active);
      }
    }
  }

  lemma ReactionServes(last: Neighbour, a: Answers, size: nat, active: bool)
    requires !a.wait.WaitFailed? && (active ==> a.stillActive)
    ensures Served(Reaction(last, a, size), size, active)
    ensures last.Some? && Reaction(last, a, size) != [] ==> Serves(last.event, Reaction(last, a, size)[0], size, active)
  {
    var read := a.overlapped.data;
    ReadServes(a, size, active);
    if last.Some? && last.event.ReadIssued? && a.overlapped.success && read != [] {
      HandedServes(read, a, size, active);
      ServedConcat([ReadCompleted(read)], Handed(read, a, size), size, active);
    } else if last.Some? && last.event.ReadCompleted? {
      HandedServes(last.event.data, a, size, active);
    } else if last == Some(ConnectIssued) {
      ServedConcat([ClientConnected], NextRead(a), size, active);
      assert [] + NextRead(a) == NextRead(a);
    }
    hide Served, NextRead, Handed;
  }

  lemma HandedServes(data: seq<byte>, a: Answers, size: nat, active: bool)
    ensures Served(Handed(data, a, size), size, active)
    ensures var next := Handed(data, a, size); next != [] && (|data| == size ==> next[0] == Delivered(data))
  {}

  lemma ReadServes(a: Answers, size: nat, active: bool)
    ensures Served(NextRead(a), size, active) && NextRead(a) != [] && NextRead(a)[0] == ReadIssued
  {}

  lemma {:induction false} ProtocolServes(log: seq<PipeEvent>, answers: seq<Answers>, size: nat, active: bool)
    requires Served(log, size, active) && WaitsSucceed(answers) && (active ==> StaysActive(answers))
    ensures Served(Protocol(log, answers, size), size, active)
    decreases |answers|
  {
    if answers != [] {
      assert answers[0] in answers;
      ReactionServes(Last(log), answers[0], size, active);
      ServedConcat(log, Reaction(Last(log), answers[0], size), size, active);
      hide Served, Reaction;
      ProtocolServes(log + Reaction(Last(log), answers[0], size), answers[1..], size, active);
    }
  }

  /**
   Over every run without failing waits: right behind a completed read of full size is its delivery,
   and as long as the thread is active, right behind a pending connect is the event for it - unless
   that is where the log ends.
   */
  lemma ListenerServes(first: ConnectAnswer, answers: seq<Answers>, size: nat, i: nat)
    requires (forall a <- answers :: Fits(a, size)) && WaitsSucceed(answers)
    ensures var log := Run(Connected(Initial(size), first), answers, size).log;
      i + 1 < |log| ==>
        && (log[i].ReadCompleted? && |log[i].data| == size ==> log[i + 1] == Delivered(log[i].data))
        && (log[i] == ConnectIssued && StaysActive(answers) ==> log[i + 1] == ClientConnected)
  {
    var active := forall a <- answers :: a.stillActive;
    LogIsProtocol(first, answers, size);
    ProtocolServes(Reissued(first), answers, size, active);
    hide Run, Protocol, Connected;
    var log := Run(Connected(Initial(size), first), answers, size).log;
    assert i + 1 < |log| ==> Serves(log[i], log[i + 1], size, active);
  }

  // ----- when it disconnects -----

  predicate BadRead(a: ReadAnswer) {
    a.ReadFailed? || a == ReadDone([])
  }

  /** The pass fails to wait, or the read that it looks at or issues fails, or brings less than a whole message. */
  predicate Faulty(last: Neighbour, a: Answers, size: nat) {
    a.wait.WaitFailed? ||
    (a.wait.Signalled? &&
     match last
     case Some(ReadCompleted(data)) => |data| != size
     case Some(ReadIssued) => !a.overlapped.success || a.overlapped.data == [] || |a.overlapped.data| != size
     case Some(ConnectIssued) => a.overlapped.success && BadRead(a.read)
     case _ => BadRead(a.read))
  }

  function FaultyPasses(log: seq<PipeEvent>, answers: seq<Answers>, size: nat): nat
    decreases |answers|
  {
    if answers == [] then 0
    else
      (if Faulty(Last(log), answers[0], size) then 1 else 0) +
      (if Stops(Last(log), answers[0]) then 0 else FaultyPasses(log + Reaction(Last(log), answers[0], size), answers[1..], size))
  }

  function Disconnects(log: seq<PipeEvent>): nat {
    if log == [] then 0 else (if log[0] == Disconnected then 1 else 0) + Disconnects(log[1..])
  }

  lemma {:induction false} DisconnectsConcat(log: seq<PipeEvent>, more: seq<PipeEvent>)
    ensures Disconnects(log + more) == Disconnects(log) + Disconnects(more)
  {
    if log == [] {
      assert log + more == more;
    } else {
      assert (log + more)[1..] == log[1..] + more;
      DisconnectsConcat(log[1..], more);
    }
  }

  lemma DisconnectsOfDropped(a: Answers)
    ensures Disconnects(Dropped(a)) == 1
  {
    DisconnectsConcat([Disconnected], Reissued(a.reconnect));
    assert [Disconnected][1..] == [] && Disconnects([]) == 0;
    assert a.reconnect.ConnectPending? ==> [ConnectIssued][1..] == [];
  }

  lemma NoDisconnect(e: PipeEvent)
    ensures e != Disconnected ==> Disconnects([e]) == 0
    ensures Disconnects([]) == 0
  {
    assert [e][1..] == [];
  }

  lemma DisconnectsOfHanded(data: seq<byte>, a: Answers, size: nat)
    ensures Disconnects(Handed(data, a, size)) == if |data| == size then 0 else 1
  {
    DisconnectsOfDropped(a);
    NoDisconnect(Delivered(data));
    hide Disconnects;
  }

  lemma DisconnectsOfRead(a: Answers)
    ensures Disconnects(NextRead(a)) == if BadRead(a.read) then 1 else 0
  {
    DisconnectsOfDropped(a);
    NoDisconnect(ReadIssued);
    hide Disconnects, Dropped;
    match a.read
    case ReadPending => DisconnectsConcat([ReadIssued], []);
    case ReadFailed => DisconnectsConcat([ReadIssued], Dropped(a));
    case ReadDone(data) =>
      NoDisconnect(ReadCompleted(data));
      DisconnectsConcat([ReadIssued], if data == [] then Dropped(a) else [ReadCompleted(data)]);
  }

  lemma DisconnectsOfReaction(last: Neighbour, a: Answers, size: nat)
    ensures Disconnects(Reaction(last, a, size)) == if Faulty(last, a, size) then 1 else 0
  {
    DisconnectsOfDropped(a);
    DisconnectsOfRead(a);
    NoDisconnect(ClientConnected);
    NoDisconnect(ReadCompleted(a.overlapped.data));
    DisconnectsOfHanded(a.overlapped.data, a, size);
    DisconnectsConcat([ReadCompleted(a.overlapped.data)], Handed(a.overlapped.data, a, size));
    DisconnectsConcat([ClientConnected], NextRead(a));
    if last.Some? && last.event.ReadCompleted? {
      DisconnectsOfHanded(last.event.data, a, size);
    }
    hide Disconnects, Dropped, NextRead, Handed, BadRead;
    assert [] + NextRead(a) == NextRead(a);
  }

  lemma {:induction false} DisconnectsOfProtocol(log: seq<PipeEvent>, answers: seq<Answers>, size: nat)
    ensures Disconnects(Protocol(log, answers, size)) == Disconnects(log) + FaultyPasses(log, answers, size)
    decreases |answers|
  {
    if answers != [] {
      var more := Reaction(Last(log), answers[0], size);
      DisconnectsOfReaction(Last(log), answers[0], size);
      DisconnectsConcat(log, more);
      hide Disconnects, Reaction, Faulty, Stops;
      DisconnectsOfProtocol(log + more, answers[1..], size);
    }
  }

  /** Over every run the listener disconnects exactly as often as a pass is faulty. */
  lemma DisconnectsAreFaults(first: ConnectAnswer, answers: seq<Answers>, size: nat)
    requires forall a <- answers :: Fits(a, size)
    ensures Disconnects(Run(Connected(Initial(size), first), answers, size).log) == FaultyPasses(Reissued(first), answers, size)
  {
    LogIsProtocol(first, answers, size);
    DisconnectsOfProtocol(Reissued(first), answers, size);
    NoDisconnect(ConnectIssued);
    hide Run, Protocol, Connected, Disconnects, FaultyPasses;
  }

  // ----- runs without faults -----

  /** Nothing fails, and every read brings a whole message. */
  ghost predicate Clean(a: Answers, size: nat) {
    && !a.wait.WaitFailed?
    && a.overlapped.success && |a.overlapped.data| == size
    && (a.read.ReadPending? || (a.read.ReadDone? && |a.read.data| == size))
  }

  ghost predicate Whole(log: seq<PipeEvent>, size: nat) {
    forall e <- log :: e.ReadCompleted? ==> |e.data| == size
  }

  lemma CleanReaction(last: Neighbour, a: Answers, size: nat)
    requires size > 0 && Clean(a, size) && (last.Some? && last.event.ReadCompleted? ==> |last.event.data| == size)
    ensures !Faulty(last, a, size) && !Stops(last, a) && Whole(Reaction(last, a, size), size)
  {}

  lemma {:induction false} CleanRun(log: seq<PipeEvent>, answers: seq<Answers>, size: nat)
    requires size > 0 && Whole(log, size) && forall a <- answers :: Clean(a, size)
    ensures FaultyPasses(log, answers, size) == 0
    decreases |answers|
  {
    if answers != [] {
      var last, a := Last(log), answers[0];
      assert a in answers;
      assert last.Some? ==> last.event in log;
      CleanReaction(last, a, size);
      hide Clean, Faulty, Stops, Reaction;
      CleanRun(log + Reaction(last, a, size), answers[1..], size);
    }
  }

  lemma {:induction false} NoneDisconnected(log: seq<PipeEvent>)
    requires Disconnects(log) == 0
    ensures Disconnected !in log
  {
    if log != [] {
      NoneDisconnected(log[1..]);
    }
  }

  /** A run without faults never disconnects, and delivers everything that it reads, in order, but for the message it holds. */
  lemma CleanRunDeliversAll(first: ConnectAnswer, answers: seq<Answers>, size: nat)
    requires size > 0 && forall a <- answers :: Clean(a, size)
    ensures forall a <- answers :: Fits(a, size)
    ensures var log := Run(Connected(Initial(size), first), answers, size).log;
      && Disconnected !in log
      && Completions(log) == Deliveries(log) + Held(Last(log))
  {
    forall a <- answers ensures Fits(a, size) {
      assert Clean(a, size);
    }
    var log := Run(Connected(Initial(size), first), answers, size).log;
    DisconnectsAreFaults(first, answers, size);
    CleanRun(Reissued(first), answers, size);
    NoneDisconnected(log);
    hide Run, Connected, Initial, Disconnects, FaultyPasses, Completions, Deliveries;
    assert log[0..|log|] == log;
    DeliveryOverRuns(first, answers, size, 0, |log|);
  }
}
