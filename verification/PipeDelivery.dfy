/** What the named-pipe listener delivers, over every run and every answer of the operating system. */
module PipeDelivery {
  import opened NativeTypes
  import opened NamedPipe

  // ----- the order of events -----

  /** What may follow what in the log; None stands for the beginning and the end. */
  datatype Neighbour = None | Some(event: PipeEvent)

  function At(log: seq<PipeEvent>, i: int): Neighbour {
    if 0 <= i < |log| then Some(log[i]) else None
  }

  /** The event is explained by the one right before it, and every read before it has been settled. */
  ghost predicate Follows(before: Neighbour, event: PipeEvent, size: nat) {
    match event
    case ConnectIssued => before == None || before == Some(Disconnected)
    case ClientConnected => before == Some(ConnectIssued)
    case ReadIssued => !Open(before)
    case ReadCompleted(data) => before == Some(ReadIssued) && 0 < |data| <= size
    case Delivered(data) => before == Some(ReadCompleted(data)) && |data| == size
    case Disconnected => true
  }

  /** A read that has been issued, or whose bytes are held and not yet delivered. */
  ghost predicate Open(n: Neighbour) {
    n.Some? && (n.event.ReadIssued? || n.event.ReadCompleted?)
  }

  ghost predicate Ordered(log: seq<PipeEvent>, size: nat) {
    forall i :: 0 <= i < |log| ==> Follows(At(log, i - 1), log[i], size)
  }

  function Last(log: seq<PipeEvent>): Neighbour {
    At(log, |log| - 1)
  }

  /** What the state of the listener says about the end of its log, between two passes. */
  ghost predicate Invariant(l: Listener, size: nat) {
    && |l.request| == size
    && Ordered(l.log, size)
    && match l.state
       case Connecting => l.pendingIo && Last(l.log) == Some(ConnectIssued)
       case Reading => if l.pendingIo then Last(l.log) == Some(ReadIssued) else Settled(Last(l.log))
       case Callback =>
         && !l.pendingIo
         && 0 < l.bytesRead <= size
         && Last(l.log) == Some(ReadCompleted(l.request[..l.bytesRead]))
  }

  ghost predicate Settled(n: Neighbour) {
    n == None || n.event.Disconnected? || n.event.Delivered?
  }

  lemma OrderedAppend(log: seq<PipeEvent>, e: PipeEvent, size: nat)
    requires Ordered(log, size) && Follows(Last(log), e, size)
    ensures Ordered(log + [e], size)
    ensures Last(log + [e]) == Some(e)
  {
    var longer := log + [e];
    forall i | 0 <= i < |longer| ensures Follows(At(longer, i - 1), longer[i], size) {
      if i < |log| {
        assert At(longer, i - 1) == At(log, i - 1);
      } else {
        assert At(longer, i - 1) == Last(log);
      }
    }
  }

  lemma FilledFront(request: seq<byte>, data: seq<byte>)
    requires |data| <= |request|
    ensures |Filled(request, data)| == |request|
    ensures Filled(request, data)[..|data|] == data
    ensures |data| == |request| ==> Filled(request, data) == data
  {}

  lemma ConnectedKeepsInvariant(l: Listener, a: ConnectAnswer, size: nat)
    requires |l.request| == size && Ordered(l.log, size)
    requires Last(l.log) == None || Last(l.log) == Some(Disconnected)
    ensures Invariant(Connected(l, a), size)
  {
    if a.ConnectPending? {
      OrderedAppend(l.log, ConnectIssued, size);
    }
    hide Ordered;
  }

  lemma ReconnectedKeepsInvariant(l: Listener, a: ConnectAnswer, size: nat)
    requires |l.request| == size && Ordered(l.log, size)
    ensures Invariant(Reconnected(l, a), size)
  {
    OrderedAppend(l.log, Disconnected, size);
    ConnectedKeepsInvariant(l.(log := l.log + [Disconnected]), a, size);
    hide *;
  }

  /** Between looking at the pending operation and acting, a listener may just have been connected. */
  ghost predicate Ready(l: Listener, size: nat) {
    && |l.request| == size
    && Ordered(l.log, size)
    && ((l.state == Reading && !Open(Last(l.log))) || (l.state == Callback && Invariant(l, size)))
  }

  lemma LookKeepsInvariant(l: Listener, a: Answers, size: nat)
    requires Invariant(l, size) && Fits(a, size)
    ensures match LookAtPending(l, a)
      case Done(o) => Invariant(o.l, size)
      case Proceed(looked) => Ready(looked, size)
  {
    if l.pendingIo && l.state == Reading {
      var data := a.overlapped.data;
      if !a.overlapped.success || data == [] {
        ReconnectedKeepsInvariant(l, a.reconnect, size);
      } else {
        OrderedAppend(l.log, ReadCompleted(data), size);
        FilledFront(l.request, data);
      }
    } else if l.pendingIo && a.overlapped.success {
      if a.stillActive {
        OrderedAppend(l.log, ClientConnected, size);
      }
    }
    hide Ordered, Filled, Reconnected;
  }

  lemma ActKeepsInvariant(l: Listener, a: Answers, size: nat)
    requires Ready(l, size) && Fits(a, size)
    ensures Invariant(Act(l, a, size), size)
  {
    if l.state == Reading {
      OrderedAppend(l.log, ReadIssued, size);
      var issued := l.(log := l.log + [ReadIssued]);
      match a.read {
        case ReadDone(data) =>
          if data == [] {
            ReconnectedKeepsInvariant(issued.(bytesRead := 0), a.reconnect, size);
          } else {
            OrderedAppend(issued.log, ReadCompleted(data), size);
            FilledFront(l.request, data);
          }
        case ReadPending =>
        case ReadFailed =>
          ReconnectedKeepsInvariant(issued, a.reconnect, size);
      }
    } else if l.bytesRead == size {
      assert l.request[..l.bytesRead] == l.request;
      OrderedAppend(l.log, Delivered(l.request), size);
    } else {
      ReconnectedKeepsInvariant(l, a.reconnect, size);
    }
    hide Ordered, Filled, Reconnected;
  }

  lemma StepKeepsInvariant(l: Listener, a: Answers, size: nat)
    requires Invariant(l, size) && Fits(a, size)
    ensures Invariant(Step(l, a, size).l, size)
  {
    hide Ordered, Filled, Reconnected, Act, LookAtPending;
    match a.wait
    case TimedOut =>
    case WaitFailed =>
      ReconnectedKeepsInvariant(l, a.reconnect, size);
    case Signalled =>
      LookKeepsInvariant(l, a, size);
      match LookAtPending(l, a)
      case Done(_) =>
      case Proceed(looked) => ActKeepsInvariant(looked, a, size);
  }

  lemma {:induction false} RunKeepsInvariant(l: Listener, answers: seq<Answers>, size: nat)
    requires Invariant(l, size) && forall a <- answers :: Fits(a, size)
    ensures Invariant(Run(l, answers, size), size)
    decreases |answers|
  {
    if answers != [] {
      assert answers[0] in answers;
      StepKeepsInvariant(l, answers[0], size);
      hide Invariant, Step;
      var o := Step(l, answers[0], size);
      if o.Alive? {
        assert |o.l.request| == size by { InvariantKeepsSize(o.l, size); }
        RunKeepsInvariant(o.l, answers[1..], size);
      }
    }
  }

  lemma InvariantKeepsSize(l: Listener, size: nat)
    requires Invariant(l, size)
    ensures |l.request| == size
  {}

  // ----- what is delivered -----

  /** The bytes of the reads that completed, in order. */
  function Completions(log: seq<PipeEvent>): seq<seq<byte>> {
    if log == [] then []
    else
      var earlier := Completions(log[..|log| - 1]);
      match log[|log| - 1]
      case ReadCompleted(data) => earlier + [data]
      case _ => earlier
  }

  function Deliveries(log: seq<PipeEvent>): seq<seq<byte>> {
    if log == [] then []
    else
      var earlier := Deliveries(log[..|log| - 1]);
      match log[|log| - 1]
      case Delivered(data) => earlier + [data]
      case _ => earlier
  }

  /** The bytes that have been read and not yet delivered. */
  function Held(n: Neighbour): seq<seq<byte>> {
    if n.Some? && n.event.ReadCompleted? then [n.event.data] else []
  }

  /** A stretch of the log within one connection. */
  ghost predicate OneConnection(log: seq<PipeEvent>, i: nat, j: nat) {
    && i <= j <= |log|
    && (i == 0 || log[i - 1] == Disconnected)
    && (forall k :: i <= k < j ==> log[k] != Disconnected)
  }

  /** Everything read has been delivered, in order, except what is held at the end. */
  ghost predicate Balanced(stretch: seq<PipeEvent>, size: nat) {
    && Completions(stretch) == Deliveries(stretch) + Held(Last(stretch))
    && forall data <- Deliveries(stretch) :: |data| == size
  }

  /** A connection goes on with an event that follows the one before; none follows a held read but its delivery. */
  lemma BalancedAppend(stretch: seq<PipeEvent>, before: Neighbour, e: PipeEvent, size: nat)
    requires Balanced(stretch, size)
    requires Follows(before, e, size) && e != Disconnected
    requires before == Last(stretch) || (stretch == [] && before == Some(Disconnected))
    requires before.Some? && before.event.ReadCompleted? ==> e == Delivered(before.event.data)
    ensures Balanced(stretch + [e], size)
  {
    ProjectionsAppend(stretch, e);
    hide Completions, Deliveries;
  }

  lemma {:induction false} ConnectionIsBalanced(log: seq<PipeEvent>, i: nat, j: nat, size: nat)
    requires Ordered(log, size) && OneConnection(log, i, j)
    ensures Balanced(log[i..j], size)
    decreases j
  {
    hide Ordered, Follows, Balanced;
    EmptyIsBalanced(size);
    assert i == j ==> log[i..j] == [];
    if i < j {
      var stretch, event := log[i..j - 1], log[j - 1];
      var before := At(log, j - 2);
      assert log[i..j] == stretch + [event];
      ConnectionIsBalanced(log, i, j - 1, size);
      OrderedAt(log, j - 1, size);
      assert i < j - 1 ==> before == Last(stretch);
      if before.Some? && before.event.ReadCompleted? {
        SettledByDelivery(log, j - 2, size);
      }
      BalancedAppend(stretch, before, event, size);
    }
  }

  lemma EmptyIsBalanced(size: nat)
    ensures Balanced([], size)
  {}

  lemma OrderedAt(log: seq<PipeEvent>, i: nat, size: nat)
    requires Ordered(log, size) && i < |log|
    ensures Follows(At(log, i - 1), log[i], size)
  {}

  lemma ProjectionsAppend(log: seq<PipeEvent>, e: PipeEvent)
    ensures Completions(log + [e]) == Completions(log) + (if e.ReadCompleted? then [e.data] else [])
    ensures Deliveries(log + [e]) == Deliveries(log) + (if e.Delivered? then [e.data] else [])
    ensures Last(log + [e]) == Some(e)
  {
    assert (log + [e])[..|log|] == log;
  }

  /** After a completed read comes its delivery, or the end of the connection. */
  lemma SettledByDelivery(log: seq<PipeEvent>, i: nat, size: nat)
    requires Ordered(log, size) && i + 1 < |log| && log[i].ReadCompleted?
    ensures log[i + 1] == Delivered(log[i].data) || log[i + 1] == Disconnected
    ensures log[i + 1] == Delivered(log[i].data) ==> |log[i].data| == size
  {
    assert Follows(At(log, i), log[i + 1], size);
  }

  /**
   Over every run and every answer: within each connection the data callbacks are the completed
   reads, in order and once each, all of full size; at most the bytes held in state Callback are
   outstanding, and the log shows that no read is issued while they are.
   */
  lemma DeliveryOverRuns(first: ConnectAnswer, answers: seq<Answers>, size: nat, i: nat, j: nat)
    requires forall a <- answers :: Fits(a, size)
    requires OneConnection(Run(Connected(Initial(size), first), answers, size).log, i, j)
    ensures var l := Run(Connected(Initial(size), first), answers, size);
      && Invariant(l, size)
      && Balanced(l.log[i..j], size)
      && (j == |l.log| > i ==> Held(Last(l.log[i..j])) == if l.state == Callback then [l.request[..l.bytesRead]] else [])
  {
    ConnectedKeepsInvariant(Initial(size), first, size);
    RunKeepsInvariant(Connected(Initial(size), first), answers, size);
    var l := Run(Connected(Initial(size), first), answers, size);
    hide Run, Connected, Balanced;
    ConnectionIsBalanced(l.log, i, j, size);
    HeldAtEnd(l, size, i, j);
    hide Invariant, OneConnection, Last, Held;
  }

  lemma HeldAtEnd(l: Listener, size: nat, i: nat, j: nat)
    requires Invariant(l, size) && i <= j <= |l.log|
    ensures j == |l.log| > i ==> Held(Last(l.log[i..j])) == if l.state == Callback then [l.request[..l.bytesRead]] else []
  {
    if j == |l.log| > i {
      assert Last(l.log[i..j]) == Last(l.log);
    }
    hide Ordered;
  }

  function Initial(size: nat): Listener {
    Listener(false, Connecting, 0, seq(size, _ => 0), [])
  }

  /** Each ClientConnected event answers its own pending connect. */
  lemma ConnectionEventsAnswerConnects(first: ConnectAnswer, answers: seq<Answers>, size: nat, i: nat)
    requires forall a <- answers :: Fits(a, size)
    requires i < |Run(Connected(Initial(size), first), answers, size).log|
    ensures var log := Run(Connected(Initial(size), first), answers, size).log;
      && (log[i] == ClientConnected ==> i > 0 && log[i - 1] == ConnectIssued)
      && (log[i] == ReadIssued && i + 1 < |log| ==> log[i + 1].ReadCompleted? || log[i + 1] == Disconnected)
  {
    ConnectedKeepsInvariant(Initial(size), first, size);
    RunKeepsInvariant(Connected(Initial(size), first), answers, size);
    var log := Run(Connected(Initial(size), first), answers, size).log;
    hide Run, Connected;
    assert Follows(At(log, i - 1), log[i], size);
    if i + 1 < |log| {
      assert Follows(At(log, i), log[i + 1], size);
    }
  }
}
