/**
 The named-pipe listener (named_pipe_win.h): connecting, overlapped reading and the data callback.

 What the Win32 calls answer is an input: Answers holds one answer for each call that a pass of
 the loop may make. The log records what the listener did and observed.
 */
module NamedPipe {
  import opened NativeTypes

  datatype ListenerState = Connecting | Reading | Callback

  // ----- answers of the operating system -----

  /** ConnectNamedPipe with its error code; it may also report success, which the source takes for a failure. */
  datatype ConnectAnswer = ConnectSucceeded | ConnectPending | AlreadyConnected(eventSet: bool) | ConnectFailed

  datatype WaitAnswer = Signalled | TimedOut | WaitFailed

  /** GetOverlappedResult, with the bytes that were transferred. */
  datatype OverlappedAnswer = OverlappedAnswer(success: bool, data: seq<byte>)

  /** ReadFile: done at once with some bytes (or none), pending, or failed. */
  datatype ReadAnswer = ReadDone(data: seq<byte>) | ReadPending | ReadFailed

  datatype Answers = Answers(
    wait: WaitAnswer,
    overlapped: OverlappedAnswer,
    stillActive: bool,
    read: ReadAnswer,
    reconnect: ConnectAnswer)

  /** No read transfers more than the buffer of sizeof(T) bytes holds. */
  ghost predicate Fits(a: Answers, size: nat) {
    |a.overlapped.data| <= size && (a.read.ReadDone? ==> |a.read.data| <= size)
  }

  // ----- the log -----

  datatype PipeEvent =
    | ConnectIssued                   // a connect is pending
    | ClientConnected                 // the event callback
    | ReadIssued
    | ReadCompleted(data: seq<byte>)
    | Delivered(data: seq<byte>)      // the data callback
    | Disconnected

  datatype Listener = Listener(
    pendingIo: bool,
    state: ListenerState,
    bytesRead: nat,
    request: seq<byte>,
    log: seq<PipeEvent>)

  /** The request buffer after data have been written to its front. */
  function Filled(request: seq<byte>, data: seq<byte>): (r: seq<byte>)
    requires |data| <= |request|
    ensures |r| == |request|
  {
    data + request[|data|..]
  }

  // ----- the steps -----

  function Connected(l: Listener, a: ConnectAnswer): Listener {
    match a
    case ConnectPending => l.(pendingIo := true, state := Connecting, log := l.log + [ConnectIssued])
    case _ => l.(pendingIo := false, state := Reading)
  }

  predicate ConnectReturns(a: ConnectAnswer) {
    a.ConnectPending? || (a.AlreadyConnected? && a.eventSet)
  }

  function Reconnected(l: Listener, a: ConnectAnswer): Listener {
    Connected(l.(log := l.log + [Disconnected]), a)
  }

  /** The outcome of a pass: the thread goes on, or it has left its loop. */
  datatype Outcome = Alive(l: Listener) | Ended(l: Listener)

  /** The pending operation is looked at; Done means that the pass ends here. */
  datatype Looked = Done(o: Outcome) | Proceed(l: Listener)

  function LookAtPending(l: Listener, a: Answers): Looked
    requires |a.overlapped.data| <= |l.request|
  {
    if !l.pendingIo then Proceed(l)
    else if l.state == Reading then
      if !a.overlapped.success || a.overlapped.data == [] then Done(Alive(Reconnected(l, a.reconnect)))
      else Proceed(l.(pendingIo := false, state := Callback, bytesRead := |a.overlapped.data|,
                      request := Filled(l.request, a.overlapped.data), log := l.log + [ReadCompleted(a.overlapped.data)]))
    else if !a.overlapped.success then Done(Ended(l))
    else
      Proceed(l.(state := Reading,
                 log := if l.state == Connecting && a.stillActive then l.log + [ClientConnected] else l.log))
  }

  function Act(l: Listener, a: Answers, size: nat): Listener
    requires |l.request| == size && Fits(a, size)
  {
    if l.state == Reading then
      var issued := l.(log := l.log + [ReadIssued]);
      match a.read
      case ReadDone(data) =>
        if data == [] then Reconnected(issued.(bytesRead := 0), a.reconnect)
        else issued.(pendingIo := false, state := Callback, bytesRead := |data|, request := Filled(l.request, data),
                     log := issued.log + [ReadCompleted(data)])
      case ReadPending => issued.(pendingIo := true)
      case ReadFailed => Reconnected(issued, a.reconnect)
    else if l.bytesRead == size then l.(state := Reading, log := l.log + [Delivered(l.request)])
    else Reconnected(l, a.reconnect)
  }

  function Step(l: Listener, a: Answers, size: nat): Outcome
    requires |l.request| == size && Fits(a, size)
  {
    match a.wait
    case TimedOut => Alive(l)
    case WaitFailed => Alive(Reconnected(l, a.reconnect))
    case Signalled =>
      match LookAtPending(l, a)
      case Done(o) => o
      case Proceed(looked) => Alive(Act(looked, a, size))
  }

  // ----- the listener object -----

  class NamedPipeListener {
    const size: nat
    var pendingIo: bool
    var state: ListenerState
    var bytesRead: nat
    var request: seq<byte>
    var log: seq<PipeEvent>

    ghost function Value(): Listener
      reads this
    {
      Listener(pendingIo, state, bytesRead, request, log)
    }

    /** NamedPipeListenerData is value-initialised; state zero is Connecting. */
    constructor (size: nat)
      ensures this.size == size
      ensures Value() == Listener(false, Connecting, 0, seq(size, _ => 0), [])
    {
      this.size := size;
      pendingIo := false;
      state := Connecting;
      bytesRead := 0;
      request := seq(size, _ => 0);
      log := [];
    }

    method Connect(a: ConnectAnswer) returns (ok: bool)
      modifies this
      ensures Value() == Connected(old(Value()), a) && ok == ConnectReturns(a)
    {
      if a.ConnectPending? {
        pendingIo := true;
        state := Connecting;
        log := log + [ConnectIssued];
        return true;
      }
      if a.AlreadyConnected? && a.eventSet {
        pendingIo := false;
        state := Reading;
        return true;
      }
      pendingIo := false;
      state := Reading;
      return false;
    }

    method DisconnectAndReconnect(a: ConnectAnswer)
      modifies this
      ensures Value() == Reconnected(old(Value()), a)
    {
      log := log + [Disconnected];
      var _ := Connect(a);
    }

    /** One pass of the loop; false when the pass leaves it. */
    method Pass(a: Answers) returns (alive: bool)
      requires |request| == size && Fits(a, size)
      modifies this
      ensures Step(old(Value()), a, size) == if alive then Alive(Value()) else Ended(Value())
    {
      hide Filled, Connected, Reconnected;
      if a.wait.TimedOut? {
        return true;
      }
      if a.wait.WaitFailed? {
        DisconnectAndReconnect(a.reconnect);
        return true;
      }
      if pendingIo {
        if state == Reading {
          if !a.overlapped.success || |a.overlapped.data| == 0 {
            DisconnectAndReconnect(a.reconnect);
            return true;
          }
          pendingIo := false;
          state := Callback;
          bytesRead := |a.overlapped.data|;
          request := Filled(request, a.overlapped.data);
          log := log + [ReadCompleted(a.overlapped.data)];
        } else {
          if !a.overlapped.success {
            return false;
          }
          if state == Connecting {
            if a.stillActive {
              log := log + [ClientConnected];
            }
          }
          state := Reading;
        }
      }
      if state == Reading {
        log := log + [ReadIssued];
        match a.read {
          case ReadDone(data) =>
            bytesRead := |data|;
            if bytesRead > 0 {
              request := Filled(request, data);
              pendingIo := false;
              state := Callback;
              log := log + [ReadCompleted(data)];
            } else {
              DisconnectAndReconnect(a.reconnect);
            }
          case ReadPending =>
            pendingIo := true;
          case ReadFailed =>
            DisconnectAndReconnect(a.reconnect);
        }
      } else if bytesRead == size {
        log := log + [Delivered(request)];
        state := Reading;
      } else {
        DisconnectAndReconnect(a.reconnect);
      }
      return true;
    }

    /** The thread, for as many passes as it is active. */
    method ListenerThread(first: ConnectAnswer, answers: seq<Answers>)
      requires |request| == size && log == []
      requires forall a <- answers :: Fits(a, size)
      modifies this
      ensures Value() == Run(Connected(old(Value()), first), if ConnectReturns(first) then answers else [], size)
      ensures first.ConnectSucceeded? || first.ConnectFailed? || first == AlreadyConnected(false) ==> log == []
    {
      var ok := Connect(first);
      if !ok {
        return;
      }
      ghost var start := Value();
      for i := 0 to |answers|
        invariant |request| == size
        invariant Run(Value(), answers[i..], size) == Run(start, answers, size)
      {
        ghost var rest, l := answers[i..], Value();
        assert rest[0] == answers[i] && rest[1..] == answers[i + 1..];
        StepKeepsSize(l, answers[i], size);
        var alive := Pass(answers[i]);
        if !alive {
          return;
        }
      }
    }
  }

  lemma StepKeepsSize(l: Listener, a: Answers, size: nat)
    requires |l.request| == size && Fits(a, size)
    ensures |Step(l, a, size).l.request| == size
  {}

  /** The state after the passes that the answers allow. */
  function Run(l: Listener, answers: seq<Answers>, size: nat): Listener
    requires |l.request| == size && forall a <- answers :: Fits(a, size)
    decreases |answers|
  {
    if answers == [] then l
    else
      StepKeepsSize(l, answers[0], size);
      var o := Step(l, answers[0], size);
      if o.Ended? then o.l else Run(o.l, answers[1..], size)
  }
}
