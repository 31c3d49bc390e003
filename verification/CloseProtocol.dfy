/** Closing finishedXtags with any number of xSet workers: the first worker to see the end of its
    input starts the goroutine that waits for pendingXSends to reach zero and closes the channel. */
module CloseProtocol {

  datatype Closer = NotStarted | Spinning | SawZero | Closed

  datatype State = State(
    queue: nat,        // documents not yet received
    idle: nat,         // workers at their receive
    computing: nat,    // workers with a document, before their increment of pendingXSends
    pending: nat,
    senders: nat,      // goroutines at their send
    sent: nat,         // past the send, before their decrement
    closer: Closer,
    sentOnClosed: bool)

  datatype Step = Receive | Spawn | Exit | SeeZero | Close | Deliver | Decrement | SendOnClosed

  function Start(workers: nat, docs: nat): State {
    State(docs, workers, 0, 0, 0, 0, NotStarted, false)
  }

  predicate Enabled(s: State, step: Step) {
    && !s.sentOnClosed
    && match step
       case Receive => s.idle > 0 && s.queue > 0
       case Spawn => s.computing > 0
       case Exit => s.idle > 0 && s.queue == 0
       case SeeZero => s.closer.Spinning? && s.pending == 0
       case Close => s.closer.SawZero?
       case Deliver => s.senders > 0 && !s.closer.Closed?
       case Decrement => s.sent > 0 && s.pending > 0
       case SendOnClosed => s.senders > 0 && s.closer.Closed?
  }

  function Apply(s: State, step: Step): State
    requires Enabled(s, step)
  {
    match step
    case Receive => s.(queue := s.queue - 1, idle := s.idle - 1, computing := s.computing + 1)
    case Spawn => s.(computing := s.computing - 1, idle := s.idle + 1, pending := s.pending + 1, senders := s.senders + 1)
    case Exit => s.(idle := s.idle - 1, closer := if s.closer.NotStarted? then Spinning else s.closer)
    case SeeZero => s.(closer := SawZero)
    case Close => s.(closer := Closed)
    case Deliver => s.(senders := s.senders - 1, sent := s.sent + 1)
    case Decrement => s.(sent := s.sent - 1, pending := s.pending - 1)
    case SendOnClosed => s.(sentOnClosed := true)
  }

  predicate ValidRun(s: State, steps: seq<Step>)
    decreases |steps|
  {
    steps == [] || (Enabled(s, steps[0]) && ValidRun(Apply(s, steps[0]), steps[1..]))
  }

  function Exec(s: State, steps: seq<Step>): State
    requires ValidRun(s, steps)
    decreases |steps|
  {
    if steps == [] then s else Exec(Apply(s, steps[0]), steps[1..])
  }

  /** At most one worker: once the closer has seen zero nobody can send any more. */
  predicate Inv(s: State) {
    && s.idle + s.computing <= 1 && !s.sentOnClosed
    && s.pending == s.senders + s.sent
    && (!s.closer.NotStarted? ==> s.idle == 0 && s.computing == 0)
    && (s.closer.SawZero? || s.closer.Closed? ==> s.pending == 0)
  }

  lemma {:induction false} OneWorkerSafe(s: State, steps: seq<Step>)
    requires Inv(s) && ValidRun(s, steps)
    ensures Inv(Exec(s, steps))
    decreases |steps|
  {
    if steps != [] {
      OneWorkerSafe(Apply(s, steps[0]), steps[1..]);
    }
  }

  /** The runs of `workers` workers never send on the closed channel exactly when there is at most
      one of them. */
  lemma SafeIff(workers: nat)
    ensures workers <= 1
       <==> forall docs, steps :: ValidRun(Start(workers, docs), steps) ==> !Exec(Start(workers, docs), steps).sentOnClosed
  {
    if workers <= 1 {
      forall docs, steps | ValidRun(Start(workers, docs), steps)
        ensures !Exec(Start(workers, docs), steps).sentOnClosed
      {
        OneWorkerSafe(Start(workers, docs), steps);
      }
    } else {
      // One worker is still computing when the other leaves and the count is zero.
      var s0 := Start(workers, 1);
      var s1 := Apply(s0, Receive);
      var s2 := Apply(s1, Exit);
      var s3 := Apply(s2, SeeZero);
      var s4 := Apply(s3, Close);
      var s5 := Apply(s4, Spawn);
      var s6 := Apply(s5, SendOnClosed);
      Prepend(s5, SendOnClosed, []);
      Prepend(s4, Spawn, [SendOnClosed]);
      Prepend(s3, Close, [Spawn, SendOnClosed]);
      Prepend(s2, SeeZero, [Close, Spawn, SendOnClosed]);
      Prepend(s1, Exit, [SeeZero, Close, Spawn, SendOnClosed]);
      Prepend(s0, Receive, [Exit, SeeZero, Close, Spawn, SendOnClosed]);
      assert Exec(s6, []) == s6;
    }
  }

  lemma Prepend(s: State, step: Step, rest: seq<Step>)
    requires Enabled(s, step) && ValidRun(Apply(s, step), rest)
    ensures ValidRun(s, [step] + rest) && Exec(s, [step] + rest) == Exec(Apply(s, step), rest)
  {
    assert ([step] + rest)[1..] == rest;
  }
}
