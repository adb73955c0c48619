/** The worker pipe protocol of the transform bridge: any number of calls share
    one lock, one slot for a worker and, per worker, one pair of FIFO pipes.
    Replies carry no identity the router looks at, so the answer a call gets is
    decided by counting alone.  The protocol is a machine over single steps of
    calls and of workers; every interleaving is a run of it. */
module BridgeProtocol {
  import opened Options

  // ------------------------------------------------ data

  datatype Request = Request(body: string, model: string, minChars: nat)

  /** A line on a worker's stdin. */
  datatype Frame = Frame(id: nat, request: Request)

  /** What the package said about one request. */
  datatype Answer = Answer(ok: bool, applied: bool, reason: Option<string>, detail: Option<string>,
                           error: Option<string>, body: Option<string>)

  /** A line on a worker's stdout. */
  datatype Reply = Ready(failed: bool) | Result(id: nat, answer: Answer)

  /** A child process and its pipes.  `sent`, `answers`, `taken` and `missed`
      are history: the frames written to it, its answers so far, how many of
      them the router has read, and how many frames were written and then
      given up without reading or killing. */
  datatype Worker = Worker(alive: bool, announced: bool, greeted: bool, retired: bool, nextId: nat,
                           stdin: seq<Frame>, stdout: seq<Reply>,
                           sent: seq<Frame>, answers: seq<Answer>, taken: nat, missed: nat)

  datatype Kind = Transform(request: Request, autoLoad: bool) | Start | Stop | Restart

  /** Why no worker could be started. */
  datatype StartError = NotInstalled | NodeMissing | UnsupportedNode | Failed

  datatype Outcome =
    | Settled(worker: nat, index: nat, reply: Reply, behind: nat)
    | Bypassed(reason: string)
    | Started
    | StartFailed(error: StartError)
    | Stopped(wasRunning: bool)
    | Cancelled

  datatype Phase =
    | Waiting
    | Connecting
    | Spawning(worker: nat)
    | Loaded
    | Written(worker: nat, index: nat)
    | Flushed(worker: nat, index: nat)
    | Killing(worker: nat, result: Outcome)
    | Done(outcome: Outcome)

  datatype Call = Call(kind: Kind, phase: Phase)

  datatype State = State(lock: Option<nat>, slot: Option<nat>, workers: seq<Worker>, calls: map<nat, Call>)

  const INIT := State(None, None, [], map[])

  datatype Step =
    | Arrive(call: nat, kind: Kind)
    | Acquire(call: nat)
    | SpawnFails(call: nat, error: StartError)
    | Spawns(call: nat)
    | ReadyRead(call: nat, supported: bool)
    | ReadyFails(call: nat)
    | EncodeFails(call: nat)
    | Write(call: nat)
    | WriteFails(call: nat, delivered: bool)
    | Flush(call: nat)
    | FlushFails(call: nat)
    | Read(call: nat)
    | ReadFails(call: nat, timedOut: bool)
    | StopTakes(call: nat)
    | Kill(call: nat)
    | Cancel(call: nat)
    | Announce(worker: nat, failed: bool)
    | Respond(worker: nat, answer: Answer)
    | Die(worker: nat)

  // ------------------------------------------------ steps of a call

  function NewWorker(): Worker {
    Worker(true, false, false, false, 1, [], [], [], [], 0, 0)
  }

  predicate InPhase(s: State, c: nat, phase: Phase) {
    c in s.calls && s.calls[c].phase == phase
  }

  function Moved(s: State, c: nat, phase: Phase): State
    requires c in s.calls
  {
    s.(calls := s.calls[c := s.calls[c].(phase := phase)])
  }

  function Finished(s: State, c: nat, outcome: Outcome): State
    requires c in s.calls
  {
    Moved(s, c, Done(outcome)).(lock := None)
  }

  function WithWorker(s: State, g: nat, w: Worker): State
    requires g < |s.workers|
  {
    s.(workers := s.workers[g := w])
  }

  /** The outcome of a call that could not get a worker. */
  function NoWorker(kind: Kind, error: StartError): Outcome {
    if kind.Transform? then Bypassed(StartReason(error)) else StartFailed(error)
  }

  function StartReason(error: StartError): string {
    match error
    case NotInstalled => "not_installed"
    case NodeMissing => "node_missing"
    case UnsupportedNode => "node_unsupported"
    case Failed => "load_error"
  }

  /** A good ready frame can still name an engine the package does not run on. */
  function ReadyError(first: Reply): StartError {
    if first.Ready? && !first.failed then UnsupportedNode else Failed
  }

  /** Taking the lock, and what each call does with it first. */
  function DoAcquire(s: State, c: nat): Option<State> {
    if !InPhase(s, c, Waiting) || s.lock.Some? then None
    else match s.calls[c].kind
      case Transform(_, autoLoad) =>
        if s.slot.Some? then Some(Moved(s, c, Loaded).(lock := Some(c)))
        else if autoLoad then Some(Moved(s, c, Connecting).(lock := Some(c)))
        else Some(Finished(s, c, Bypassed("not_loaded")))
      case Start =>
        if s.slot.Some? then Some(Finished(s, c, Started))
        else Some(Moved(s, c, Connecting).(lock := Some(c)))
      case _ => None
  }

  function DoSpawns(s: State, c: nat): Option<State> {
    if !InPhase(s, c, Connecting) then None
    else Some(Moved(s, c, Spawning(|s.workers|)).(workers := s.workers + [NewWorker()]))
  }

  /** The first frame decides whether the child becomes the worker. */
  function DoReadyRead(s: State, c: nat, supported: bool): Option<State> {
    if c !in s.calls || !s.calls[c].phase.Spawning? then None
    else
      var g := s.calls[c].phase.worker;
      if g >= |s.workers| || s.workers[g].stdout == [] then None
      else
        var w := s.workers[g];
        var first, rest := w.stdout[0], w.stdout[1..];
        if first.Ready? && !first.failed && supported then
          var s1 := WithWorker(s, g, w.(stdout := rest, greeted := true)).(slot := Some(g));
          if s.calls[c].kind.Transform? then Some(Moved(s1, c, Loaded)) else Some(Finished(s1, c, Started))
        else
          Some(Finished(WithWorker(s, g, w.(stdout := rest, retired := true, alive := false)), c,
                        NoWorker(s.calls[c].kind, ReadyError(first))))
  }

  /** The child is killed before it was the worker. */
  function ChildGivenUp(s: State, c: nat, g: nat, outcome: Outcome): State
    requires c in s.calls && g < |s.workers|
  {
    Finished(WithWorker(s, g, s.workers[g].(retired := true, alive := false)), c, outcome)
  }

  function DoReadyFails(s: State, c: nat): Option<State> {
    if c !in s.calls || !s.calls[c].phase.Spawning? || s.calls[c].phase.worker >= |s.workers| then None
    else Some(ChildGivenUp(s, c, s.calls[c].phase.worker, NoWorker(s.calls[c].kind, Failed)))
  }

  /** A transform that holds the lock and a worker. */
  predicate Writing(s: State, c: nat) {
    InPhase(s, c, Loaded) && s.calls[c].kind.Transform? && s.slot.Some? && s.slot.value < |s.workers|
  }

  function NextFrame(s: State, c: nat): Frame
    requires Writing(s, c)
  {
    Frame(s.workers[s.slot.value].nextId, s.calls[c].kind.request)
  }

  /** The number is used up and nothing is written. */
  function NumberGivenUp(s: State, c: nat, outcome: Outcome): State
    requires Writing(s, c)
  {
    var g, w := s.slot.value, s.workers[s.slot.value];
    Finished(WithWorker(s, g, w.(nextId := w.nextId + 1)), c, outcome)
  }

  function DoEncodeFails(s: State, c: nat): Option<State> {
    if !Writing(s, c) then None else Some(NumberGivenUp(s, c, Bypassed("encode_error")))
  }

  function DoWrite(s: State, c: nat): Option<State> {
    if !Writing(s, c) then None
    else
      var g, w, frame := s.slot.value, s.workers[s.slot.value], NextFrame(s, c);
      Some(Moved(WithWorker(s, g, w.(nextId := w.nextId + 1, stdin := w.stdin + [frame], sent := w.sent + [frame])),
                 c, Written(g, |w.sent|)))
  }

  /** Out of the slot, and the lock released; the child is killed next. */
  function Taken(s: State, c: nat, w: Worker, outcome: Outcome): State
    requires c in s.calls && s.slot.Some? && s.slot.value < |s.workers|
  {
    Moved(WithWorker(s, s.slot.value, w.(retired := true)), c, Killing(s.slot.value, outcome))
      .(slot := None, lock := None)
  }

  function DoWriteFails(s: State, c: nat, delivered: bool): Option<State> {
    if !Writing(s, c) then None
    else
      var w, frame := s.workers[s.slot.value], NextFrame(s, c);
      var w1 := if delivered then w.(nextId := w.nextId + 1, stdin := w.stdin + [frame], sent := w.sent + [frame])
                else w.(nextId := w.nextId + 1);
      Some(Taken(s, c, w1, Bypassed("worker_gone")))
  }

  function DoFlush(s: State, c: nat): Option<State> {
    if c !in s.calls || !s.calls[c].phase.Written? then None
    else var p := s.calls[c].phase; Some(Moved(s, c, Flushed(p.worker, p.index)))
  }

  /** A written frame is left behind, with its worker still in the slot. */
  function FrameGivenUp(s: State, c: nat, g: nat, outcome: Outcome): State
    requires c in s.calls && g < |s.workers|
  {
    Finished(WithWorker(s, g, s.workers[g].(missed := s.workers[g].missed + 1)), c, outcome)
  }

  function DoFlushFails(s: State, c: nat): Option<State> {
    if c !in s.calls || !s.calls[c].phase.Written? || s.calls[c].phase.worker >= |s.workers| then None
    else Some(FrameGivenUp(s, c, s.calls[c].phase.worker, Bypassed("worker_gone")))
  }

  function DoRead(s: State, c: nat): Option<State> {
    if c !in s.calls || !s.calls[c].phase.Flushed? then None
    else
      var p := s.calls[c].phase;
      if p.worker >= |s.workers| || s.workers[p.worker].stdout == [] then None
      else
        var w := s.workers[p.worker];
        Some(Finished(WithWorker(s, p.worker, w.(stdout := w.stdout[1..], taken := w.taken + 1)), c,
                      Settled(p.worker, p.index, w.stdout[0], w.missed)))
  }

  /** A timeout, an exit, an oversized or unreadable reply. */
  function DoReadFails(s: State, c: nat, timedOut: bool): Option<State> {
    if c !in s.calls || !s.calls[c].phase.Flushed? || s.slot.None? || s.slot.value >= |s.workers| then None
    else Some(Taken(s, c, s.workers[s.slot.value], Bypassed(if timedOut then "timeout" else "transform_error")))
  }

  /** A stop, or the first half of a restart. */
  function DoStopTakes(s: State, c: nat): Option<State> {
    if !InPhase(s, c, Waiting) || s.lock.Some? then None
    else
      var kind := s.calls[c].kind;
      if !kind.Stop? && !kind.Restart? then None
      else if s.slot.None? then
        Some(if kind.Stop? then Moved(s, c, Done(Stopped(false)))
             else s.(calls := s.calls[c := Call(Start, Waiting)]))
      else if s.slot.value >= |s.workers| then None
      else Some(Taken(s, c, s.workers[s.slot.value], Stopped(true)))
  }

  function Killed(s: State, c: nat, g: nat, call: Call): State
    requires g < |s.workers|
  {
    WithWorker(s, g, s.workers[g].(alive := false)).(calls := s.calls[c := call])
  }

  /** A restart goes on as a start; any other call has its outcome. */
  function AfterKill(call: Call): Call
    requires call.phase.Killing?
  {
    if call.kind.Restart? then Call(Start, Waiting) else Call(call.kind, Done(call.phase.result))
  }

  function DoKill(s: State, c: nat): Option<State> {
    if c !in s.calls || !s.calls[c].phase.Killing? || s.calls[c].phase.worker >= |s.workers| then None
    else Some(Killed(s, c, s.calls[c].phase.worker, AfterKill(s.calls[c])))
  }

  /** The caller drops the call where it waits.  The lock goes with it, and a
      child it holds is killed; a worker in the slot stays.  A write or a read
      that this cuts in half leaves a line that cannot be parsed, so that a
      later read fails, as a read can at any time. */
  function DoCancel(s: State, c: nat): Option<State> {
    if c !in s.calls then None
    else
      match s.calls[c].phase
      case Waiting => Some(Moved(s, c, Done(Cancelled)))
      case Connecting => Some(Finished(s, c, Cancelled))
      case Spawning(g) => if g < |s.workers| then Some(ChildGivenUp(s, c, g, Cancelled)) else None
      case Loaded => if Writing(s, c) then Some(NumberGivenUp(s, c, Cancelled)) else None
      case Written(g, _) => if g < |s.workers| then Some(FrameGivenUp(s, c, g, Cancelled)) else None
      case Flushed(g, _) => if g < |s.workers| then Some(FrameGivenUp(s, c, g, Cancelled)) else None
      case Killing(g, _) => if g < |s.workers| then Some(Killed(s, c, g, Call(s.calls[c].kind, Done(Cancelled)))) else None
      case Done(_) => None
  }

  // ------------------------------------------------ steps of a worker

  function DoAnnounce(s: State, g: nat, failed: bool): Option<State> {
    if g >= |s.workers| || !s.workers[g].alive || s.workers[g].announced then None
    else
      var w := s.workers[g];
      Some(WithWorker(s, g, w.(announced := true, stdout := w.stdout + [Ready(failed)], alive := !failed)))
  }

  /** One request in, one reply out, in order. */
  function DoRespond(s: State, g: nat, answer: Answer): Option<State> {
    if g >= |s.workers| || !s.workers[g].alive || !s.workers[g].announced || s.workers[g].stdin == [] then None
    else
      var w := s.workers[g];
      Some(WithWorker(s, g, w.(stdin := w.stdin[1..], stdout := w.stdout + [Result(w.stdin[0].id, answer)],
                               answers := w.answers + [answer])))
  }

  function DoDie(s: State, g: nat): Option<State> {
    if g >= |s.workers| then None else Some(WithWorker(s, g, s.workers[g].(alive := false)))
  }

  function Next(s: State, step: Step): Option<State> {
    match step
    case Arrive(c, kind) => if c in s.calls then None else Some(s.(calls := s.calls[c := Call(kind, Waiting)]))
    case Acquire(c) => DoAcquire(s, c)
    case SpawnFails(c, error) =>
      if !InPhase(s, c, Connecting) || error.UnsupportedNode? then None
      else Some(Finished(s, c, NoWorker(s.calls[c].kind, error)))
    case Spawns(c) => DoSpawns(s, c)
    case ReadyRead(c, supported) => DoReadyRead(s, c, supported)
    case ReadyFails(c) => DoReadyFails(s, c)
    case EncodeFails(c) => DoEncodeFails(s, c)
    case Write(c) => DoWrite(s, c)
    case WriteFails(c, delivered) => DoWriteFails(s, c, delivered)
    case Flush(c) => DoFlush(s, c)
    case FlushFails(c) => DoFlushFails(s, c)
    case Read(c) => DoRead(s, c)
    case ReadFails(c, timedOut) => DoReadFails(s, c, timedOut)
    case StopTakes(c) => DoStopTakes(s, c)
    case Kill(c) => DoKill(s, c)
    case Cancel(c) => DoCancel(s, c)
    case Announce(g, failed) => DoAnnounce(s, g, failed)
    case Respond(g, answer) => DoRespond(s, g, answer)
    case Die(g) => DoDie(s, g)
  }

  /** A run; nothing when some step of it is not possible. */
  function Run(s: State, steps: seq<Step>): Option<State>
    decreases |steps|
  {
    if steps == [] then Some(s)
    else match Next(s, steps[0])
         case None => None
         case Some(next) => Run(next, steps[1..])
  }

  // ------------------------------------------------ the invariant

  /** The replies the router has not read yet. */
  function Unread(w: Worker): seq<Reply>
    requires w.taken <= |w.answers| <= |w.sent|
  {
    seq(|w.answers| - w.taken,
        k requires 0 <= k < |w.answers| - w.taken => Result(w.sent[w.taken + k].id, w.answers[w.taken + k]))
  }

  predicate WorkerOk(w: Worker) {
    w.taken <= |w.answers| <= |w.sent|
    && w.stdin == w.sent[|w.answers|..]
    && (w.answers != [] || w.greeted ==> w.announced)
    && (if w.announced && !w.greeted && !w.retired
        then w.stdout != [] && w.stdout[0].Ready? && w.stdout[1..] == Unread(w)
        else w.announced && w.greeted ==> w.stdout == Unread(w))
    && (!w.announced ==> w.stdout == [])
    && (forall i :: 0 <= i < |w.sent| ==> w.sent[i].id < w.nextId)
    && (forall i, j :: 0 <= i < j < |w.sent| ==> w.sent[i].id < w.sent[j].id)
  }

  predicate Holding(phase: Phase) {
    phase.Connecting? || phase.Spawning? || phase.Loaded? || phase.Written? || phase.Flushed?
  }

  /** The frame of a transform that is waiting for its reply. */
  predicate Asking(phase: Phase) { phase.Written? || phase.Flushed? }

  predicate LockOk(s: State) {
    (s.lock.Some? ==> s.lock.value in s.calls && Holding(s.calls[s.lock.value].phase))
    && (forall c :: c in s.calls && Holding(s.calls[c].phase) ==> s.lock == Some(c))
  }

  /** Frames written are frames read, plus those given up, plus the one the
      holder of the lock is waiting for. */
  predicate SlotOk(s: State) {
    s.slot.Some? ==>
      s.slot.value < |s.workers|
      && var w := s.workers[s.slot.value];
      w.greeted && !w.retired
      && |w.sent| == w.taken + w.missed
                     + (if s.lock.Some? && s.lock.value in s.calls && Asking(s.calls[s.lock.value].phase) then 1 else 0)
  }

  predicate CallOk(s: State, call: Call) {
    match call.phase
    case Waiting => true
    case Connecting => s.slot.None? && (call.kind.Transform? || call.kind.Start?)
    case Spawning(g) => s.slot.None? && g < |s.workers| && s.workers[g].sent == [] && s.workers[g].missed == 0
                        && !s.workers[g].greeted && !s.workers[g].retired
                        && (call.kind.Transform? || call.kind.Start?)
    case Loaded => s.slot.Some? && call.kind.Transform?
    case Written(g, index) => AskingOk(s, call, g, index)
    case Flushed(g, index) => AskingOk(s, call, g, index)
    case Killing(g, outcome) => g < |s.workers| && s.workers[g].retired && KillOutcome(outcome)
    case Done(outcome) => outcome.Settled? ==> SettledOk(s, call, outcome)
  }

  /** What a call can come to when its worker is killed. */
  predicate KillOutcome(outcome: Outcome) {
    outcome == Stopped(true) || outcome == Bypassed("worker_gone") || outcome == Bypassed("timeout")
    || outcome == Bypassed("transform_error")
  }

  predicate AskingOk(s: State, call: Call, g: nat, index: nat) {
    s.slot == Some(g) && g < |s.workers| && |s.workers[g].sent| == index + 1
    && call.kind.Transform? && s.workers[g].sent[index].request == call.kind.request
  }

  /** The reply a finished transform was settled with is the worker's answer
      to the frame written `behind` frames before its own. */
  predicate SettledOk(s: State, call: Call, outcome: Outcome)
    requires outcome.Settled?
  {
    var Settled(g, index, reply, behind) := outcome;
    g < |s.workers| && behind <= index < |s.workers[g].sent| && index - behind < s.workers[g].taken
    && s.workers[g].taken <= |s.workers[g].answers|
    && behind <= s.workers[g].missed
    && call.kind.Transform? && s.workers[g].sent[index].request == call.kind.request
    && reply == Result(s.workers[g].sent[index - behind].id, s.workers[g].answers[index - behind])
  }

  predicate Inv(s: State) {
    (forall g :: 0 <= g < |s.workers| ==> WorkerOk(s.workers[g]))
    && LockOk(s) && SlotOk(s)
    && (forall c :: c in s.calls ==> CallOk(s, s.calls[c]))
  }

  // ------------------------------------------------ every step keeps it

  predicate WorkerGrows(w: Worker, v: Worker) {
    w.sent <= v.sent && w.answers <= v.answers && w.taken <= v.taken && w.missed <= v.missed
    && (w.retired ==> v.retired)
  }

  /** History only grows. */
  predicate Grows(s: State, t: State) {
    |s.workers| <= |t.workers|
    && forall g :: 0 <= g < |s.workers| ==> WorkerGrows(s.workers[g], t.workers[g])
  }

  lemma SettledKept(s: State, t: State, call: Call, outcome: Outcome)
    requires Grows(s, t) && outcome.Settled? && SettledOk(s, call, outcome)
    requires forall g :: 0 <= g < |t.workers| ==> WorkerOk(t.workers[g])
    ensures SettledOk(t, call, outcome)
  {
    var g := outcome.worker;
    assert WorkerGrows(s.workers[g], t.workers[g]) && WorkerOk(t.workers[g]);
  }

  /** Calls that do not hold the lock keep what is known about them. */
  lemma RestingKept(s: State, t: State, call: Call)
    requires Grows(s, t) && CallOk(s, call) && !Holding(call.phase)
    requires forall g :: 0 <= g < |t.workers| ==> WorkerOk(t.workers[g])
    ensures CallOk(t, call)
  {
    if call.phase.Done? && call.phase.outcome.Settled? {
      SettledKept(s, t, call, call.phase.outcome);
    } else if call.phase.Killing? {
      assert WorkerGrows(s.workers[call.phase.worker], t.workers[call.phase.worker]);
    }
  }

  lemma OthersKept(s: State, t: State, c: nat)
    requires Inv(s) && Grows(s, t)
    requires forall g :: 0 <= g < |t.workers| ==> WorkerOk(t.workers[g])
    requires s.lock.Some? ==> s.lock == Some(c)
    requires c in t.calls && s.calls.Keys <= t.calls.Keys <= s.calls.Keys + {c}
    requires forall d :: d in t.calls && d != c ==> t.calls[d] == s.calls[d]
    requires CallOk(t, t.calls[c])
    ensures forall d :: d in t.calls ==> CallOk(t, t.calls[d])
  {
    forall d | d in t.calls && d != c ensures CallOk(t, t.calls[d]) {
      assert !Holding(s.calls[d].phase);
      RestingKept(s, t, s.calls[d]);
    }
  }

  lemma OneWorkerGrows(s: State, g: nat, w: Worker)
    requires g < |s.workers| && WorkerGrows(s.workers[g], w)
    ensures Grows(s, WithWorker(s, g, w))
  {
  }

  lemma SameWorkers(s: State, t: State)
    requires t.workers == s.workers
    ensures Grows(s, t)
  {
  }

  lemma AcquireKeeps(s: State, c: nat, t: State)
    requires Inv(s) && DoAcquire(s, c) == Some(t)
    ensures Inv(t) && Grows(s, t)
  {
    hide WorkerOk, SettledOk, Grows;
    SameWorkers(s, t);
    OthersKept(s, t, c);
  }

  lemma SpawnsKeeps(s: State, c: nat, t: State)
    requires Inv(s) && DoSpawns(s, c) == Some(t)
    ensures Inv(t) && Grows(s, t)
  {
    assert WorkerOk(NewWorker());
    OthersKept(s, t, c);
  }

  lemma ReadyReadKeeps(s: State, c: nat, supported: bool, t: State)
    requires Inv(s) && DoReadyRead(s, c, supported) == Some(t)
    ensures Inv(t) && Grows(s, t)
  {
    var g := s.calls[c].phase.worker;
    var w := s.workers[g];
    assert CallOk(s, s.calls[c]) && WorkerOk(w);
    assert w.answers == [] && w.taken == 0;
    OneWorkerGrows(s, g, t.workers[g]);
    assert WorkerOk(t.workers[g]);
    OthersKept(s, t, c);
  }

  lemma ChildKeeps(s: State, c: nat, g: nat, outcome: Outcome, t: State)
    requires Inv(s) && c in s.calls && s.calls[c].phase == Spawning(g) && g < |s.workers|
    requires !outcome.Settled? && t == ChildGivenUp(s, c, g, outcome)
    ensures Inv(t) && Grows(s, t)
  {
    assert CallOk(s, s.calls[c]) && WorkerOk(s.workers[g]);
    OneWorkerGrows(s, g, t.workers[g]);
    assert WorkerOk(t.workers[g]);
    OthersKept(s, t, c);
  }

  lemma NumberKeeps(s: State, c: nat, outcome: Outcome, t: State)
    requires Inv(s) && Writing(s, c) && !outcome.Settled? && t == NumberGivenUp(s, c, outcome)
    ensures Inv(t) && Grows(s, t)
  {
    var g := s.slot.value;
    assert WorkerOk(s.workers[g]);
    OneWorkerGrows(s, g, t.workers[g]);
    assert WorkerOk(t.workers[g]);
    OthersKept(s, t, c);
  }

  lemma SentKeeps(w: Worker, frame: Frame)
    requires WorkerOk(w) && frame.id == w.nextId
    ensures WorkerOk(w.(nextId := w.nextId + 1, stdin := w.stdin + [frame], sent := w.sent + [frame]))
    ensures WorkerOk(w.(nextId := w.nextId + 1))
  {
    var v := w.(nextId := w.nextId + 1, stdin := w.stdin + [frame], sent := w.sent + [frame]);
    assert Unread(v) == Unread(w);
    assert Unread(w.(nextId := w.nextId + 1)) == Unread(w);
  }

  lemma WriteKeeps(s: State, c: nat, t: State)
    requires Inv(s) && DoWrite(s, c) == Some(t)
    ensures Inv(t) && Grows(s, t)
  {
    var g := s.slot.value;
    assert WorkerOk(s.workers[g]);
    SentKeeps(s.workers[g], NextFrame(s, c));
    OneWorkerGrows(s, g, t.workers[g]);
    assert WorkerOk(t.workers[g]);
    OthersKept(s, t, c);
  }

  lemma TakenKeeps(s: State, c: nat, w: Worker, outcome: Outcome, t: State)
    requires Inv(s) && c in s.calls && s.slot.Some? && s.slot.value < |s.workers|
    requires s.lock.Some? ==> s.lock == Some(c)
    requires WorkerOk(w) && WorkerGrows(s.workers[s.slot.value], w) && w.greeted && KillOutcome(outcome)
    requires t == Taken(s, c, w, outcome)
    ensures Inv(t) && Grows(s, t)
  {
    hide WorkerOk, WorkerGrows, SettledOk, AskingOk;
    var g := s.slot.value;
    RetiredOk(s.workers[g], w);
    OneWorkerGrows(s, g, t.workers[g]);
    OthersKept(s, t, c);
  }

  lemma RetiredOk(was: Worker, w: Worker)
    requires WorkerOk(w) && w.greeted && WorkerGrows(was, w)
    ensures WorkerOk(w.(retired := true)) && WorkerGrows(was, w.(retired := true))
  {
    assert Unread(w.(retired := true)) == Unread(w);
  }

  lemma WriteFailsKeeps(s: State, c: nat, delivered: bool, t: State)
    requires Inv(s) && DoWriteFails(s, c, delivered) == Some(t)
    ensures Inv(t) && Grows(s, t)
  {
    var w, frame := s.workers[s.slot.value], NextFrame(s, c);
    assert WorkerOk(w);
    SentKeeps(w, frame);
    var w1 := if delivered then w.(nextId := w.nextId + 1, stdin := w.stdin + [frame], sent := w.sent + [frame])
              else w.(nextId := w.nextId + 1);
    TakenKeeps(s, c, w1, Bypassed("worker_gone"), t);
  }

  lemma FlushKeeps(s: State, c: nat, t: State)
    requires Inv(s) && DoFlush(s, c) == Some(t)
    ensures Inv(t) && Grows(s, t)
  {
    assert CallOk(s, s.calls[c]);
    OthersKept(s, t, c);
  }

  lemma FrameKeeps(s: State, c: nat, g: nat, outcome: Outcome, t: State)
    requires Inv(s) && c in s.calls && Asking(s.calls[c].phase) && s.calls[c].phase.worker == g && g < |s.workers|
    requires !outcome.Settled? && t == FrameGivenUp(s, c, g, outcome)
    ensures Inv(t) && Grows(s, t)
  {
    hide WorkerOk, WorkerGrows, SettledOk;
    assert CallOk(s, s.calls[c]);
    MissedOk(s.workers[g]);
    OneWorkerGrows(s, g, t.workers[g]);
    hide Grows;
    OthersKept(s, t, c);
  }

  lemma MissedOk(w: Worker)
    requires WorkerOk(w)
    ensures WorkerOk(w.(missed := w.missed + 1)) && WorkerGrows(w, w.(missed := w.missed + 1))
  {
    assert Unread(w.(missed := w.missed + 1)) == Unread(w);
  }

  /** Reading takes the oldest unread reply. */
  lemma ReadHead(w: Worker)
    requires WorkerOk(w) && w.greeted && !w.retired && w.stdout != []
    ensures w.taken < |w.answers| && w.stdout[0] == Result(w.sent[w.taken].id, w.answers[w.taken])
    ensures w.taken < |w.answers| <= |w.sent|
    ensures var v := w.(stdout := w.stdout[1..], taken := w.taken + 1); WorkerOk(v) && WorkerGrows(w, v)
  {
    var v := w.(stdout := w.stdout[1..], taken := w.taken + 1);
    assert w.stdout == Unread(w);
    assert Unread(v) == Unread(w)[1..];
  }

  lemma ReadKeeps(s: State, c: nat, t: State)
    requires Inv(s) && DoRead(s, c) == Some(t)
    ensures Inv(t) && Grows(s, t)
  {
    hide SettledOk, CallOk, AskingOk, WorkerOk, WorkerGrows, LockOk;
    var p := s.calls[c].phase;
    var w := s.workers[p.worker];
    ReadIsOwed(s, c);
    ReadHead(w);
    OneWorkerGrows(s, p.worker, t.workers[p.worker]);
    ReadSettled(s, c, t);
    DoneOk(t, t.calls[c]);
    ReadUnlocks(s, c, t);
    OthersKept(s, t, c);
  }

  lemma ReadUnlocks(s: State, c: nat, t: State)
    requires LockOk(s) && s.lock == Some(c) && DoRead(s, c) == Some(t)
    ensures LockOk(t)
  {
  }

  lemma DoneOk(s: State, call: Call)
    requires call.phase.Done? && call.phase.outcome.Settled? && SettledOk(s, call, call.phase.outcome)
    ensures CallOk(s, call)
  {
  }

  /** A call that can read has everything before its own frame read or missed. */
  lemma ReadIsOwed(s: State, c: nat)
    requires Inv(s) && DoRead(s, c).Some?
    ensures var p := s.calls[c].phase;
            p.worker < |s.workers| && s.lock == Some(c) && s.slot == Some(p.worker)
            && var w := s.workers[p.worker];
            WorkerOk(w) && w.greeted && !w.retired && w.stdout != []
            && |w.sent| == p.index + 1 && p.index == w.taken + w.missed
            && s.calls[c].kind.Transform? && w.sent[p.index].request == s.calls[c].kind.request
  {
    assert CallOk(s, s.calls[c]);
    hide WorkerOk, SettledOk;
  }

  lemma ReadSettled(s: State, c: nat, t: State)
    requires DoRead(s, c) == Some(t)
    requires var p := s.calls[c].phase;
             var w := s.workers[p.worker];
             |w.sent| == p.index + 1 && p.index == w.taken + w.missed && w.taken < |w.answers| <= |w.sent|
             && s.calls[c].kind.Transform? && w.sent[p.index].request == s.calls[c].kind.request
             && w.stdout[0] == Result(w.sent[w.taken].id, w.answers[w.taken])
    ensures SettledOk(t, t.calls[c], t.calls[c].phase.outcome)
  {
  }

  lemma ReadFailsKeeps(s: State, c: nat, timedOut: bool, t: State)
    requires Inv(s) && DoReadFails(s, c, timedOut) == Some(t)
    ensures Inv(t) && Grows(s, t)
  {
    assert WorkerOk(s.workers[s.slot.value]);
    TakenKeeps(s, c, s.workers[s.slot.value], Bypassed(if timedOut then "timeout" else "transform_error"), t);
  }

  lemma StopTakesKeeps(s: State, c: nat, t: State)
    requires Inv(s) && DoStopTakes(s, c) == Some(t)
    ensures Inv(t) && Grows(s, t)
  {
    if s.slot.Some? {
      assert WorkerOk(s.workers[s.slot.value]);
      TakenKeeps(s, c, s.workers[s.slot.value], Stopped(true), t);
    } else {
      OthersKept(s, t, c);
    }
  }

  /** A step that leaves lock and slot alone, on a worker whose written frames
      it does not change. */
  lemma AsideKeeps(s: State, t: State, c: Option<nat>)
    requires Inv(s) && Grows(s, t) && t.lock == s.lock && t.slot == s.slot && |t.workers| == |s.workers|
    requires forall g :: 0 <= g < |t.workers| ==>
               WorkerOk(t.workers[g])
               && t.workers[g].sent == s.workers[g].sent && t.workers[g].taken == s.workers[g].taken
               && t.workers[g].missed == s.workers[g].missed && t.workers[g].greeted == s.workers[g].greeted
               && t.workers[g].retired == s.workers[g].retired
    requires c.Some? ==> c.value in t.calls && CallOk(t, t.calls[c.value]) && !Holding(t.calls[c.value].phase)
    requires c.Some? && c.value in s.calls ==> !Holding(s.calls[c.value].phase)
    requires forall d :: d in t.calls && Some(d) != c ==> d in s.calls && t.calls[d] == s.calls[d]
    requires s.calls.Keys <= t.calls.Keys
    ensures Inv(t)
  {
    forall d | d in t.calls ensures CallOk(t, t.calls[d]) {
      if Some(d) != c {
        assert CallOk(s, s.calls[d]);
        if !Holding(s.calls[d].phase) {
          RestingKept(s, t, s.calls[d]);
        }
      }
    }
    if t.lock.Some? {
      assert Some(t.lock.value) != c;
    }
  }

  lemma ArriveKeeps(s: State, c: nat, kind: Kind, t: State)
    requires Inv(s) && c !in s.calls && t == s.(calls := s.calls[c := Call(kind, Waiting)])
    ensures Inv(t) && Grows(s, t)
  {
    AsideKeeps(s, t, Some(c));
  }

  lemma KilledKeeps(s: State, c: nat, g: nat, call: Call, t: State)
    requires Inv(s) && c in s.calls && s.calls[c].phase.Killing? && g < |s.workers|
    requires call.phase == Waiting || (call.phase.Done? && !call.phase.outcome.Settled?)
    requires t == Killed(s, c, g, call)
    ensures Inv(t) && Grows(s, t)
  {
    var w := s.workers[g].(alive := false);
    StoppedKeeps(s, g);
    var s1 := WithWorker(s, g, w);
    OneWorkerGrows(s, g, w);
    assert t.workers == s1.workers;
    hide WorkerOk, SettledOk, LockOk, SlotOk, AskingOk;
    assert CallOk(t, t.calls[c]);
    AsideKeeps(s, t, Some(c));
  }

  lemma StoppedKeeps(s: State, g: nat)
    requires Inv(s) && g < |s.workers|
    ensures WorkerOk(s.workers[g].(alive := false))
    ensures WorkerGrows(s.workers[g], s.workers[g].(alive := false))
  {
    var w := s.workers[g];
    assert WorkerOk(w);
    assert Unread(w.(alive := false)) == Unread(w);
  }

  /** What a worker does on its own: the frames written to it and what the
      router has read of it stay. */
  predicate OwnWork(w: Worker, v: Worker) {
    WorkerGrows(w, v) && v.sent == w.sent && v.taken == w.taken && v.missed == w.missed
    && v.greeted == w.greeted && v.retired == w.retired
  }

  lemma AnnounceOk(w: Worker, failed: bool)
    requires WorkerOk(w) && !w.announced
    ensures var v := w.(announced := true, stdout := w.stdout + [Ready(failed)], alive := !failed);
            WorkerOk(v) && OwnWork(w, v)
  {
    var v := w.(announced := true, stdout := w.stdout + [Ready(failed)], alive := !failed);
    assert w.answers == [] && Unread(v) == [] && v.stdout == [Ready(failed)];
  }

  lemma RespondOk(w: Worker, answer: Answer)
    requires WorkerOk(w) && w.announced && w.stdin != []
    ensures var v := w.(stdin := w.stdin[1..], stdout := w.stdout + [Result(w.stdin[0].id, answer)],
                        answers := w.answers + [answer]);
            WorkerOk(v) && OwnWork(w, v)
  {
    var v := w.(stdin := w.stdin[1..], stdout := w.stdout + [Result(w.stdin[0].id, answer)],
                answers := w.answers + [answer]);
    assert Unread(v) == Unread(w) + [Result(w.stdin[0].id, answer)];
  }

  lemma DieOk(w: Worker)
    requires WorkerOk(w)
    ensures WorkerOk(w.(alive := false)) && OwnWork(w, w.(alive := false))
  {
    assert Unread(w.(alive := false)) == Unread(w);
  }

  lemma OwnWorkKeeps(s: State, g: nat, v: Worker, t: State)
    requires Inv(s) && g < |s.workers| && WorkerOk(v) && OwnWork(s.workers[g], v) && t == WithWorker(s, g, v)
    ensures Inv(t) && Grows(s, t)
  {
    OneWorkerGrows(s, g, v);
    hide WorkerOk, CallOk, LockOk, SlotOk, WorkerGrows, Grows;
    AsideKeeps(s, t, None);
  }

  lemma AnnounceKeeps(s: State, g: nat, failed: bool, t: State)
    requires Inv(s) && DoAnnounce(s, g, failed) == Some(t)
    ensures Inv(t) && Grows(s, t)
  {
    assert WorkerOk(s.workers[g]);
    hide WorkerOk, OwnWork, LockOk, SlotOk, CallOk;
    AnnounceOk(s.workers[g], failed);
    OwnWorkKeeps(s, g, t.workers[g], t);
  }

  lemma RespondKeeps(s: State, g: nat, answer: Answer, t: State)
    requires Inv(s) && DoRespond(s, g, answer) == Some(t)
    ensures Inv(t) && Grows(s, t)
  {
    assert WorkerOk(s.workers[g]);
    hide WorkerOk, OwnWork, LockOk, SlotOk, CallOk;
    RespondOk(s.workers[g], answer);
    OwnWorkKeeps(s, g, t.workers[g], t);
  }

  lemma DieKeeps(s: State, g: nat, t: State)
    requires Inv(s) && DoDie(s, g) == Some(t)
    ensures Inv(t) && Grows(s, t)
  {
    assert WorkerOk(s.workers[g]);
    hide WorkerOk, OwnWork, LockOk, SlotOk, CallOk;
    DieOk(s.workers[g]);
    OwnWorkKeeps(s, g, t.workers[g], t);
  }

  lemma UnspawnedKeeps(s: State, c: nat, outcome: Outcome, t: State)
    requires Inv(s) && InPhase(s, c, Connecting) && !outcome.Settled? && t == Finished(s, c, outcome)
    ensures Inv(t) && Grows(s, t)
  {
    OthersKept(s, t, c);
  }

  lemma ReadyFailsKeeps(s: State, c: nat, t: State)
    requires Inv(s) && DoReadyFails(s, c) == Some(t)
    ensures Inv(t) && Grows(s, t)
  {
    hide Inv, Grows, ChildGivenUp;
    ChildKeeps(s, c, s.calls[c].phase.worker, NoWorker(s.calls[c].kind, Failed), t);
  }

  lemma EncodeFailsKeeps(s: State, c: nat, t: State)
    requires Inv(s) && DoEncodeFails(s, c) == Some(t)
    ensures Inv(t) && Grows(s, t)
  {
    hide Inv, Grows, NumberGivenUp;
    NumberKeeps(s, c, Bypassed("encode_error"), t);
  }

  lemma FlushFailsKeeps(s: State, c: nat, t: State)
    requires Inv(s) && DoFlushFails(s, c) == Some(t)
    ensures Inv(t) && Grows(s, t)
  {
    hide Inv, Grows, FrameGivenUp;
    FrameKeeps(s, c, s.calls[c].phase.worker, Bypassed("worker_gone"), t);
  }

  lemma KillKeeps(s: State, c: nat, t: State)
    requires Inv(s) && DoKill(s, c) == Some(t)
    ensures Inv(t) && Grows(s, t)
  {
    assert CallOk(s, s.calls[c]);
    hide Inv, Grows, Killed, SettledOk;
    KilledKeeps(s, c, s.calls[c].phase.worker, AfterKill(s.calls[c]), t);
  }

  lemma CancelKeeps(s: State, c: nat, t: State)
    requires Inv(s) && DoCancel(s, c) == Some(t)
    ensures Inv(t) && Grows(s, t)
  {
    hide Inv, Grows, Finished, Moved, ChildGivenUp, NumberGivenUp, FrameGivenUp, Killed, Writing;
    match s.calls[c].phase
    case Waiting => ForgottenKeeps(s, c, t);
    case Connecting => UnspawnedKeeps(s, c, Cancelled, t);
    case Spawning(g) => ChildKeeps(s, c, g, Cancelled, t);
    case Loaded => NumberKeeps(s, c, Cancelled, t);
    case Written(g, _) => FrameKeeps(s, c, g, Cancelled, t);
    case Flushed(g, _) => FrameKeeps(s, c, g, Cancelled, t);
    case Killing(g, _) => KilledKeeps(s, c, g, Call(s.calls[c].kind, Done(Cancelled)), t);
  }

  lemma ForgottenKeeps(s: State, c: nat, t: State)
    requires Inv(s) && InPhase(s, c, Waiting) && t == Moved(s, c, Done(Cancelled))
    ensures Inv(t) && Grows(s, t)
  {
    AsideKeeps(s, t, Some(c));
  }

  /** Every step of every call and of every worker keeps the invariant. */
  lemma StepKeeps(s: State, step: Step, t: State)
    requires Inv(s) && Next(s, step) == Some(t)
    ensures Inv(t) && Grows(s, t)
  {
    hide Inv, Grows, DoAcquire, DoSpawns, DoReadyRead, DoReadyFails, DoEncodeFails, DoWrite, DoWriteFails, DoFlush,
      DoFlushFails, DoRead, DoReadFails, DoStopTakes, DoKill, DoCancel, DoAnnounce, DoRespond, DoDie;
    match step
    case Arrive(c, kind) => ArriveKeeps(s, c, kind, t);
    case Acquire(c) => AcquireKeeps(s, c, t);
    case SpawnFails(c, error) => UnspawnedKeeps(s, c, NoWorker(s.calls[c].kind, error), t);
    case Spawns(c) => SpawnsKeeps(s, c, t);
    case ReadyRead(c, supported) => ReadyReadKeeps(s, c, supported, t);
    case ReadyFails(c) => ReadyFailsKeeps(s, c, t);
    case EncodeFails(c) => EncodeFailsKeeps(s, c, t);
    case Write(c) => WriteKeeps(s, c, t);
    case WriteFails(c, delivered) => WriteFailsKeeps(s, c, delivered, t);
    case Flush(c) => FlushKeeps(s, c, t);
    case FlushFails(c) => FlushFailsKeeps(s, c, t);
    case Read(c) => ReadKeeps(s, c, t);
    case ReadFails(c, timedOut) => ReadFailsKeeps(s, c, timedOut, t);
    case StopTakes(c) => StopTakesKeeps(s, c, t);
    case Kill(c) => KillKeeps(s, c, t);
    case Cancel(c) => CancelKeeps(s, c, t);
    case Announce(g, failed) => AnnounceKeeps(s, g, failed, t);
    case Respond(g, answer) => RespondKeeps(s, g, answer, t);
    case Die(g) => DieKeeps(s, g, t);
  }

  lemma {:induction false} RunKeeps(s: State, steps: seq<Step>, t: State)
    requires Inv(s) && Run(s, steps) == Some(t)
    ensures Inv(t)
    decreases |steps|
  {
    hide Inv, Next;
    if steps != [] {
      StepKeeps(s, steps[0], Next(s, steps[0]).value);
      RunKeeps(Next(s, steps[0]).value, steps[1..], t);
    }
  }

  // ------------------------------------------------ the main results

  lemma InitOk()
    ensures Inv(INIT)
  {
  }

  /** The step leaves a frame written to this worker behind: its flush failed,
      or the call that waited for its reply was dropped. */
  predicate LeavesBehind(s: State, step: Step, g: nat) {
    (step.FlushFails? || step.Cancel?) && step.call in s.calls
    && Asking(s.calls[step.call].phase) && s.calls[step.call].phase.worker == g
  }

  /** How many frames written to a worker the steps of a run leave behind. */
  function LeftBehind(s: State, steps: seq<Step>, g: nat): nat
    decreases |steps|
  {
    if steps == [] then 0
    else match Next(s, steps[0])
         case None => 0
         case Some(next) => (if LeavesBehind(s, steps[0], g) then 1 else 0) + LeftBehind(next, steps[1..], g)
  }

  /** How a step changes the count of missed frames. */
  predicate MissesRight(s: State, step: Step, t: State, g: nat) {
    |s.workers| <= |t.workers|
    && (g < |t.workers| ==>
          t.workers[g].missed == (if g < |s.workers| then s.workers[g].missed else 0)
                                 + (if LeavesBehind(s, step, g) then 1 else 0))
    && (LeavesBehind(s, step, g) ==> g < |s.workers|)
  }

  lemma MissedStep(s: State, step: Step, t: State, g: nat)
    requires Next(s, step) == Some(t)
    ensures MissesRight(s, step, t, g)
  {
    hide Next, MissesRight;
    if SetUp(step) {
      SetUpMisses(s, step, t, g);
    } else if Sending(step) {
      SendingMisses(s, step, t, g);
    } else if step.Cancel? {
      CancelMisses(s, step.call, t, g);
    } else {
      OtherMisses(s, step, t, g);
    }
  }

  lemma SetUpMisses(s: State, step: Step, t: State, g: nat)
    requires SetUp(step) && Next(s, step) == Some(t)
    ensures MissesRight(s, step, t, g)
  {
    hide NoWorker, ReadyError;
  }

  lemma SendingMisses(s: State, step: Step, t: State, g: nat)
    requires Sending(step) && Next(s, step) == Some(t)
    ensures MissesRight(s, step, t, g)
  {
  }

  lemma OtherMisses(s: State, step: Step, t: State, g: nat)
    requires !SetUp(step) && !Sending(step) && !step.Cancel? && Next(s, step) == Some(t)
    ensures MissesRight(s, step, t, g)
  {
    hide AfterKill;
  }

  lemma CancelMisses(s: State, c: nat, t: State, g: nat)
    requires Next(s, Cancel(c)) == Some(t)
    ensures MissesRight(s, Cancel(c), t, g)
  {
    hide Next, DoCancel, MissesRight;
    if c in s.calls && Asking(s.calls[c].phase) {
      CancelLeaves(s, c, t, g);
    } else {
      CancelSpares(s, c, t, g);
    }
  }

  lemma CancelLeaves(s: State, c: nat, t: State, g: nat)
    requires Next(s, Cancel(c)) == Some(t) && c in s.calls && Asking(s.calls[c].phase)
    ensures MissesRight(s, Cancel(c), t, g)
  {
  }

  lemma CancelSpares(s: State, c: nat, t: State, g: nat)
    requires Next(s, Cancel(c)) == Some(t) && !(c in s.calls && Asking(s.calls[c].phase))
    ensures MissesRight(s, Cancel(c), t, g)
  {
  }

  /** A worker's count of missed frames is what the run has left behind. */
  lemma {:induction false} MissedCounts(s: State, steps: seq<Step>, t: State, g: nat)
    requires Run(s, steps) == Some(t) && g < |t.workers|
    ensures t.workers[g].missed == (if g < |s.workers| then s.workers[g].missed else 0) + LeftBehind(s, steps, g)
    decreases |steps|
  {
    hide Next, LeavesBehind;
    if steps != [] {
      MissedStep(s, steps[0], Next(s, steps[0]).value, g);
      MissedCounts(Next(s, steps[0]).value, steps[1..], t, g);
    }
  }

  predicate IsSettled(s: State, c: nat) {
    c in s.calls && s.calls[c].phase.Done? && s.calls[c].phase.outcome.Settled?
  }

  predicate IsDone(s: State, c: nat) { c in s.calls && s.calls[c].phase.Done? }

  /** An outcome is final, and only a read settles a call. */
  lemma OutcomeStep(s: State, step: Step, t: State, c: nat)
    requires Inv(s) && Next(s, step) == Some(t)
    ensures IsDone(s, c) ==> c in t.calls && t.calls[c] == s.calls[c]
    ensures IsSettled(t, c) && !IsDone(s, c) ==> step == Read(c)
  {
    hide Inv, Next, OwnCallOnly;
    StepFresh(s, step, t);
    if Mover(step) != Some(c) {
      OtherCall(s, step, t, c);
    } else {
      OwnOutcome(s, step, t);
    }
  }

  lemma OtherCall(s: State, step: Step, t: State, c: nat)
    requires Mover(step) != Some(c)
    requires Mover(step).None? ==> t.calls == s.calls
    requires Mover(step).Some? ==> OwnCallOnly(s, Mover(step).value, t)
    ensures c in t.calls <==> c in s.calls
    ensures c in s.calls ==> t.calls[c] == s.calls[c]
  {
  }

  lemma OwnOutcome(s: State, step: Step, t: State)
    requires Inv(s) && Next(s, step) == Some(t) && Mover(step).Some?
    ensures !IsDone(s, step.call)
    ensures IsSettled(t, step.call) ==> step.Read?
  {
    if step.Kill? {
      assert CallOk(s, s.calls[step.call]);
    }
    hide Inv, CallOk;
    if SetUp(step) {
      SetUpOutcome(s, step, t);
    } else if Sending(step) {
      SendingOutcome(s, step, t);
    } else if step.Cancel? {
      CancelOutcome(s, step.call, t);
    } else {
      OtherOutcome(s, step, t);
    }
  }

  lemma SetUpOutcome(s: State, step: Step, t: State)
    requires SetUp(step) && Next(s, step) == Some(t)
    ensures !IsDone(s, step.call) && !IsSettled(t, step.call)
  {
    hide StartReason, ReadyError;
  }

  lemma SendingOutcome(s: State, step: Step, t: State)
    requires Sending(step) && Next(s, step) == Some(t)
    ensures !IsDone(s, step.call) && !IsSettled(t, step.call)
  {
  }

  lemma CancelOutcome(s: State, c: nat, t: State)
    requires Next(s, Cancel(c)) == Some(t)
    ensures !IsDone(s, c) && !IsSettled(t, c)
  {
  }

  lemma OtherOutcome(s: State, step: Step, t: State)
    requires step.Read? || step.ReadFails? || step.StopTakes? || step.Kill?
    requires Next(s, step) == Some(t)
    requires step.Kill? && step.call in s.calls && s.calls[step.call].phase.Killing? ==>
               !s.calls[step.call].phase.result.Settled?
    ensures !IsDone(s, step.call)
    ensures IsSettled(t, step.call) ==> step.Read?
  {
  }

  /** What it takes for a call to come to its outcome in a step. */
  predicate OutcomeRight(s: State, t: State, c: nat)
    requires c in s.calls && IsDone(t, c)
  {
    var kind, phase, outcome := s.calls[c].kind, s.calls[c].phase, t.calls[c].phase.outcome;
    (outcome.Started? ==> kind.Start? && t.slot.Some?)
    && (outcome.StartFailed? ==> kind.Start? && t.slot.None?)
    && (outcome == Bypassed("not_loaded") ==> kind.Transform? && !kind.autoLoad && s.slot.None?)
    && (outcome == Stopped(false) ==> kind.Stop? && s.slot.None?)
    && (outcome == Stopped(true) || outcome == Bypassed("timeout") || outcome == Bypassed("transform_error") ==>
          phase.Killing? && phase.worker < |t.workers| && !t.workers[phase.worker].alive
          && t.workers[phase.worker].retired)
  }

  /** A call is started only with a worker in the slot, and failed to start only
      without; a transform finds none loaded only where none is and it may not
      load one; a stop finds none only where none is; and a call whose worker
      is given up ends with that worker dead and never used again. */
  lemma OutcomesMean(s: State, step: Step, t: State, c: nat)
    requires Inv(s) && Next(s, step) == Some(t) && IsDone(t, c) && !IsDone(s, c)
    ensures c in s.calls && OutcomeRight(s, t, c)
  {
    hide Inv, Next, OwnCallOnly, OutcomeRight;
    StepFresh(s, step, t);
    if Mover(step) != Some(c) {
      OtherCall(s, step, t, c);
    } else if SetUp(step) {
      SetUpMeans(s, step, t);
    } else if Sending(step) {
      SendingMeans(s, step, t);
    } else if step.Kill? {
      KillMeans(s, c, t);
    } else {
      EndingMeans(s, step, t);
    }
  }

  lemma SetUpMeans(s: State, step: Step, t: State)
    requires SetUp(step) && Inv(s) && Next(s, step) == Some(t) && IsDone(t, step.call)
    ensures step.call in s.calls && OutcomeRight(s, t, step.call)
  {
    hide Inv, ReadyError, StartReason;
    ReasonsDiffer();
    if step.call in s.calls && (s.calls[step.call].phase.Connecting? || s.calls[step.call].phase.Spawning?) {
      NoWorkerYet(s, step.call);
    }
  }

  lemma NoWorkerYet(s: State, c: nat)
    requires Inv(s) && c in s.calls && (s.calls[c].phase.Connecting? || s.calls[c].phase.Spawning?)
    ensures s.slot.None? && (s.calls[c].kind.Transform? || s.calls[c].kind.Start?)
  {
    assert CallOk(s, s.calls[c]);
  }

  lemma ReasonsDiffer()
    ensures forall error :: StartReason(error) != "not_loaded" && StartReason(error) != "timeout"
                            && StartReason(error) != "transform_error"
  {
  }

  lemma SendingMeans(s: State, step: Step, t: State)
    requires Sending(step) && Next(s, step) == Some(t) && IsDone(t, step.call)
    ensures step.call in s.calls && OutcomeRight(s, t, step.call)
  {
  }

  lemma KillMeans(s: State, c: nat, t: State)
    requires Inv(s) && Next(s, Kill(c)) == Some(t) && IsDone(t, c)
    ensures c in s.calls && OutcomeRight(s, t, c)
  {
    assert CallOk(s, s.calls[c]);
    hide Inv, WorkerOk, SlotOk, LockOk;
  }

  lemma EndingMeans(s: State, step: Step, t: State)
    requires step.Read? || step.ReadFails? || step.StopTakes? || step.Cancel?
    requires Next(s, step) == Some(t) && IsDone(t, step.call)
    ensures step.call in s.calls && OutcomeRight(s, t, step.call)
  {
    hide Next, OutcomeRight;
    if step.Cancel? {
      CancelMeans(s, step.call, t);
    } else if step.StopTakes? {
      StopMeans(s, step.call, t);
    } else if step.Read? {
      ReadMeans(s, step.call, t);
    } else {
      FailedReadWaits(s, step.call, step.timedOut, t);
    }
  }

  lemma StopMeans(s: State, c: nat, t: State)
    requires Next(s, StopTakes(c)) == Some(t) && IsDone(t, c)
    ensures c in s.calls && OutcomeRight(s, t, c)
  {
  }

  lemma ReadMeans(s: State, c: nat, t: State)
    requires Next(s, Read(c)) == Some(t) && IsDone(t, c)
    ensures c in s.calls && OutcomeRight(s, t, c)
  {
  }

  lemma FailedReadWaits(s: State, c: nat, timedOut: bool, t: State)
    requires Next(s, ReadFails(c, timedOut)) == Some(t)
    ensures !IsDone(t, c)
  {
  }

  lemma CancelMeans(s: State, c: nat, t: State)
    requires Next(s, Cancel(c)) == Some(t) && IsDone(t, c)
    ensures c in s.calls && OutcomeRight(s, t, c)
  {
  }

  /** A call that has no outcome yet can always go on by itself, unless it waits
      for the lock, and it can always be dropped. */
  lemma NeverStuck(s: State, c: nat)
    requires Inv(s) && c in s.calls && !s.calls[c].phase.Done?
    ensures s.calls[c].phase.Waiting? && s.lock.None? ==> Next(s, Acquire(c)).Some? || Next(s, StopTakes(c)).Some?
    ensures s.calls[c].phase.Connecting? ==> Next(s, SpawnFails(c, Failed)).Some? && Next(s, Spawns(c)).Some?
    ensures s.calls[c].phase.Spawning? ==> Next(s, ReadyFails(c)).Some?
    ensures s.calls[c].phase.Loaded? ==>
              Next(s, EncodeFails(c)).Some? && Next(s, Write(c)).Some?
              && Next(s, WriteFails(c, true)).Some? && Next(s, WriteFails(c, false)).Some?
    ensures s.calls[c].phase.Written? ==> Next(s, Flush(c)).Some? && Next(s, FlushFails(c)).Some?
    ensures s.calls[c].phase.Flushed? ==> Next(s, ReadFails(c, true)).Some? && Next(s, ReadFails(c, false)).Some?
    ensures s.calls[c].phase.Killing? ==> Next(s, Kill(c)).Some?
    ensures Next(s, Cancel(c)).Some? && InPhase(Next(s, Cancel(c)).value, c, Done(Cancelled))
  {
    hide *;
    CancelTaken(s, c);
    match s.calls[c].phase
    case Waiting =>
      if s.lock.None? { TakesTheLock(s, c); }
    case Loaded => LoadedGoesOn(s, c);
    case Written(_, _) => AskingGoesOn(s, c);
    case Flushed(_, _) => AskingGoesOn(s, c);
    case _ => CallGoesOn(s, c);
  }

  lemma TakesTheLock(s: State, c: nat)
    requires Inv(s) && c in s.calls && s.calls[c].phase.Waiting? && s.lock.None?
    ensures Next(s, Acquire(c)).Some? || Next(s, StopTakes(c)).Some?
  {
    assert SlotOk(s);
    hide Inv, WorkerOk, LockOk, CallOk, Taken, Finished, Moved;
  }

  lemma CallGoesOn(s: State, c: nat)
    requires Inv(s) && c in s.calls && !s.calls[c].phase.Waiting?
    ensures s.calls[c].phase.Connecting? ==> Next(s, SpawnFails(c, Failed)).Some? && Next(s, Spawns(c)).Some?
    ensures s.calls[c].phase.Spawning? ==> Next(s, ReadyFails(c)).Some?
    ensures s.calls[c].phase.Killing? ==> Next(s, Kill(c)).Some?
  {
    assert CallOk(s, s.calls[c]);
    hide Inv, WorkerOk, SettledOk, AskingOk, ChildGivenUp, Finished, Moved, Killed, AfterKill, NoWorker;
  }

  lemma AskingGoesOn(s: State, c: nat)
    requires Inv(s) && c in s.calls && (s.calls[c].phase.Written? || s.calls[c].phase.Flushed?)
    ensures s.calls[c].phase.Written? ==> Next(s, Flush(c)).Some? && Next(s, FlushFails(c)).Some?
    ensures s.calls[c].phase.Flushed? ==> Next(s, ReadFails(c, true)).Some? && Next(s, ReadFails(c, false)).Some?
  {
    assert CallOk(s, s.calls[c]);
    hide Inv, WorkerOk, SettledOk, Taken, FrameGivenUp, Moved;
  }

  lemma LoadedGoesOn(s: State, c: nat)
    requires Inv(s) && c in s.calls && s.calls[c].phase.Loaded?
    ensures Next(s, EncodeFails(c)).Some? && Next(s, Write(c)).Some?
    ensures Next(s, WriteFails(c, true)).Some? && Next(s, WriteFails(c, false)).Some?
  {
    assert CallOk(s, s.calls[c]) && SlotOk(s);
    hide Inv, WorkerOk, SettledOk, Taken, Moved, WithWorker, NumberGivenUp;
  }

  lemma CancelTaken(s: State, c: nat)
    requires Inv(s) && c in s.calls && !s.calls[c].phase.Done?
    ensures Next(s, Cancel(c)).Some? && InPhase(Next(s, Cancel(c)).value, c, Done(Cancelled))
  {
    assert CallOk(s, s.calls[c]) && SlotOk(s);
    hide Inv, WorkerOk, SettledOk;
  }

  /** What is in a worker's pipes is read and answered as long as it lives. */
  lemma WorkersGoOn(s: State, g: nat, answer: Answer)
    requires g < |s.workers|
    ensures Next(s, Die(g)).Some? && !Next(s, Die(g)).value.workers[g].alive
    ensures s.workers[g].alive && !s.workers[g].announced ==>
              Next(s, Announce(g, true)).Some? && Next(s, Announce(g, false)).Some?
    ensures s.workers[g].alive && s.workers[g].announced && s.workers[g].stdin != [] ==>
              Next(s, Respond(g, answer)).Some?
  {
  }

  /** A reply that is there can be read. */
  lemma ReplyReads(s: State, c: nat, supported: bool)
    requires Inv(s) && c in s.calls
    ensures s.calls[c].phase.Flushed? && s.workers[s.calls[c].phase.worker].stdout != [] ==> Next(s, Read(c)).Some?
    ensures s.calls[c].phase.Spawning? && s.workers[s.calls[c].phase.worker].stdout != [] ==>
              Next(s, ReadyRead(c, supported)).Some?
  {
    assert CallOk(s, s.calls[c]);
    hide Inv, WorkerOk, SettledOk;
  }

  /** What a transform reports when no worker can be started. */
  lemma StartFailuresNamed(s: State, c: nat, t: State)
    requires c in s.calls && s.calls[c].kind.Transform?
    ensures Next(s, SpawnFails(c, NotInstalled)) == Some(t) ==> InPhase(t, c, Done(Bypassed("not_installed")))
    ensures Next(s, SpawnFails(c, NodeMissing)) == Some(t) ==> InPhase(t, c, Done(Bypassed("node_missing")))
    ensures Next(s, SpawnFails(c, Failed)) == Some(t) ==> InPhase(t, c, Done(Bypassed("load_error")))
    ensures Next(s, ReadyFails(c)) == Some(t) ==> InPhase(t, c, Done(Bypassed("load_error")))
    ensures Next(s, ReadyRead(c, false)) == Some(t) ==>
              InPhase(t, c, Done(Bypassed("node_unsupported"))) || InPhase(t, c, Done(Bypassed("load_error")))
  {
  }

  lemma {:induction false} DoneStays(s: State, steps: seq<Step>, t: State, c: nat)
    requires Inv(s) && Run(s, steps) == Some(t) && IsDone(s, c)
    ensures c in t.calls && t.calls[c] == s.calls[c]
    decreases |steps|
  {
    hide Inv, Next;
    if steps != [] {
      var next := Next(s, steps[0]).value;
      StepKeeps(s, steps[0], next);
      OutcomeStep(s, steps[0], next, c);
      DoneStays(next, steps[1..], t, c);
    }
  }

  /** A settled call was settled by one of the run's reads. */
  lemma {:induction false} SettledByRead(s: State, steps: seq<Step>, t: State, c: nat)
    returns (before: seq<Step>, after: seq<Step>)
    requires Inv(s) && Run(s, steps) == Some(t) && IsSettled(t, c) && !IsDone(s, c)
    ensures steps == before + [Read(c)] + after
    decreases |steps|
  {
    hide Inv, Next;
    var next := Next(s, steps[0]).value;
    StepKeeps(s, steps[0], next);
    OutcomeStep(s, steps[0], next, c);
    if IsDone(next, c) {
      DoneStays(next, steps[1..], t, c);
      before, after := [], steps[1..];
      assert steps == [] + [steps[0]] + steps[1..];
    } else {
      var b, a := SettledByRead(next, steps[1..], t, c);
      before, after := [steps[0]] + b, a;
      assert steps == [steps[0]] + steps[1..] == [steps[0]] + b + [Read(c)] + a;
    }
  }

  lemma {:induction false} RunSplit(s: State, a: seq<Step>, b: seq<Step>, t: State)
    requires Run(s, a + b) == Some(t)
    ensures Run(s, a).Some? && Run(Run(s, a).value, b) == Some(t)
    decreases |a|
  {
    hide Next;
    if a == [] {
      assert a + b == b;
    } else {
      assert (a + b)[1..] == a[1..] + b && (a + b)[0] == a[0];
      RunSplit(Next(s, a[0]).value, a[1..], b, t);
    }
  }

  /** The reply is the worker's answer to the frame of the call itself. */
  predicate OwnAnswer(s: State, call: Call)
    requires call.phase.Done? && call.phase.outcome.Settled?
  {
    var Settled(g, index, reply, _) := call.phase.outcome;
    g < |s.workers| && index < |s.workers[g].sent| && index < |s.workers[g].answers|
    && reply == Result(s.workers[g].sent[index].id, s.workers[g].answers[index])
  }

  /** In every interleaving, a call that reads is settled with the worker's
      answer to the frame as many places before its own as the run had left
      frames of that worker behind by then, so with the answer to its own
      request if and only if it had left none. */
  lemma EveryReply(before: seq<Step>, c: nat, after: seq<Step>, s: State)
    requires Run(INIT, before + [Read(c)] + after) == Some(s)
    ensures IsSettled(s, c)
    ensures var call, Settled(g, index, reply, behind) := s.calls[c], s.calls[c].phase.outcome;
            var left := LeftBehind(INIT, before, g);
            call.kind.Transform? && g < |s.workers| && behind == left
            && left <= index < |s.workers[g].sent| && index - left < |s.workers[g].answers|
            && s.workers[g].sent[index].request == call.kind.request
            && reply == Result(s.workers[g].sent[index - left].id, s.workers[g].answers[index - left])
            && (OwnAnswer(s, call) <==> left == 0)
  {
    hide Next, Inv;
    InitOk();
    RunKeeps(INIT, before + [Read(c)] + after, s);
    assert before + [Read(c)] + after == before + ([Read(c)] + after);
    RunSplit(INIT, before, [Read(c)] + after, s);
    var m := Run(INIT, before).value;
    RunKeeps(INIT, before, m);
    RunSplit(m, [Read(c)], after, s);
    assert [Read(c)][1..] == [];
    var n := Next(m, Read(c)).value;
    StepKeeps(m, Read(c), n);
    ReadSettles(m, c, n);
    DoneStays(n, after, s, c);
    MissedCounts(INIT, before, m, s.calls[c].phase.outcome.worker);
    SettledReply(s, c);
  }

  lemma ReadSettles(m: State, c: nat, n: State)
    requires Next(m, Read(c)) == Some(n)
    ensures IsSettled(n, c)
    ensures var outcome := n.calls[c].phase.outcome;
            outcome.worker < |m.workers| && outcome.behind == m.workers[outcome.worker].missed
  {
  }

  lemma SettledReply(s: State, c: nat)
    requires Inv(s) && IsSettled(s, c)
    ensures var call, Settled(g, index, reply, behind) := s.calls[c], s.calls[c].phase.outcome;
            call.kind.Transform? && g < |s.workers|
            && behind <= index < |s.workers[g].sent| && index - behind < |s.workers[g].answers|
            && s.workers[g].sent[index].request == call.kind.request
            && reply == Result(s.workers[g].sent[index - behind].id, s.workers[g].answers[index - behind])
            && (OwnAnswer(s, call) <==> behind == 0)
  {
    assert CallOk(s, s.calls[c]);
    assert WorkerOk(s.workers[s.calls[c].phase.outcome.worker]);
  }

  lemma {:induction false} LeftBehindGrows(s: State, a: seq<Step>, b: seq<Step>, g: nat)
    requires Run(s, a).Some?
    ensures LeftBehind(s, a, g) <= LeftBehind(s, a + b, g)
    decreases |a|
  {
    hide Next, LeavesBehind;
    if a != [] {
      assert (a + b)[1..] == a[1..] + b && (a + b)[0] == a[0];
      LeftBehindGrows(Next(s, a[0]).value, a[1..], b, g);
    }
  }

  /** In a run that leaves no frame of its worker behind, the reply settled for
      a call is the worker's answer to the very frame that call wrote. */
  lemma OwnReply(steps: seq<Step>, s: State, c: nat)
    requires Run(INIT, steps) == Some(s) && IsSettled(s, c)
    requires LeftBehind(INIT, steps, s.calls[c].phase.outcome.worker) == 0
    ensures OwnAnswer(s, s.calls[c])
    ensures var call, Settled(g, index, reply, behind) := s.calls[c], s.calls[c].phase.outcome;
            call.kind.Transform? && s.workers[g].sent[index].request == call.kind.request
  {
    hide Run, Next, Inv, LeftBehind, OwnAnswer;
    InitOk();
    var before, after := SettledByRead(INIT, steps, s, c);
    EveryReply(before, c, after, s);
    RunSplit(INIT, before, [Read(c)] + after, s) by {
      assert before + ([Read(c)] + after) == steps;
    }
    LeftBehindGrows(INIT, before, [Read(c)] + after, s.calls[c].phase.outcome.worker);
    assert before + ([Read(c)] + after) == steps;
  }

  /** What a reply makes of a transform: a new body, or a bypass with a reason
      from a fixed set. */
  datatype Verdict = Replaced(body: string) | PassedOn(reason: string, detail: Option<string>)

  function SettledReason(reason: Option<string>): string {
    if reason.Some? && reason.value in KNOWN_REASONS then reason.value else "passthrough"
  }

  const KNOWN_REASONS: seq<string> := ["unsupported_model", "below_min_chars", "below_min_tokens", "not_profitable",
                                       "compress_disabled", "image_limit", "parse_error", "transform_error"]

  function Settle(answer: Answer): Verdict {
    if !answer.ok then PassedOn("transform_error", answer.error)
    else if !answer.applied then
      PassedOn(SettledReason(answer.reason), if answer.detail.Some? then answer.detail else answer.reason)
    else if answer.body.Some? then Replaced(answer.body.value)
    else PassedOn("transform_error", Some("the transform reported a change but sent no body"))
  }

  /** The reasons of the package that are passed on as they are. */
  predicate IsKnownReason(reason: string) {
    reason == "unsupported_model" || reason == "below_min_chars" || reason == "below_min_tokens"
    || reason == "not_profitable" || reason == "compress_disabled" || reason == "image_limit"
    || reason == "parse_error" || reason == "transform_error"
  }

  /** What an answer must make of a transform. */
  predicate VerdictRight(verdict: Verdict, a: Answer) {
    (!a.ok ==> verdict == PassedOn("transform_error", a.error))
    && (a.ok && a.applied ==>
          match a.body
          case Some(body) => verdict == Replaced(body)
          case None => verdict.PassedOn? && verdict.reason == "transform_error")
    && (a.ok && !a.applied ==>
          verdict.PassedOn?
          && verdict.detail == (match a.detail case Some(_) => a.detail case None => a.reason)
          && match a.reason
             case Some(reason) => verdict.reason == (if IsKnownReason(reason) then reason else "passthrough")
             case None => verdict.reason == "passthrough")
  }

  lemma KnownReasons(reason: string)
    ensures reason in KNOWN_REASONS <==> IsKnownReason(reason)
  {
    var known := KNOWN_REASONS;
    assert known[0] == "unsupported_model" && known[1] == "below_min_chars" && known[2] == "below_min_tokens";
    assert known[3] == "not_profitable" && known[4] == "compress_disabled" && known[5] == "image_limit";
    assert known[6] == "parse_error" && known[7] == "transform_error";
  }

  lemma SettleRight(a: Answer)
    ensures VerdictRight(Settle(a), a)
  {
    if a.reason.Some? {
      KnownReasons(a.reason.value);
    }
    hide IsKnownReason;
  }

  /** In a run that leaves no frame of its worker behind, a settled transform is
      what the worker's answer to its own request makes of it: the new body where
      the answer has one, and otherwise the reason and the detail it gives. */
  lemma OwnBody(steps: seq<Step>, s: State, c: nat)
    requires Run(INIT, steps) == Some(s) && IsSettled(s, c)
    requires LeftBehind(INIT, steps, s.calls[c].phase.outcome.worker) == 0
    ensures OwnAnswer(s, s.calls[c])
    ensures var Settled(g, index, reply, _) := s.calls[c].phase.outcome;
            s.calls[c].kind.Transform? && s.workers[g].sent[index].request == s.calls[c].kind.request
            && VerdictRight(Settle(reply.answer), s.workers[g].answers[index])
  {
    hide Run, LeftBehind, Settle, VerdictRight;
    OwnReply(steps, s, c);
    SettleRight(s.calls[c].phase.outcome.reply.answer);
  }

  // The property fails with a failed flush: a concrete run.

  function Greeted(sent: seq<Frame>, missed: nat): Worker {
    Worker(true, true, true, false, |sent| + 1, sent, [], sent, [], 0, missed)
  }

  function Asked(request: Request, phase: Phase): Call {
    Call(Transform(request, true), phase)
  }

  function SpawnedState(first: Request): State {
    State(Some(0), None, [NewWorker()], map[0 := Asked(first, Spawning(0))])
  }

  function LoadedState(first: Request): State {
    State(Some(0), Some(0), [Greeted([], 0)], map[0 := Asked(first, Loaded)])
  }

  lemma FirstSpawns(first: Request)
    ensures Run(INIT, [Arrive(0, Transform(first, true)), Acquire(0), Spawns(0)]) == Some(SpawnedState(first))
  {
    var s1 := State(None, None, [], map[0 := Asked(first, Waiting)]);
    var s2 := State(Some(0), None, [], map[0 := Asked(first, Connecting)]);
    var s3 := SpawnedState(first);
    assert Next(INIT, Arrive(0, Transform(first, true))) == Some(s1);
    assert Next(s1, Acquire(0)) == Some(s2) by { assert s1.calls[0 := Asked(first, Connecting)] == s2.calls; }
    assert Next(s2, Spawns(0)) == Some(s3) by {
      assert s2.calls[0 := Asked(first, Spawning(0))] == s3.calls && s2.workers + [NewWorker()] == s3.workers;
    }
    hide Next;
    RunCons(s2, Spawns(0), s3, []);
    RunCons(s1, Acquire(0), s2, [Spawns(0)]);
    RunCons(INIT, Arrive(0, Transform(first, true)), s1, [Acquire(0), Spawns(0)]);
  }

  lemma FirstLoaded(first: Request)
    ensures Run(SpawnedState(first), [Announce(0, false), ReadyRead(0, true)]) == Some(LoadedState(first))
  {
    var s3, s5 := SpawnedState(first), LoadedState(first);
    var s4 := s3.(workers := [NewWorker().(announced := true, stdout := [Ready(false)])]);
    assert Next(s3, Announce(0, false)) == Some(s4) by {
      assert NewWorker().stdout + [Ready(false)] == [Ready(false)];
      assert s3.workers[0 := s4.workers[0]] == s4.workers;
    }
    assert Next(s4, ReadyRead(0, true)) == Some(s5) by {
      assert [Ready(false)][1..] == [];
      assert s4.workers[0 := s5.workers[0]] == s5.workers;
      assert s4.calls[0 := Asked(first, Loaded)] == s5.calls;
    }
    hide Next;
    RunCons(s4, ReadyRead(0, true), s5, []);
    RunCons(s3, Announce(0, false), s4, [ReadyRead(0, true)]);
  }

  lemma FirstLost(first: Request)
    ensures Run(LoadedState(first), [Write(0), FlushFails(0)]) == Some(LostState(first))
  {
    var s5, s7 := LoadedState(first), LostState(first);
    var s6 := State(Some(0), Some(0), [Greeted([Frame(1, first)], 0)], map[0 := Asked(first, Written(0, 0))]);
    assert Next(s5, Write(0)) == Some(s6) by {
      assert [] + [Frame(1, first)] == [Frame(1, first)];
      assert s5.workers[0 := s6.workers[0]] == s6.workers;
      assert s5.calls[0 := Asked(first, Written(0, 0))] == s6.calls;
    }
    assert Next(s6, FlushFails(0)) == Some(s7) by {
      assert s6.workers[0 := s7.workers[0]] == s7.workers;
      assert s6.calls[0 := Asked(first, Done(Bypassed("worker_gone")))] == s7.calls;
    }
    hide Next;
    RunCons(s6, FlushFails(0), s7, []);
    RunCons(s5, Write(0), s6, [FlushFails(0)]);
  }

  /** The first transform starts a worker, writes, and fails to flush. */
  lemma FlushLost(first: Request)
    ensures Run(INIT, [Arrive(0, Transform(first, true)), Acquire(0), Spawns(0)]
                      + [Announce(0, false), ReadyRead(0, true)] + [Write(0), FlushFails(0)])
            == Some(LostState(first))
  {
    hide Next, Run, SpawnedState, LoadedState, LostState;
    var spawned := [Arrive(0, Transform(first, true)), Acquire(0), Spawns(0)];
    var loaded := [Announce(0, false), ReadyRead(0, true)];
    FirstSpawns(first);
    FirstLoaded(first);
    FirstLost(first);
    RunConcat(INIT, spawned, SpawnedState(first), loaded);
    RunConcat(INIT, spawned + loaded, LoadedState(first), [Write(0), FlushFails(0)]);
  }

  function LostState(first: Request): State {
    State(None, Some(0), [Greeted([Frame(1, first)], 1)], map[0 := Asked(first, Done(Bypassed("worker_gone")))])
  }

  function AskedState(first: Request, second: Request): State {
    State(Some(1), Some(0), [Greeted([Frame(1, first), Frame(2, second)], 1)],
          LostState(first).calls[1 := Asked(second, Flushed(0, 1))])
  }

  function SecondLoaded(first: Request, second: Request): State {
    LostState(first).(lock := Some(1), calls := LostState(first).calls[1 := Asked(second, Loaded)])
  }

  lemma SecondFinds(first: Request, second: Request)
    ensures Run(LostState(first), [Arrive(1, Transform(second, true)), Acquire(1)])
            == Some(SecondLoaded(first, second))
  {
    var lost, s2 := LostState(first), SecondLoaded(first, second);
    var s1 := lost.(calls := lost.calls[1 := Asked(second, Waiting)]);
    assert Next(lost, Arrive(1, Transform(second, true))) == Some(s1);
    assert Next(s1, Acquire(1)) == Some(s2) by { assert s1.calls[1 := Asked(second, Loaded)] == s2.calls; }
    hide Next;
    RunCons(s1, Acquire(1), s2, []);
    RunCons(lost, Arrive(1, Transform(second, true)), s1, [Acquire(1)]);
  }

  lemma SecondWrites(first: Request, second: Request)
    ensures Run(SecondLoaded(first, second), [Write(1), Flush(1)]) == Some(AskedState(first, second))
  {
    var s2, s4 := SecondLoaded(first, second), AskedState(first, second);
    var both := [Frame(1, first), Frame(2, second)];
    var s3 := State(Some(1), Some(0), [Greeted(both, 1)], s2.calls[1 := Asked(second, Written(0, 1))]);
    assert Next(s2, Write(1)) == Some(s3) by {
      assert [Frame(1, first)] + [Frame(2, second)] == both;
      assert s2.workers[0 := s3.workers[0]] == s3.workers;
    }
    assert Next(s3, Flush(1)) == Some(s4) by { assert s3.calls[1 := Asked(second, Flushed(0, 1))] == s4.calls; }
    hide Next;
    RunCons(s3, Flush(1), s4, []);
    RunCons(s2, Write(1), s3, [Flush(1)]);
  }

  /** The second transform finds the worker still in the slot. */
  lemma SecondAsks(first: Request, second: Request)
    ensures Run(LostState(first), [Arrive(1, Transform(second, true)), Acquire(1)] + [Write(1), Flush(1)])
            == Some(AskedState(first, second))
  {
    hide Next, Run, LostState, SecondLoaded, AskedState;
    SecondFinds(first, second);
    SecondWrites(first, second);
    RunConcat(LostState(first), [Arrive(1, Transform(second, true)), Acquire(1)], SecondLoaded(first, second),
              [Write(1), Flush(1)]);
  }

  /** ... and reads the answer to the first request. */
  lemma FirstAnswerRead(first: Request, second: Request, answer: Answer)
    ensures var end := Run(AskedState(first, second), [Respond(0, answer), Read(1)]);
            end.Some? && InPhase(end.value, 1, Done(Settled(0, 1, Result(1, answer), 1)))
  {
    var s4 := AskedState(first, second);
    var both := [Frame(1, first), Frame(2, second)];
    var w5 := Greeted(both, 1).(stdin := [Frame(2, second)], stdout := [Result(1, answer)], answers := [answer]);
    var s5 := s4.(workers := [w5]);
    var s6 := State(None, Some(0), [w5.(stdout := [], taken := 1)],
                    s4.calls[1 := Asked(second, Done(Settled(0, 1, Result(1, answer), 1)))]);
    assert Next(s4, Respond(0, answer)) == Some(s5) by {
      assert both[1..] == [Frame(2, second)];
      assert [] + [Result(1, answer)] == [Result(1, answer)] && [] + [answer] == [answer];
      assert s4.workers[0 := s5.workers[0]] == s5.workers;
    }
    assert Next(s5, Read(1)) == Some(s6) by {
      assert [Result(1, answer)][1..] == [];
      assert s5.workers[0 := s6.workers[0]] == s6.workers;
    }
    hide Next;
    RunCons(s5, Read(1), s6, []);
    RunCons(s4, Respond(0, answer), s5, [Read(1)]);
  }

  function LostSteps(first: Request): seq<Step> {
    [Arrive(0, Transform(first, true)), Acquire(0), Spawns(0)] + [Announce(0, false), ReadyRead(0, true)]
    + [Write(0), FlushFails(0)]
  }

  function AskingSteps(second: Request): seq<Step> {
    [Arrive(1, Transform(second, true)), Acquire(1)] + [Write(1), Flush(1)]
  }

  /** After a failed flush, the next transform is settled with the answer to
      the request of the one before. */
  lemma LateReplyTaken(first: Request, second: Request, answer: Answer)
    ensures var end := Run(INIT, LostSteps(first) + AskingSteps(second) + [Respond(0, answer), Read(1)]);
            end.Some? && InPhase(end.value, 1, Done(Settled(0, 1, Result(1, answer), 1)))
  {
    hide Next, Run, InPhase, LostState, AskedState;
    FlushLost(first);
    SecondAsks(first, second);
    FirstAnswerRead(first, second, answer);
    RunConcat(INIT, LostSteps(first), LostState(first), AskingSteps(second));
    RunConcat(INIT, LostSteps(first) + AskingSteps(second), AskedState(first, second), [Respond(0, answer), Read(1)]);
  }

  lemma {:induction false} RunConcat(s: State, a: seq<Step>, t: State, b: seq<Step>)
    requires Run(s, a) == Some(t)
    ensures Run(s, a + b) == Run(t, b)
    decreases |a|
  {
    hide Next;
    if a == [] {
      assert a + b == b;
    } else {
      assert (a + b)[1..] == a[1..] + b && (a + b)[0] == a[0];
      RunConcat(Next(s, a[0]).value, a[1..], t, b);
    }
  }

  lemma RunCons(s: State, step: Step, t: State, rest: seq<Step>)
    requires Next(s, step) == Some(t)
    ensures Run(s, [step] + rest) == Run(t, rest)
  {
    hide Next;
    assert ([step] + rest)[1..] == rest;
  }

  // A reply is never used twice, and a retired worker is never used again.

  /** The frame a call has written. */
  function FrameOf(call: Call): Option<(nat, nat)> {
    match call.phase
    case Written(g, index) => Some((g, index))
    case Flushed(g, index) => Some((g, index))
    case Done(Settled(g, index, _, _)) => Some((g, index))
    case _ => None
  }

  /** The place of the reply a call was settled with. */
  function ReplyOf(call: Call): Option<(nat, int)> {
    match call.phase
    case Done(Settled(g, index, _, behind)) => Some((g, index - behind))
    case _ => None
  }

  predicate Apart(s: State) {
    forall c, d :: c in s.calls && d in s.calls && c != d ==>
      (FrameOf(s.calls[c]).Some? ==> FrameOf(s.calls[c]) != FrameOf(s.calls[d]))
      && (ReplyOf(s.calls[c]).Some? ==> ReplyOf(s.calls[c]) != ReplyOf(s.calls[d]))
  }

  /** What a step may give to one call: nothing new, a frame number that is
      fresh, or the oldest reply not yet taken. */
  predicate Fresh(s: State, before: Option<Call>, call: Call) {
    (FrameOf(call).None? || (before.Some? && FrameOf(before.value) == FrameOf(call))
     || (FrameOf(call).value.0 < |s.workers| && FrameOf(call).value.1 == |s.workers[FrameOf(call).value.0].sent|))
    && (ReplyOf(call).None? || (before.Some? && ReplyOf(before.value) == ReplyOf(call))
        || (ReplyOf(call).value.0 < |s.workers| && ReplyOf(call).value.1 == s.workers[ReplyOf(call).value.0].taken))
  }

  lemma Used(s: State, d: nat)
    requires Inv(s) && d in s.calls
    ensures FrameOf(s.calls[d]).Some? ==>
              var f := FrameOf(s.calls[d]).value; f.0 < |s.workers| && f.1 < |s.workers[f.0].sent|
    ensures ReplyOf(s.calls[d]).Some? ==>
              var r := ReplyOf(s.calls[d]).value; r.0 < |s.workers| && r.1 < s.workers[r.0].taken
  {
    assert CallOk(s, s.calls[d]);
  }

  lemma ApartKept(s: State, t: State, c: nat)
    requires Inv(s) && Apart(s) && c in t.calls && s.calls.Keys <= t.calls.Keys <= s.calls.Keys + {c}
    requires forall d :: d in t.calls && d != c ==> t.calls[d] == s.calls[d]
    requires Fresh(s, if c in s.calls then Some(s.calls[c]) else None, t.calls[c])
    ensures Apart(t)
  {
    hide Inv, FrameOf, ReplyOf;
    forall d | d in t.calls && d != c
      ensures FrameOf(t.calls[c]).Some? ==> FrameOf(t.calls[c]) != FrameOf(t.calls[d])
      ensures ReplyOf(t.calls[c]).Some? ==> ReplyOf(t.calls[c]) != ReplyOf(t.calls[d])
    {
      Used(s, d);
    }
  }

  /** The call a step belongs to. */
  function Mover(step: Step): Option<nat> {
    if step.Announce? || step.Respond? || step.Die? then None else Some(step.call)
  }

  /** A step touches its own call only, and gives it nothing used before. */
  predicate OwnCallOnly(s: State, c: nat, t: State) {
    c in t.calls && t.calls == s.calls[c := t.calls[c]]
    && Fresh(s, if c in s.calls then Some(s.calls[c]) else None, t.calls[c])
  }

  predicate SetUp(step: Step) {
    step.Arrive? || step.Acquire? || step.SpawnFails? || step.Spawns? || step.ReadyRead? || step.ReadyFails?
  }

  lemma SetUpFresh(s: State, step: Step, t: State)
    requires SetUp(step) && Next(s, step) == Some(t)
    ensures OwnCallOnly(s, step.call, t)
  {
  }

  predicate Sending(step: Step) {
    step.EncodeFails? || step.Write? || step.WriteFails? || step.Flush? || step.FlushFails?
  }

  lemma SendingFresh(s: State, step: Step, t: State)
    requires Sending(step) && Next(s, step) == Some(t)
    ensures OwnCallOnly(s, step.call, t)
  {
  }

  lemma EndingFresh(s: State, step: Step, t: State)
    requires step.ReadFails? || step.StopTakes? || step.Kill?
    requires Inv(s) && Next(s, step) == Some(t)
    ensures OwnCallOnly(s, step.call, t)
  {
    hide Next, OwnCallOnly, Inv;
    if step.Kill? {
      KilledUnsettled(s, step.call);
      KillFresh(s, step.call, t);
    } else if step.StopTakes? {
      StopFresh(s, step.call, t);
    } else {
      ReadFailsFresh(s, step.call, step.timedOut, t);
    }
  }

  lemma KilledUnsettled(s: State, c: nat)
    requires Inv(s) && Next(s, Kill(c)).Some?
    ensures !s.calls[c].phase.result.Settled?
  {
    assert CallOk(s, s.calls[c]);
    hide WorkerOk, SlotOk, LockOk;
  }

  lemma ReadFailsFresh(s: State, c: nat, timedOut: bool, t: State)
    requires Next(s, ReadFails(c, timedOut)) == Some(t)
    ensures OwnCallOnly(s, c, t)
  {
  }

  lemma KillFresh(s: State, c: nat, t: State)
    requires Next(s, Kill(c)) == Some(t) && !s.calls[c].phase.result.Settled?
    ensures OwnCallOnly(s, c, t)
  {
  }

  lemma StopFresh(s: State, c: nat, t: State)
    requires Next(s, StopTakes(c)) == Some(t)
    ensures OwnCallOnly(s, c, t)
  {
  }

  lemma CancelFresh(s: State, c: nat, t: State)
    requires DoCancel(s, c) == Some(t)
    ensures OwnCallOnly(s, c, t)
  {
  }

  lemma ReadFresh(s: State, c: nat, t: State)
    requires Inv(s) && DoRead(s, c) == Some(t)
    ensures OwnCallOnly(s, c, t)
  {
    var w := s.workers[s.calls[c].phase.worker];
    assert CallOk(s, s.calls[c]) && SlotOk(s) && LockOk(s);
    hide WorkerOk, SettledOk;
    assert s.calls[c].phase.index - w.missed == w.taken;
  }

  lemma StepFresh(s: State, step: Step, t: State)
    requires Inv(s) && Next(s, step) == Some(t)
    ensures Mover(step).None? ==> t.calls == s.calls
    ensures Mover(step).Some? ==> OwnCallOnly(s, Mover(step).value, t)
  {
    hide OwnCallOnly, Inv;
    if SetUp(step) {
      SetUpFresh(s, step, t);
    } else if Sending(step) {
      SendingFresh(s, step, t);
    } else if step.Read? {
      ReadFresh(s, step.call, t);
    } else if step.Cancel? {
      CancelFresh(s, step.call, t);
    } else if Mover(step).Some? {
      EndingFresh(s, step, t);
    }
  }

  lemma {:induction false} RunApart(s: State, steps: seq<Step>, t: State)
    requires Inv(s) && Apart(s) && Run(s, steps) == Some(t)
    ensures Apart(t)
    decreases |steps|
  {
    hide Inv, Apart, Next, Fresh;
    if steps != [] {
      var next := Next(s, steps[0]).value;
      StepKeeps(s, steps[0], next);
      StepFresh(s, steps[0], next);
      if Mover(steps[0]).Some? {
        ApartKept(s, next, Mover(steps[0]).value);
      } else {
        ApartSame(s, next);
      }
      RunApart(next, steps[1..], t);
    }
  }

  lemma ApartSame(s: State, t: State)
    requires Apart(s) && t.calls == s.calls
    ensures Apart(t)
  {
  }

  /** In every interleaving, no frame is written for two calls and no reply
      settles two calls. */
  lemma NoReplyTwice(steps: seq<Step>, s: State)
    requires Run(INIT, steps) == Some(s)
    ensures Apart(s)
  {
    InitOk();
    RunApart(INIT, steps, s);
  }

  /** Once out of the slot a worker is never written to or read again, so an
      answer that comes after a timeout reaches nobody. */
  lemma RetiredIsFinal(s: State, step: Step, t: State, g: nat)
    requires Inv(s) && Next(s, step) == Some(t) && g < |s.workers| && s.workers[g].retired
    ensures g < |t.workers| && t.workers[g].retired
    ensures t.workers[g].sent == s.workers[g].sent && t.workers[g].taken == s.workers[g].taken
    ensures t.slot != Some(g)
  {
    hide Next, Inv;
    StepKeeps(s, step, t);
    StaysRetired(s, t, g);
    if step.Write? || step.WriteFails? || step.Read? {
      SlotOnly(s, step, t, g);
    } else {
      QuietStep(s, step, t, g);
    }
  }

  lemma StaysRetired(s: State, t: State, g: nat)
    requires Inv(t) && Grows(s, t) && g < |s.workers| && s.workers[g].retired
    ensures t.workers[g].retired && t.slot != Some(g)
  {
    assert WorkerGrows(s.workers[g], t.workers[g]) && SlotOk(t);
    hide WorkerOk, CallOk, LockOk;
  }

  /** Writes and reads are of the worker in the slot. */
  lemma SlotOnly(s: State, step: Step, t: State, g: nat)
    requires step.Write? || step.WriteFails? || step.Read?
    requires Inv(s) && Next(s, step) == Some(t) && g < |s.workers| && s.workers[g].retired
    ensures Quiet(s, t, g)
  {
    assert SlotOk(s);
    if step.Read? {
      assert CallOk(s, s.calls[step.call]);
    }
    hide Inv, CallOk, SlotOk, LockOk, WorkerOk;
  }

  lemma QuietStep(s: State, step: Step, t: State, g: nat)
    requires Next(s, step) == Some(t) && g < |s.workers| && !step.Write? && !step.WriteFails? && !step.Read?
    ensures Quiet(s, t, g)
  {
    hide Next, Quiet;
    if SetUp(step) {
      SetUpQuiet(s, step, t, g);
    } else if step.Cancel? {
      CancelQuiet(s, step.call, t, g);
    } else {
      OtherQuiet(s, step, t, g);
    }
  }

  predicate Quiet(s: State, t: State, g: nat)
    requires g < |s.workers|
  {
    g < |t.workers| && t.workers[g].sent == s.workers[g].sent && t.workers[g].taken == s.workers[g].taken
  }

  lemma SetUpQuiet(s: State, step: Step, t: State, g: nat)
    requires SetUp(step) && Next(s, step) == Some(t) && g < |s.workers|
    ensures Quiet(s, t, g)
  {
    hide NoWorker, ReadyError;
  }

  lemma CancelQuiet(s: State, c: nat, t: State, g: nat)
    requires Next(s, Cancel(c)) == Some(t) && g < |s.workers|
    ensures Quiet(s, t, g)
  {
  }

  lemma OtherQuiet(s: State, step: Step, t: State, g: nat)
    requires Next(s, step) == Some(t) && g < |s.workers| && !SetUp(step) && !step.Cancel?
    requires !step.Write? && !step.WriteFails? && !step.Read?
    ensures Quiet(s, t, g)
  {
    hide AfterKill;
  }
}
