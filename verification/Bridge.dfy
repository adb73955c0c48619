/** The bridge as the router runs it: calls that take the locked slot, move the
    worker in and out of it and talk over its pipes, one statement at a time.
    At every point where a call waits, other calls and the workers may move.
    The bridge's whole history is a run of the protocol machine, so what holds
    in every run of the machine holds of these bodies. */
module Bridge {
  import opened Options
  import opened BridgeProtocol

  lemma RunThen(s: State, steps: seq<Step>, t: State, step: Step, u: State)
    requires Run(s, steps) == Some(t) && Next(t, step) == Some(u)
    ensures Run(s, steps + [step]) == Some(u)
  {
    hide Next, Run;
    RunConcat(s, steps, t, [step]);
    RunCons(t, step, u, []);
    assert [step] + [] == [step];
    RunNone(u);
  }

  lemma RunNone(s: State)
    ensures Run(s, []) == Some(s)
  {
  }

  lemma OtherStep(s: State, step: Step, t: State, c: nat)
    requires Inv(s) && Next(s, step) == Some(t) && Mover(step) != Some(c) && c in s.calls
    ensures c in t.calls && t.calls[c] == s.calls[c]
    ensures s.lock == Some(c) ==> t.lock == s.lock && t.slot == s.slot && |t.workers| == |s.workers|
  {
    hide Next, Inv;
    StepFresh(s, step, t);
    if s.lock == Some(c) {
      if Mover(step).Some? {
        NotHolding(s, Mover(step).value, c);
        OnlyAside(s, step, t, Mover(step).value);
      } else {
        WorkerStep(s, step, t);
      }
    }
  }

  lemma NotHolding(s: State, m: nat, c: nat)
    requires Inv(s) && s.lock == Some(c) && m != c
    ensures m in s.calls ==> !Holding(s.calls[m].phase)
  {
    hide WorkerOk, CallOk, SlotOk;
  }

  /** Without the lock a call can only arrive, kill or be dropped. */
  lemma OnlyAside(s: State, step: Step, t: State, m: nat)
    requires Next(s, step) == Some(t) && Mover(step) == Some(m) && s.lock.Some?
    requires m in s.calls ==> !Holding(s.calls[m].phase)
    ensures t.lock == s.lock && t.slot == s.slot && |t.workers| == |s.workers|
  {
    assert step.Arrive? || step.Kill? || step.Cancel?;
  }

  lemma WorkerStep(s: State, step: Step, t: State)
    requires Next(s, step) == Some(t) && Mover(step).None?
    ensures t.lock == s.lock && t.slot == s.slot && |t.workers| == |s.workers|
  {
  }

  lemma ReachableInv(steps: seq<Step>, s: State)
    requires Run(INIT, steps) == Some(s)
    ensures Inv(s)
  {
    hide Inv, Run;
    InitOk();
    RunKeeps(INIT, steps, s);
  }

  function Dropped(s: State, c: nat, g: nat, w: Worker, reason: string): State
    requires c in s.calls && g < |s.workers|
  {
    State(None, None, s.workers[g := w.(retired := true)],
          s.calls[c := Call(s.calls[c].kind, Killing(g, Bypassed(reason)))])
  }

  class Bridge {
    var lock: Option<nat>
    var slot: Option<nat>
    var workers: seq<Worker>
    var calls: map<nat, Call>
    ghost var trace: seq<Step>

    ghost function Now(): State
      reads this
    {
      State(lock, slot, workers, calls)
    }

    /** The state is where the recorded steps lead. */
    ghost predicate Valid()
      reads this
    {
      Run(INIT, trace) == Some(Now())
    }

    constructor ()
      ensures Valid() && Now() == INIT
    {
      lock, slot, workers, calls, trace := None, None, [], map[], [];
    }

    /** Record the step that the statements since `before` have carried out. */
    ghost method Record(before: State, step: Step)
      requires Run(INIT, trace) == Some(before) && Next(before, step) == Some(Now())
      modifies this`trace
      ensures Valid() && Inv(Now()) && trace == old(trace) + [step]
    {
      hide Run, Next, Inv;
      RunThen(INIT, trace, before, step, Now());
      trace := trace + [step];
      ReachableInv(trace, Now());
    }

    /** What a waiting call can rely on. */
    twostate predicate Undisturbed(c: nat)
      reads this
    {
      c in old(calls) && c in calls && calls[c] == old(calls[c])
      && (old(lock) == Some(c) ==> lock == old(lock) && slot == old(slot) && |workers| == |old(workers)|)
    }

    /** A waiting point: any number of steps of the workers and of other calls. */
    method Others(c: nat)
      requires Valid() && c in calls
      modifies this
      ensures Valid() && Inv(Now()) && Undisturbed(c) && old(trace) <= trace
    {
      hide Inv, Next, Run;
      ReachableInv(trace, Now());
      var turns: nat := *;
      while turns > 0
        invariant Valid() && Inv(Now()) && Undisturbed(c) && old(trace) <= trace
      {
        var step: Step := *;
        var next := Next(State(lock, slot, workers, calls), step);
        if Mover(step) != Some(c) && next.Some? {
          ghost var before := Now();
          OtherStep(before, step, next.value, c);
          lock, slot, workers, calls := next.value.lock, next.value.slot, next.value.workers, next.value.calls;
          Record(before, step);
        }
        turns := turns - 1;
      }
    }

    /** Out of the slot with the lock released: close stdin, kill, reap. */
    method ShutDown(c: nat)
      requires Valid() && c in calls && calls[c].phase.Killing?
      modifies this
      ensures Valid() && Inv(Now()) && old(trace) <= trace
      ensures c in calls && calls[c] == AfterKill(old(calls[c]))
    {
      hide Inv, Next, Run;
      Others(c);
      ghost var before := Now();
      var phase := calls[c].phase;
      KillEnabled(before, c);
      workers := workers[phase.worker := workers[phase.worker].(alive := false)];
      calls := calls[c := AfterKill(calls[c])];
      KillDone(before, c, Now());
      Record(before, Kill(c));
    }

    /** Take the worker out of the slot, release the lock, and shut it down. */
    method DropWorker(c: nat, g: nat, w: Worker, reason: string, ghost before: State, ghost step: Step)
      requires Run(INIT, trace) == Some(before) && c in before.calls && g < |before.workers|
      requires calls == before.calls && |workers| == |before.workers|
      requires workers[g := w.(retired := true)] == before.workers[g := w.(retired := true)]
      requires !calls[c].kind.Restart? && Next(before, step) == Some(Dropped(before, c, g, w, reason))
      modifies this
      ensures Valid() && Inv(Now()) && old(trace) <= trace
      ensures c in calls && calls[c] == Call(old(calls[c]).kind, Done(Bypassed(reason)))
    {
      hide Inv, Next, Run;
      workers := workers[g := w.(retired := true)];
      slot, lock := None, None;
      calls := calls[c := Call(calls[c].kind, Killing(g, Bypassed(reason)))];
      Record(before, step);
      ShutDown(c);
    }

    /** Spawn a child and wait for its ready frame.  On success it is the
        worker in the slot; otherwise the call has ended. */
    method SpawnWorker(c: nat) returns (error: Option<StartError>)
      requires Valid() && c in calls && calls[c].phase == Connecting && lock == Some(c)
      requires calls[c].kind.Transform? || calls[c].kind.Start?
      modifies this
      ensures Valid() && Inv(Now()) && old(trace) <= trace
      ensures c in calls && calls[c].kind == old(calls[c]).kind
      ensures calls[c].phase ==
              if error.Some? then Done(NoWorker(calls[c].kind, error.value))
              else if calls[c].kind.Transform? then Loaded else Done(Started)
      ensures error.None? && calls[c].kind.Transform? ==> lock == Some(c)
      ensures error.None? <==> slot.Some?
    {
      hide Inv, Run, CallOk;
      ReachableInv(trace, Now());
      NoWorkerYet(Now(), c);
      ghost var before := Now();
      var kind := calls[c].kind;
      var failure: Option<StartError> := *;
      if failure.Some? && !failure.value.UnsupportedNode? {
        calls, lock := calls[c := Call(kind, Done(NoWorker(kind, failure.value)))], None;
        Record(before, SpawnFails(c, failure.value));
        return failure;
      }
      var g := |workers|;
      workers := workers + [NewWorker()];
      calls := calls[c := Call(kind, Spawning(g))];
      Record(before, Spawns(c));
      error := AwaitReady(c, g);
    }

    /** Read the first frame, which decides whether the child is the worker. */
    method AwaitReady(c: nat, g: nat) returns (error: Option<StartError>)
      requires Valid() && Inv(Now()) && c in calls && calls[c].phase == Spawning(g) && lock == Some(c) && g < |workers|
      requires calls[c].kind.Transform? || calls[c].kind.Start?
      modifies this
      ensures Valid() && Inv(Now()) && old(trace) <= trace
      ensures c in calls && calls[c].kind == old(calls[c]).kind
      ensures calls[c].phase ==
              if error.Some? then Done(NoWorker(calls[c].kind, error.value))
              else if calls[c].kind.Transform? then Loaded else Done(Started)
      ensures error.None? && calls[c].kind.Transform? ==> lock == Some(c)
      ensures error.None? <==> slot.Some?
    {
      hide Inv, Run, CallOk;
      NoWorkerYet(Now(), c);
      Others(c);
      ghost var before := Now();
      var kind := calls[c].kind;
      var inTime: bool := *;
      if !inTime || workers[g].stdout == [] {
        workers := workers[g := workers[g].(retired := true, alive := false)];
        calls, lock := calls[c := Call(kind, Done(NoWorker(kind, Failed)))], None;
        Record(before, ReadyFails(c));
        return Some(Failed);
      }
      var w := workers[g];
      var supported: bool := *;
      if !w.stdout[0].Ready? || w.stdout[0].failed || !supported {
        workers := workers[g := w.(stdout := w.stdout[1..], retired := true, alive := false)];
        calls, lock := calls[c := Call(kind, Done(NoWorker(kind, ReadyError(w.stdout[0]))))], None;
        Record(before, ReadyRead(c, supported));
        return Some(ReadyError(w.stdout[0]));
      }
      workers := workers[g := w.(stdout := w.stdout[1..], greeted := true)];
      slot := Some(g);
      if kind.Transform? {
        calls := calls[c := Call(kind, Loaded)];
      } else {
        calls, lock := calls[c := Call(kind, Done(Started))], None;
      }
      Record(before, ReadyRead(c, supported));
      return None;
    }

    /** One transform, from the moment the lock is granted. */
    method Transform(c: nat) returns (outcome: Outcome)
      requires Valid() && lock.None? && c in calls && calls[c].kind.Transform? && calls[c].phase == Waiting
      modifies this
      ensures Valid() && Inv(Now()) && old(trace) <= trace
      ensures c in calls && calls[c] == Call(old(calls[c]).kind, Done(outcome))
      ensures outcome.Settled? || outcome.Bypassed?
      ensures outcome.Settled? ==>
                var w := workers[outcome.worker];
                outcome.behind <= outcome.index && w.sent[outcome.index].request == calls[c].kind.request
                && outcome.reply == Result(w.sent[outcome.index - outcome.behind].id,
                                           w.answers[outcome.index - outcome.behind])
    {
      hide Inv, Run, CallOk;
      ghost var before := Now();
      var kind := calls[c].kind;
      if slot.None? {
        if !kind.autoLoad {
          calls := calls[c := Call(kind, Done(Bypassed("not_loaded")))];
          Record(before, Acquire(c));
          return Bypassed("not_loaded");
        }
        lock, calls := Some(c), calls[c := Call(kind, Connecting)];
        Record(before, Acquire(c));
        var error := SpawnWorker(c);
        if error.Some? {
          return NoWorker(kind, error.value);
        }
      } else {
        lock, calls := Some(c), calls[c := Call(kind, Loaded)];
        Record(before, Acquire(c));
      }
      outcome := Exchange(c);
      if outcome.Settled? {
        SettledSays(Now(), c);
      }
    }

    /** Write the request and read its reply, holding the lock. */
    method Exchange(c: nat) returns (outcome: Outcome)
      requires Valid() && Inv(Now()) && lock == Some(c) && c in calls
      requires calls[c].kind.Transform? && calls[c].phase == Loaded
      modifies this
      ensures Valid() && Inv(Now()) && old(trace) <= trace
      ensures c in calls && calls[c] == Call(old(calls[c]).kind, Done(outcome))
      ensures outcome.Settled? || outcome.Bypassed?
    {
      hide Inv, Run, Next;
      ghost var before := Now();
      var kind := calls[c].kind;
      LoadedSlot(before, c);
      var g := slot.value;
      var id := workers[g].nextId;
      workers := workers[g := workers[g].(nextId := id + 1)];
      var encoded: bool := *;
      if !encoded {
        calls, lock := calls[c := Call(kind, Done(Bypassed("encode_error")))], None;
        EncodeFailsStep(before, c, Now());
        Record(before, EncodeFails(c));
        return Bypassed("encode_error");
      }
      outcome := Send(c, g, id, before);
    }

    /** Write the frame with its number, which is used up already. */
    method Send(c: nat, g: nat, id: nat, ghost before: State) returns (outcome: Outcome)
      requires Run(INIT, trace) == Some(before) && Writing(before, c) && before.lock == Some(c) && before.slot == Some(g)
      requires g < |before.workers| && id == before.workers[g].nextId
      requires Now() == before.(workers := before.workers[g := before.workers[g].(nextId := id + 1)])
      modifies this
      ensures Valid() && Inv(Now()) && old(trace) <= trace
      ensures c in calls && calls[c] == Call(old(calls[c]).kind, Done(outcome))
      ensures outcome.Settled? || outcome.Bypassed?
    {
      hide Inv, Run, Next, Writing, NextFrame, Numbered;
      NumberedFrame(before, c, g, id);
      var w := workers[g];
      var frame := Frame(id, calls[c].kind.request);
      var delivered: bool, failed: bool := *, *;
      NumberedIs(before.workers[g], frame);
      if delivered || !failed {
        w := w.(stdin := w.stdin + [frame], sent := w.sent + [frame]);
      }
      if failed {
        GiveUpWrite(c, g, w, delivered, before);
        return Bypassed("worker_gone");
      }
      NoteWritten(c, g, w, before);
      outcome := Receive(c, g, |w.sent| - 1);
    }

    /** The write failed, after the frame was delivered or before. */
    method GiveUpWrite(c: nat, g: nat, w: Worker, delivered: bool, ghost before: State)
      requires Run(INIT, trace) == Some(before) && Writing(before, c) && before.slot == Some(g)
      requires c in before.calls && g < |before.workers| && before.calls[c].kind.Transform?
      requires w == Numbered(before.workers[g], NextFrame(before, c), delivered)
      requires calls == before.calls && |workers| == |before.workers|
      requires forall h :: 0 <= h < |workers| && h != g ==> workers[h] == before.workers[h]
      modifies this
      ensures Valid() && Inv(Now()) && old(trace) <= trace
      ensures c in calls && calls[c] == Call(old(calls[c]).kind, Done(Bypassed("worker_gone")))
    {
      hide Inv, Run, Next, Writing, NextFrame, Numbered;
      assert workers[g := w.(retired := true)] == before.workers[g := w.(retired := true)];
      WriteFailsStep(before, c, delivered, g, w, Dropped(before, c, g, w, "worker_gone"));
      DropWorker(c, g, w, "worker_gone", before, WriteFails(c, delivered));
    }

    /** The frame is written. */
    method NoteWritten(c: nat, g: nat, w: Worker, ghost before: State)
      requires Run(INIT, trace) == Some(before) && Writing(before, c) && before.slot == Some(g)
      requires c in before.calls && g < |before.workers| && before.calls[c].kind.Transform?
      requires w == Numbered(before.workers[g], NextFrame(before, c), true) && w.sent != []
      requires calls == before.calls && lock == before.lock && slot == before.slot && |workers| == |before.workers|
      requires forall h :: 0 <= h < |workers| && h != g ==> workers[h] == before.workers[h]
      modifies this
      ensures Valid() && Inv(Now()) && old(trace) <= trace && lock == old(lock) && slot == old(slot)
      ensures g < |workers| && c in calls && calls[c] == Call(old(calls[c]).kind, Written(g, |w.sent| - 1))
    {
      hide Inv, Run, Next, Writing, NextFrame, Numbered;
      workers := workers[g := w];
      calls := calls[c := Call(calls[c].kind, Written(g, |w.sent| - 1))];
      assert workers == before.workers[g := w];
      WriteStep(before, c, g, w, Now());
      Record(before, Write(c));
    }

    /** Flush, and read one frame within the time budget. */
    method Receive(c: nat, g: nat, index: nat) returns (outcome: Outcome)
      requires Valid() && Inv(Now()) && lock == Some(c) && c in calls && slot == Some(g) && g < |workers|
      requires calls[c].kind.Transform? && calls[c].phase == Written(g, index)
      modifies this
      ensures Valid() && Inv(Now()) && old(trace) <= trace
      ensures c in calls && calls[c] == Call(old(calls[c]).kind, Done(outcome))
      ensures outcome.Settled? || outcome.Bypassed?
    {
      hide Inv, Run, Next;
      Others(c);
      ghost var before := Now();
      var kind := calls[c].kind;
      var flushed: bool := *;
      if !flushed {
        workers := workers[g := workers[g].(missed := workers[g].missed + 1)];
        calls, lock := calls[c := Call(kind, Done(Bypassed("worker_gone")))], None;
        FlushFailsStep(before, c, Now());
        Record(before, FlushFails(c));
        return Bypassed("worker_gone");
      }
      calls := calls[c := Call(kind, Flushed(g, index))];
      FlushStep(before, c, Now());
      Record(before, Flush(c));
      outcome := ReadFrame(c, g, index);
    }

    /** Read one frame, unless the budget runs out or the pipe breaks. */
    method ReadFrame(c: nat, g: nat, index: nat) returns (outcome: Outcome)
      requires Valid() && Inv(Now()) && lock == Some(c) && c in calls && slot == Some(g) && g < |workers|
      requires calls[c].kind.Transform? && calls[c].phase == Flushed(g, index)
      modifies this
      ensures Valid() && Inv(Now()) && old(trace) <= trace
      ensures c in calls && calls[c] == Call(old(calls[c]).kind, Done(outcome))
      ensures outcome.Settled? || outcome.Bypassed?
    {
      hide Inv, Run, Next;
      Others(c);
      ghost var before := Now();
      var kind := calls[c].kind;
      var w := workers[g];
      var timedOut: bool, broken: bool := *, *;
      if timedOut || broken || w.stdout == [] {
        var reason := if timedOut then "timeout" else "transform_error";
        ReadFailsStep(before, c, timedOut, Dropped(before, c, g, w, reason));
        DropWorker(c, g, w, reason, before, ReadFails(c, timedOut));
        return Bypassed(reason);
      }
      workers := workers[g := w.(stdout := w.stdout[1..], taken := w.taken + 1)];
      outcome := Settled(g, index, w.stdout[0], w.missed);
      calls, lock := calls[c := Call(kind, Done(outcome))], None;
      ReadStep(before, c, Now());
      Record(before, Read(c));
    }

    /** Start the worker unless one is in the slot. */
    method Start(c: nat) returns (outcome: Outcome)
      requires Valid() && lock.None? && c in calls && calls[c] == Call(BridgeProtocol.Start, Waiting)
      modifies this
      ensures Valid() && Inv(Now()) && old(trace) <= trace
      ensures c in calls && calls[c] == Call(BridgeProtocol.Start, Done(outcome))
      ensures outcome.Started? || outcome.StartFailed?
      ensures outcome.Started? <==> slot.Some?
    {
      hide Inv, Run, CallOk;
      ghost var before := Now();
      if slot.Some? {
        calls := calls[c := Call(BridgeProtocol.Start, Done(Started))];
        Record(before, Acquire(c));
        return Started;
      }
      lock, calls := Some(c), calls[c := Call(BridgeProtocol.Start, Connecting)];
      Record(before, Acquire(c));
      var error := SpawnWorker(c);
      return if error.None? then Started else StartFailed(error.value);
    }

    /** Stop the worker; answers whether one was running.  A restart does the
        same and then waits for the lock again, as a start. */
    method Stop(c: nat) returns (wasRunning: bool)
      requires Valid() && lock.None? && c in calls && calls[c].phase == Waiting
      requires calls[c].kind.Stop? || calls[c].kind.Restart?
      modifies this
      ensures Valid() && Inv(Now()) && old(trace) <= trace
      ensures c in calls
      ensures calls[c] == if old(calls[c]).kind.Stop? then Call(BridgeProtocol.Stop, Done(Stopped(wasRunning)))
                          else Call(BridgeProtocol.Start, Waiting)
      ensures wasRunning <==> old(slot).Some?
    {
      hide Run, CallOk, WorkerOk, LockOk;
      ghost var before := Now();
      ReachableInv(trace, before);
      var kind := calls[c].kind;
      if slot.None? {
        calls := calls[c := AfterKill(Call(kind, Killing(0, Stopped(false))))];
        Record(before, StopTakes(c));
        return false;
      }
      var g := slot.value;
      workers := workers[g := workers[g].(retired := true)];
      slot := None;
      calls := calls[c := Call(kind, Killing(g, Stopped(true)))];
      Record(before, StopTakes(c));
      ShutDown(c);
      return true;
    }
  }

  // What the statements of a step do, as the machine's step.

  lemma EncodeFailsStep(s: State, c: nat, t: State)
    requires Writing(s, c)
    requires var g, w := s.slot.value, s.workers[s.slot.value];
             t == State(None, s.slot, s.workers[g := w.(nextId := w.nextId + 1)],
                        s.calls[c := Call(s.calls[c].kind, Done(Bypassed("encode_error")))])
    ensures Next(s, EncodeFails(c)) == Some(t)
  {
  }

  lemma NumberedFrame(s: State, c: nat, g: nat, id: nat)
    requires Writing(s, c) && s.slot == Some(g) && id == s.workers[g].nextId
    ensures c in s.calls && s.calls[c].kind.Transform? && NextFrame(s, c) == Frame(id, s.calls[c].kind.request)
  {
  }

  /** A worker with its next number used up, and with the frame or without. */
  function Numbered(w: Worker, frame: Frame, written: bool): Worker {
    if written then w.(nextId := w.nextId + 1, stdin := w.stdin + [frame], sent := w.sent + [frame])
    else w.(nextId := w.nextId + 1)
  }

  lemma NumberedIs(w: Worker, frame: Frame)
    ensures var v := w.(nextId := w.nextId + 1);
            Numbered(w, frame, false) == v
            && Numbered(w, frame, true) == v.(stdin := v.stdin + [frame], sent := v.sent + [frame])
  {
  }

  lemma WriteStep(s: State, c: nat, g: nat, w: Worker, t: State)
    requires Writing(s, c) && s.slot == Some(g) && w == Numbered(s.workers[g], NextFrame(s, c), true)
    requires t == State(s.lock, s.slot, s.workers[g := w],
                        s.calls[c := Call(s.calls[c].kind, Written(g, |w.sent| - 1))])
    ensures Next(s, Write(c)) == Some(t)
  {
  }

  lemma WriteFailsStep(s: State, c: nat, delivered: bool, g: nat, w: Worker, t: State)
    requires Writing(s, c) && s.slot == Some(g) && w == Numbered(s.workers[g], NextFrame(s, c), delivered)
    requires t == State(None, None, s.workers[g := w.(retired := true)],
                        s.calls[c := Call(s.calls[c].kind, Killing(g, Bypassed("worker_gone")))])
    ensures Next(s, WriteFails(c, delivered)) == Some(t)
  {
  }

  lemma FlushStep(s: State, c: nat, t: State)
    requires c in s.calls && s.calls[c].phase.Written?
    requires var p := s.calls[c].phase;
             t == State(s.lock, s.slot, s.workers, s.calls[c := Call(s.calls[c].kind, Flushed(p.worker, p.index))])
    ensures Next(s, Flush(c)) == Some(t)
  {
  }

  lemma FlushFailsStep(s: State, c: nat, t: State)
    requires c in s.calls && s.calls[c].phase.Written? && s.calls[c].phase.worker < |s.workers|
    requires var g, w := s.calls[c].phase.worker, s.workers[s.calls[c].phase.worker];
             t == State(None, s.slot, s.workers[g := w.(missed := w.missed + 1)],
                        s.calls[c := Call(s.calls[c].kind, Done(Bypassed("worker_gone")))])
    ensures Next(s, FlushFails(c)) == Some(t)
  {
  }

  lemma ReadFailsStep(s: State, c: nat, timedOut: bool, t: State)
    requires c in s.calls && s.calls[c].phase.Flushed? && s.slot.Some? && s.slot.value < |s.workers|
    requires var g, reason := s.slot.value, if timedOut then "timeout" else "transform_error";
             t == State(None, None, s.workers[g := s.workers[g].(retired := true)],
                        s.calls[c := Call(s.calls[c].kind, Killing(g, Bypassed(reason)))])
    ensures Next(s, ReadFails(c, timedOut)) == Some(t)
  {
  }

  lemma ReadStep(s: State, c: nat, t: State)
    requires c in s.calls && s.calls[c].phase.Flushed? && s.calls[c].phase.worker < |s.workers|
    requires s.workers[s.calls[c].phase.worker].stdout != []
    requires var Flushed(g, index) := s.calls[c].phase;
             var w := s.workers[g];
             t == State(None, s.slot, s.workers[g := w.(stdout := w.stdout[1..], taken := w.taken + 1)],
                        s.calls[c := Call(s.calls[c].kind, Done(Settled(g, index, w.stdout[0], w.missed)))])
    ensures Next(s, Read(c)) == Some(t)
  {
  }

  lemma KillEnabled(s: State, c: nat)
    requires Inv(s) && c in s.calls && s.calls[c].phase.Killing?
    ensures s.calls[c].phase.worker < |s.workers|
  {
    assert CallOk(s, s.calls[c]);
  }

  lemma KillDone(s: State, c: nat, t: State)
    requires c in s.calls && s.calls[c].phase.Killing? && s.calls[c].phase.worker < |s.workers|
    requires var g := s.calls[c].phase.worker;
             t == State(s.lock, s.slot, s.workers[g := s.workers[g].(alive := false)],
                        s.calls[c := AfterKill(s.calls[c])])
    ensures Next(s, Kill(c)) == Some(t)
  {
  }

  lemma LoadedSlot(s: State, c: nat)
    requires Inv(s) && c in s.calls && s.calls[c].phase == Loaded
    ensures s.slot.Some? && s.slot.value < |s.workers|
  {
    assert CallOk(s, s.calls[c]);
  }

  lemma SettledSays(s: State, c: nat)
    requires Inv(s) && c in s.calls && s.calls[c].phase.Done? && s.calls[c].phase.outcome.Settled?
    ensures var Settled(g, index, reply, behind) := s.calls[c].phase.outcome;
            g < |s.workers| && behind <= index < |s.workers[g].sent| && index - behind < |s.workers[g].answers|
            && s.calls[c].kind.Transform? && s.workers[g].sent[index].request == s.calls[c].kind.request
            && reply == Result(s.workers[g].sent[index - behind].id, s.workers[g].answers[index - behind])
  {
    assert CallOk(s, s.calls[c]);
  }
}
