/** The log layer and its drain as they run: statements that change the channel
    and the miss counter, with every other thread moving wherever one of them
    waits or is between two atomic operations.  Their history is a run of the
    queue's machine, so what holds in every run holds of these bodies. */
module LogShip {
  import opened LogQueue

  /** Whose step it is: one of the logging threads, or the drain's. */
  datatype Actor = Thread(id: nat) | Drainer | Owner

  function ActorOf(step: Step): Actor {
    match step
    case TrySend(thread, _) => Thread(thread)
    case CountMiss(thread) => Thread(thread)
    case SendersGone => Owner
    case _ => Drainer
  }

  lemma RunThen(s: State, steps: seq<Step>, t: State, step: Step, u: State)
    requires Run(s, steps).Some? && Run(s, steps).value == t && Next(t, step).Some? && Next(t, step).value == u
    ensures Run(s, steps + [step]).Some? && Run(s, steps + [step]).value == u
    decreases |steps|
  {
    hide Next;
    if steps == [] {
      assert [step][1..] == [];
      assert ([] + [step]) == [step];
    } else {
      assert (steps + [step])[0] == steps[0] && (steps + [step])[1..] == steps[1..] + [step];
      RunThen(Next(s, steps[0]).value, steps[1..], t, step, u);
    }
  }

  /** What an actor can rely on while others move. */
  predicate Relies(actor: Actor, s: State, t: State) {
    match actor
    case Thread(id) => (id in t.refusing <==> id in s.refusing)
    case Drainer => t.phase == s.phase && t.batch == s.batch && t.posts == s.posts && t.receiving == s.receiving
                    && s.channel <= t.channel
    case Owner => t.open == s.open
  }

  lemma OthersStep(actor: Actor, s: State, step: Step, t: State)
    requires Next(s, step).Some? && Next(s, step).value == t && ActorOf(step) != actor
    ensures Relies(actor, s, t)
  {
  }

  lemma NothingYet(s: State)
    requires Inv(s) && s.phase == Idle
    ensures s.batch == []
  {
    hide LinesOk, MissesOk;
  }

  class Shipper {
    var channel: seq<Line>
    var counter: nat
    var refusing: set<nat>
    var open: bool
    var receiving: bool
    var phase: Phase
    var batch: seq<Line>
    var accepted: seq<Line>
    var refused: nat
    var discarded: seq<Line>
    var wraps: nat
    var posts: seq<Post>
    ghost var trace: seq<Step>

    function Now(): State
      reads this
    {
      State(channel, counter, refusing, open, receiving, phase, batch, accepted, refused, discarded, wraps, posts)
    }

    ghost predicate Valid()
      reads this
    {
      Run(INIT, trace).Some? && Run(INIT, trace).value == Now()
    }

    constructor ()
      ensures Valid() && Now() == INIT
    {
      channel, counter, refusing, open, receiving, phase, batch := [], 0, {}, true, true, Idle, [];
      accepted, refused, discarded, wraps, posts, trace := [], 0, [], 0, [], [];
    }

    ghost method Record(before: State, step: Step)
      requires Run(INIT, trace).Some? && Run(INIT, trace).value == before
      requires Next(before, step).Some? && Next(before, step).value == Now()
      modifies this`trace
      ensures Valid() && Inv(Now()) && trace == old(trace) + [step]
    {
      hide Run, Next, Inv;
      RunThen(INIT, trace, before, step, Now());
      trace := trace + [step];
      Reachable(trace, Now());
    }

    /** A point where any number of steps of the others can come in. */
    method Others(actor: Actor)
      requires Valid()
      modifies this
      ensures Valid() && Inv(Now()) && Relies(actor, old(Now()), Now()) && old(trace) <= trace
    {
      hide Inv, Next, Run;
      Reachable(trace, Now());
      var turns: nat := *;
      while turns > 0
        invariant Valid() && Inv(Now()) && Relies(actor, old(Now()), Now()) && old(trace) <= trace
      {
        var step: Step := *;
        var next := Next(Now(), step);
        if ActorOf(step) != actor && next.Some? {
          ghost var before := Now();
          Become(next.value);
          OthersStep(actor, before, step, Now());
          Record(before, step);
        }
        turns := turns - 1;
      }
    }

    method Become(s: State)
      modifies this`channel, this`counter, this`refusing, this`open, this`receiving, this`phase, this`batch,
               this`accepted, this`refused, this`discarded, this`wraps, this`posts
      ensures Now() == s
    {
      channel, counter, refusing, open, receiving := s.channel, s.counter, s.refusing, s.open, s.receiving;
      phase, batch := s.phase, s.batch;
      BecomeHistory(s);
    }

    method BecomeHistory(s: State)
      modifies this`accepted, this`refused, this`discarded, this`wraps, this`posts
      ensures accepted == s.accepted && refused == s.refused && discarded == s.discarded
      ensures wraps == s.wraps && posts == s.posts
    {
      accepted, refused, discarded, wraps, posts := s.accepted, s.refused, s.discarded, s.wraps, s.posts;
    }

    /** Queue a line without waiting; when it is refused, count it.  Others can
        come in between the refusal and the count. */
    method OnEvent(thread: nat, line: Line) returns (queued: bool)
      requires Valid() && open && thread !in refusing
      modifies this
      ensures Valid() && Inv(Now())
      ensures queued <==> old(receiving) && |old(channel)| < CAPACITY
      ensures queued ==> channel == old(channel) + [line] && trace == old(trace) + [TrySend(thread, line)]
      ensures !queued ==> old(trace) + [TrySend(thread, line)] <= trace && trace[|trace| - 1] == CountMiss(thread)
      ensures thread !in refusing
    {
      hide Inv, Run;
      ghost var before := Now();
      if receiving && |channel| < CAPACITY {
        channel, accepted := channel + [line], accepted + [line];
        Record(before, TrySend(thread, line));
        return true;
      }
      refusing, refused := refusing + {thread}, refused + 1;
      Record(before, TrySend(thread, line));
      Others(Thread(thread));
      CountRefusal(thread);
      return false;
    }

    /** Add one to the counter, which wraps. */
    method CountRefusal(thread: nat)
      requires Valid() && thread in refusing
      modifies this
      ensures Valid() && Inv(Now()) && trace == old(trace) + [CountMiss(thread)]
      ensures thread !in refusing && channel == old(channel)
      ensures counter == if old(counter) + 1 == WRAP then 0 else old(counter) + 1
    {
      hide Inv, Run;
      ghost var before := Now();
      if counter + 1 == WRAP {
        counter, wraps := 0, wraps + 1;
      } else {
        counter := counter + 1;
      }
      refusing := refusing - {thread};
      Record(before, CountMiss(thread));
    }

    /** The drain's loop, for any number of rounds: wait for a line, fill the
        batch, take the counter, post. */
    method Drain(service: string, rounds: nat) returns (payloads: seq<seq<Line>>)
      requires Valid() && receiving && phase == Idle
      modifies this
      ensures Valid() && Inv(Now()) && (phase == Idle || phase == Ended)
      ensures |posts| == |old(posts)| + |payloads| && old(posts) <= posts
      ensures forall i :: 0 <= i < |payloads| ==>
                var post := posts[|old(posts)| + i]; payloads[i] == Payload(service, post.own, post.missed)
      ensures |payloads| == rounds || |old(channel)| <= MAX_BATCH * |payloads|
      ensures |payloads| <= rounds
      ensures phase == Ended ==> !open && channel == []
    {
      hide Inv, Run, Next, Payload;
      payloads := [];
      Reachable(trace, Now());
      var left := rounds;
      while left > 0
        invariant Valid() && Inv(Now()) && receiving && phase == Idle
        invariant |posts| == |old(posts)| + |payloads| && old(posts) <= posts
        invariant forall i :: 0 <= i < |payloads| ==>
                    var post := posts[|old(posts)| + i]; payloads[i] == Payload(service, post.own, post.missed)
        invariant |payloads| <= rounds - left && 0 <= left <= rounds
        invariant |payloads| == rounds - left || |old(channel)| <= MAX_BATCH * |payloads|
        invariant |old(channel)| <= |channel| + MAX_BATCH * |payloads|
      {
        left := left - 1;
        Others(Drainer);
        if channel == [] {
          if !open {
            Leave();
            return;
          }
          continue;
        }
        ghost var waiting := |channel|;
        Fill();
        var lines := Post(service);
        payloads := payloads + [lines];
        assert waiting <= |channel| + MAX_BATCH;
      }
    }

    /** Every sender is gone and the channel is empty. */
    method Leave()
      requires Valid() && phase == Idle && !open && channel == []
      modifies this
      ensures Valid() && Inv(Now()) && phase == Ended && posts == old(posts)
      ensures open == old(open) && channel == old(channel)
    {
      hide Inv, Run;
      ghost var before := Now();
      phase, receiving := Ended, false;
      Record(before, NoMore);
    }

    /** The first line, and as many more as come within the interval. */
    method Fill()
      requires Valid() && receiving && phase == Idle && channel != []
      modifies this
      ensures Valid() && Inv(Now()) && receiving && phase == Swapping && posts == old(posts)
      ensures |old(channel)| <= |channel| + MAX_BATCH
    {
      hide Inv, Run, Next;
      Reachable(trace, Now());
      NothingYet(Now());
      Take(ReceiveFirst);
      while |batch| < MAX_BATCH
        invariant Valid() && Inv(Now()) && receiving && phase == Filling && posts == old(posts)
        invariant |batch| <= MAX_BATCH && |old(channel)| <= |channel| + |batch|
        decreases MAX_BATCH - |batch|
      {
        Others(Drainer);
        var expired: bool := *;
        if expired || channel == [] {
          break;
        }
        Take(ReceiveMore);
      }
      StopWaiting();
    }

    /** Move one line from the channel to the batch. */
    method Take(ghost step: Step)
      requires Valid() && receiving && channel != []
      requires (step == ReceiveFirst && phase == Idle) || (step == ReceiveMore && phase == Filling && |batch| < MAX_BATCH)
      modifies this
      ensures Valid() && Inv(Now()) && receiving && phase == Filling && posts == old(posts)
      ensures batch == old(batch) + [old(channel)[0]] && channel == old(channel)[1..]
    {
      hide Inv, Run;
      ghost var before := Now();
      var line := channel[0];
      channel, batch, phase := channel[1..], batch + [line], Filling;
      Record(before, step);
    }

    method StopWaiting()
      requires Valid() && receiving && phase == Filling
      modifies this
      ensures Valid() && Inv(Now()) && receiving && phase == Swapping && posts == old(posts) && batch == old(batch)
      ensures channel == old(channel)
    {
      hide Inv, Run;
      ghost var before := Now();
      phase := Swapping;
      Record(before, StopFilling);
    }

    /** Take the counter, add its report, and send; a failure is not retried. */
    method Post(service: string) returns (lines: seq<Line>)
      requires Valid() && receiving && phase == Swapping
      modifies this
      ensures Valid() && Inv(Now()) && receiving && phase == Idle
      ensures |posts| == |old(posts)| + 1 && old(posts) <= posts
      ensures var post := posts[|old(posts)|]; lines == Payload(service, post.own, post.missed)
      ensures |old(channel)| <= |channel|
    {
      hide Inv, Run, Next;
      Others(Drainer);
      var missed := SwapCounter();
      lines := batch;
      if missed > 0 {
        lines := lines + [Report(service, missed)];
      }
      Others(Drainer);
      Deliver();
    }

    method SwapCounter() returns (missed: nat)
      requires Valid() && receiving && phase == Swapping
      modifies this
      ensures Valid() && receiving && phase == Posting(missed) && missed == old(counter) && counter == 0
      ensures batch == old(batch) && posts == old(posts) && channel == old(channel)
    {
      hide Inv, Run;
      ghost var before := Now();
      missed := counter;
      counter, phase := 0, Posting(missed);
      Record(before, Swap);
    }

    method Deliver()
      requires Valid() && receiving && phase.Posting?
      modifies this
      ensures Valid() && Inv(Now()) && receiving && phase == Idle
      ensures |posts| == |old(posts)| + 1 && old(posts) <= posts
      ensures posts[|old(posts)|].own == old(batch) && posts[|old(posts)|].missed == old(phase).missed
      ensures channel == old(channel)
    {
      hide Inv, Run;
      ghost var before := Now();
      var delivered: bool := *;
      posts, batch, phase := posts + [LogQueue.Post(batch, phase.missed, delivered)], [], Idle;
      Record(before, Send(delivered));
    }
  }
}
