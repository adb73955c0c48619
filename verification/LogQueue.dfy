/** The shipping queue of the log layer: any number of threads log into one
    bounded channel, one thread drains it into batches and posts them.  What
    does not fit is refused and counted.  Refusing and counting are two steps,
    and every interleaving of the threads is a run. */
module LogQueue {
  import opened Decimals
  import opened Options

  datatype Line = Line(level: string, message: string)

  const CAPACITY: nat := 1000
  const MAX_BATCH: nat := 50
  const WRAP: nat := 0x1_0000_0000_0000_0000

  /** One post: the lines taken from the channel, the misses it reports, and
      whether the state service got it. */
  datatype Post = Post(own: seq<Line>, missed: nat, delivered: bool)

  datatype Phase = Idle | Filling | Swapping | Posting(missed: nat) | Ended

  /** `refusing` holds the threads that were refused and have not counted it
      yet.  `accepted`, `refused`, `discarded`, `wraps` and `posts` are history. */
  datatype State = State(channel: seq<Line>, counter: nat, refusing: set<nat>, open: bool, receiving: bool,
                         phase: Phase, batch: seq<Line>,
                         accepted: seq<Line>, refused: nat, discarded: seq<Line>, wraps: nat, posts: seq<Post>)

  const INIT := State([], 0, {}, true, true, Idle, [], [], 0, [], 0, [])

  datatype Step =
    | TrySend(thread: nat, line: Line)
    | CountMiss(thread: nat)
    | SendersGone
    | ReceiverLost
    | ReceiveFirst
    | NoMore
    | ReceiveMore
    | StopFilling
    | Swap
    | Send(delivered: bool)

  /** The line a batch ends with when lines were missed. */
  function Report(service: string, missed: nat): Line {
    Line("warn", Decimal(missed) + Dropped(service))
  }

  function Dropped(service: string): string {
    " log line(s) from " + service + " were dropped: the shipping queue was full."
  }

  /** The lines that go over the wire. */
  function Payload(service: string, own: seq<Line>, missed: nat): seq<Line> {
    own + (if missed > 0 then [Report(service, missed)] else [])
  }

  lemma SameFront(a: string, b: string, rest: string)
    requires a + rest == b + rest
    ensures a == b
  {
    assert |a| == |b|;
    assert (a + rest)[..|a|] == a && (b + rest)[..|b|] == b;
  }

  /** A report tells how many lines were missed: no two counts read alike. */
  lemma ReportTells(service: string, a: nat, b: nat)
    requires Report(service, a) == Report(service, b)
    ensures a == b
  {
    hide Decimal, Value, Dropped;
    SameFront(Decimal(a), Decimal(b), Dropped(service));
    DecimalValue(a);
    DecimalValue(b);
  }

  // ------------------------------------------------ steps

  function DoTrySend(s: State, thread: nat, line: Line): Option<State> {
    if !s.open || thread in s.refusing then None
    else if s.receiving && |s.channel| < CAPACITY then
      Some(s.(channel := s.channel + [line], accepted := s.accepted + [line]))
    else Some(s.(refusing := s.refusing + {thread}, refused := s.refused + 1))
  }

  function DoCountMiss(s: State, thread: nat): Option<State> {
    if thread !in s.refusing then None
    else if s.counter + 1 == WRAP then
      Some(s.(refusing := s.refusing - {thread}, counter := 0, wraps := s.wraps + 1))
    else Some(s.(refusing := s.refusing - {thread}, counter := s.counter + 1))
  }

  /** The drain could not start: the channel goes, with what is in it. */
  function DoReceiverLost(s: State): Option<State> {
    if !s.receiving || s.phase != Idle || s.posts != [] then None
    else Some(s.(receiving := false, phase := Ended, channel := [], discarded := s.channel))
  }

  function DoReceiveFirst(s: State): Option<State> {
    if s.phase != Idle || s.channel == [] then None
    else Some(s.(channel := s.channel[1..], batch := s.batch + [s.channel[0]], phase := Filling))
  }

  function DoNoMore(s: State): Option<State> {
    if s.phase != Idle || s.open || s.channel != [] then None
    else Some(s.(phase := Ended, receiving := false))
  }

  function DoReceiveMore(s: State): Option<State> {
    if s.phase != Filling || |s.batch| >= MAX_BATCH || s.channel == [] then None
    else Some(s.(channel := s.channel[1..], batch := s.batch + [s.channel[0]]))
  }

  function DoSwap(s: State): Option<State> {
    if s.phase != Swapping then None
    else Some(s.(phase := Posting(s.counter), counter := 0))
  }

  function DoSend(s: State, delivered: bool): Option<State> {
    if !s.phase.Posting? then None
    else Some(s.(phase := Idle, batch := [], posts := s.posts + [Post(s.batch, s.phase.missed, delivered)]))
  }

  function Next(s: State, step: Step): Option<State> {
    match step
    case TrySend(thread, line) => DoTrySend(s, thread, line)
    case CountMiss(thread) => DoCountMiss(s, thread)
    case SendersGone => if s.open && s.refusing == {} then Some(s.(open := false)) else None
    case ReceiverLost => DoReceiverLost(s)
    case ReceiveFirst => DoReceiveFirst(s)
    case NoMore => DoNoMore(s)
    case ReceiveMore => DoReceiveMore(s)
    // The interval can be over at any time.
    case StopFilling => if s.phase == Filling then Some(s.(phase := Swapping)) else None
    case Swap => DoSwap(s)
    case Send(delivered) => DoSend(s, delivered)
  }

  function Run(s: State, steps: seq<Step>): Option<State>
    decreases |steps|
  {
    if steps == [] then Some(s)
    else match Next(s, steps[0])
         case None => None
         case Some(next) => Run(next, steps[1..])
  }

  // ------------------------------------------------ what every run keeps

  function Shipped(posts: seq<Post>): seq<Line> {
    if posts == [] then [] else Shipped(posts[..|posts| - 1]) + posts[|posts| - 1].own
  }

  function Reported(posts: seq<Post>): nat {
    if posts == [] then 0 else Reported(posts[..|posts| - 1]) + posts[|posts| - 1].missed
  }

  /** No accepted line is lost, repeated or moved on its way. */
  predicate LinesOk(s: State) {
    s.accepted == Shipped(s.posts) + s.batch + s.channel + s.discarded
    && (s.receiving ==> s.discarded == [])
    && (!s.receiving <==> s.phase == Ended) && (!s.receiving ==> s.channel == [])
    && (s.discarded != [] ==> s.posts == [] && s.batch == [])
    && |s.channel| <= CAPACITY
  }

  /** Every refused line is counted once: reported, taken to be reported, in
      the counter, or about to be counted. */
  predicate MissesOk(s: State) {
    s.refused == Reported(s.posts) + (if s.phase.Posting? then s.phase.missed else 0)
                 + s.counter + |s.refusing| + s.wraps * WRAP
    && s.counter < WRAP
  }

  predicate BatchOk(s: State) {
    (s.phase.Idle? || s.phase.Ended? ==> s.batch == [])
    && (s.phase.Filling? || s.phase.Swapping? || s.phase.Posting? ==> 1 <= |s.batch| <= MAX_BATCH)
    && (forall i :: 0 <= i < |s.posts| ==> 1 <= |s.posts[i].own| <= MAX_BATCH)
  }

  predicate Inv(s: State) {
    LinesOk(s) && MissesOk(s) && BatchOk(s)
  }

  lemma LastPost(posts: seq<Post>, post: Post)
    ensures Shipped(posts + [post]) == Shipped(posts) + post.own
    ensures Reported(posts + [post]) == Reported(posts) + post.missed
  {
    assert (posts + [post])[..|posts|] == posts;
  }

  lemma LinesKept(s: State, step: Step, t: State)
    requires LinesOk(s) && BatchOk(s) && Next(s, step) == Some(t)
    ensures LinesOk(t)
  {
    hide LinesOk, BatchOk, Next;
    if step.ReceiveFirst? || step.ReceiveMore? {
      TakenKept(s, step, t);
    } else if step.Send? {
      SentKept(s, step.delivered, t);
    } else if step.TrySend? || step.ReceiverLost? {
      ChannelKept(s, step, t);
    } else {
      AsideKept(s, step, t);
    }
  }

  lemma SentKept(s: State, delivered: bool, t: State)
    requires LinesOk(s) && Next(s, Send(delivered)) == Some(t)
    ensures LinesOk(t)
  {
    hide Shipped;
    LastPost(s.posts, Post(s.batch, s.phase.missed, delivered));
    assert Shipped(t.posts) + t.batch == Shipped(s.posts) + s.batch;
  }

  lemma AsideKept(s: State, step: Step, t: State)
    requires step.CountMiss? || step.SendersGone? || step.NoMore? || step.StopFilling? || step.Swap?
    requires LinesOk(s) && Next(s, step) == Some(t)
    ensures LinesOk(t)
  {
    hide Shipped;
  }

  lemma TakenKept(s: State, step: Step, t: State)
    requires step.ReceiveFirst? || step.ReceiveMore?
    requires LinesOk(s) && Next(s, step) == Some(t)
    ensures LinesOk(t)
  {
    hide Shipped;
    assert s.channel == [s.channel[0]] + s.channel[1..];
    assert s.batch + s.channel == t.batch + t.channel;
    Regrouped(Shipped(s.posts), s.batch, s.channel, t.batch, t.channel);
  }

  lemma ChannelKept(s: State, step: Step, t: State)
    requires step.TrySend? || step.ReceiverLost?
    requires LinesOk(s) && BatchOk(s) && Next(s, step) == Some(t)
    ensures LinesOk(t)
  {
    hide Shipped;
    var gone := Shipped(s.posts) + s.batch;
    if step.ReceiverLost? {
      assert gone + s.channel + [] == gone + [] + s.channel;
    } else if s.receiving && |s.channel| < CAPACITY {
      assert gone + s.channel + [] + [step.line] == gone + (s.channel + [step.line]) + [];
    }
  }

  lemma Regrouped<T>(front: seq<T>, a: seq<T>, b: seq<T>, c: seq<T>, d: seq<T>)
    requires a + b == c + d
    ensures front + a + b == front + c + d
  {
    assert front + a + b == front + (a + b) && front + c + d == front + (c + d);
  }

  lemma MissesKept(s: State, step: Step, t: State)
    requires MissesOk(s) && Next(s, step) == Some(t)
    ensures MissesOk(t)
  {
    hide MissesOk, Next;
    if step.TrySend? || step.CountMiss? {
      CounterKept(s, step, t);
    } else if step.Swap? || step.Send? {
      TakeKept(s, step, t);
    } else {
      OtherMissesKept(s, step, t);
    }
  }

  lemma CounterKept(s: State, step: Step, t: State)
    requires step.TrySend? || step.CountMiss?
    requires MissesOk(s) && Next(s, step) == Some(t)
    ensures MissesOk(t)
  {
    hide Reported;
  }

  lemma TakeKept(s: State, step: Step, t: State)
    requires step.Swap? || step.Send?
    requires MissesOk(s) && Next(s, step) == Some(t)
    ensures MissesOk(t)
  {
    hide Reported;
    if step.Send? {
      LastPost(s.posts, Post(s.batch, s.phase.missed, step.delivered));
    }
  }

  lemma OtherMissesKept(s: State, step: Step, t: State)
    requires !step.TrySend? && !step.CountMiss? && !step.Swap? && !step.Send?
    requires MissesOk(s) && Next(s, step) == Some(t)
    ensures MissesOk(t)
  {
    hide Reported;
  }

  lemma BatchKept(s: State, step: Step, t: State)
    requires BatchOk(s) && Next(s, step) == Some(t)
    ensures BatchOk(t)
  {
  }

  lemma StepKeeps(s: State, step: Step, t: State)
    requires Inv(s) && Next(s, step) == Some(t)
    ensures Inv(t)
  {
    hide LinesOk, MissesOk, BatchOk, Next;
    LinesKept(s, step, t);
    MissesKept(s, step, t);
    BatchKept(s, step, t);
  }

  lemma {:induction false} RunKeeps(s: State, steps: seq<Step>, t: State)
    requires Inv(s) && Run(s, steps) == Some(t)
    ensures Inv(t)
    decreases |steps|
  {
    hide Inv, Next;
    if steps != [] {
      StepKeeps(s, steps[0], Next(s, steps[0]).value);
      RunKeeps(Next(s, steps[0]).value, steps[1..], t);
    }
  }

  lemma Reachable(steps: seq<Step>, s: State)
    requires Run(INIT, steps) == Some(s)
    ensures Inv(s)
  {
    RunKeeps(INIT, steps, s);
  }

  /** In every interleaving the lines accepted so far are, in order, those
      posted, those in the batch, those still in the channel, and those that
      went with a channel whose drain could not start.  There are such lines
      only if that happened, and then nothing was ever posted. */
  lemma NothingLostOrMoved(steps: seq<Step>, s: State)
    requires Run(INIT, steps) == Some(s)
    ensures s.accepted == Shipped(s.posts) + s.batch + s.channel + s.discarded
    ensures |s.channel| <= CAPACITY
    ensures s.discarded != [] ==> ReceiverLost in steps && s.posts == [] && s.batch == []
  {
    Reachable(steps, s);
    if ReceiverLost !in steps {
      NothingDiscarded(INIT, steps, s);
    }
  }

  lemma {:induction false} NothingDiscarded(s: State, steps: seq<Step>, t: State)
    requires Run(s, steps) == Some(t) && s.discarded == [] && ReceiverLost !in steps
    ensures t.discarded == []
    decreases |steps|
  {
    if steps != [] {
      NothingDiscarded(Next(s, steps[0]).value, steps[1..], t);
    }
  }

  /** The lines refused so far are those reported or about to be, those in the
      counter and those not counted yet, as long as the counter cannot wrap. */
  lemma EveryMissCounted(steps: seq<Step>, s: State)
    requires Run(INIT, steps) == Some(s) && s.refused < WRAP
    ensures s.refused == Reported(s.posts) + (if s.phase.Posting? then s.phase.missed else 0)
                         + s.counter + |s.refusing|
  {
    Reachable(steps, s);
    assert s.wraps > 0 ==> s.wraps * WRAP >= WRAP;
  }

  /** A post has at least one and at most fifty lines of its own, and one more
      exactly when it reports misses. */
  lemma PostSizes(steps: seq<Step>, s: State, service: string, i: nat)
    requires Run(INIT, steps) == Some(s) && i < |s.posts|
    ensures var p := s.posts[i];
            1 <= |p.own| <= MAX_BATCH && p.own <= Payload(service, p.own, p.missed)
            && |Payload(service, p.own, p.missed)| == |p.own| + (if p.missed > 0 then 1 else 0)
            && (p.missed > 0 ==> Payload(service, p.own, p.missed)[|p.own|] == Report(service, p.missed))
  {
    Reachable(steps, s);
  }

  // ------------------------------------------------ what the pane is told

  /** The misses reported by posts that arrived. */
  function Told(posts: seq<Post>): nat {
    if posts == [] then 0
    else Told(posts[..|posts| - 1]) + (if posts[|posts| - 1].delivered then posts[|posts| - 1].missed else 0)
  }

  predicate Swallowed(post: Post) { !post.delivered && post.missed > 0 }

  lemma {:induction false} ToldAtMost(posts: seq<Post>)
    ensures Told(posts) <= Reported(posts)
    ensures Told(posts) == Reported(posts) <==> forall i :: 0 <= i < |posts| ==> !Swallowed(posts[i])
  {
    if posts != [] {
      var n := |posts| - 1;
      ToldAtMost(posts[..n]);
      assert forall i :: 0 <= i < n ==> posts[..n][i] == posts[i];
      assert posts[n].missed > 0 && !posts[n].delivered <==> Swallowed(posts[n]);
    }
  }

  /** The counter is emptied before the post, and a failed post is not sent
      again.  So once every miss is counted and swapped out, what the pane was
      told is what was refused exactly when no failed post carried a report. */
  lemma ToldAllExactly(steps: seq<Step>, s: State)
    requires Run(INIT, steps) == Some(s) && s.refused < WRAP
    requires s.counter == 0 && s.refusing == {} && !s.phase.Posting?
    ensures Told(s.posts) <= s.refused
    ensures Told(s.posts) == s.refused <==> forall i :: 0 <= i < |s.posts| ==> !Swallowed(s.posts[i])
  {
    EveryMissCounted(steps, s);
    ToldAtMost(s.posts);
  }

  // A run in which the pane is not told: a thousand lines fill the channel, one
  // more is refused and counted, and the post that reports it fails.

  function Filled(line: Line, n: nat): State {
    INIT.(channel := Copies(line, n), accepted := Copies(line, n))
  }

  function Copies(line: Line, n: nat): (lines: seq<Line>)
    ensures |lines| == n && forall i :: 0 <= i < n ==> lines[i] == line
  {
    seq(n, _ => line)
  }

  function Sends(line: Line, n: nat): seq<Step> {
    seq(n, _ => TrySend(0, line))
  }

  lemma {:induction false} ChannelFills(line: Line, n: nat)
    requires n <= CAPACITY
    ensures Run(INIT, Sends(line, n)) == Some(Filled(line, n))
  {
    if n == 0 {
      assert Copies(line, 0) == [];
    } else {
      ChannelFills(line, n - 1);
      assert Copies(line, n) == Copies(line, n - 1) + [line];
      assert Sends(line, n) == Sends(line, n - 1) + [TrySend(0, line)];
      OneStep(Filled(line, n - 1), TrySend(0, line), Filled(line, n));
      RunConcat(INIT, Sends(line, n - 1), Filled(line, n - 1), [TrySend(0, line)]);
    }
  }

  lemma OneStep(s: State, step: Step, t: State)
    requires Next(s, step) == Some(t)
    ensures Run(s, [step]) == Some(t)
  {
    hide Next;
    assert [step][1..] == [];
  }

  lemma {:induction false} RunConcat(s: State, a: seq<Step>, t: State, b: seq<Step>)
    requires Run(s, a) == Some(t)
    ensures Run(s, a + b) == Run(t, b)
    decreases |a|
  {
    hide Next;
    if a == [] {
      assert a + b == b;
    } else {
      assert (a + b)[0] == a[0] && (a + b)[1..] == a[1..] + b;
      RunConcat(Next(s, a[0]).value, a[1..], t, b);
    }
  }

  function Refusing(line: Line): seq<Step> {
    [TrySend(0, line), CountMiss(0)] + [ReceiveFirst, StopFilling, Swap, Send(false)]
  }

  lemma RefusedOne(line: Line)
    ensures var end := Run(Filled(line, CAPACITY), Refusing(line));
            end.Some? && end.value.refused == 1 && end.value.counter == 0 && end.value.refusing == {}
            && end.value.phase == Idle && end.value.posts == [Post([line], 1, false)]
  {
    hide Next, Run, Copies;
    var s0 := Filled(line, CAPACITY);
    var s2 := s0.(refused := 1, counter := 1);
    RefusedAndCounted(s0, line);
    TakenAndLost(s2, line);
    RunConcat(s0, [TrySend(0, line), CountMiss(0)], s2, [ReceiveFirst, StopFilling, Swap, Send(false)]);
  }

  lemma RefusedAndCounted(s: State, line: Line)
    requires s.open && s.receiving && s.refusing == {} && |s.channel| == CAPACITY && s.refused == s.counter == 0
    ensures Run(s, [TrySend(0, line), CountMiss(0)]) == Some(s.(refused := 1, counter := 1))
  {
    var s1 := s.(refusing := {0}, refused := 1);
    assert {} + {0} == {0} && {0} - {0} == {};
    assert Next(s, TrySend(0, line)) == Some(s1) && Next(s1, CountMiss(0)) == Some(s.(refused := 1, counter := 1));
    hide Next;
    RunCons(s1, CountMiss(0), s.(refused := 1, counter := 1), []);
    RunCons(s, TrySend(0, line), s1, [CountMiss(0)]);
  }

  lemma TakenAndLost(s: State, line: Line)
    requires s.phase == Idle && s.batch == [] && s.posts == [] && s.counter == 1
    requires s.channel != [] && s.channel[0] == line
    ensures Run(s, [ReceiveFirst, StopFilling, Swap, Send(false)])
            == Some(s.(channel := s.channel[1..], counter := 0, posts := [Post([line], 1, false)]))
  {
    var s3 := s.(channel := s.channel[1..], batch := [line], phase := Filling);
    var s4 := s3.(phase := Swapping);
    var s5 := s3.(phase := Posting(1), counter := 0);
    var s6 := s.(channel := s.channel[1..], counter := 0, posts := [Post([line], 1, false)]);
    assert [] + [line] == [line] && [] + [Post([line], 1, false)] == [Post([line], 1, false)];
    assert Next(s, ReceiveFirst) == Some(s3) && Next(s3, StopFilling) == Some(s4) && Next(s4, Swap) == Some(s5);
    assert Next(s5, Send(false)) == Some(s6);
    hide Next;
    RunCons(s5, Send(false), s6, []);
    RunCons(s4, Swap, s5, [Send(false)]);
    RunCons(s3, StopFilling, s4, [Swap, Send(false)]);
    RunCons(s, ReceiveFirst, s3, [StopFilling, Swap, Send(false)]);
  }

  lemma RunCons(s: State, step: Step, t: State, rest: seq<Step>)
    requires Next(s, step) == Some(t)
    ensures Run(s, [step] + rest) == Run(t, rest)
  {
    hide Next;
    assert ([step] + rest)[1..] == rest;
  }

  lemma ReportSwallowed(line: Line)
    ensures var end := Run(INIT, Sends(line, CAPACITY) + Refusing(line));
            end.Some? && end.value.refused == 1 && end.value.counter == 0 && end.value.refusing == {}
            && !end.value.phase.Posting? && Told(end.value.posts) == 0
  {
    hide Run, Next, Sends, Refusing, Filled;
    ChannelFills(line, CAPACITY);
    RefusedOne(line);
    RunConcat(INIT, Sends(line, CAPACITY), Filled(line, CAPACITY), Refusing(line));
    assert [Post([line], 1, false)][..0] == [];
  }

  // ------------------------------------------------ the drain gets to the end

  predicate Draining(step: Step) {
    step.ReceiveFirst? || step.NoMore? || step.ReceiveMore? || step.StopFilling? || step.Swap? || step.Send?
  }

  function Work(s: State): nat {
    4 * |s.channel| + match s.phase
                      case Ended => 0
                      case Idle => 1
                      case Posting(_) => 2
                      case Swapping => 3
                      case Filling => 4
  }

  lemma DrainingWorks(s: State, step: Step, t: State)
    requires Draining(step) && Next(s, step) == Some(t)
    ensures Work(t) < Work(s) && t.accepted == s.accepted
  {
  }

  /** Left alone, the drain takes boundedly many steps. */
  lemma {:induction false} LeftAlone(s: State, steps: seq<Step>, t: State)
    requires Run(s, steps) == Some(t) && forall i :: 0 <= i < |steps| ==> Draining(steps[i])
    ensures |steps| + Work(t) <= Work(s) && t.accepted == s.accepted
    decreases |steps|
  {
    hide Next, Work, Draining;
    if steps != [] {
      var next := Next(s, steps[0]).value;
      DrainingWorks(s, steps[0], next);
      LeftAlone(next, steps[1..], t);
    }
  }

  /** While the drain can take no step, everything accepted has been posted,
      unless it went with the channel of a drain that could not start. */
  lemma StuckMeansPosted(steps: seq<Step>, s: State)
    requires Run(INIT, steps) == Some(s)
    requires forall step :: Draining(step) ==> Next(s, step).None?
    ensures s.accepted == Shipped(s.posts) + s.discarded
  {
    Reachable(steps, s);
    assert Next(s, ReceiveFirst).None? && Next(s, StopFilling).None? && Next(s, Swap).None? && Next(s, Send(true)).None?;
    assert s.accepted == Shipped(s.posts) + s.batch + s.channel + s.discarded;
    assert s.batch == [] && s.channel == [];
  }

  /** The channel is closed only once every refused thread has counted its
      miss, and no thread logs after that. */
  lemma {:induction false} ClosedMeansCounted(s: State, steps: seq<Step>, t: State)
    requires Run(s, steps) == Some(t) && (s.open || s.refusing == {})
    ensures t.open || t.refusing == {}
    ensures !s.open ==> t.accepted == s.accepted && t.refused == s.refused && !t.open
    decreases |steps|
  {
    hide Next;
    if steps != [] {
      var next := Next(s, steps[0]).value;
      ClosedStep(s, steps[0], next);
      ClosedMeansCounted(next, steps[1..], t);
    }
  }

  lemma ClosedStep(s: State, step: Step, t: State)
    requires Next(s, step) == Some(t) && (s.open || s.refusing == {})
    ensures t.open || t.refusing == {}
    ensures !s.open ==> t.accepted == s.accepted && t.refused == s.refused && !t.open
  {
  }

  /** A drain can fail to start until it has taken a line.  What the channel
      holds then is gone, and every line after that is refused at once. */
  lemma DrainNeverStarts(steps: seq<Step>, s: State, thread: nat, line: Line)
    requires Run(INIT, steps) == Some(s) && s.receiving && s.phase.Idle? && s.posts == []
    ensures Next(s, ReceiverLost).Some?
    ensures var lost := Next(s, ReceiverLost).value;
            lost.discarded == s.accepted && lost.channel == []
            && (s.open && thread !in s.refusing ==>
                  Next(lost, TrySend(thread, line)) ==
                  Some(lost.(refusing := s.refusing + {thread}, refused := s.refused + 1)))
  {
    Reachable(steps, s);
    assert Shipped([]) == [];
  }

  /** A report is a warning that gives the number and names the service. */
  lemma ReportReads(service: string, missed: nat)
    ensures Report(service, missed)
         == Line("warn", Decimal(missed) + " log line(s) from " + service
                         + " were dropped: the shipping queue was full.")
  {
    hide Decimal;
    Apart(Decimal(missed), " log line(s) from ", service, " were dropped: the shipping queue was full.");
  }

  lemma Apart(a: string, b: string, c: string, d: string)
    ensures a + (b + c + d) == a + b + c + d
  {
  }
}
