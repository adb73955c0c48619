/** Spending refresh tokens through the shared cache.  Looking into the cache and
    recording the outcome are two steps with the exchange between them, and any
    number of requests take them in any interleaving. */
module RefreshProtocol {
  import opened Options
  import opened TtlCache

  /** How an exchange ended: at which step, at what time, with what. */
  datatype Settled = Settled(step: nat, at: nat, result: RefreshResult)

  /** One exchange of a token, from the look into the cache that missed. */
  datatype Spend = Spend(provider: string, token: string, step: nat, at: nat, settled: Option<Settled>)

  /** `step` and `now` are the place in the run and the clock. */
  datatype State = State(now: nat, step: nat, entries: map<string, Entry<RefreshResult>>, spends: seq<Spend>,
                         hits: seq<Hit>)

  /** A result served from the cache. */
  datatype Hit = Hit(provider: string, token: string, step: nat, at: nat, result: RefreshResult)

  const INIT := State(0, 0, map[], [], [])

  datatype Step =
    | Tick(elapsed: nat)
    | Check(provider: string, token: string)
    | Settle(spend: nat, result: RefreshResult, later: nat)

  /** A look into the cache: the result is served, or the token is spent. */
  function DoCheck(s: State, provider: string, token: string): State {
    var key := Key(provider, token);
    var found := Found(s.entries, key, s.now, RESULT_TTL);
    var looked := s.(step := s.step + 1, entries := AfterLook(s.entries, key, s.now, RESULT_TTL));
    if found.Some? then looked.(hits := s.hits + [Hit(provider, token, s.step, s.now, found.value)])
    else looked.(spends := s.spends + [Spend(provider, token, s.step, s.now, None)])
  }

  /** An exchange ends and its outcome is recorded; the clock is read twice. */
  function DoSettle(s: State, i: nat, result: RefreshResult, later: nat): Option<State> {
    if i >= |s.spends| || s.spends[i].settled.Some? then None
    else
      var spend, stamp := s.spends[i], s.now + later;
      Some(s.(now := stamp, step := s.step + 1,
              entries := AfterRecord(s.entries, Key(spend.provider, spend.token), result, s.now, stamp, RESULT_TTL),
              spends := s.spends[i := spend.(settled := Some(Settled(s.step, stamp, result)))]))
  }

  function Next(s: State, step: Step): Option<State> {
    match step
    case Tick(elapsed) => Some(s.(now := s.now + elapsed))
    case Check(provider, token) => Some(DoCheck(s, provider, token))
    case Settle(i, result, later) => DoSettle(s, i, result, later)
  }

  function Run(s: State, steps: seq<Step>): Option<State>
    decreases |steps|
  {
    if steps == [] then Some(s)
    else match Next(s, steps[0])
         case None => None
         case Some(next) => Run(next, steps[1..])
  }

  // ------------------------------------------------ what every run keeps

  /** The cache still holds what was settled, or something later under the same
      key, or it has expired. */
  predicate Remembered(s: State, spend: Spend) {
    spend.settled.Some? ==>
      var done := spend.settled.value;
      var key := Key(spend.provider, spend.token);
      done.at <= s.now && done.step < s.step
      && (done.at + RESULT_TTL < s.now || (key in s.entries && s.entries[key].at >= done.at))
  }

  /** The second was not yet under way when the first was settled, or began
      more than the time to live after. */
  predicate Spaced(first: Spend, second: Spend) {
    first.settled.Some? && first.settled.value.step < second.step
    && first.provider == second.provider && first.token == second.token ==>
      second.at > first.settled.value.at + RESULT_TTL
  }

  /** What began before an outcome began no later than that outcome's time. */
  predicate InTime(first: Spend, second: Spend) {
    first.settled.Some? && second.step <= first.settled.value.step ==> second.at <= first.settled.value.at
  }

  /** An entry is the outcome of an exchange under its key. */
  ghost predicate HasSource(s: State, key: string, entry: Entry<RefreshResult>) {
    exists i :: 0 <= i < |s.spends| && IsSource(s.spends[i], key, entry)
  }

  predicate IsSource(spend: Spend, key: string, entry: Entry<RefreshResult>) {
    Key(spend.provider, spend.token) == key && spend.settled.Some?
    && spend.settled.value.at == entry.at && spend.settled.value.result == entry.value
  }

  /** A hit was served the outcome of an exchange of the same key, at most the
      time to live old. */
  ghost predicate Served(s: State, hit: Hit) {
    exists i :: 0 <= i < |s.spends| && ServedBy(s.spends[i], hit)
  }

  predicate ServedBy(spend: Spend, hit: Hit) {
    Key(spend.provider, spend.token) == Key(hit.provider, hit.token) && spend.settled.Some?
    && spend.settled.value.result == hit.result && spend.settled.value.step < hit.step
    && spend.settled.value.at <= hit.at <= spend.settled.value.at + RESULT_TTL
  }

  ghost predicate SpendsOk(s: State) {
    (forall i :: 0 <= i < |s.spends| ==>
       s.spends[i].step < s.step && s.spends[i].at <= s.now && Remembered(s, s.spends[i]))
    && (forall i, j :: 0 <= i < |s.spends| && 0 <= j < |s.spends| ==>
          Spaced(s.spends[i], s.spends[j]) && InTime(s.spends[i], s.spends[j]))
  }

  ghost predicate EntriesOk(s: State) {
    (forall key :: key in s.entries ==> s.entries[key].at <= s.now && HasSource(s, key, s.entries[key]))
    && (forall i :: 0 <= i < |s.hits| ==> Served(s, s.hits[i]))
  }

  lemma CheckSpends(s: State, provider: string, token: string)
    requires SpendsOk(s)
    ensures SpendsOk(DoCheck(s, provider, token))
  {
    hide Key;
  }

  lemma SettleSpends(s: State, i: nat, result: RefreshResult, later: nat)
    requires SpendsOk(s) && EntriesOk(s) && DoSettle(s, i, result, later).Some?
    ensures SpendsOk(DoSettle(s, i, result, later).value)
  {
    hide Key, Remembered, Spaced, InTime;
    var t := DoSettle(s, i, result, later).value;
    forall j | 0 <= j < |t.spends|
      ensures Remembered(t, t.spends[j])
    {
      SettleRemembers(s, i, result, later, j);
    }
    forall j, k | 0 <= j < |t.spends| && 0 <= k < |t.spends|
      ensures Spaced(t.spends[j], t.spends[k]) && InTime(t.spends[j], t.spends[k])
    {
      assert Spaced(s.spends[j], s.spends[k]) && InTime(s.spends[j], s.spends[k]);
      SettleSpaces(s, s.spends[j], t.spends[j], s.spends[k], t.spends[k], t.now);
    }
  }

  lemma SettleRemembers(s: State, i: nat, result: RefreshResult, later: nat, j: nat)
    requires EntriesOk(s) && DoSettle(s, i, result, later).Some? && j < |s.spends| && Remembered(s, s.spends[j])
    ensures Remembered(DoSettle(s, i, result, later).value, DoSettle(s, i, result, later).value.spends[j])
  {
    hide Key, HasSource, Served;
  }

  /** An outcome recorded now comes after every step and time so far. */
  lemma SettleSpaces(s: State, first: Spend, first': Spend, second: Spend, second': Spend, now: nat)
    requires Spaced(first, second) && InTime(first, second) && second.step < s.step && second.at <= now
    requires second'.provider == second.provider && second'.token == second.token
    requires second'.step == second.step && second'.at == second.at
    requires first' == first
             || (first'.provider == first.provider && first'.token == first.token && first'.settled.Some?
                 && first'.settled.value.step == s.step && first'.settled.value.at == now)
    ensures Spaced(first', second') && InTime(first', second')
  {
  }

  /** Settled exchanges stay as they are. */
  predicate Grows(s: State, t: State) {
    |s.spends| <= |t.spends|
    && forall i :: 0 <= i < |s.spends| && s.spends[i].settled.Some? ==> t.spends[i] == s.spends[i]
  }

  lemma SourceStays(s: State, t: State, key: string, entry: Entry<RefreshResult>)
    requires Grows(s, t) && HasSource(s, key, entry)
    ensures HasSource(t, key, entry)
  {
    hide Key;
    var i :| 0 <= i < |s.spends| && IsSource(s.spends[i], key, entry);
    assert IsSource(t.spends[i], key, entry);
  }

  lemma ServedStays(s: State, t: State, hit: Hit)
    requires Grows(s, t) && Served(s, hit)
    ensures Served(t, hit)
  {
    hide Key;
    var i :| 0 <= i < |s.spends| && ServedBy(s.spends[i], hit);
    assert ServedBy(t.spends[i], hit);
  }

  lemma EntriesKept(s: State, step: Step, t: State)
    requires SpendsOk(s) && EntriesOk(s) && Next(s, step) == Some(t)
    ensures EntriesOk(t)
  {
    hide Key, HasSource, Served;
    assert Grows(s, t);
    forall key | key in t.entries
      ensures t.entries[key].at <= t.now && HasSource(t, key, t.entries[key])
    {
      if key in s.entries && t.entries[key] == s.entries[key] {
        SourceStays(s, t, key, t.entries[key]);
      } else {
        SettledIsSource(t, step.spend, key);
      }
    }
    forall i | 0 <= i < |t.hits|
      ensures Served(t, t.hits[i])
    {
      if i < |s.hits| {
        ServedStays(s, t, s.hits[i]);
      } else {
        var key := Key(step.provider, step.token);
        HitServed(s, key, t.hits[i]);
        ServedStays(s, t, t.hits[i]);
      }
    }
  }

  lemma SettledIsSource(t: State, i: nat, key: string)
    requires i < |t.spends| && key in t.entries && IsSource(t.spends[i], key, t.entries[key])
    ensures HasSource(t, key, t.entries[key])
  {
  }

  lemma HitServed(s: State, key: string, hit: Hit)
    requires key == Key(hit.provider, hit.token) && key in s.entries && HasSource(s, key, s.entries[key])
    requires SpendsOk(s) && hit.step == s.step
    requires hit.result == s.entries[key].value && s.entries[key].at <= hit.at <= s.entries[key].at + RESULT_TTL
    ensures Served(s, hit)
  {
    hide Key;
    var i :| 0 <= i < |s.spends| && IsSource(s.spends[i], key, s.entries[key]);
    assert Remembered(s, s.spends[i]);
    assert ServedBy(s.spends[i], hit);
  }

  lemma StepKeeps(s: State, step: Step, t: State)
    requires SpendsOk(s) && EntriesOk(s) && Next(s, step) == Some(t)
    ensures SpendsOk(t) && EntriesOk(t)
  {
    hide EntriesOk, Key;
    EntriesKept(s, step, t);
    match step
    case Tick(_) =>
    case Check(provider, token) => CheckSpends(s, provider, token);
    case Settle(i, result, later) => SettleSpends(s, i, result, later);
  }

  lemma {:induction false} RunKeeps(s: State, steps: seq<Step>, t: State)
    requires SpendsOk(s) && EntriesOk(s) && Run(s, steps) == Some(t)
    ensures SpendsOk(t) && EntriesOk(t)
    decreases |steps|
  {
    hide SpendsOk, EntriesOk, Next;
    if steps != [] {
      var next := Next(s, steps[0]).value;
      StepKeeps(s, steps[0], next);
      RunKeeps(next, steps[1..], t);
    }
  }

  // ------------------------------------------------ the main results

  /** In every interleaving, a token is spent within the time to live of an
      outcome, or before it, if and only if the spending request had looked into
      the cache before that outcome was recorded.  So requests that do not
      overlap never spend one token twice in that time. */
  lemma SpentAgainOnlyOverlapping(steps: seq<Step>, s: State, i: nat, j: nat)
    requires Run(INIT, steps) == Some(s) && i < |s.spends| && j < |s.spends|
    requires s.spends[i].provider == s.spends[j].provider && s.spends[i].token == s.spends[j].token
    requires s.spends[i].settled.Some?
    ensures s.spends[j].at <= s.spends[i].settled.value.at + RESULT_TTL <==>
            s.spends[j].step <= s.spends[i].settled.value.step
  {
    RunKeeps(INIT, steps, s);
    assert Spaced(s.spends[i], s.spends[j]) && InTime(s.spends[i], s.spends[j]);
  }

  /** An outcome of this token by this provider, not older than the time to live. */
  predicate Recent(s: State, spend: Spend, provider: string, token: string) {
    spend.provider == provider && spend.token == token && spend.settled.Some?
    && s.now <= spend.settled.value.at + RESULT_TTL
  }

  ghost predicate NoColons(s: State) {
    forall i :: 0 <= i < |s.spends| ==> ':' !in s.spends[i].provider
  }

  /** In every reachable state, a look spends the token if and only if no
      outcome of it was recorded within the time to live. */
  lemma LookSpendsExactly(steps: seq<Step>, s: State, provider: string, token: string)
    requires Run(INIT, steps) == Some(s) && ':' !in provider && NoColons(s)
    ensures |DoCheck(s, provider, token).spends| > |s.spends|
            <==> forall i :: 0 <= i < |s.spends| ==> !Recent(s, s.spends[i], provider, token)
  {
    hide Key, Run;
    RunKeeps(INIT, steps, s);
    var key := Key(provider, token);
    if key in s.entries && IsFresh(s.entries[key], s.now, RESULT_TTL) {
      assert HasSource(s, key, s.entries[key]);
      var i :| 0 <= i < |s.spends| && IsSource(s.spends[i], key, s.entries[key]);
      KeyTells(s.spends[i].provider, s.spends[i].token, provider, token);
      assert Recent(s, s.spends[i], provider, token);
    } else {
      forall i | 0 <= i < |s.spends|
        ensures !Recent(s, s.spends[i], provider, token)
      {
        assert Remembered(s, s.spends[i]);
      }
    }
  }

  /** What the cache serves is the outcome of an exchange of the very token, by
      the very provider, recorded before the look and at most the time to live
      old. */
  lemma HitIsOwn(steps: seq<Step>, s: State, h: nat) returns (i: nat)
    requires Run(INIT, steps) == Some(s) && h < |s.hits|
    requires ':' !in s.hits[h].provider && NoColons(s)
    ensures i < |s.spends| && s.spends[i].provider == s.hits[h].provider && s.spends[i].token == s.hits[h].token
    ensures s.spends[i].settled.Some? && s.spends[i].settled.value.result == s.hits[h].result
    ensures s.spends[i].settled.value.step < s.hits[h].step
    ensures s.spends[i].settled.value.at <= s.hits[h].at <= s.spends[i].settled.value.at + RESULT_TTL
  {
    hide Key, Run;
    RunKeeps(INIT, steps, s);
    assert Served(s, s.hits[h]);
    i :| 0 <= i < |s.spends| && ServedBy(s.spends[i], s.hits[h]);
    KeyTells(s.spends[i].provider, s.spends[i].token, s.hits[h].provider, s.hits[h].token);
  }

  /** Two requests that both look before either has an outcome both spend the
      token: the look and the spend are not one step. */
  lemma BothSpend(provider: string, token: string, a: RefreshResult, b: RefreshResult)
    ensures var end := Run(INIT, [Check(provider, token), Check(provider, token), Settle(0, a, 0), Settle(1, b, 0)]);
            end.Some? && |end.value.spends| == 2 && end.value.hits == []
            && end.value.spends[0].at == end.value.spends[1].at
            && end.value.spends[0].settled.Some? && end.value.spends[1].settled.Some?
  {
    var check := Check(provider, token);
    var s1 := DoCheck(INIT, provider, token);
    var s2 := DoCheck(s1, provider, token);
    var s3 := DoSettle(s2, 0, a, 0).value;
    assert Next(INIT, check) == Some(s1) && Next(s1, check) == Some(s2);
    assert s2.spends == [Spend(provider, token, 0, 0, None), Spend(provider, token, 1, 0, None)];
    assert s3.spends == [Spend(provider, token, 0, 0, Some(Settled(2, 0, a))), Spend(provider, token, 1, 0, None)];
    var s4 := DoSettle(s3, 1, b, 0).value;
    assert Next(s2, Settle(0, a, 0)) == Some(s3) && Next(s3, Settle(1, b, 0)) == Some(s4);
    assert s4.spends[0] == s3.spends[0];
    RunCons(s3, Settle(1, b, 0), s4, []);
    RunCons(s2, Settle(0, a, 0), s3, [Settle(1, b, 0)]);
    RunCons(s1, check, s2, [Settle(0, a, 0), Settle(1, b, 0)]);
    RunCons(INIT, check, s1, [check, Settle(0, a, 0), Settle(1, b, 0)]);
  }

  lemma RunCons(s: State, step: Step, t: State, rest: seq<Step>)
    requires Next(s, step) == Some(t)
    ensures Run(s, [step] + rest) == Run(t, rest)
  {
    hide Next;
    assert ([step] + rest)[1..] == rest;
  }
}
