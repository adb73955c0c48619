/** Dispatch of one provider call: walk the fallback URLs in order, repeating a
    send on the same URL while the retry policy still allows it.  One counter
    per URL is shared by every status that URL answers with.  The upstream is
    arbitrary: it may answer the n-th send with anything. */
module RetryLoop {
  import opened Options

  // ------------------------------------------------ data

  datatype RetryEntry = Attempts(count: nat) | Detailed(count: nat, delayMs: Option<nat>)

  /** What the registry says of a provider.  `url` is the endpoint chosen for
      an index, if one can be built; `advancing` holds the statuses besides 429
      that send this provider to its next endpoint. */
  datatype Provider = Provider(retry: map<nat, RetryEntry>, advancing: set<nat>, urlCount: nat,
                               url: nat -> Option<string>)

  datatype Reply = Response(status: nat) | NetworkFailure(timeout: bool)

  datatype Error = NoEndpoint | Transport | Timeout

  datatype Outcome = Answered(url: string, status: nat) | Failed(error: Error)

  /** One request that went out, the reply, and the pause before it is repeated
      on the same URL, if it is. */
  datatype Send = Send(url: nat, reply: Reply, pause: Option<nat>)

  const DEFAULT_DELAY: nat := 2000

  function DefaultRetry(status: nat): Option<(nat, nat)> {
    match status
    case 429 => Some((0, 0))
    case 502 => Some((3, 3000))
    case 503 => Some((3, 2000))
    case 504 => Some((2, 3000))
    case _ => None
  }

  /** Attempts and delay for a status: the provider's own entry before the defaults. */
  function ResolveRetryEntry(p: Provider, status: nat): Option<(nat, nat)> {
    if status in p.retry then
      match p.retry[status]
      case Attempts(count) => Some((count, DEFAULT_DELAY))
      case Detailed(count, None) => Some((count, DEFAULT_DELAY))
      case Detailed(count, Some(delay)) => Some((count, delay))
    else DefaultRetry(status)
  }

  function FallbackCount(p: Provider): nat {
    if p.urlCount > 0 then p.urlCount else 1
  }

  // ------------------------------------------------ what a run must look like

  /** The status whose policy a reply falls under. */
  function PolicyStatus(reply: Reply): nat {
    if reply.Response? then reply.status else 502
  }

  /** How often a reply may be repeated, and after what pause. */
  function Allowed(p: Provider, reply: Reply): nat {
    var entry := ResolveRetryEntry(p, PolicyStatus(reply));
    if entry.Some? then entry.value.0 else 0
  }

  function Pause(p: Provider, reply: Reply): nat {
    var entry := ResolveRetryEntry(p, PolicyStatus(reply));
    if entry.Some? then entry.value.1 else 0
  }

  /** Sends that went to a URL. */
  function Count(sends: seq<Send>, url: nat): nat {
    if sends == [] then 0
    else Count(sends[..|sends| - 1], url) + (if sends[|sends| - 1].url == url then 1 else 0)
  }

  /** How many sends went to the same URL before this one. */
  function Turn(sends: seq<Send>, k: nat): nat
    requires k < |sends|
  {
    Count(sends[..k], sends[k].url)
  }

  /** The k-th send is repeated: its reply allows more repeats than the sends
      this URL had before it. */
  predicate Repeated(p: Provider, sends: seq<Send>, k: nat)
    requires k < |sends|
  {
    Turn(sends, k) < Allowed(p, sends[k].reply)
  }

  /** A reply that lets the call go on to another URL, when there is one. */
  predicate Passes(p: Provider, reply: Reply) {
    reply.NetworkFailure? || reply.status == 429 || reply.status in p.advancing
  }

  predicate MovesOn(p: Provider, send: Send) {
    Passes(p, send.reply) && send.url + 1 < FallbackCount(p)
  }

  /** Every send is the one its predecessor calls for. */
  ghost predicate Lawful(p: Provider, replies: nat -> Reply, sends: seq<Send>) {
    (sends != [] ==> sends[0].url == 0) && Replied(p, replies, sends) && Paused(p, sends) && Ordered(p, sends)
  }

  /** Each send has an endpoint and the upstream's reply. */
  ghost predicate Replied(p: Provider, replies: nat -> Reply, sends: seq<Send>) {
    forall k :: 0 <= k < |sends| ==> sends[k].reply == replies(k) && p.url(sends[k].url).Some?
  }

  predicate Paused(p: Provider, sends: seq<Send>) {
    forall k :: 0 <= k < |sends| ==>
      sends[k].pause == if Repeated(p, sends, k) then Some(Pause(p, sends[k].reply)) else None
  }

  predicate Ordered(p: Provider, sends: seq<Send>) {
    forall k :: 0 <= k < |sends| - 1 ==> Follows(p, sends, k)
  }

  predicate Follows(p: Provider, sends: seq<Send>, k: nat)
    requires k + 1 < |sends|
  {
    if Repeated(p, sends, k) then sends[k + 1].url == sends[k].url
    else MovesOn(p, sends[k]) && sends[k + 1].url == sends[k].url + 1
  }

  /** The URL that the sends so far call for, unless the call is over. */
  function Wanted(p: Provider, sends: seq<Send>): Option<nat> {
    if sends == [] then Some(0)
    else
      var last := |sends| - 1;
      if Repeated(p, sends, last) then Some(sends[last].url)
      else if MovesOn(p, sends[last]) then Some(sends[last].url + 1)
      else None
  }

  function Failure(reply: Reply): Error
    requires reply.NetworkFailure?
  {
    if reply.timeout then Timeout else Transport
  }

  /** How the call ends, once no further send is called for or possible. */
  ghost predicate Ends(p: Provider, sends: seq<Send>, outcome: Outcome) {
    match Wanted(p, sends)
    case Some(url) => p.url(url).None? && outcome == Failed(NoEndpoint)
    case None =>
      var last := sends[|sends| - 1];
      if last.reply.NetworkFailure? then outcome == Failed(Failure(last.reply))
      else p.url(last.url).Some? && outcome == Answered(p.url(last.url).value, last.reply.status)
  }

  ghost predicate Explains(p: Provider, replies: nat -> Reply, sends: seq<Send>, outcome: Outcome) {
    Lawful(p, replies, sends) && Ends(p, sends, outcome)
  }

  /** What the policy of a status says of a send: repeated while the URL had
      fewer sends before it than the attempts, after this pause. */
  predicate RepeatedWhile(pause: Option<nat>, turn: nat, attempts: nat, delay: nat) {
    pause == if turn < attempts then Some(delay) else None
  }

  /** A status with an entry of the provider's follows that entry, whatever the
      defaults are; another follows the defaults: three repeats of a 502 after
      3000, three of a 503 after 2000, two of a 504 after 3000, none else.  A
      network failure follows 502. */
  lemma PolicyFollowed(p: Provider, replies: nat -> Reply, sends: seq<Send>, k: nat)
    requires Lawful(p, replies, sends) && k < |sends|
    ensures var status := if sends[k].reply.Response? then sends[k].reply.status else 502;
            var pause, turn := sends[k].pause, Turn(sends, k);
            if status in p.retry then
              (match p.retry[status]
               case Attempts(count) => RepeatedWhile(pause, turn, count, 2000)
               case Detailed(count, None) => RepeatedWhile(pause, turn, count, 2000)
               case Detailed(count, Some(delay)) => RepeatedWhile(pause, turn, count, delay))
            else if status == 502 then RepeatedWhile(pause, turn, 3, 3000)
            else if status == 503 then RepeatedWhile(pause, turn, 3, 2000)
            else if status == 504 then RepeatedWhile(pause, turn, 2, 3000)
            else pause.None?
  {
    hide Turn, Ordered, Replied;
  }

  /** The reasons to go on to the next URL: no reply, a 429, or a status the
      provider advances on. */
  predicate Advances(p: Provider, reply: Reply) {
    match reply
    case NetworkFailure(_) => true
    case Response(status) => status == 429 || status in p.advancing
  }

  /** A send with a pause is made again; one without is followed by a send to
      the next URL, for one of the reasons. */
  lemma WentOn(p: Provider, replies: nat -> Reply, sends: seq<Send>, k: nat)
    requires Lawful(p, replies, sends) && k + 1 < |sends|
    ensures sends[k].pause.Some? ==> sends[k + 1].url == sends[k].url
    ensures sends[k].pause.None? ==> sends[k + 1].url == sends[k].url + 1 && Advances(p, sends[k].reply)
  {
    hide Turn, Pause, Allowed, Replied, FallbackCount;
    assert Follows(p, sends, k);
  }

  /** The last send is not repeated, and there is no reason or no URL to go on to. */
  predicate Final(p: Provider, send: Send) {
    send.pause.None? && (Advances(p, send.reply) ==> send.url + 1 >= p.urlCount)
  }

  /** A call ends with its last reply, once nothing further is called for, or
      with the URL called for that has no endpoint. */
  lemma EndedBy(p: Provider, replies: nat -> Reply, sends: seq<Send>, outcome: Outcome)
    requires Explains(p, replies, sends, outcome)
    ensures match outcome
            case Answered(url, status) =>
              sends != []
              && var last := sends[|sends| - 1];
              Final(p, last) && last.reply == Response(status) && p.url(last.url) == Some(url)
            case Failed(Timeout) =>
              sends != [] && Final(p, sends[|sends| - 1]) && sends[|sends| - 1].reply == NetworkFailure(true)
            case Failed(Transport) =>
              sends != [] && Final(p, sends[|sends| - 1]) && sends[|sends| - 1].reply == NetworkFailure(false)
            case Failed(NoEndpoint) =>
              if sends == [] then p.url(0).None?
              else
                var last := sends[|sends| - 1];
                if last.pause.Some? then p.url(last.url).None?
                else Advances(p, last.reply) && last.url + 1 < p.urlCount && p.url(last.url + 1).None?
  {
    hide Turn, Pause, Allowed;
  }

  // ------------------------------------------------ the largest number of attempts

  ghost predicate AtMost(p: Provider, m: nat) {
    forall status :: EntryCount(ResolveRetryEntry(p, status)) <= m
  }

  function EntryCount(entry: Option<(nat, nat)>): nat {
    if entry.Some? then entry.value.0 else 0
  }

  lemma {:induction false} TableBound(retry: map<nat, RetryEntry>) returns (m: nat)
    ensures forall status :: status in retry ==> retry[status].count <= m
    decreases |retry|
  {
    if retry == map[] {
      m := 0;
    } else {
      var status :| status in retry;
      var rest := retry - {status};
      assert |rest| < |retry| by {
        assert rest.Keys == retry.Keys - {status} && |rest.Keys| == |rest| && |retry.Keys| == |retry|;
      }
      m := TableBound(rest);
      m := if m < retry[status].count then retry[status].count else m;
      forall other | other in retry ensures retry[other].count <= m {
        assert other != status ==> other in rest;
      }
    }
  }

  /** Every provider has a largest number of attempts. */
  lemma BoundExists(p: Provider)
    ensures exists m: nat :: AtMost(p, m)
  {
    var m := TableBound(p.retry);
    assert AtMost(p, m + 3);
  }

  // ------------------------------------------------ the loop

  /** The delay before repeating a send on this URL, counting the repeat. */
  method RetryDelay(p: Provider, status: nat, url: nat, attempts: map<nat, nat>)
    returns (delay: Option<nat>, after: map<nat, nat>)
    ensures var used := if url in attempts then attempts[url] else 0;
            var entry := ResolveRetryEntry(p, status);
            if used < EntryCount(entry)
            then delay == Some(entry.value.1) && after == attempts[url := used + 1]
            else delay.None? && (after == attempts || after == attempts[url := used])
  {
    after := attempts;
    var entry := ResolveRetryEntry(p, status);
    if entry.None? || entry.value.0 == 0 {
      return None, after;
    }
    if url !in after {
      after := after[url := 0];
    }
    if after[url] >= entry.value.0 {
      return None, after;
    }
    after := after[url := after[url] + 1];
    return Some(entry.value.1), after;
  }

  /** The loop's state: sends so far, the URL they call for, its counter. */
  ghost predicate Underway(p: Provider, replies: nat -> Reply, sends: seq<Send>, url: nat, attempts: map<nat, nat>) {
    && Lawful(p, replies, sends)
    && Wanted(p, sends) == Some(url) && url < FallbackCount(p)
    && (if url in attempts then attempts[url] else 0) == Count(sends, url)
    && (forall later :: later > url ==> later !in attempts)
    && (forall k :: 0 <= k < |sends| ==> sends[k].url <= url)
  }

  method Execute(p: Provider, replies: nat -> Reply) returns (outcome: Outcome, sends: seq<Send>)
    ensures Explains(p, replies, sends, outcome)
  {
    hide Lawful, Ends, Turn, Count, Repeated, Follows, ResolveRetryEntry, FallbackCount, AtMost, Wanted;
    BoundExists(p);
    ghost var m: nat :| AtMost(p, m);
    var total := FallbackCount(p);
    var attempts: map<nat, nat>, lastError: Option<Error>, url := map[], None, 0;
    sends := [];
    Outset(p, replies);
    while url < total
      invariant Underway(p, replies, sends, url, attempts)
      invariant Count(sends, url) <= m
      decreases total - url, m - Count(sends, url)
    {
      if p.url(url).None? {
        NoneLeft(p, sends, url);
        return Failed(NoEndpoint), sends;
      }
      var reply := replies(|sends|);
      var delay, after := RetryDelay(p, PolicyStatus(reply), url, attempts);
      ghost var before := sends;
      sends := sends + [Send(url, reply, delay)];
      Extend(p, replies, before, url, attempts, delay, after, m);
      attempts := after;
      if reply.Response? {
        if delay.Some? {
          continue;
        }
        if (reply.status == 429 || reply.status in p.advancing) && url + 1 < total {
          url := url + 1;
          continue;
        }
        return Answered(p.url(url).value, reply.status), sends;
      } else {
        var failure := Failure(reply);
        if delay.Some? {
          lastError := Some(failure);
          continue;
        }
        if url + 1 < total {
          lastError, url := Some(failure), url + 1;
          continue;
        }
        return Failed(failure), sends;
      }
    }
    // The guard never lets the loop out, so no call ends here.
    assert false;
    outcome := Failed(match lastError case Some(error) => error case None => NoEndpoint);
  }

  lemma Outset(p: Provider, replies: nat -> Reply)
    ensures Underway(p, replies, [], 0, map[])
  {
  }

  lemma NoneLeft(p: Provider, sends: seq<Send>, url: nat)
    requires Wanted(p, sends) == Some(url) && p.url(url).None?
    ensures Ends(p, sends, Failed(NoEndpoint))
  {
  }

  lemma CountLast(sends: seq<Send>, send: Send, url: nat)
    ensures Count(sends + [send], url) == Count(sends, url) + (if send.url == url then 1 else 0)
  {
    assert (sends + [send])[..|sends|] == sends;
  }

  lemma {:induction false} CountNone(sends: seq<Send>, url: nat)
    requires forall k :: 0 <= k < |sends| ==> sends[k].url < url
    ensures Count(sends, url) == 0
  {
    if sends != [] {
      CountNone(sends[..|sends| - 1], url);
    }
  }

  /** A later send changes nothing about the earlier ones. */
  lemma Prefix(p: Provider, sends: seq<Send>, send: Send, k: nat)
    requires k < |sends|
    ensures Repeated(p, sends + [send], k) == Repeated(p, sends, k)
    ensures k + 1 < |sends| ==> Follows(p, sends + [send], k) == Follows(p, sends, k)
  {
    assert (sends + [send])[..k] == sends[..k];
  }

  lemma LastRepeated(p: Provider, sends: seq<Send>, send: Send)
    ensures Repeated(p, sends + [send], |sends|) <==> Count(sends, send.url) < Allowed(p, send.reply)
  {
    assert (sends + [send])[..|sends|] == sends;
  }

  /** One more send keeps the law, and says what is called for next. */
  lemma LawfulNext(p: Provider, replies: nat -> Reply, sends: seq<Send>, send: Send)
    requires Lawful(p, replies, sends) && Wanted(p, sends) == Some(send.url)
    requires send.reply == replies(|sends|) && p.url(send.url).Some?
    requires send.pause == if Count(sends, send.url) < Allowed(p, send.reply) then Some(Pause(p, send.reply)) else None
    ensures Lawful(p, replies, sends + [send])
    ensures Repeated(p, sends + [send], |sends|) <==> Count(sends, send.url) < Allowed(p, send.reply)
  {
    hide Replied, Paused, Ordered, Wanted, Repeated, Allowed, Pause, Count;
    LastRepeated(p, sends, send);
    RepliedNext(p, replies, sends, send);
    PausedNext(p, sends, send);
    OrderedNext(p, sends, send);
    assert sends == [] ==> send.url == 0 by { WantedFirst(p, sends); }
  }

  lemma WantedFirst(p: Provider, sends: seq<Send>)
    ensures sends == [] ==> Wanted(p, sends) == Some(0)
  {
  }

  lemma RepliedNext(p: Provider, replies: nat -> Reply, sends: seq<Send>, send: Send)
    requires Replied(p, replies, sends) && send.reply == replies(|sends|) && p.url(send.url).Some?
    ensures Replied(p, replies, sends + [send])
  {
  }

  lemma PausedNext(p: Provider, sends: seq<Send>, send: Send)
    requires Paused(p, sends)
    requires send.pause == if Repeated(p, sends + [send], |sends|) then Some(Pause(p, send.reply)) else None
    ensures Paused(p, sends + [send])
  {
    hide Repeated, Pause;
    var longer := sends + [send];
    forall k | 0 <= k < |longer|
      ensures longer[k].pause == if Repeated(p, longer, k) then Some(Pause(p, longer[k].reply)) else None
    {
      if k < |sends| {
        Prefix(p, sends, send, k);
      }
    }
  }

  lemma OrderedNext(p: Provider, sends: seq<Send>, send: Send)
    requires Ordered(p, sends) && Wanted(p, sends) == Some(send.url)
    ensures Ordered(p, sends + [send])
  {
    hide Follows;
    var longer := sends + [send];
    forall k | 0 <= k < |sends|
      ensures Follows(p, longer, k)
    {
      if k + 1 < |sends| {
        Prefix(p, sends, send, k);
      } else {
        WantedFollows(p, sends, send);
      }
    }
  }

  lemma WantedFollows(p: Provider, sends: seq<Send>, send: Send)
    requires sends != [] && Wanted(p, sends) == Some(send.url)
    ensures Follows(p, sends + [send], |sends| - 1)
  {
    hide Repeated, Passes, FallbackCount;
    Prefix(p, sends, send, |sends| - 1);
  }

  lemma Extend(p: Provider, replies: nat -> Reply, sends: seq<Send>, url: nat, attempts: map<nat, nat>,
               delay: Option<nat>, after: map<nat, nat>, m: nat)
    requires Underway(p, replies, sends, url, attempts) && p.url(url).Some? && AtMost(p, m)
    requires var used := if url in attempts then attempts[url] else 0;
             var entry := ResolveRetryEntry(p, PolicyStatus(replies(|sends|)));
             if used < EntryCount(entry)
             then delay == Some(entry.value.1) && after == attempts[url := used + 1]
             else delay.None? && (after == attempts || after == attempts[url := used])
    ensures var reply := replies(|sends|);
            var longer := sends + [Send(url, reply, delay)];
            && Count(longer, url) == Count(sends, url) + 1
            && (delay.Some? ==> Underway(p, replies, longer, url, after) && Count(longer, url) <= m)
            && (delay.None? && MovesOn(p, Send(url, reply, delay)) ==>
                  Underway(p, replies, longer, url + 1, after) && Count(longer, url + 1) == 0)
            && (delay.None? && !MovesOn(p, Send(url, reply, delay)) ==>
                  Lawful(p, replies, longer) && Wanted(p, longer).None?
                  && (reply.NetworkFailure? ==> Ends(p, longer, Failed(Failure(reply))))
                  && (reply.Response? ==> Ends(p, longer, Answered(p.url(url).value, reply.status))))
  {
    hide Lawful, Count, ResolveRetryEntry, FallbackCount, Turn, Repeated;
    var reply := replies(|sends|);
    var send := Send(url, reply, delay);
    var longer := sends + [send];
    assert EntryCount(ResolveRetryEntry(p, PolicyStatus(reply))) <= m;
    LawfulNext(p, replies, sends, send);
    CountLast(sends, send, url);
    if delay.None? && MovesOn(p, send) {
      CountNone(longer, url + 1);
    }
  }

  // ------------------------------------------------ what holds of every run

  /** Any send of a lawful run is the one the sends before it call for. */
  lemma Called(p: Provider, replies: nat -> Reply, sends: seq<Send>, n: nat)
    requires Lawful(p, replies, sends) && n < |sends|
    ensures Wanted(p, sends[..n]) == Some(sends[n].url) && p.url(sends[n].url).Some?
    ensures sends[n] == Send(sends[n].url, replies(n),
                             if Count(sends[..n], sends[n].url) < Allowed(p, replies(n))
                             then Some(Pause(p, replies(n))) else None)
  {
    hide Count, Allowed, Pause, Passes, FallbackCount;
    if n > 0 {
      assert Follows(p, sends, n - 1);
      assert sends[..n][..n - 1] == sends[..n - 1];
    }
  }

  lemma {:induction false} SamePrefix(p: Provider, replies: nat -> Reply, a: seq<Send>, b: seq<Send>, n: nat)
    requires Lawful(p, replies, a) && Lawful(p, replies, b) && n <= |a| && n <= |b|
    ensures a[..n] == b[..n]
  {
    hide Lawful, Wanted, Count, Allowed, Pause;
    if n > 0 {
      SamePrefix(p, replies, a, b, n - 1);
      Called(p, replies, a, n - 1);
      Called(p, replies, b, n - 1);
      assert a[..n] == a[..n - 1] + [a[n - 1]] && b[..n] == b[..n - 1] + [b[n - 1]];
    }
  }

  /** A run that has ended is not the beginning of a longer one. */
  lemma NoLonger(p: Provider, replies: nat -> Reply, a: seq<Send>, x: Outcome, b: seq<Send>)
    requires Explains(p, replies, a, x) && Lawful(p, replies, b)
    ensures |b| <= |a|
  {
    assert a[..|a|] == a;
    if |a| < |b| {
      SamePrefix(p, replies, a, b, |a|);
      Called(p, replies, b, |a|);
    }
  }

  /** The upstream's replies and the policy decide the sends and the outcome. */
  lemma OnlyOneRun(p: Provider, replies: nat -> Reply, a: seq<Send>, x: Outcome, b: seq<Send>, y: Outcome)
    requires Explains(p, replies, a, x) && Explains(p, replies, b, y)
    ensures a == b && x == y
  {
    NoLonger(p, replies, a, x, b);
    NoLonger(p, replies, b, y, a);
    SamePrefix(p, replies, a, b, |a|);
    assert a[..|a|] == a && b[..|b|] == b;
  }

  predicate Visited(sends: seq<Send>, url: nat) {
    exists j :: 0 <= j < |sends| && sends[j].url == url
  }

  /** URL indices start at 0 and go up one at a time, so none is come back to,
      and all are below the number of URLs. */
  lemma {:induction false} UrlsInOrder(p: Provider, replies: nat -> Reply, sends: seq<Send>, k: nat)
    requires Lawful(p, replies, sends) && k < |sends|
    ensures sends[k].url < FallbackCount(p)
    ensures k == 0 ==> sends[k].url == 0
    ensures k > 0 ==> sends[k].url == sends[k - 1].url || sends[k].url == sends[k - 1].url + 1
    ensures forall j :: 0 <= j < k ==> sends[j].url <= sends[k].url
  {
    hide Repeated, Count, Passes;
    if k > 0 {
      UrlsInOrder(p, replies, sends, k - 1);
      assert Follows(p, sends, k - 1);
    }
  }

  lemma {:induction false} NoneSkipped(p: Provider, replies: nat -> Reply, sends: seq<Send>, k: nat, url: nat)
    requires Lawful(p, replies, sends) && k < |sends| && url <= sends[k].url
    ensures Visited(sends, url)
  {
    hide Lawful;
    UrlsInOrder(p, replies, sends, k);
    if url < sends[k].url {
      NoneSkipped(p, replies, sends, k - 1, url);
    }
  }

  /** A URL is left for the next one only on a reply that passes the call on
      and with as many sends there as that reply allows repeats, plus one. */
  lemma LeftOnlyWhenSpent(p: Provider, replies: nat -> Reply, sends: seq<Send>, k: nat)
    requires Lawful(p, replies, sends) && k + 1 < |sends| && sends[k + 1].url != sends[k].url
    ensures Passes(p, sends[k].reply)
    ensures Count(sends, sends[k].url) == Turn(sends, k) + 1
    ensures Count(sends, sends[k].url) >= Allowed(p, sends[k].reply) + 1
  {
    assert Follows(p, sends, k);
    assert sends[..k + 1][..k] == sends[..k];
    forall j | k < j < |sends| ensures sends[j].url > sends[k].url {
      UrlsInOrder(p, replies, sends, j);
    }
    CountPrefix(sends, k + 1, sends[k].url);
  }

  lemma {:induction false} CountPrefix(sends: seq<Send>, n: nat, url: nat)
    requires n <= |sends| && forall j :: n <= j < |sends| ==> sends[j].url != url
    ensures Count(sends, url) == Count(sends[..n], url)
    decreases |sends|
  {
    if n == |sends| {
      assert sends[..n] == sends;
    } else {
      var shorter := sends[..|sends| - 1];
      CountPrefix(shorter, n, url);
      assert shorter[..n] == sends[..n];
    }
  }

  /** The turn of a send follows from the one before it. */
  lemma TurnNext(p: Provider, replies: nat -> Reply, sends: seq<Send>, k: nat)
    requires Lawful(p, replies, sends) && k + 1 < |sends|
    ensures Turn(sends, k + 1) == if Repeated(p, sends, k) then Turn(sends, k) + 1 else 0
  {
    assert Follows(p, sends, k);
    assert sends[..k + 1][..k] == sends[..k];
    if !Repeated(p, sends, k) {
      forall j | 0 <= j <= k ensures sends[j].url < sends[k + 1].url {
        UrlsInOrder(p, replies, sends, k);
      }
      CountNone(sends[..k + 1], sends[k + 1].url);
    }
  }

  lemma AllowedAtMost(p: Provider, m: nat, reply: Reply)
    requires AtMost(p, m)
    ensures Allowed(p, reply) <= m
  {
    assert EntryCount(ResolveRetryEntry(p, PolicyStatus(reply))) <= m;
  }

  lemma {:induction false} Placed(p: Provider, replies: nat -> Reply, sends: seq<Send>, m: nat, k: nat)
    requires Lawful(p, replies, sends) && AtMost(p, m) && k < |sends|
    ensures Turn(sends, k) <= m && k <= sends[k].url * (1 + m) + Turn(sends, k)
  {
    hide Turn, Allowed, AtMost, Count, Passes, FallbackCount;
    if k == 0 {
      assert Turn(sends, 0) == 0 by { FirstTurn(sends); }
    } else {
      Placed(p, replies, sends, m, k - 1);
      TurnNext(p, replies, sends, k - 1);
      AllowedAtMost(p, m, sends[k - 1].reply);
      assert Follows(p, sends, k - 1);
      if !Repeated(p, sends, k - 1) {
        assert sends[k].url * (1 + m) == sends[k - 1].url * (1 + m) + (1 + m);
      }
    }
  }

  lemma FirstTurn(sends: seq<Send>)
    requires sends != []
    ensures Turn(sends, 0) == 0
  {
  }

  /** No URL is sent to more than once plus the largest number of attempts, and
      the whole call sends at most that often for each URL. */
  lemma SendsBounded(p: Provider, replies: nat -> Reply, sends: seq<Send>, m: nat)
    requires Lawful(p, replies, sends) && AtMost(p, m)
    ensures |sends| <= FallbackCount(p) * (1 + m)
    ensures forall k :: 0 <= k < |sends| ==> Turn(sends, k) <= m
  {
    hide Lawful, AtMost, Turn;
    forall k | 0 <= k < |sends| ensures Turn(sends, k) <= m {
      Placed(p, replies, sends, m, k);
    }
    if sends != [] {
      var last := |sends| - 1;
      Placed(p, replies, sends, m, last);
      UrlsInOrder(p, replies, sends, last);
      Scaled(sends[last].url + 1, FallbackCount(p), 1 + m);
      assert (sends[last].url + 1) * (1 + m) == sends[last].url * (1 + m) + (1 + m);
    }
  }

  lemma Scaled(a: nat, b: nat, c: nat)
    requires a <= b
    ensures a * c <= b * c
  {
  }

  // The bound is reached: an upstream that always answers alike.

  ghost predicate Always(replies: nat -> Reply, reply: Reply) {
    forall n: nat :: replies(n) == reply
  }

  lemma {:induction false} PlacedExactly(p: Provider, replies: nat -> Reply, sends: seq<Send>, reply: Reply, k: nat)
    requires Lawful(p, replies, sends) && Always(replies, reply) && k < |sends|
    ensures var a := Allowed(p, reply); Turn(sends, k) <= a && k == sends[k].url * (1 + a) + Turn(sends, k)
  {
    hide Turn, Allowed, Count, Passes, FallbackCount;
    var a := Allowed(p, reply);
    if k == 0 {
      FirstTurn(sends);
    } else {
      PlacedExactly(p, replies, sends, reply, k - 1);
      TurnNext(p, replies, sends, k - 1);
      assert replies(k - 1) == reply && sends[k - 1].reply == reply;
      assert Follows(p, sends, k - 1);
      if !Repeated(p, sends, k - 1) {
        assert sends[k].url * (1 + a) == sends[k - 1].url * (1 + a) + (1 + a);
      }
    }
  }

  /** Against an upstream that always gives the same reply, each URL gets one
      send plus every repeat the policy allows: on all URLs when the reply
      passes the call on, on the first alone when it does not. */
  lemma SameReplyAlways(p: Provider, replies: nat -> Reply, reply: Reply, sends: seq<Send>, outcome: Outcome)
    requires Explains(p, replies, sends, outcome) && Always(replies, reply)
    requires forall url :: 0 <= url < FallbackCount(p) ==> p.url(url).Some?
    ensures |sends| == (if Passes(p, reply) then FallbackCount(p) else 1) * (1 + Allowed(p, reply))
    ensures outcome == if reply.NetworkFailure? then Failed(Failure(reply))
                       else Answered(p.url(if Passes(p, reply) then FallbackCount(p) - 1 else 0).value, reply.status)
  {
    hide Lawful, Turn, Allowed, Count, Passes, FallbackCount, Always;
    EndReached(p, replies, reply, sends, outcome);
    var last := |sends| - 1;
    PlacedExactly(p, replies, sends, reply, last);
    LastIs(p, replies, reply, sends, last);
    UrlsInOrder(p, replies, sends, last);
    assert (sends[last].url + 1) * (1 + Allowed(p, reply))
        == sends[last].url * (1 + Allowed(p, reply)) + (1 + Allowed(p, reply));
    if !Passes(p, reply) {
      OnFirst(p, replies, sends, reply, last);
    }
  }

  lemma LastIs(p: Provider, replies: nat -> Reply, reply: Reply, sends: seq<Send>, k: nat)
    requires Lawful(p, replies, sends) && Always(replies, reply) && k < |sends|
    ensures sends[k].reply == reply
  {
    assert replies(k) == reply;
  }

  /** With an endpoint for every URL, a call ends by its last reply only. */
  lemma EndReached(p: Provider, replies: nat -> Reply, reply: Reply, sends: seq<Send>, outcome: Outcome)
    requires Explains(p, replies, sends, outcome)
    requires forall url :: 0 <= url < FallbackCount(p) ==> p.url(url).Some?
    ensures sends != [] && Wanted(p, sends).None?
  {
    hide Lawful, Turn, Allowed, Count, Passes, FallbackCount;
    SomeUrl(p);
    if sends != [] {
      UrlsInOrder(p, replies, sends, |sends| - 1);
    }
  }

  lemma SomeUrl(p: Provider)
    ensures FallbackCount(p) >= 1
  {
  }

  lemma {:induction false} OnFirst(p: Provider, replies: nat -> Reply, sends: seq<Send>, reply: Reply, k: nat)
    requires Lawful(p, replies, sends) && Always(replies, reply) && !Passes(p, reply) && k < |sends|
    ensures sends[k].url == 0
  {
    if k > 0 {
      OnFirst(p, replies, sends, reply, k - 1);
      assert replies(k - 1) == reply && Follows(p, sends, k - 1);
    }
  }

  /** A successful answer is never sent again: statuses outside the policy end
      the call at once, with the reply passed through. */
  lemma NoPolicyNoRepeat(p: Provider, replies: nat -> Reply, sends: seq<Send>, outcome: Outcome, k: nat)
    requires Explains(p, replies, sends, outcome) && k < |sends|
    requires sends[k].reply.Response? && Allowed(p, sends[k].reply) == 0 && !Passes(p, sends[k].reply)
    ensures k == |sends| - 1
    ensures p.url(sends[k].url).Some? && outcome == Answered(p.url(sends[k].url).value, sends[k].reply.status)
  {
    hide Turn, Allowed, Count, Passes, FallbackCount;
    assert k + 1 < |sends| ==> Follows(p, sends, k);
  }
}
