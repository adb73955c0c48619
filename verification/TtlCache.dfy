/** The two caches with a time to live: refresh results by provider and token,
    and probe results by connection.  Each answers exactly as the whole history
    of what was put into it does, whatever it has removed on the way.  Times are
    readings of one monotone clock, in nanoseconds. */
module TtlCache {
  import opened Options

  datatype Result<T, E> = Ok(value: T) | Err(error: E)

  datatype Entry<V> = Entry(at: nat, value: V)

  // ------------------------------------------------ the history

  datatype Event<V> = Put(key: string, at: nat, value: V) | Forget(key: string)

  /** The last thing put under a key and not forgotten since. */
  function Latest<V>(history: seq<Event<V>>, key: string): Option<Entry<V>> {
    if history == [] then None
    else
      var last := history[|history| - 1];
      if last.key != key then Latest(history[..|history| - 1], key)
      else if last.Put? then Some(Entry(last.at, last.value))
      else None
  }

  /** What the history says at a time. */
  function Answer<V>(history: seq<Event<V>>, key: string, now: nat, ttl: nat): Option<V> {
    var latest := Latest(history, key);
    if latest.Some? && now <= latest.value.at + ttl then Some(latest.value.value) else None
  }

  // ------------------------------------------------ the entries

  function Lookup<V>(entries: map<string, Entry<V>>, key: string): Option<Entry<V>> {
    if key in entries then Some(entries[key]) else None
  }

  predicate IsFresh<V>(entry: Entry<V>, now: nat, ttl: nat) { now <= entry.at + ttl }

  /** The entries left when the expired ones are dropped. */
  function Retained<V>(entries: map<string, Entry<V>>, now: nat, ttl: nat): map<string, Entry<V>> {
    map key | key in entries && IsFresh(entries[key], now, ttl) :: entries[key]
  }

  /** What a look into the entries gives, and the entries it leaves: an expired
      one is dropped when it is come upon. */
  function Found<V>(entries: map<string, Entry<V>>, key: string, now: nat, ttl: nat): Option<V> {
    if key in entries && IsFresh(entries[key], now, ttl) then Some(entries[key].value) else None
  }

  function AfterLook<V>(entries: map<string, Entry<V>>, key: string, now: nat, ttl: nat): map<string, Entry<V>> {
    if key in entries && IsFresh(entries[key], now, ttl) then entries else entries - {key}
  }

  /** The entries with one more, stamped later than the others were sorted out. */
  function AfterRecord<V>(entries: map<string, Entry<V>>, key: string, value: V, now: nat, stamp: nat, ttl: nat)
    : map<string, Entry<V>>
  {
    Retained(entries, now, ttl)[key := Entry(stamp, value)]
  }

  /** Each entry is the latest of its key, and a latest that is missing from
      the entries has expired. */
  ghost predicate Agrees<V(!new)>(entries: map<string, Entry<V>>, history: seq<Event<V>>, clock: nat, ttl: nat) {
    forall key ::
      var latest := Latest(history, key);
      Lookup(entries, key) == latest || (Lookup(entries, key).None? && !IsFresh(latest.value, clock, ttl))
  }

  lemma LatestNext<V>(history: seq<Event<V>>, event: Event<V>, key: string)
    ensures Latest(history + [event], key) ==
            if event.key != key then Latest(history, key)
            else if event.Put? then Some(Entry(event.at, event.value))
            else None
  {
    assert (history + [event])[..|history|] == history;
  }

  /** Dropping an expired entry changes no answer from then on. */
  lemma AgreesWithout<V(!new)>(entries: map<string, Entry<V>>, fewer: map<string, Entry<V>>, history: seq<Event<V>>,
                         clock: nat, now: nat, ttl: nat)
    requires Agrees(entries, history, clock, ttl) && clock <= now
    requires forall key ::
               Lookup(fewer, key) == Lookup(entries, key)
               || (Lookup(fewer, key).None? && !IsFresh(Lookup(entries, key).value, now, ttl))
    ensures Agrees(fewer, history, now, ttl)
  {
    hide Latest, Lookup;
    forall key
      ensures var latest := Latest(history, key);
              Lookup(fewer, key) == latest || (Lookup(fewer, key).None? && !IsFresh(latest.value, now, ttl))
    {
      var latest := Latest(history, key);
      assert Lookup(entries, key) == latest || (Lookup(entries, key).None? && !IsFresh(latest.value, clock, ttl));
    }
  }

  lemma AgreesNext<V(!new)>(entries: map<string, Entry<V>>, after: map<string, Entry<V>>, history: seq<Event<V>>,
                      event: Event<V>, clock: nat, ttl: nat)
    requires Agrees(entries, history, clock, ttl)
    requires forall key ::
               Lookup(after, key) == if key != event.key then Lookup(entries, key)
                                     else if event.Put? then Some(Entry(event.at, event.value)) else None
    ensures Agrees(after, history + [event], clock, ttl)
  {
    hide Latest, Lookup;
    forall key
      ensures var latest := Latest(history + [event], key);
              Lookup(after, key) == latest || (Lookup(after, key).None? && !IsFresh(latest.value, clock, ttl))
    {
      LatestNext(history, event, key);
      assert Lookup(after, key) == if key != event.key then Lookup(entries, key)
                                   else if event.Put? then Some(Entry(event.at, event.value)) else None;
    }
  }

  lemma AnswerAgrees<V(!new)>(entries: map<string, Entry<V>>, history: seq<Event<V>>, clock: nat, now: nat, ttl: nat,
                        key: string)
    requires Agrees(entries, history, clock, ttl) && clock <= now
    ensures Answer(history, key, now, ttl) ==
            if key in entries && IsFresh(entries[key], now, ttl) then Some(entries[key].value) else None
  {
    hide Latest;
    var latest := Latest(history, key);
    assert Lookup(entries, key) == latest || (Lookup(entries, key).None? && !IsFresh(latest.value, clock, ttl));
  }

  // ------------------------------------------------ refresh results

  const RESULT_TTL: nat := 10_000_000_000

  datatype Refreshed = Refreshed(accessToken: string, refreshToken: string, expiresAt: Option<string>,
                                 idToken: Option<string>)

  datatype RefreshError = Unsupported | NotConfigured | Rejected(message: string) | Transient(message: string)

  type RefreshResult = Result<Refreshed, RefreshError>

  function Key(provider: string, token: string): string {
    provider + ":" + token
  }

  lemma ColonTells(p: string, a: string, q: string, b: string)
    requires ':' !in q && |p| < |q|
    ensures Key(p, a) != Key(q, b)
  {
    assert Key(p, a)[|p|] == ':' && Key(q, b)[|p|] == q[|p|];
  }

  /** Distinct pairs have distinct keys as long as providers have no colon. */
  lemma KeyTells(p: string, a: string, q: string, b: string)
    requires ':' !in p && ':' !in q
    ensures Key(p, a) == Key(q, b) <==> p == q && a == b
  {
    var x, y := Key(p, a), Key(q, b);
    if |p| < |q| {
      ColonTells(p, a, q, b);
    } else if |q| < |p| {
      ColonTells(q, b, p, a);
    } else {
      assert p == x[..|p|] && q == y[..|q|] && a == x[|p| + 1..] && b == y[|q| + 1..];
    }
  }

  /** With a colon in it, two providers can share an entry. */
  lemma KeysCollide(p: string, middle: string, token: string)
    ensures Key(p, middle + ":" + token) == Key(p + ":" + middle, token)
  {
  }

  class RefreshCache {
    var entries: map<string, Entry<RefreshResult>>
    ghost var history: seq<Event<RefreshResult>>
    ghost var clock: nat

    ghost predicate Valid()
      reads this
    {
      Agrees(entries, history, clock, RESULT_TTL)
    }

    constructor ()
      ensures Valid() && history == [] && clock == 0
    {
      entries, history, clock := map[], [], 0;
    }

    /** Look a token up.  What is found is as the history says, and the entries
        change as the machine of the refresh protocol changes them. */
    method Get(provider: string, token: string, now: nat) returns (result: Option<RefreshResult>)
      requires Valid() && clock <= now
      modifies this
      ensures Valid() && clock == now && history == old(history)
      ensures result == Answer(history, Key(provider, token), now, RESULT_TTL)
      ensures result == Found(old(entries), Key(provider, token), now, RESULT_TTL)
      ensures entries == AfterLook(old(entries), Key(provider, token), now, RESULT_TTL)
    {
      hide Agrees, Answer, Key;
      var key := Key(provider, token);
      AnswerAgrees(entries, history, clock, now, RESULT_TTL, key);
      ghost var before := entries;
      if key in entries && now <= entries[key].at + RESULT_TTL {
        result := Some(entries[key].value);
      } else {
        if key in entries {
          entries := entries - {key};
        }
        result := None;
      }
      AgreesWithout(before, entries, history, clock, now, RESULT_TTL);
      clock := now;
    }

    /** Record a result; expired entries go first.  The clock is read once for
        them and again for the new entry. */
    method Put(provider: string, token: string, result: RefreshResult, now: nat, stamp: nat)
      requires Valid() && clock <= now <= stamp
      modifies this
      ensures Valid() && clock == stamp
      ensures history == old(history) + [Event.Put(Key(provider, token), stamp, result)]
      ensures entries == AfterRecord(old(entries), Key(provider, token), result, now, stamp, RESULT_TTL)
    {
      hide Agrees, Key;
      ghost var before := entries;
      entries := Retained(entries, now, RESULT_TTL);
      AgreesWithout(before, entries, history, clock, now, RESULT_TTL);
      AgreesWithout(entries, entries, history, now, stamp, RESULT_TTL);
      ghost var retained := entries;
      var key := Key(provider, token);
      entries := entries[key := Entry(stamp, result)];
      AgreesNext(retained, entries, history, Event.Put(key, stamp, result), stamp, RESULT_TTL);
      history := history + [Event.Put(key, stamp, result)];
      clock := stamp;
    }
  }

  // ------------------------------------------------ probe results

  const DEFAULT_TTL: nat := 300_000_000_000

  datatype ProbeError =
    | Unauthorised(status: nat, message: string)
    | Unreadable(detail: string)
    | Status(status: nat, message: string)
    | Timeout(afterMs: nat)
    | Unreachable(detail: string)

  type ProbeResult = Result<seq<string>, ProbeError>

  predicate IsTransient(result: ProbeResult) {
    result.Err? && (result.error.Timeout? || result.error.Unreachable?)
  }

  class ProbeCache {
    var entries: map<string, Entry<ProbeResult>>
    const ttl: nat
    ghost var history: seq<Event<ProbeResult>>
    ghost var clock: nat

    ghost predicate Valid()
      reads this
    {
      Agrees(entries, history, clock, ttl)
    }

    constructor (given: Option<nat>)
      ensures Valid() && history == [] && clock == 0
      ensures ttl == if given.Some? then given.value else DEFAULT_TTL
    {
      ttl := if given.Some? then given.value else DEFAULT_TTL;
      entries, history, clock := map[], [], 0;
    }

    method Get(connection: string, now: nat) returns (result: Option<ProbeResult>)
      requires Valid() && clock <= now
      modifies this
      ensures Valid() && clock == now && history == old(history)
      ensures var answer := Answer(history, connection, now, ttl);
              result == if answer.Some? && answer.value.Err?
                           && (answer.value.error.Timeout? || answer.value.error.Unreachable?)
                        then None else answer
    {
      hide Agrees, Answer;
      AnswerAgrees(entries, history, clock, now, ttl, connection);
      ghost var before := entries;
      result := None;
      if connection in entries {
        var entry := entries[connection];
        if now <= entry.at + ttl {
          if !IsTransient(entry.value) {
            result := Some(entry.value);
          }
        } else {
          entries := entries - {connection};
        }
      }
      AgreesWithout(before, entries, history, clock, now, ttl);
      clock := now;
    }

    method Put(connection: string, result: ProbeResult, now: nat)
      requires Valid() && clock <= now
      modifies this
      ensures Valid() && clock == now
      ensures history == old(history) + [Event.Put(connection, now, result)]
    {
      hide Agrees;
      AgreesWithout(entries, entries, history, clock, now, ttl);
      ghost var before := entries;
      entries := entries[connection := Entry(now, result)];
      AgreesNext(before, entries, history, Event.Put(connection, now, result), now, ttl);
      history := history + [Event.Put(connection, now, result)];
      clock := now;
    }

    method Invalidate(connection: string)
      requires Valid()
      modifies this
      ensures Valid() && clock == old(clock) && history == old(history) + [Forget(connection)]
    {
      hide Agrees;
      ghost var before := entries;
      entries := entries - {connection};
      AgreesNext(before, entries, history, Forget(connection), clock, ttl);
      history := history + [Forget(connection)];
    }
  }

  // ------------------------------------------------ what the answers mean

  /** An answer was put under its key, at most the time to live ago, with
      nothing put or forgotten under the key since; and where there is such a
      put it is the answer. */
  lemma {:induction false} AnswerMeans<V>(history: seq<Event<V>>, key: string, now: nat, ttl: nat, value: V)
    ensures Answer(history, key, now, ttl) == Some(value) <==> exists i :: LastPut(history, i, key, now, ttl, value)
    decreases |history|
  {
    if history != [] {
      var n := |history| - 1;
      var front := history[..n];
      if history[n].key == key {
        if Answer(history, key, now, ttl) == Some(value) {
          assert LastPut(history, n, key, now, ttl, value);
        }
      } else {
        AnswerMeans(front, key, now, ttl, value);
        forall i ensures LastPut(front, i, key, now, ttl, value) == LastPut(history, i, key, now, ttl, value) {
          if 0 <= i < n {
            assert front[i] == history[i];
            assert forall j :: i < j < n ==> front[j] == history[j];
          }
        }
      }
    }
  }

  predicate LastPut<V(==)>(history: seq<Event<V>>, i: int, key: string, now: nat, ttl: nat, value: V) {
    0 <= i < |history| && history[i].Put? && history[i].key == key && history[i].value == value
    && now <= history[i].at + ttl
    && forall j :: i < j < |history| ==> history[j].key != key
  }
}
