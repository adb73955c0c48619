/** Capabilities by bare model name, recovered from rows keyed by provider and
    model: a model has a canonical row when the providers that upstream does
    not override all say the same of it. */
module Canonical {
  import opened Options

  // ------------------------------------------------ data

  datatype ThinkingFormat =
    | OpenAi | ClaudeAdaptive | ClaudeBudget | GeminiLevel | GeminiBudget | Zai | Qwen | Kimi
    | DeepSeek | MiniMax | Hunyuan | Step | TokenRouter | Kiro | Unrecognized

  datatype ThinkingRange = ThinkingRange(min: Option<nat>, max: Option<nat>)

  datatype Capabilities = Capabilities(
    vision: bool, pdf: bool, audioInput: bool, videoInput: bool, imageOutput: bool, audioOutput: bool,
    search: bool, tools: bool, reasoning: bool, thinkingCanDisable: bool,
    thinkingFormat: Option<ThinkingFormat>, thinkingRange: Option<ThinkingRange>,
    contextWindow: nat, maxOutput: nat)

  datatype Delta = Delta(
    vision: Option<bool>, pdf: Option<bool>, audioInput: Option<bool>, videoInput: Option<bool>,
    imageOutput: Option<bool>, audioOutput: Option<bool>, search: Option<bool>, tools: Option<bool>,
    reasoning: Option<bool>, thinkingCanDisable: Option<bool>,
    thinkingFormat: Option<ThinkingFormat>, thinkingRange: Option<ThinkingRange>,
    contextWindow: Option<nat>, maxOutput: Option<nat>)

  /** A row of the table: `provider/model` and what it says. */
  datatype Row = Row(key: string, delta: Delta)

  const OVERRIDE_PROVIDERS: seq<string> := ["nvidia", "codex", "kiro", "codebuddy-cn", "poolside"]

  // ------------------------------------------------ one row

  function Or<T>(given: Option<T>, otherwise: T): T {
    match given
    case Some(value) => value
    case None => otherwise
  }

  function Either<T>(given: Option<T>, otherwise: Option<T>): Option<T> {
    if given.Some? then given else otherwise
  }

  /** What a row says where it says something, the base everywhere else. */
  function Applied(d: Delta, base: Capabilities): Capabilities {
    Capabilities(
      Or(d.vision, base.vision), Or(d.pdf, base.pdf), Or(d.audioInput, base.audioInput),
      Or(d.videoInput, base.videoInput), Or(d.imageOutput, base.imageOutput), Or(d.audioOutput, base.audioOutput),
      Or(d.search, base.search), Or(d.tools, base.tools), Or(d.reasoning, base.reasoning),
      Or(d.thinkingCanDisable, base.thinkingCanDisable),
      Either(d.thinkingFormat, base.thinkingFormat), Either(d.thinkingRange, base.thinkingRange),
      Or(d.contextWindow, base.contextWindow), Or(d.maxOutput, base.maxOutput))
  }

  predicate SameModalities(a: Capabilities, b: Capabilities) {
    a.vision == b.vision && a.pdf == b.pdf
    && a.audioInput == b.audioInput && a.videoInput == b.videoInput
    && a.imageOutput == b.imageOutput && a.audioOutput == b.audioOutput
  }

  predicate SameFeatures(a: Capabilities, b: Capabilities) {
    a.search == b.search && a.tools == b.tools
    && a.reasoning == b.reasoning && a.thinkingCanDisable == b.thinkingCanDisable
  }

  predicate SameLimits(a: Capabilities, b: Capabilities) {
    a.contextWindow == b.contextWindow && a.maxOutput == b.maxOutput
    && a.thinkingFormat == b.thinkingFormat && a.thinkingRange == b.thinkingRange
  }

  /** The last step changed the limits only, the one before the features only. */
  lemma GroupsJoin(d: Delta, given: Capabilities, a: Capabilities, b: Capabilities, c: Capabilities)
    requires SameModalities(a, Applied(d, given)) && SameModalities(b, a) && SameModalities(c, b)
    requires SameFeatures(b, Applied(d, given)) && SameFeatures(c, b)
    requires SameLimits(c, Applied(d, given))
    ensures c == Applied(d, given)
  {
    hide Applied, Or, Either;
  }

  /** What is given stands, and what is not given is as in the base. */
  predicate Says<T(==)>(given: Option<T>, base: T, result: T) {
    match given
    case Some(value) => result == value
    case None => result == base
  }

  predicate SaysMaybe<T(==)>(given: Option<T>, base: Option<T>, result: Option<T>) {
    match given
    case Some(_) => result == given
    case None => result == base
  }

  /** A row is taken at its word in every field, and the base everywhere else. */
  predicate RowOver(d: Delta, base: Capabilities, row: Capabilities) {
    Says(d.vision, base.vision, row.vision) && Says(d.pdf, base.pdf, row.pdf)
    && Says(d.audioInput, base.audioInput, row.audioInput) && Says(d.videoInput, base.videoInput, row.videoInput)
    && Says(d.imageOutput, base.imageOutput, row.imageOutput) && Says(d.audioOutput, base.audioOutput, row.audioOutput)
    && Says(d.search, base.search, row.search) && Says(d.tools, base.tools, row.tools)
    && Says(d.reasoning, base.reasoning, row.reasoning)
    && Says(d.thinkingCanDisable, base.thinkingCanDisable, row.thinkingCanDisable)
    && Says(d.contextWindow, base.contextWindow, row.contextWindow) && Says(d.maxOutput, base.maxOutput, row.maxOutput)
    && SaysMaybe(d.thinkingFormat, base.thinkingFormat, row.thinkingFormat)
    && SaysMaybe(d.thinkingRange, base.thinkingRange, row.thinkingRange)
  }

  lemma AppliedIsRowOver(d: Delta, base: Capabilities)
    ensures RowOver(d, base, Applied(d, base))
  {
    hide Says, SaysMaybe, Or, Either;
    OrSays(d.vision, base.vision);
    OrSays(d.pdf, base.pdf);
    OrSays(d.audioInput, base.audioInput);
    OrSays(d.videoInput, base.videoInput);
    OrSays(d.imageOutput, base.imageOutput);
    OrSays(d.audioOutput, base.audioOutput);
    OrSays(d.search, base.search);
    OrSays(d.tools, base.tools);
    OrSays(d.reasoning, base.reasoning);
    OrSays(d.thinkingCanDisable, base.thinkingCanDisable);
    OrSays(d.contextWindow, base.contextWindow);
    OrSays(d.maxOutput, base.maxOutput);
    EitherSays(d.thinkingFormat, base.thinkingFormat);
    EitherSays(d.thinkingRange, base.thinkingRange);
  }

  lemma OrSays<T>(given: Option<T>, base: T)
    ensures Says(given, base, Or(given, base))
  {
  }

  lemma EitherSays<T>(given: Option<T>, base: Option<T>)
    ensures SaysMaybe(given, base, Either(given, base))
  {
  }

  method Apply(d: Delta, given: Capabilities) returns (base: Capabilities)
    ensures base == Applied(d, given) && RowOver(d, given, base)
  {
    hide Applied, RowOver, SameModalities, SameFeatures, SameLimits;
    base := ApplyModalities(d, given);
    ghost var first := base;
    base := ApplyFeatures(d, given, base);
    ghost var second := base;
    SameLimitsTwice(second, first, given);
    base := ApplyLimits(d, given, base);
    GroupsJoin(d, given, first, second, base);
    AppliedIsRowOver(d, given);
  }

  lemma SameLimitsTwice(a: Capabilities, b: Capabilities, c: Capabilities)
    requires SameLimits(a, b) && SameLimits(b, c)
    ensures SameLimits(a, c)
  {
  }

  /** What can be read and emitted. */
  method ApplyModalities(d: Delta, given: Capabilities) returns (base: Capabilities)
    ensures SameModalities(base, Applied(d, given))
    ensures SameFeatures(base, given) && SameLimits(base, given)
  {
    hide Or, Either;
    base := given;
    base := base.(vision := Or(d.vision, base.vision));
    base := base.(pdf := Or(d.pdf, base.pdf));
    base := base.(audioInput := Or(d.audioInput, base.audioInput));
    base := base.(videoInput := Or(d.videoInput, base.videoInput));
    base := base.(imageOutput := Or(d.imageOutput, base.imageOutput));
    base := base.(audioOutput := Or(d.audioOutput, base.audioOutput));
  }

  /** What the model can do. */
  method ApplyFeatures(d: Delta, given: Capabilities, so: Capabilities) returns (base: Capabilities)
    requires SameFeatures(so, given)
    ensures SameFeatures(base, Applied(d, given))
    ensures SameModalities(base, so) && SameLimits(base, so)
  {
    hide Or, Either;
    base := so;
    base := base.(search := Or(d.search, base.search));
    base := base.(tools := Or(d.tools, base.tools));
    base := base.(reasoning := Or(d.reasoning, base.reasoning));
    base := base.(thinkingCanDisable := Or(d.thinkingCanDisable, base.thinkingCanDisable));
  }

  /** How much it can handle, and how thinking is asked for. */
  method ApplyLimits(d: Delta, given: Capabilities, so: Capabilities) returns (base: Capabilities)
    requires SameLimits(so, given)
    ensures SameLimits(base, Applied(d, given))
    ensures SameModalities(base, so) && SameFeatures(base, so)
  {
    hide Or, Either;
    base := so;
    base := base.(contextWindow := Or(d.contextWindow, base.contextWindow));
    base := base.(maxOutput := Or(d.maxOutput, base.maxOutput));
    base := base.(thinkingFormat := Either(d.thinkingFormat, base.thinkingFormat));
    base := base.(thinkingRange := Either(d.thinkingRange, base.thinkingRange));
  }

  /** The provider and the model of a key, cut at the first slash. */
  function SplitKey(key: string): (parts: Option<(string, string)>)
    ensures parts.Some? ==> key == parts.value.0 + "/" + parts.value.1 && '/' !in parts.value.0
    ensures parts.None? <==> '/' !in key
  {
    if key == "" then None
    else if key[0] == '/' then Some(("", key[1..]))
    else
      match SplitKey(key[1..])
      case None => None
      case Some((provider, model)) => Some(([key[0]] + provider, model))
  }

  // ------------------------------------------------ consensus

  /** The row speaks for this model, and upstream does not override its provider. */
  predicate SpeaksFor(row: Row, model: string) {
    var parts := SplitKey(row.key);
    parts.Some? && parts.value.1 == model && parts.value.0 !in OVERRIDE_PROVIDERS
  }

  /** Everything that is said of a model. */
  ghost function Votes(rows: seq<Row>, base: Capabilities, model: string): set<Capabilities> {
    set row | row in rows && SpeaksFor(row, model) :: Applied(row.delta, base)
  }

  /** The one value voted for. */
  ghost function Consensus(votes: set<Capabilities>): (agreed: Option<Capabilities>)
    ensures forall v :: agreed == Some(v) <==> votes == {v}
  {
    if exists v :: votes == {v} then
      var v :| votes == {v};
      assert v in votes;
      Some(v)
    else None
  }

  function Lookup<K, V>(m: map<K, V>, key: K): Option<V> {
    if key in m then Some(m[key]) else None
  }

  ghost predicate IsConsensus(table: map<string, Capabilities>, rows: seq<Row>, base: Capabilities) {
    forall model :: Lookup(table, model) == Consensus(Votes(rows, base, model))
  }

  /** What the fold has seen: a model voted for, with its value while there is only one. */
  ghost predicate Tallied(candidates: map<string, Option<Capabilities>>, rows: seq<Row>, base: Capabilities) {
    forall model ::
      Lookup(candidates, model) == var votes := Votes(rows, base, model);
                                   if votes == {} then None else Some(Consensus(votes))
  }

  method CanonicalByModel(rows: seq<Row>, base: Capabilities) returns (table: map<string, Capabilities>)
    ensures IsConsensus(table, rows, base)
  {
    hide Tallied, IsConsensus, Applied;
    var candidates: map<string, Option<Capabilities>> := map[];
    NoVotes(base);
    for i := 0 to |rows|
      invariant Tallied(candidates, rows[..i], base)
    {
      assert rows[..i + 1] == rows[..i] + [rows[i]];
      var parts := SplitKey(rows[i].key);
      if parts.None? {
        OneMore(candidates, candidates, rows[..i], rows[i], base);
        continue;
      }
      var (provider, model) := parts.value;
      if provider in OVERRIDE_PROVIDERS {
        OneMore(candidates, candidates, rows[..i], rows[i], base);
        continue;
      }
      var resolved := Apply(rows[i].delta, base);
      ghost var before := candidates;
      if model in candidates {
        var seen := candidates[model];
        if seen.Some? && seen.value != resolved {
          candidates := candidates[model := None];
        }
      } else {
        candidates := candidates[model := Some(resolved)];
      }
      OneMore(before, candidates, rows[..i], rows[i], base);
    }
    assert rows[..|rows|] == rows;
    table := map model | model in candidates && candidates[model].Some? :: candidates[model].value;
    Filtered(candidates, table, rows, base);
  }

  lemma NoVotes(base: Capabilities)
    ensures Tallied(map[], [], base)
  {
  }

  lemma VotesNext(rows: seq<Row>, row: Row, base: Capabilities, model: string)
    ensures Votes(rows + [row], base, model)
         == Votes(rows, base, model) + (if SpeaksFor(row, model) then {Applied(row.delta, base)} else {})
  {
    hide SpeaksFor, Applied;
    var longer := rows + [row];
    assert forall r :: r in longer <==> r in rows || r == row;
  }

  /** One vote more, by what the entry for its model becomes. */
  lemma Joins(votes: set<Capabilities>, vote: Capabilities)
    ensures Consensus(votes + {vote}) ==
            if votes == {} then Some(vote)
            else if Consensus(votes) == Some(vote) then Some(vote)
            else None
  {
    var more := votes + {vote};
    assert vote in more && (forall u :: u in votes ==> u in more);
    if votes == {} || votes == {vote} {
      assert more == {vote};
    }
  }

  lemma OneMore(candidates: map<string, Option<Capabilities>>, after: map<string, Option<Capabilities>>,
                rows: seq<Row>, row: Row, base: Capabilities)
    requires Tallied(candidates, rows, base)
    requires forall model :: Lookup(after, model) ==
               if !SpeaksFor(row, model) then Lookup(candidates, model)
               else
                 var vote := Applied(row.delta, base);
                 match Lookup(candidates, model)
                 case None => Some(Some(vote))
                 case Some(seen) => Some(if seen.Some? && seen.value != vote then None else seen)
    ensures Tallied(after, rows + [row], base)
  {
    hide Votes, Applied, SpeaksFor, Consensus;
    var vote := Applied(row.delta, base);
    forall model
      ensures Lookup(after, model) == var votes := Votes(rows + [row], base, model);
                                      if votes == {} then None else Some(Consensus(votes))
    {
      var votes := Votes(rows, base, model);
      VotesNext(rows, row, base, model);
      if SpeaksFor(row, model) {
        Joins(votes, vote);
        assert vote in votes + {vote};
      } else {
        assert votes + {} == votes;
      }
    }
  }

  lemma Filtered(candidates: map<string, Option<Capabilities>>, table: map<string, Capabilities>,
                 rows: seq<Row>, base: Capabilities)
    requires Tallied(candidates, rows, base)
    requires table == map model | model in candidates && candidates[model].Some? :: candidates[model].value
    ensures IsConsensus(table, rows, base)
  {
    hide Votes;
    forall model
      ensures Lookup(table, model) == Consensus(Votes(rows, base, model))
    {
      var votes := Votes(rows, base, model);
      assert Lookup(candidates, model) == if votes == {} then None else Some(Consensus(votes));
      assert Consensus(votes).Some? ==> Consensus(votes).value in votes;
    }
  }

  // ------------------------------------------------ what the table depends on

  lemma SameVotes(rows: seq<Row>, others: seq<Row>, base: Capabilities, model: string)
    requires forall row :: SpeaksFor(row, model) ==> (row in rows <==> row in others)
    ensures Votes(rows, base, model) == Votes(others, base, model)
  {
    hide SpeaksFor, Applied;
  }

  lemma SameLookups<K, V>(a: map<K, V>, b: map<K, V>)
    requires forall key :: Lookup(a, key) == Lookup(b, key)
    ensures a == b
  {
    assert forall key :: key in a <==> Lookup(a, key).Some?;
    assert forall key :: key in b <==> Lookup(b, key).Some?;
    assert forall key :: key in a ==> Lookup(a, key) == Some(a[key]);
    assert forall key :: key in b ==> Lookup(b, key) == Some(b[key]);
    assert forall key :: key in a ==> Lookup(a, key) == Lookup(b, key);
  }

  /** The rows' order, and how often a row comes, do not matter; nor does what
      the overridden providers say. */
  lemma OnlyTheVoicesMatter(rows: seq<Row>, others: seq<Row>, base: Capabilities,
                            table: map<string, Capabilities>, other: map<string, Capabilities>)
    requires forall row, model :: SpeaksFor(row, model) ==> (row in rows <==> row in others)
    requires IsConsensus(table, rows, base) && IsConsensus(other, others, base)
    ensures table == other
  {
    hide Consensus, Votes, SpeaksFor, Lookup;
    forall model
      ensures Lookup(table, model) == Lookup(other, model)
    {
      SameVotes(rows, others, base, model);
    }
    SameLookups(table, other);
  }

  lemma OrderDoesNotMatter(rows: seq<Row>, others: seq<Row>, base: Capabilities,
                           table: map<string, Capabilities>, other: map<string, Capabilities>)
    requires multiset(rows) == multiset(others)
    requires IsConsensus(table, rows, base) && IsConsensus(other, others, base)
    ensures table == other
  {
    hide IsConsensus, SpeaksFor;
    assert forall row :: row in rows <==> row in multiset(rows);
    assert forall row :: row in others <==> row in multiset(others);
    OnlyTheVoicesMatter(rows, others, base, table, other);
  }

  /** A model is in the table exactly when some provider that is not overridden
      lists it and all of them resolve it to the same capabilities. */
  lemma ListedExactly(rows: seq<Row>, base: Capabilities, table: map<string, Capabilities>, model: string)
    requires IsConsensus(table, rows, base)
    ensures model in table <==>
            (exists row :: row in rows && SpeaksFor(row, model))
            && (forall a, b :: a in rows && b in rows && SpeaksFor(a, model) && SpeaksFor(b, model) ==>
                  Applied(a.delta, base) == Applied(b.delta, base))
    ensures model in table ==>
            forall row :: row in rows && SpeaksFor(row, model) ==> table[model] == Applied(row.delta, base)
  {
    hide Applied, SpeaksFor;
    var votes := Votes(rows, base, model);
    assert Lookup(table, model) == Consensus(votes);
    if model in table {
      assert table[model] in votes;
      forall row | row in rows && SpeaksFor(row, model)
        ensures table[model] == Applied(row.delta, base)
      {
        assert Applied(row.delta, base) in votes;
      }
    }
    if row :| row in rows && SpeaksFor(row, model) {
      if forall a, b :: a in rows && b in rows && SpeaksFor(a, model) && SpeaksFor(b, model) ==>
           Applied(a.delta, base) == Applied(b.delta, base) {
        assert votes == {Applied(row.delta, base)};
      }
    }
  }

  /** The key names this provider and this model. */
  predicate Keyed(key: string, provider: string, model: string) {
    key == provider + "/" + model && '/' !in provider
  }

  lemma NotLater(p: string, m: string, provider: string, model: string)
    requires p + "/" + m == provider + "/" + model && '/' !in provider
    ensures |provider| <= |p|
  {
    assert (p + "/" + m)[|p|] == '/';
    assert forall k :: 0 <= k < |provider| ==> (provider + "/" + model)[k] == provider[k] != '/';
  }

  lemma OnlyCut(key: string, provider: string, model: string)
    requires Keyed(key, provider, model)
    ensures SplitKey(key) == Some((provider, model))
  {
    var (p, m) := SplitKey(key).value;
    NotLater(p, m, provider, model);
    NotLater(provider, model, p, m);
    assert p == key[..|p|] && provider == key[..|p|] && m == key[|p| + 1..] && model == key[|p| + 1..];
  }

  /** A row is heard on a model unless upstream overrides its provider. */
  lemma HeardUnlessOverridden(row: Row, provider: string, model: string)
    requires Keyed(row.key, provider, model)
    ensures SpeaksFor(row, model) <==>
            provider != "nvidia" && provider != "codex" && provider != "kiro" && provider != "codebuddy-cn"
            && provider != "poolside"
  {
    OnlyCut(row.key, provider, model);
  }

  /** Only a row whose key names the model is heard on it. */
  lemma HeardIsKeyed(row: Row, model: string)
    requires SpeaksFor(row, model)
    ensures exists provider :: Keyed(row.key, provider, model)
  {
    assert Keyed(row.key, SplitKey(row.key).value.0, model);
  }

  /** What the table says of a model is what each row says that is heard on it. */
  lemma TableSays(rows: seq<Row>, base: Capabilities, table: map<string, Capabilities>, row: Row, model: string)
    requires IsConsensus(table, rows, base) && row in rows && SpeaksFor(row, model) && model in table
    ensures RowOver(row.delta, base, table[model])
  {
    hide *;
    ListedExactly(rows, base, table, model);
    AppliedIsRowOver(row.delta, base);
  }
}
