/** Putting tool calls together from the pieces a stream delivers.  A field is
    `None` when it is missing or not of its type; `callee` is the field named
    `function`. */
module ToolCalls {
  import opened Options

  datatype Callee = Callee(name: Option<string>, arguments: Option<string>)

  /** A delta, and also a call: a call begins as its first delta.  `rest` stands
      for the other fields. */
  datatype Delta = Delta(index: Option<nat>, callee: Option<Callee>, rest: string)

  function TextOf(field: Option<string>): string {
    if field.Some? then field.value else ""
  }

  /** The argument fragment a delta carries. */
  function Fragment(d: Delta): string {
    if d.callee.Some? then TextOf(d.callee.value.arguments) else ""
  }

  /** The call with an index, if one has begun. */
  function Position(calls: seq<Delta>, index: nat): (at: Option<nat>)
    ensures at.Some? ==> at.value < |calls| && calls[at.value].index == Some(index)
                         && forall i :: 0 <= i < at.value ==> calls[i].index != Some(index)
    ensures at.None? ==> forall i :: 0 <= i < |calls| ==> calls[i].index != Some(index)
  {
    if calls == [] then None
    else if calls[0].index == Some(index) then Some(0)
    else
      var later := Position(calls[1..], index);
      if later.None? then None else Some(later.value + 1)
  }

  /** A call with one more delta of it. */
  function Extended(call: Delta, d: Delta): Delta {
    if call.callee.None? then call
    else
      var f := call.callee.value;
      var arguments := if Fragment(d) == "" then f.arguments else Some(TextOf(f.arguments) + Fragment(d));
      var name := if d.callee.Some? && d.callee.value.name.Some? && TextOf(f.name) == ""
                  then d.callee.value.name else f.name;
      call.(callee := Some(Callee(name, arguments)))
  }

  /** A delta without an index counts as one of index 0. */
  function Merged(calls: seq<Delta>, d: Delta): seq<Delta> {
    var at := Position(calls, if d.index.Some? then d.index.value else 0);
    if at.None? then calls + [d] else calls[at.value := Extended(calls[at.value], d)]
  }

  function MergedAll(calls: seq<Delta>, deltas: seq<Delta>): seq<Delta> {
    if deltas == [] then calls
    else Merged(MergedAll(calls, deltas[..|deltas| - 1]), deltas[|deltas| - 1])
  }

  class Accumulator {
    var calls: seq<Delta>

    constructor ()
      ensures calls == []
    {
      calls := [];
    }

    method MergeToolCalls(deltas: seq<Delta>)
      modifies this
      ensures calls == MergedAll(old(calls), deltas)
    {
      hide Position, Fragment;
      assert deltas[..0] == [];
      for n := 0 to |deltas|
        invariant calls == MergedAll(old(calls), deltas[..n])
      {
        var delta := deltas[n];
        assert deltas[..n + 1][..n] == deltas[..n] && deltas[..n + 1][n] == delta;
        var index := if delta.index.Some? then delta.index.value else 0;
        var position := Position(calls, index);
        if position.None? {
          calls := calls + [delta];
          continue;
        }
        ghost var before := calls;
        var at := position.value;
        var existing := calls[at];
        var fragment := Fragment(delta);
        if fragment != "" && existing.callee.Some? {
          var f := existing.callee.value;
          existing := existing.(callee := Some(f.(arguments := Some(TextOf(f.arguments) + fragment))));
        }
        if delta.callee.Some? && delta.callee.value.name.Some? && existing.callee.Some? {
          var f := existing.callee.value;
          if TextOf(f.name) == "" {
            existing := existing.(callee := Some(f.(name := delta.callee.value.name)));
          }
        }
        calls := calls[at := existing];
        assert calls == Merged(before, delta);
      }
      assert deltas[..|deltas|] == deltas;
    }
  }

  // ------------------------------------------------ what the merge must give

  /** The deltas of one call, in order: those with its index and, once the call
      of index 0 has begun, also those without an index. */
  function Members(deltas: seq<Delta>, index: nat): seq<Delta> {
    if deltas == [] then []
    else
      var front, last := Members(deltas[..|deltas| - 1], index), deltas[|deltas| - 1];
      if last.index == Some(index) || (last.index.None? && index == 0 && front != []) then front + [last] else front
  }

  /** How a call begins: as the call of an index, or as a delta without one,
      which no later delta finds. */
  datatype Opening = Keyed(index: nat) | Loose(delta: Delta)

  /** The calls, in the order in which they begin. */
  function Openings(deltas: seq<Delta>): seq<Opening> {
    if deltas == [] then []
    else
      var front, last := Openings(deltas[..|deltas| - 1]), deltas[|deltas| - 1];
      if last.index.Some? then (if Keyed(last.index.value) in front then front else front + [Keyed(last.index.value)])
      else if Keyed(0) in front then front
      else front + [Loose(last)]
  }

  /** The arguments that deltas carry, in order. */
  function Pieces(own: seq<Delta>): seq<string> {
    if own == [] then []
    else
      Pieces(own[..|own| - 1]) + match own[|own| - 1].callee
                                 case Some(Callee(_, Some(text))) => [text]
                                 case _ => []
  }

  /** The names that deltas carry, in order. */
  function Names(own: seq<Delta>): seq<string> {
    if own == [] then []
    else
      Names(own[..|own| - 1]) + match own[|own| - 1].callee
                                case Some(Callee(Some(text), _)) => [text]
                                case _ => []
  }

  function Joined(pieces: seq<string>): string {
    if pieces == [] then "" else Joined(pieces[..|pieces| - 1]) + pieces[|pieces| - 1]
  }

  function FirstNonEmpty(names: seq<string>): string {
    if names == [] then "" else if names[0] != "" then names[0] else FirstNonEmpty(names[1..])
  }

  /** All the arguments of the deltas joined; none at all only when the first
      delta has none and nothing was added. */
  predicate ArgumentsOf(field: Option<string>, own: seq<Delta>)
    requires own != [] && own[0].callee.Some?
  {
    match field
    case Some(text) => text == Joined(Pieces(own))
    case None => own[0].callee.value.arguments.None? && Joined(Pieces(own)) == ""
  }

  /** The first name that is not empty; an empty one when all are, and none when
      no delta has one. */
  predicate NameAmong(field: Option<string>, own: seq<Delta>) {
    field == if Names(own) == [] then None else Some(FirstNonEmpty(Names(own)))
  }

  /** A call is its opening delta, with all its fragments and its first
      non-empty name.  Without a function in the opening delta it has neither. */
  predicate IsMergeOf(call: Delta, own: seq<Delta>) {
    own != [] && call.index == own[0].index && call.rest == own[0].rest
    && (call.callee.Some? <==> own[0].callee.Some?)
    && (call.callee.Some? ==>
          ArgumentsOf(call.callee.value.arguments, own) && NameAmong(call.callee.value.name, own))
  }

  /** The call that began with an opening. */
  predicate IsCallOf(call: Delta, opening: Opening, deltas: seq<Delta>) {
    match opening
    case Keyed(index) => call.index == Some(index) && IsMergeOf(call, Members(deltas, index))
    case Loose(delta) => call == delta && delta.index.None?
  }

  /** One call for each opening, in order. */
  predicate Complete(calls: seq<Delta>, deltas: seq<Delta>) {
    |calls| == |Openings(deltas)|
    && forall k :: 0 <= k < |calls| ==> IsCallOf(calls[k], Openings(deltas)[k], deltas)
  }

  predicate Distinct(openings: seq<Opening>) {
    forall i, j :: 0 <= i < j < |openings| && openings[i].Keyed? ==> openings[i] != openings[j]
  }

  lemma DistinctNext(openings: seq<Opening>, last: Opening)
    requires Distinct(openings) && (last.Keyed? ==> last !in openings)
    ensures Distinct(openings + [last])
  {
  }

  /** No index begins two calls, and an index has a call exactly when it has
      deltas. */
  lemma {:induction false} OpeningsDistinct(deltas: seq<Delta>)
    ensures Distinct(Openings(deltas))
    ensures forall index :: Keyed(index) in Openings(deltas) <==> Members(deltas, index) != []
  {
    if deltas != [] {
      var front := Openings(deltas[..|deltas| - 1]);
      OpeningsDistinct(deltas[..|deltas| - 1]);
      if Openings(deltas) != front {
        var last := Openings(deltas)[|front|];
        assert Openings(deltas) == front + [last];
        DistinctNext(front, last);
      }
    }
  }

  lemma {:induction false} FirstNext(names: seq<string>, name: string)
    ensures FirstNonEmpty(names + [name]) == if FirstNonEmpty(names) != "" then FirstNonEmpty(names) else name
  {
    if names == [] {
      assert ([] + [name])[1..] == [];
    } else {
      assert (names + [name])[1..] == names[1..] + [name];
      FirstNext(names[1..], name);
    }
  }

  lemma JoinedNext(pieces: seq<string>, piece: string)
    ensures Joined(pieces + [piece]) == Joined(pieces) + piece
  {
    assert (pieces + [piece])[..|pieces|] == pieces;
  }

  lemma FieldsNext(own: seq<Delta>, d: Delta)
    ensures Pieces(own + [d]) == Pieces(own) + (match d.callee
                                                case Some(Callee(_, Some(text))) => [text]
                                                case _ => [])
    ensures Names(own + [d]) == Names(own) + (match d.callee
                                              case Some(Callee(Some(text), _)) => [text]
                                              case _ => [])
  {
    assert (own + [d])[..|own|] == own;
  }

  lemma ExtendedIsMerge(call: Delta, own: seq<Delta>, d: Delta)
    requires IsMergeOf(call, own)
    ensures IsMergeOf(Extended(call, d), own + [d])
    ensures Extended(call, d).index == call.index
  {
    if call.callee.Some? {
      ArgumentsNext(call, own, d);
      NameNext(call, own, d);
    }
    hide ArgumentsOf, NameAmong;
  }

  lemma ArgumentsNext(call: Delta, own: seq<Delta>, d: Delta)
    requires own != [] && own[0].callee.Some? && call.callee.Some? && ArgumentsOf(call.callee.value.arguments, own)
    ensures ArgumentsOf(Extended(call, d).callee.value.arguments, own + [d])
  {
    hide Pieces, Joined;
    FieldsNext(own, d);
    if d.callee.Some? && d.callee.value.arguments.Some? {
      JoinedNext(Pieces(own), d.callee.value.arguments.value);
    } else {
      assert Pieces(own) + [] == Pieces(own);
    }
  }

  lemma NameNext(call: Delta, own: seq<Delta>, d: Delta)
    requires call.callee.Some? && NameAmong(call.callee.value.name, own)
    ensures NameAmong(Extended(call, d).callee.value.name, own + [d])
  {
    hide Names, FirstNonEmpty, Fragment;
    FieldsNext(own, d);
    if d.callee.Some? && d.callee.value.name.Some? {
      FirstNext(Names(own), d.callee.value.name.value);
      NoneFirst();
    } else {
      assert Names(own) + [] == Names(own);
    }
  }

  lemma NoneFirst()
    ensures FirstNonEmpty([]) == ""
  {
  }

  lemma OpeningIsMerge(d: Delta)
    ensures IsMergeOf(d, [d])
  {
    hide Pieces, Names, Joined, FirstNonEmpty;
    FieldsNext([], d);
    assert [] + [d] == [d];
    NoFields();
    if d.callee.Some? && d.callee.value.arguments.Some? {
      JoinedNext([], d.callee.value.arguments.value);
      assert [] + [d.callee.value.arguments.value] == [d.callee.value.arguments.value];
    }
    if d.callee.Some? && d.callee.value.name.Some? {
      FirstNext([], d.callee.value.name.value);
      assert [] + [d.callee.value.name.value] == [d.callee.value.name.value];
    }
  }

  lemma NoFields()
    ensures Pieces([]) == [] && Names([]) == [] && Joined([]) == "" && FirstNonEmpty([]) == ""
  {
  }

  /** Whether a delta belongs to the call of an index that has these deltas. */
  predicate BelongsTo(d: Delta, index: nat, begun: bool) {
    d.index == Some(index) || (d.index.None? && index == 0 && begun)
  }

  lemma MembersNext(deltas: seq<Delta>, d: Delta, index: nat)
    ensures Members(deltas + [d], index)
         == Members(deltas, index) + (if BelongsTo(d, index, Members(deltas, index) != []) then [d] else [])
    ensures !BelongsTo(d, index, Members(deltas, index) != []) ==> Members(deltas + [d], index) == Members(deltas, index)
  {
    assert (deltas + [d])[..|deltas|] == deltas;
  }

  lemma OpeningsNext(deltas: seq<Delta>, d: Delta)
    ensures var key := if d.index.Some? then d.index.value else 0;
            Openings(deltas + [d]) ==
            if Keyed(key) in Openings(deltas) then Openings(deltas)
            else Openings(deltas) + [if d.index.Some? then Keyed(key) else Loose(d)]
  {
    assert (deltas + [d])[..|deltas|] == deltas;
  }

  /** A call is found exactly where its index stands among the openings. */
  lemma CallFound(calls: seq<Delta>, deltas: seq<Delta>, index: nat, at: Option<nat>)
    requires Complete(calls, deltas) && at == Position(calls, index)
    ensures at.Some? <==> Keyed(index) in Openings(deltas)
    ensures at.None? ==> Members(deltas, index) == []
    ensures forall k :: 0 <= k < |calls| ==> (at == Some(k) <==> Openings(deltas)[k] == Keyed(index))
  {
    hide IsMergeOf, Members, Openings, Position;
    OpeningsDistinct(deltas);
    var openings := Openings(deltas);
    if at.Some? {
      assert IsCallOf(calls[at.value], openings[at.value], deltas);
    }
    forall k | 0 <= k < |calls| && openings[k] == Keyed(index)
      ensures at == Some(k)
    {
      assert IsCallOf(calls[k], openings[k], deltas);
    }
  }

  lemma OneMore(calls: seq<Delta>, deltas: seq<Delta>, d: Delta)
    requires Complete(calls, deltas)
    ensures Complete(Merged(calls, d), deltas + [d])
  {
    hide Members, Openings, Extended, Position, IsCallOf;
    var key := if d.index.Some? then d.index.value else 0;
    var openings, at := Openings(deltas), Position(calls, key);
    OpeningsNext(deltas, d);
    CallFound(calls, deltas, key, at);
    forall k | 0 <= k < |openings|
      ensures IsCallOf(Merged(calls, d)[k], openings[k], deltas + [d])
    {
      if at == Some(k) {
        CallExtended(calls[k], deltas, d, key);
      } else {
        CallUntouched(calls[k], openings[k], deltas, d, key);
      }
    }
    if at.None? {
      CallBegun(deltas, d, key);
    }
  }

  lemma CallExtended(call: Delta, deltas: seq<Delta>, d: Delta, key: nat)
    requires IsCallOf(call, Keyed(key), deltas) && key == (if d.index.Some? then d.index.value else 0)
    ensures IsCallOf(Extended(call, d), Keyed(key), deltas + [d])
  {
    hide Members, IsMergeOf, Extended;
    MembersNext(deltas, d, key);
    NotEmpty(call, Members(deltas, key));
    ExtendedIsMerge(call, Members(deltas, key), d);
  }

  lemma NotEmpty(call: Delta, own: seq<Delta>)
    requires IsMergeOf(call, own)
    ensures own != []
  {
  }

  lemma CallUntouched(call: Delta, opening: Opening, deltas: seq<Delta>, d: Delta, key: nat)
    requires IsCallOf(call, opening, deltas) && opening != Keyed(key)
    requires key == (if d.index.Some? then d.index.value else 0)
    ensures IsCallOf(call, opening, deltas + [d])
  {
    hide Members, IsMergeOf;
    if opening.Keyed? {
      MembersNext(deltas, d, opening.index);
    }
  }

  lemma CallBegun(deltas: seq<Delta>, d: Delta, key: nat)
    requires key == (if d.index.Some? then d.index.value else 0) && Members(deltas, key) == []
    ensures IsCallOf(d, if d.index.Some? then Keyed(key) else Loose(d), deltas + [d])
  {
    hide Members, IsMergeOf;
    MembersNext(deltas, d, key);
    assert [] + [d] == [d];
    OpeningIsMerge(d);
  }

  // ------------------------------------------------ the main results

  /** Any deltas merge into one call for each index, made of the deltas of that
      index alone, and one for each delta without an index that comes before
      the call of index 0 begins; those that come later belong to that call.
      The calls stand in the order in which they begin. */
  lemma {:induction false} MergeIsComplete(deltas: seq<Delta>)
    ensures Complete(MergedAll([], deltas), deltas)
  {
    hide Complete, Merged;
    if deltas == [] {
      NothingMerged();
    } else {
      var front, last := deltas[..|deltas| - 1], deltas[|deltas| - 1];
      MergeIsComplete(front);
      assert deltas == front + [last];
      OneMore(MergedAll([], front), front, last);
    }
  }

  lemma NothingMerged()
    ensures Complete([], [])
  {
  }

  predicate Indexed(deltas: seq<Delta>) {
    forall i :: 0 <= i < |deltas| ==> deltas[i].index.Some?
  }

  /** The deltas with an index, in order. */
  function Own(deltas: seq<Delta>, index: nat): seq<Delta> {
    if deltas == [] then []
    else
      var front, last := deltas[..|deltas| - 1], deltas[|deltas| - 1];
      Own(front, index) + (if last.index == Some(index) then [last] else [])
  }

  /** Where every delta carries an index, the deltas of a call are those with
      its index, and every call has one. */
  lemma {:induction false} WithIndex(deltas: seq<Delta>, index: nat)
    requires Indexed(deltas)
    ensures Members(deltas, index) == Own(deltas, index)
    ensures forall k :: 0 <= k < |Openings(deltas)| ==> Openings(deltas)[k].Keyed?
  {
    if deltas != [] {
      WithIndex(deltas[..|deltas| - 1], index);
    }
  }

  /** It does not matter how the deltas are split into batches. */
  lemma {:induction false} BatchesDoNotMatter(calls: seq<Delta>, a: seq<Delta>, b: seq<Delta>)
    ensures MergedAll(MergedAll(calls, a), b) == MergedAll(calls, a + b)
    decreases |b|
  {
    hide Merged;
    if b == [] {
      assert a + b == a;
    } else {
      var front := b[..|b| - 1];
      assert (a + b)[..|a + b| - 1] == a + front;
      BatchesDoNotMatter(calls, a, front);
    }
  }

  /** Nor does it matter how the deltas of different calls are interleaved, but
      for the order of the calls: a call is made of its own deltas. */
  lemma InterleavingDoesNotMatter(a: seq<Delta>, b: seq<Delta>, index: nat)
    requires Members(a, index) == Members(b, index) != []
    ensures var p, q := Position(MergedAll([], a), index), Position(MergedAll([], b), index);
            p.Some? && q.Some? && SameCall(MergedAll([], a)[p.value], MergedAll([], b)[q.value])
  {
    hide MergedAll, Members, Openings, Position, IsMergeOf, SameCall;
    MergeIsComplete(a);
    MergeIsComplete(b);
    OpeningsDistinct(a);
    OpeningsDistinct(b);
    var p, q := Position(MergedAll([], a), index), Position(MergedAll([], b), index);
    CallFound(MergedAll([], a), a, index, p);
    CallFound(MergedAll([], b), b, index, q);
    assert IsCallOf(MergedAll([], a)[p.value], Openings(a)[p.value], a);
    assert IsCallOf(MergedAll([], b)[q.value], Openings(b)[q.value], b);
    SameMerge(MergedAll([], a)[p.value], MergedAll([], b)[q.value], Members(a, index));
  }

  /** The same call, but for missing arguments against empty ones. */
  predicate SameCall(a: Delta, b: Delta) {
    a.index == b.index && a.rest == b.rest && (a.callee.Some? <==> b.callee.Some?)
    && (a.callee.Some? ==>
          a.callee.value.name == b.callee.value.name
          && (a.callee.value.arguments == b.callee.value.arguments
              || {a.callee.value.arguments, b.callee.value.arguments} == {None, Some("")}))
  }

  lemma SameMerge(a: Delta, b: Delta, own: seq<Delta>)
    requires IsMergeOf(a, own) && IsMergeOf(b, own)
    ensures SameCall(a, b)
  {
    hide Pieces, Names, Joined, FirstNonEmpty;
  }

  /** The arguments of deltas that all carry some are joined, each in its place. */
  lemma {:induction false} AllCarry(own: seq<Delta>, texts: seq<string>)
    requires |texts| == |own|
    requires forall k :: 0 <= k < |own| ==>
               own[k].callee.Some? && own[k].callee.value.arguments == Some(texts[k])
    ensures Pieces(own) == texts
  {
    if own != [] {
      var n := |own| - 1;
      AllCarry(own[..n], texts[..n]);
      assert texts == texts[..n] + [texts[n]];
    }
  }

  /** Deltas without an index never find each other: while no call has index 0
      each of them begins a call. */
  lemma {:induction false} WithoutIndexApart(calls: seq<Delta>, deltas: seq<Delta>)
    requires forall i :: 0 <= i < |deltas| ==> deltas[i].index.None?
    requires forall i :: 0 <= i < |calls| ==> calls[i].index != Some(0)
    ensures MergedAll(calls, deltas) == calls + deltas
  {
    if deltas != [] {
      var front, last := deltas[..|deltas| - 1], deltas[|deltas| - 1];
      WithoutIndexApart(calls, front);
      assert deltas == front + [last];
    }
  }
}
