/** Model-name patterns with `*` as the only wildcard: a matcher that walks the
    literal segments with one cursor, each placed as far left as it goes. */
module Glob {
  import opened Strings

  // ------------------------------------------------ the language of a pattern

  /** A `*` stands for any string, any other character for itself. */
  ghost predicate InLanguage(pattern: string, value: string)
    decreases |pattern|
  {
    if pattern == "" then value == ""
    else if pattern[0] == '*' then exists k :: 0 <= k <= |value| && InLanguage(pattern[1..], value[k..])
    else value != "" && value[0] == pattern[0] && InLanguage(pattern[1..], value[1..])
  }

  // ------------------------------------------------ the matcher

  /** The literal segments between the wildcards. */
  function Segments(pattern: string): (segments: seq<string>)
    ensures segments != []
  {
    if pattern == "" then [""]
    else
      var rest := Segments(pattern[1..]);
      if pattern[0] == '*' then [""] + rest else [[pattern[0]] + rest[0]] + rest[1..]
  }

  method GlobMatches(givenPattern: string, givenValue: string) returns (matches: bool)
    ensures matches <==> InLanguage(LowerCase(givenPattern), LowerCase(givenValue))
  {
    hide InLanguage, Segments, StartsAt, EndsWith, Placeable;
    var pattern, value := LowerCase(givenPattern), LowerCase(givenValue);
    var segments := Segments(pattern);
    var first, tail := segments[0], segments[1..];
    FirstSegment(pattern, value);
    if tail == [] {
      return value == first;
    }
    if !StartsAt(value, first, 0) {
      return false;
    }
    ghost var anywhere := After(value, first, 0);
    var cursor := After(value, first, 0);
    var last, middle := tail[|tail| - 1], tail[..|tail| - 1];
    assert tail[0..] == tail;
    for i := 0 to |middle|
      invariant Placeable(tail, anywhere) <==> Placeable(tail[i..], cursor)
    {
      var segment := middle[i];
      Leftmost(tail[i..], cursor);
      assert tail[i..][0] == segment && tail[i..][1..] == tail[i + 1..];
      var at := Find(cursor, segment);
      if at.None? {
        return false;
      }
      cursor := After(cursor, segment, at.value);
    }
    assert tail[|middle|..] == [last];
    LastPiece([last], cursor);
    return EndsWith(cursor, last);
  }

  /** The rest of the text after a piece that stands at `at`. */
  function After(s: string, piece: string, at: nat): string
    requires StartsAt(s, piece, at)
  {
    s[at + |piece|..]
  }

  // ------------------------------------------------ why leftmost is enough

  /** The segments can be placed in order, without overlap, anywhere but for
      the last, which ends the text. */
  ghost predicate Placeable(segments: seq<string>, s: string)
    requires segments != []
    decreases |segments|
  {
    if |segments| == 1 then EndsWith(s, segments[0])
    else exists k :: 0 <= k <= |s| && StartsAt(s, segments[0], k)
                     && Placeable(segments[1..], s[k + |segments[0]|..])
  }

  lemma LastPiece(segments: seq<string>, s: string)
    requires |segments| == 1
    ensures Placeable(segments, s) <==> EndsWith(s, segments[0])
  {
  }

  /** What can be placed in a suffix can be placed in the whole. */
  lemma {:induction false} MoreRoom(segments: seq<string>, s: string, from: nat)
    requires segments != [] && from <= |s| && Placeable(segments, s[from..])
    ensures Placeable(segments, s)
  {
    hide EndsWith;
    var suffix := s[from..];
    if |segments| == 1 {
      EndsAlike(s, from, segments[0]);
    } else {
      var k :| 0 <= k <= |suffix| && StartsAt(suffix, segments[0], k)
               && Placeable(segments[1..], suffix[k + |segments[0]|..]);
      hide StartsAt;
      StartsAlike(s, from, segments[0], k);
    }
  }

  lemma EndsAlike(s: string, from: nat, piece: string)
    requires from <= |s| && EndsWith(s[from..], piece)
    ensures EndsWith(s, piece)
  {
    assert s[from..][|s| - from - |piece|..] == s[|s| - |piece|..];
  }

  lemma StartsAlike(s: string, from: nat, piece: string, k: nat)
    requires from <= |s| && StartsAt(s[from..], piece, k)
    ensures StartsAt(s, piece, from + k) && from + k + |piece| <= |s|
    ensures s[from..][k + |piece|..] == s[from + k + |piece|..]
  {
    assert s[from + k..from + k + |piece|] == s[from..][k..k + |piece|];
  }

  /** Placing the first segment as far left as it goes loses nothing. */
  lemma Leftmost(segments: seq<string>, s: string)
    requires |segments| > 1
    ensures var at := Find(s, segments[0]);
            Placeable(segments, s) <==> at.Some? && Placeable(segments[1..], After(s, segments[0], at.value))
  {
    hide Find, Placeable, StartsAt;
    var at := Find(s, segments[0]);
    FirstPlaced(segments, s);
    FoundFits(s, segments[0]);
    if k :| 0 <= k <= |s| && PlacedFrom(segments, s, k) {
      assert StartsAt(s, segments[0], k) && at.Some? && at.value <= k;
      PlacedLeft(segments, s, at.value, k);
    }
    if at.Some? && Placeable(segments[1..], After(s, segments[0], at.value)) {
      assert PlacedFrom(segments, s, at.value);
    }
  }

  lemma FoundFits(s: string, piece: string)
    ensures Find(s, piece).Some? ==> Find(s, piece).value + |piece| <= |s|
  {
    hide Find;
  }

  /** The first segment at `k` and the others somewhere after it. */
  ghost predicate PlacedFrom(segments: seq<string>, s: string, k: nat)
    requires |segments| > 1
  {
    StartsAt(s, segments[0], k) && Placeable(segments[1..], After(s, segments[0], k))
  }

  lemma FirstPlaced(segments: seq<string>, s: string)
    requires |segments| > 1
    ensures Placeable(segments, s) <==> exists k :: 0 <= k <= |s| && PlacedFrom(segments, s, k)
  {
    if Placeable(segments, s) {
      var k :| 0 <= k <= |s| && StartsAt(s, segments[0], k) && Placeable(segments[1..], s[k + |segments[0]|..]);
      assert PlacedFrom(segments, s, k);
    }
    if k :| 0 <= k <= |s| && PlacedFrom(segments, s, k) {
      assert StartsAt(s, segments[0], k) && Placeable(segments[1..], s[k + |segments[0]|..]);
    }
  }

  /** What fits after a later place fits after an earlier one. */
  lemma PlacedLeft(segments: seq<string>, s: string, at: nat, k: nat)
    requires |segments| > 1 && at <= k && StartsAt(s, segments[0], at) && PlacedFrom(segments, s, k)
    ensures Placeable(segments[1..], After(s, segments[0], at))
  {
    hide Placeable;
    var rest := After(s, segments[0], at);
    assert rest[k - at..] == After(s, segments[0], k);
    MoreRoom(segments[1..], rest, k - at);
  }

  // ------------------------------------------------ segments and the language

  /** A literal character in front of a pattern goes into the first segment. */
  lemma {:induction false} FirstSegment(pattern: string, value: string)
    ensures var segments := Segments(pattern);
            InLanguage(pattern, value) <==>
            if |segments| == 1 then value == segments[0]
            else StartsAt(value, segments[0], 0) && Placeable(segments[1..], After(value, segments[0], 0))
    decreases |pattern|, 0
  {
    hide Placeable;
    var segments := Segments(pattern);
    if pattern == "" {
    } else if pattern[0] == '*' {
      assert segments[1..] == Segments(pattern[1..]);
      AfterStar(pattern[1..], value);
      assert value[0..] == value;
    } else {
      var rest := Segments(pattern[1..]);
      assert segments[1..] == rest[1..] && segments[0][1..] == rest[0];
      if value != "" {
        FirstSegment(pattern[1..], value[1..]);
        assert |segments[0]| <= |value| ==> value[1..][|rest[0]|..] == value[|segments[0]|..];
        Shifted(value, segments[0]);
      }
    }
  }

  lemma Shifted(s: string, piece: string)
    requires s != "" && piece != ""
    ensures StartsAt(s, piece, 0) <==> s[0] == piece[0] && StartsAt(s[1..], piece[1..], 0)
    ensures s == piece <==> s[0] == piece[0] && s[1..] == piece[1..]
  {
    if s[0] == piece[0] && StartsAt(s[1..], piece[1..], 0) {
      assert s[..|piece|] == [s[0]] + s[1..][..|piece| - 1];
      assert piece == [piece[0]] + piece[1..];
    }
    if StartsAt(s, piece, 0) {
      assert s[1..][..|piece| - 1] == s[..|piece|][1..];
    }
    assert s == [s[0]] + s[1..] && piece == [piece[0]] + piece[1..];
  }

  lemma {:induction false} AfterStar(pattern: string, value: string)
    ensures (exists k :: 0 <= k <= |value| && InLanguage(pattern, value[k..]))
            <==> Placeable(Segments(pattern), value)
    decreases |pattern|, 1
  {
    hide InLanguage, Segments, Placeable;
    var segments := Segments(pattern);
    forall k | 0 <= k <= |value|
      ensures InLanguage(pattern, value[k..]) <==> PlacedAt(segments, value, k)
    {
      FirstSegment(pattern, value[k..]);
      if |segments| > 1 && k + |segments[0]| <= |value| {
        assert value[k..][|segments[0]|..] == value[k + |segments[0]|..];
        assert value[k..][..|segments[0]|] == value[k..k + |segments[0]|];
      }
    }
    SomePlace(segments, value);
    if exists k :: 0 <= k <= |value| && InLanguage(pattern, value[k..]) {
      var k :| 0 <= k <= |value| && InLanguage(pattern, value[k..]);
      assert PlacedAt(segments, value, k);
    }
    if Placeable(segments, value) {
      var k :| 0 <= k <= |value| && PlacedAt(segments, value, k);
      assert InLanguage(pattern, value[k..]);
    }
  }

  /** The first segment at `k`, the others after it. */
  ghost predicate PlacedAt(segments: seq<string>, s: string, k: nat)
    requires segments != [] && k <= |s|
  {
    if |segments| == 1 then s[k..] == segments[0]
    else StartsAt(s, segments[0], k) && Placeable(segments[1..], s[k + |segments[0]|..])
  }

  lemma SomePlace(segments: seq<string>, s: string)
    requires segments != []
    ensures Placeable(segments, s) <==> exists k :: 0 <= k <= |s| && PlacedAt(segments, s, k)
  {
    if |segments| == 1 {
      if EndsWith(s, segments[0]) {
        assert PlacedAt(segments, s, |s| - |segments[0]|);
      }
    } else if Placeable(segments, s) {
      var k :| 0 <= k <= |s| && StartsAt(s, segments[0], k) && Placeable(segments[1..], s[k + |segments[0]|..]);
      assert PlacedAt(segments, s, k);
    }
  }

  /** The case of neither the pattern nor the value makes a difference. */
  lemma CaseDoesNotMatter(pattern: string, otherPattern: string, value: string, otherValue: string)
    requires AllSameButCase(pattern, otherPattern) && AllSameButCase(value, otherValue)
    ensures InLanguage(LowerCase(pattern), LowerCase(value))
        <==> InLanguage(LowerCase(otherPattern), LowerCase(otherValue))
  {
    hide InLanguage, LowerCase, AllSameButCase;
    FoldingTells(pattern, otherPattern);
    FoldingTells(value, otherValue);
  }
}
