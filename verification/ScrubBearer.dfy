/** Scrubbing of `Bearer <token>` in any casing: a scan from mark to mark that
    replaces every token of at least eight characters. */
module ScrubBearer {
  import opened Options
  import opened Strings
  import opened Redaction

  const MARK := "bearer "

  predicate IsToken(c: char) {
    'a' <= c <= 'z' || 'A' <= c <= 'Z' || '0' <= c <= '9'
    || c == '-' || c == '_' || c == '.' || c == '~' || c == '+' || c == '/' || c == '='
  }

  /** How many token characters a text begins with. */
  function TokenLength(s: string): (n: nat)
    ensures n <= |s| && (forall i :: 0 <= i < n ==> IsToken(s[i])) && (n < |s| ==> !IsToken(s[n]))
  {
    if s == "" || !IsToken(s[0]) then 0 else 1 + TokenLength(s[1..])
  }

  /** Nothing, or a character of several bytes, comes next: one byte further on
      is no place to cut the text. */
  predicate Edge(s: string) { s == "" || s[0] as int >= 0x80 }

  /** What the scan does next: nothing more, drop the rest, keep the text up to
      a place and go on there, or keep it and hide what follows up to another. */
  datatype Cut = Finish | Drop | Keep(upTo: nat) | Hide(upTo: nat, from: nat)

  /** A mark with a short token is stepped over, token and all; a mark with none
      is stepped over with one byte more, unless that byte is not a character. */
  function CutAt(s: string, start: nat): (cut: Cut)
    requires |MARK| <= start <= |s|
    ensures cut.Keep? ==> start < cut.upTo <= |s|
    ensures cut.Hide? ==> cut.upTo == start && start + MIN_SECRET <= cut.from <= |s|
  {
    var rest := s[start..];
    var n := TokenLength(rest);
    if n >= MIN_SECRET then Hide(start, start + n)
    else if Edge(rest) then Drop
    else Keep(start + if n == 0 then 1 else n)
  }

  function NextCut(s: string): (cut: Cut)
    ensures cut.Keep? ==> 0 < cut.upTo <= |s|
    ensures cut.Hide? ==> 0 < cut.upTo < cut.from <= |s|
  {
    match FindFolded(s, MARK)
    case None => Finish
    case Some(at) => CutAt(s, at + |MARK|)
  }

  function Scrubbed(s: string): string
    decreases |s|
  {
    match NextCut(s)
    case Finish => s
    case Drop => ""
    case Keep(k) => s[..k] + Scrubbed(s[k..])
    case Hide(k, from) => s[..k] + REDACTED + Scrubbed(s[from..])
  }

  // ------------------------------------------------ the pass

  method ScrubBearer(line: string) returns (out: string)
    ensures out == Scrubbed(line)
  {
    hide Scrubbed, NextCut, TokenLength, Edge, Find, LowerCase;
    var lower := LowerCase(line);
    LowerTail(line, 0);
    out := "";
    var cursor := 0;
    assert line[0..] == line && "" + Scrubbed(line) == Scrubbed(line);
    while true
      invariant cursor <= |line| == |lower| && lower == LowerCase(line)
      invariant out + Scrubbed(line[cursor..]) == Scrubbed(line)
      decreases |line| - cursor
    {
      ghost var rest := line[cursor..];
      LowerTail(line, cursor);
      NextFound(rest);
      var found := Find(lower[cursor..], MARK);
      if found.None? {
        Finished(rest);
        break;
      }
      var start := cursor + found.value + |MARK|;
      var tail := line[start..];
      assert tail == rest[found.value + |MARK|..];
      var n := TokenLength(tail);
      if n < MIN_SECRET {
        if Edge(tail) {
          // Neither this piece nor the rest of the line can be cut out.
          Finished(rest);
          assert out + "" == out;
          return;
        }
        var next := start + if n == 0 then 1 else n;
        Kept(line, cursor, next, out);
        out := out + line[cursor..next];
        cursor := next;
        continue;
      }
      Hidden(line, cursor, start, start + n, out);
      out := out + line[cursor..start];
      out := out + REDACTED;
      cursor := start + n;
    }
    out := out + line[cursor..];
  }

  lemma LowerTail(line: string, cursor: nat)
    requires cursor <= |line|
    ensures |LowerCase(line)| == |line| && LowerCase(line)[cursor..] == LowerCase(line[cursor..])
  {
  }

  lemma NextFound(s: string)
    ensures Find(LowerCase(s), MARK) == FindFolded(s, MARK)
    ensures FindFolded(s, MARK).None? ==> NextCut(s) == Finish
    ensures FindFolded(s, MARK).Some? ==> FindFolded(s, MARK).value + |MARK| <= |s|
                                          && NextCut(s) == CutAt(s, FindFolded(s, MARK).value + |MARK|)
  {
    hide Find, LowerCase, CutAt;
  }

  lemma Finished(s: string)
    ensures NextCut(s) == Finish ==> Scrubbed(s) == s
    ensures NextCut(s) == Drop ==> Scrubbed(s) == ""
  {
    hide NextCut;
  }

  lemma Kept(line: string, cursor: nat, next: nat, out: string)
    requires cursor < next <= |line| && NextCut(line[cursor..]) == Keep(next - cursor)
    ensures out + Scrubbed(line[cursor..]) == out + line[cursor..next] + Scrubbed(line[next..])
  {
    hide NextCut;
    var rest := line[cursor..];
    assert rest[..next - cursor] == line[cursor..next] && rest[next - cursor..] == line[next..];
  }

  lemma Hidden(line: string, cursor: nat, start: nat, next: nat, out: string)
    requires cursor <= start < next <= |line| && NextCut(line[cursor..]) == Hide(start - cursor, next - cursor)
    ensures out + Scrubbed(line[cursor..]) == out + line[cursor..start] + REDACTED + Scrubbed(line[next..])
  {
    hide NextCut;
    var rest := line[cursor..];
    assert rest[..start - cursor] == line[cursor..start] && rest[next - cursor..] == line[next..];
  }

  // ------------------------------------------------ scrubbing what was scrubbed

  lemma TokenLengthIs(s: string, n: nat)
    requires n <= |s| && (forall i :: 0 <= i < n ==> IsToken(s[i])) && (n < |s| ==> !IsToken(s[n]))
    ensures TokenLength(s) == n
  {
    hide TokenLength, IsToken;
  }

  /** The first mark of a text is the first of any text that begins alike. */
  lemma SameMark(a: string, b: string, at: nat)
    requires FindFolded(a, MARK) == Some(at) && at + |MARK| <= |b| && a[..at + |MARK|] == b[..at + |MARK|]
    ensures FindFolded(b, MARK) == Some(at)
  {
    hide FindFolded, Occurs;
    NextFound(a);
    var end := at + |MARK|;
    var front := a[..end];
    assert a == front + a[end..] && b == front + b[end..];
    forall k | 0 <= k <= at
      ensures Occurs(b, MARK, k) == Occurs(a, MARK, k)
    {
      OccursEarlier(front, a[end..], MARK, k);
      OccursEarlier(front, b[end..], MARK, k);
    }
    FoundAt(b, MARK, at);
  }

  lemma Head(s: string)
    ensures Scrubbed(s) == "" || (s != "" && Scrubbed(s)[0] == s[0])
  {
    hide NextCut;
  }

  /** What was stepped over once is stepped over again. */
  lemma KeepAgain(s: string, k: nat, t: string)
    requires NextCut(s) == Keep(k) && (t == "" || (k < |s| && t[0] == s[k]))
    ensures NextCut(s[..k] + t) == Keep(k)
  {
    hide FindFolded, NextCut, CutAt;
    MarkThere(s);
    var at := FindFolded(s, MARK).value;
    NextFound(s);
    var start, out := at + |MARK|, s[..k] + t;
    assert start < k <= |s| by { KeepsMore(s, start, k); }
    assert out[..start] == s[..start];
    SameMark(s, out, at);
    CutAgain(s, start, k, t);
    NextFound(out);
  }

  lemma MarkThere(s: string)
    requires NextCut(s) != Finish
    ensures FindFolded(s, MARK).Some?
  {
    hide FindFolded, CutAt;
    NextFound(s);
  }

  lemma KeepsMore(s: string, start: nat, k: nat)
    requires |MARK| <= start <= |s| && CutAt(s, start) == Keep(k)
    ensures start < k <= |s|
  {
    hide CutAt;
  }

  lemma CutAgain(s: string, start: nat, k: nat, t: string)
    requires |MARK| <= start <= |s| && CutAt(s, start) == Keep(k)
    requires t == "" || (k < |s| && t[0] == s[k])
    ensures start < k && CutAt(s[..k] + t, start) == Keep(k)
  {
    hide TokenLength, Edge, IsToken;
    var rest, out := s[start..], s[..k] + t;
    SameStart(s, k, t, start);
    StepAgain(rest, k - start, t);
  }

  lemma StepAgain(rest: string, step: nat, t: string)
    requires var n := TokenLength(rest); n < MIN_SECRET && !Edge(rest) && step == if n == 0 then 1 else n
    requires step <= |rest| && (t == "" || (step < |rest| && t[0] == rest[step]))
    ensures TokenLength(rest[..step] + t) == TokenLength(rest) && !Edge(rest[..step] + t)
  {
    hide TokenLength, IsToken;
    var n, out := TokenLength(rest), rest[..step] + t;
    assert forall i :: 0 <= i < step ==> out[i] == rest[i];
    TokenLengthIs(out, n);
  }

  /** A marker is stepped into by its bracket and then scanned as text. */
  lemma MarkerNext(s: string, k: nat, from: nat, t: string)
    requires NextCut(s) == Hide(k, from)
    ensures NextCut(s[..k] + REDACTED + t) == Keep(k + 1)
  {
    hide FindFolded, TokenLength;
    var at := FindFolded(s, MARK).value;
    NextFound(s);
    var out := s[..k] + REDACTED + t;
    assert out[..k] == s[..k];
    SameMark(s, out, at);
    assert out[k..] == REDACTED + t;
    TokenLengthIs(out[k..], 0);
  }

  const MARKER_TAIL := "redacted]"

  lemma TailHasNoMark(t: string, k: nat)
    requires k < |MARKER_TAIL|
    ensures !Occurs(MARKER_TAIL + t, MARK, k)
  {
    var c := MARKER_TAIL[k];
    assert (MARKER_TAIL + t)[k] == c && Lower(c) != 'b' && MARK[0] == 'b';
  }

  lemma AfterMarker(t: string)
    requires NextCut(t) != Drop
    ensures Scrubbed(MARKER_TAIL + t) == MARKER_TAIL + Scrubbed(t)
  {
    hide *;
    var w, n := MARKER_TAIL + t, |MARKER_TAIL|;
    forall k | 0 <= k < n ensures !Occurs(w, MARK, k) {
      TailHasNoMark(t, k);
    }
    forall k: nat ensures Occurs(w, MARK, n + k) == Occurs(t, MARK, k) {
      OccursLater(MARKER_TAIL, t, MARK, k);
    }
    ShiftedFind(w, t, n);
    ShiftedCut(MARKER_TAIL, t);
    ShiftedScrub(MARKER_TAIL, t);
  }

  /** Behind a text without marks, the scan does what it does without it. */
  lemma ShiftedCut(front: string, t: string)
    requires var found := FindFolded(t, MARK);
             FindFolded(front + t, MARK) == if found.None? then None else Some(|front| + found.value)
    ensures NextCut(front + t) == Shifted(NextCut(t), |front|)
  {
    hide FindFolded, CutAt;
    NextFound(t);
    NextFound(front + t);
    var found := FindFolded(t, MARK);
    if found.Some? {
      CutAtShifted(front, t, found.value + |MARK|);
    }
  }

  lemma CutAtShifted(front: string, t: string, start: nat)
    requires |MARK| <= start <= |t|
    ensures CutAt(front + t, |front| + start) == Shifted(CutAt(t, start), |front|)
  {
    hide TokenLength, Edge;
    assert (front + t)[|front| + start..] == t[start..];
  }

  lemma ShiftedFind(w: string, t: string, n: nat)
    requires |w| == n + |t| && (forall k :: 0 <= k < n ==> !Occurs(w, MARK, k))
    requires forall k: nat :: Occurs(w, MARK, n + k) == Occurs(t, MARK, k)
    ensures var found := FindFolded(t, MARK);
            FindFolded(w, MARK) == if found.None? then None else Some(n + found.value)
  {
    hide FindFolded, Occurs;
    var found := FindFolded(t, MARK);
    if found.Some? {
      assert Occurs(w, MARK, n + found.value);
      forall k | 0 <= k < n + found.value ensures !Occurs(w, MARK, k) {
        assert k >= n ==> Occurs(w, MARK, n + (k - n)) == Occurs(t, MARK, k - n);
      }
      FoundAt(w, MARK, n + found.value);
    } else if FindFolded(w, MARK).Some? {
      var at := FindFolded(w, MARK).value;
      assert at >= n && Occurs(w, MARK, n + (at - n)) == Occurs(t, MARK, at - n);
      OccursFits(t, MARK, at - n);
      assert false;
    }
  }

  function Shifted(cut: Cut, n: nat): Cut {
    match cut
    case Keep(k) => Keep(n + k)
    case Hide(k, from) => Hide(n + k, n + from)
    case _ => cut
  }

  lemma ShiftedScrub(front: string, t: string)
    requires NextCut(t) != Drop && NextCut(front + t) == Shifted(NextCut(t), |front|)
    ensures Scrubbed(front + t) == front + Scrubbed(t)
  {
    hide *;
    var w, cut := front + t, NextCut(t);
    ScrubbedBy(t);
    ScrubbedBy(w);
    CutShifted(cut, |front|);
    if cut.Keep? {
      Slices(front, t, cut.upTo, cut.upTo);
      Joined(front, t[..cut.upTo], "", Scrubbed(t[cut.upTo..]));
    } else if cut.Hide? {
      Slices(front, t, cut.upTo, cut.from);
      Joined(front, t[..cut.upTo], REDACTED, Scrubbed(t[cut.from..]));
    }
  }

  lemma CutShifted(cut: Cut, n: nat)
    ensures cut.Finish? ==> Shifted(cut, n) == Finish
    ensures cut.Keep? ==> Shifted(cut, n) == Keep(n + cut.upTo)
    ensures cut.Hide? ==> Shifted(cut, n) == Cut.Hide(n + cut.upTo, n + cut.from)
  {
  }

  lemma Slices(front: string, t: string, k: nat, from: nat)
    requires k <= |t| && from <= |t|
    ensures (front + t)[..|front| + k] == front + t[..k] && (front + t)[|front| + from..] == t[from..]
  {
    assert (front + t)[|front| + from..] == t[from..];
  }

  lemma Joined(a: string, b: string, c: string, d: string)
    ensures a + b + c + d == a + (b + c + d) && a + b + d == a + (b + d)
  {
  }

  lemma NothingToScrub()
    ensures NextCut("") == Finish && Scrubbed("") == ""
  {
    hide FindFolded;
    NextFound("");
  }

  /** Scrubbing twice is scrubbing once, dropped rests included. */
  lemma {:induction false} BearerIdempotent(s: string)
    ensures Scrubbed(Scrubbed(s)) == Scrubbed(s)
    decreases |s|
  {
    hide NextCut, Scrubbed;
    ScrubbedBy(s);
    NothingToScrub();
    match NextCut(s)
    case Keep(k) =>
      var t := Scrubbed(s[k..]);
      Head(s[k..]);
      KeepAgain(s, k, t);
      BearerIdempotent(s[k..]);
      ScrubbedBy(s[..k] + t);
      CutBack(s[..k], t);
    case Hide(k, from) =>
      BearerIdempotent(s[from..]);
      HiddenTwice(s, k, from, Scrubbed(s[from..]));
    case _ =>
  }

  lemma CutBack(front: string, t: string)
    ensures (front + t)[..|front|] == front && (front + t)[|front|..] == t
  {
  }

  lemma HiddenTwice(s: string, k: nat, from: nat, t: string)
    requires NextCut(s) == Hide(k, from) && Scrubbed(t) == t
    ensures Scrubbed(s[..k] + REDACTED + t) == s[..k] + REDACTED + t
  {
    hide NextCut, Scrubbed;
    NothingToScrub();
    ScrubbedBy(t);
    AfterMarker(t);
    MarkerNext(s, k, from, t);
    var front := s[..k] + ['['];
    MarkerParts(s[..k], t);
    CutBack(front, MARKER_TAIL + t);
    ScrubbedBy(s[..k] + REDACTED + t);
  }

  lemma MarkerParts(front: string, t: string)
    ensures front + REDACTED + t == front + ['['] + (MARKER_TAIL + t)
  {
    assert REDACTED == ['['] + MARKER_TAIL;
  }

  lemma ScrubbedBy(s: string)
    ensures var cut := NextCut(s);
            Scrubbed(s) == if cut.Finish? then s
                           else if cut.Drop? then ""
                           else if cut.Keep? then s[..cut.upTo] + Scrubbed(s[cut.upTo..])
                           else s[..cut.upTo] + REDACTED + Scrubbed(s[cut.from..])
  {
  }

  // ------------------------------------------------ what is kept

  /** The scan reaches a mark with an edge behind it. */
  predicate Overshoots(s: string)
    decreases |s|
  {
    match NextCut(s)
    case Finish => false
    case Drop => true
    case Keep(k) => Overshoots(s[k..])
    case Hide(_, from) => Overshoots(s[from..])
  }

  ghost predicate EdgeIn(s: string) {
    exists at: nat :: EdgeAt(s, at)
  }

  predicate EdgeAt(s: string, at: nat) {
    Occurs(s, MARK, at) && Edge(s[at + |MARK|..])
  }

  lemma DropHasEdge(s: string)
    requires NextCut(s) == Drop
    ensures s != "" && EdgeIn(s)
  {
    hide FindFolded, Occurs;
    NextFound(s);
    assert EdgeAt(s, FindFolded(s, MARK).value);
  }

  /** A line is what the pass keeps and what it loses.  What it keeps comes out
      with disjoint pieces replaced by the marker; it loses something exactly
      when the scan overshoots an edge, and then from before that edge on. */
  lemma {:induction false} KeptAndLost(s: string) returns (kept: string, lost: string)
    ensures s == kept + lost && Redacts(kept, Scrubbed(s))
    ensures lost != "" <==> Overshoots(s)
    ensures lost != "" ==> EdgeIn(lost)
    decreases |s|
  {
    hide NextCut, Redacts, EdgeIn;
    match NextCut(s)
    case Finish =>
      kept, lost := s, "";
      RedactsNothing(s);
    case Drop =>
      kept, lost := "", s;
      RedactsNothing("");
      DropHasEdge(s);
    case Keep(k) =>
      var more, rest := KeptAndLost(s[k..]);
      kept, lost := s[..k] + more, rest;
      assert s == s[..k] + s[k..] == kept + lost;
      RedactsFront(s[..k], more, Scrubbed(s[k..]));
    case Hide(k, from) =>
      var more, rest := KeptAndLost(s[from..]);
      kept, lost := s[..k] + s[k..from] + more, rest;
      assert s == s[..k] + s[k..from] + s[from..] == kept + lost;
      RedactsNext(s[..k], s[k..from], more, Scrubbed(s[from..]));
  }

  /** Unless a mark stands before the line's end or a character of several
      bytes, the pass replaces pieces and loses nothing. */
  lemma NoEdgeNoLoss(s: string)
    requires !EdgeIn(s)
    ensures !Overshoots(s) && Redacts(s, Scrubbed(s))
  {
    hide EdgeIn, Overshoots, Redacts, Scrubbed;
    var kept, lost := KeptAndLost(s);
    if lost != "" {
      EdgeLater(kept, lost);
    }
    assert lost == "" ==> kept + lost == kept;
  }

  lemma EdgeLater(a: string, b: string)
    requires EdgeIn(b)
    ensures EdgeIn(a + b)
  {
    hide Occurs, Edge;
    var at: nat :| EdgeAt(b, at);
    OccursFits(b, MARK, at);
    OccursLater(a, b, MARK, at);
    assert (a + b)[|a| + at + |MARK|..] == b[at + |MARK|..];
    assert EdgeAt(a + b, |a| + at);
  }

  /** `mark` is the first mark of a text, after `before`. */
  predicate FirstMark(before: string, mark: string) {
    |mark| == |MARK| && Occurs(before + mark, MARK, |before|)
    && forall k :: 0 <= k < |before| ==> !Occurs(before + mark, MARK, k)
  }

  lemma MarkFound(before: string, mark: string, rest: string)
    requires FirstMark(before, mark)
    ensures FindFolded(before + mark + rest, MARK) == Some(|before|)
    ensures (before + mark + rest)[|before| + |MARK|..] == rest
  {
    hide FindFolded, Occurs;
    FoundAt(before + mark, MARK, |before|);
    var whole := before + mark + rest;
    assert whole[..|before| + |MARK|] == before + mark;
    SameMark(before + mark, whole, |before|);
  }

  /** A token of eight or more after the first mark is gone, all of it, with
      everything around it in place. */
  lemma TokenReplaced(before: string, mark: string, token: string, rest: string)
    requires FirstMark(before, mark)
    requires |token| >= MIN_SECRET && (forall i :: 0 <= i < |token| ==> IsToken(token[i]))
    requires rest == "" || !IsToken(rest[0])
    ensures Scrubbed(before + mark + (token + rest)) == before + mark + REDACTED + Scrubbed(rest)
  {
    hide *;
    var s := before + mark + (token + rest);
    TokenCut(before, mark, token, rest);
    ScrubbedBy(s);
    var k := |before + mark|;
    assert s[..k] == before + mark && s[k + |token|..] == rest;
  }

  lemma TokenCut(before: string, mark: string, token: string, rest: string)
    requires FirstMark(before, mark)
    requires |token| >= MIN_SECRET && (forall i :: 0 <= i < |token| ==> IsToken(token[i]))
    requires rest == "" || !IsToken(rest[0])
    ensures NextCut(before + mark + (token + rest)) == Hide(|before + mark|, |before + mark| + |token|)
  {
    hide FindFolded, Occurs, TokenLength, IsToken, Edge;
    MarkFound(before, mark, token + rest);
    TokenLengthIs(token + rest, |token|);
    NextFound(before + mark + (token + rest));
  }

  /** A shorter token stays, and so does the one character that stands where a
      token could. */
  lemma PlaceholderKept(before: string, mark: string, token: string, rest: string)
    requires FirstMark(before, mark)
    requires token != "" && |token| < MIN_SECRET && token[0] as int < 0x80
    requires if IsToken(token[0])
             then (forall i :: 0 <= i < |token| ==> IsToken(token[i])) && (rest == "" || !IsToken(rest[0]))
             else |token| == 1
    ensures Scrubbed(before + mark + (token + rest)) == before + mark + token + Scrubbed(rest)
  {
    hide *;
    var s := before + mark + (token + rest);
    PlaceholderCut(before, mark, token, rest);
    ScrubbedBy(s);
    var k := |before + mark| + |token|;
    assert s[..k] == before + mark + token && s[k..] == rest;
  }

  lemma PlaceholderCut(before: string, mark: string, token: string, rest: string)
    requires FirstMark(before, mark)
    requires token != "" && |token| < MIN_SECRET && token[0] as int < 0x80
    requires if IsToken(token[0])
             then (forall i :: 0 <= i < |token| ==> IsToken(token[i])) && (rest == "" || !IsToken(rest[0]))
             else |token| == 1
    ensures NextCut(before + mark + (token + rest)) == Keep(|before + mark| + |token|)
  {
    hide FindFolded, Occurs, TokenLength, IsToken;
    MarkFound(before, mark, token + rest);
    TokenLengthIs(token + rest, if IsToken(token[0]) then |token| else 0);
    NextFound(before + mark + (token + rest));
  }

  /** A mark with an edge behind it takes the line with it, back to the mark
      before: all of the line when it is the first. */
  lemma EdgeLosesLine(before: string, mark: string, rest: string)
    requires FirstMark(before, mark) && Edge(rest)
    ensures Scrubbed(before + mark + rest) == ""
  {
    hide FindFolded, Occurs, TokenLength;
    MarkFound(before, mark, rest);
    NextFound(before + mark + rest);
    TokenLengthIs(rest, 0);
  }

  // ------------------------------------------------ what can remain behind a mark

  /** A mark with a token of eight or more behind it. */
  predicate Exposed(s: string, at: nat) {
    Occurs(s, MARK, at) && at + |MARK| <= |s| && TokenLength(s[at + |MARK|..]) >= MIN_SECRET
  }

  ghost predicate Clean(s: string) {
    forall at: nat :: !Exposed(s, at)
  }

  /** The place is in the middle of a mark, before its blank, and a token of
      eight or more comes behind that. */
  predicate Across(s: string, k: nat) {
    6 <= k < |s| && Occurs(s, MARK, k - 6) && TokenLength(s[k + 1..]) >= MIN_SECRET
  }

  /** The scan steps over a short token that ends in a mark's letters, and so
      over the mark, with a token of eight or more behind it. */
  predicate StepsOver(s: string)
    decreases |s|
  {
    match NextCut(s)
    case Finish => false
    case Drop => false
    case Keep(k) => (Across(s, k) && NextCut(s[k..]) != Drop) || StepsOver(s[k..])
    case Hide(_, from) => StepsOver(s[from..])
  }

  lemma ExposedLater(front: string, t: string, p: nat)
    ensures Exposed(front + t, |front| + p) <==> Exposed(t, p)
  {
    hide TokenLength, Occurs;
    OccursLater(front, t, MARK, p);
    if p + |MARK| <= |t| {
      assert (front + t)[|front| + p + |MARK|..] == t[p + |MARK|..];
    }
  }

  lemma CleanSplit(front: string, t: string)
    ensures Clean(front + t) <==> Clean(t) && forall p: nat :: p < |front| ==> !Exposed(front + t, p)
  {
    hide Exposed;
    forall p: nat ensures Exposed(front + t, |front| + p) == Exposed(t, p) {
      ExposedLater(front, t, p);
    }
    if Clean(t) && forall p: nat :: p < |front| ==> !Exposed(front + t, p) {
      forall p: nat ensures !Exposed(front + t, p) {
        if p >= |front| {
          assert Exposed(front + t, |front| + (p - |front|)) == Exposed(t, p - |front|);
        }
      }
    }
  }

  lemma MarkLetters(s: string, p: nat, j: nat)
    requires Occurs(s, MARK, p) && j < |MARK|
    ensures p + |MARK| <= |s| && Lower(s[p + j]) == MARK[j]
  {
  }

  lemma OnlyFirstIsB(j: nat)
    requires j < |MARK|
    ensures (MARK[j] == 'b' <==> j == 0) && (MARK[j] == ' ' <==> j == 6) && (j < 6 ==> IsToken(MARK[j]))
  {
  }

  lemma TokenFolds(c: char)
    ensures IsToken(Lower(c)) ==> IsToken(c)
    ensures Lower(c) == ' ' <==> c == ' '
  {
  }

  /** No mark begins inside a mark. */
  lemma NotInMark(s: string, at: nat, p: nat)
    requires Occurs(s, MARK, at) && at < p < at + |MARK|
    ensures !Occurs(s, MARK, p)
  {
    hide Occurs;
    MarkLetters(s, at, p - at);
    OnlyFirstIsB(p - at);
    if Occurs(s, MARK, p) {
      MarkLetters(s, p, 0);
    }
  }

  /** A mark's blank is no token character, and its letters are. */
  lemma MarkNeeds(s: string, p: nat, i: nat)
    requires p <= i < p + |MARK| && i < |s|
    requires if i == p + 6 then IsToken(s[i]) else !IsToken(s[i])
    ensures !Occurs(s, MARK, p)
  {
    hide Occurs, IsToken;
    if Occurs(s, MARK, p) {
      MarkLetters(s, p, i - p);
      OnlyFirstIsB(i - p);
      TokenFolds(s[i]);
      assert !IsToken(' ') by { BlankIsNoToken(); }
    }
  }

  lemma BlankIsNoToken()
    ensures !IsToken(' ')
  {
  }

  /** What a step over a mark looks like. */
  lemma KeepShape(s: string, k: nat) returns (at: nat)
    requires NextCut(s) == Keep(k)
    ensures FindFolded(s, MARK) == Some(at) && Occurs(s, MARK, at) && at + |MARK| < k <= |s|
    ensures var start := at + |MARK|;
            var n := TokenLength(s[start..]);
            n < MIN_SECRET && !Edge(s[start..]) && k == start + (if n == 0 then 1 else n)
    ensures if IsToken(s[at + |MARK|])
            then (forall i :: at + |MARK| <= i < k ==> IsToken(s[i])) && (k < |s| ==> !IsToken(s[k]))
            else k == at + |MARK| + 1
  {
    hide FindFolded, IsToken, Occurs, Edge, TokenLength;
    at := FindFolded(s, MARK).value;
    NextFound(s);
    var start := at + |MARK|;
    var rest := s[start..];
    var n := TokenLength(rest);
    assert forall i :: start <= i < |s| ==> s[i] == rest[i - start];
    assert n == 0 ==> !IsToken(rest[0]) by { NotEdge(rest); }
    NotEdge(rest);
  }

  lemma NotEdge(s: string)
    ensures !Edge(s) ==> s != ""
    ensures s != "" && TokenLength(s) == 0 ==> !IsToken(s[0])
  {
  }

  /** Behind a blank, a scrubbed text begins with the token the text began with. */
  lemma TokenKept(r: string)
    requires r != "" && r[0] == ' ' && NextCut(r) != Drop
    ensures Scrubbed(r) != "" && Scrubbed(r)[0] == ' '
    ensures TokenLength(Scrubbed(r)[1..]) == TokenLength(r[1..])
  {
    hide FindFolded, Occurs, TokenLength, IsToken, CutAt, Scrubbed;
    ScrubbedBy(r);
    NextFound(r);
    var found := FindFolded(r, MARK);
    if found.Some? {
      var at := found.value;
      MarkLetters(r, at, 0);
      MarkLetters(r, at, 6);
      TokenFolds(r[at]);
      TokenFolds(r[at + 6]);
      SameToken(r, Scrubbed(r), at + 6);
    }
  }

  lemma SameToken(r: string, t: string, at: nat)
    requires 0 < at < |r| && at < |t| && t[..at + 1] == r[..at + 1] && r[at] == ' '
    ensures t[0] == r[0] && TokenLength(t[1..]) == TokenLength(r[1..])
  {
    hide TokenLength, IsToken;
    BlankIsNoToken();
    var n := TokenLength(r[1..]);
    forall i | 0 <= i <= at ensures t[i] == r[i] {
      assert t[..at + 1][i] == r[..at + 1][i];
    }
    assert r[1..][at - 1] == r[at];
    assert forall i :: 0 <= i < n ==> t[1..][i] == r[1..][i];
    assert t[1..][n] == r[1..][n];
    TokenLengthIs(t[1..], n);
  }

  /** Before the place where the scan goes on, only the mark across it can be
      exposed. */
  lemma KeepExposes(s: string, k: nat, t: string, p: nat)
    requires NextCut(s) == Keep(k) && t == Scrubbed(s[k..]) && p < k
    ensures Exposed(s[..k] + t, p) <==> p == k - 6 && Across(s, k) && NextCut(s[k..]) != Drop
  {
    hide FindFolded, Occurs, TokenLength, IsToken, NextCut, Scrubbed, Edge;
    var at := KeepShape(s, k);
    var start, out := at + |MARK|, s[..k] + t;
    Head(s[k..]);
    assert s == s[..k] + s[k..];
    if p < at {
      OccursEarlier(s[..k], s[k..], MARK, p);
      OccursEarlier(s[..k], t, MARK, p);
    } else if p == at {
      SameStart(s, k, t, start);
      assert out[start..] == s[start..][..k - start] + t;
      StepAgain(s[start..], k - start, t);
    } else if p < start {
      OccursEarlier(s[..k], s[k..], MARK, at);
      OccursEarlier(s[..k], t, MARK, at);
      NotInMark(out, at, p);
      NoMarkAcross(s, at, k, p);
    } else if p + 6 == k {
      AcrossKept(s, k, t);
    } else {
      BehindMark(s, at, k, t, p);
    }
  }

  lemma SameStart(s: string, k: nat, t: string, start: nat)
    requires start <= k <= |s|
    ensures s[start..][..k - start] == s[start..k]
    ensures (s[..k] + t)[start..] == s[start..k] + t
    ensures k < |s| ==> s[start..][k - start] == s[k]
  {
  }

  lemma NoMarkAcross(s: string, at: nat, k: nat, p: nat)
    requires Occurs(s, MARK, at) && at < p < at + |MARK|
    ensures p == k - 6 ==> !Across(s, k)
  {
    hide Occurs, TokenLength;
    NotInMark(s, at, p);
  }

  lemma BehindMark(s: string, at: nat, k: nat, t: string, p: nat)
    requires at + |MARK| <= p < k <= |s| && p + 6 != k && (t == "" || (k < |s| && t[0] == s[k]))
    requires if IsToken(s[at + |MARK|])
             then (forall i :: at + |MARK| <= i < k ==> IsToken(s[i])) && (k < |s| ==> !IsToken(s[k]))
             else k == at + |MARK| + 1
    ensures !Exposed(s[..k] + t, p)
  {
    hide TokenLength, IsToken, Occurs;
    var out := s[..k] + t;
    if !IsToken(s[at + |MARK|]) {
      MarkNeeds(out, p, p);
    } else if p + 6 < k {
      MarkNeeds(out, p, p + 6);
    } else if t != "" {
      MarkNeeds(out, p, k);
    } else if Occurs(out, MARK, p) {
      OccursFits(out, MARK, p);
    }
  }

  lemma AcrossKept(s: string, k: nat, t: string)
    requires 6 <= k <= |s| && t == Scrubbed(s[k..])
    ensures Exposed(s[..k] + t, k - 6) <==> Across(s, k) && NextCut(s[k..]) != Drop
  {
    hide Occurs, TokenLength, NextCut, Scrubbed;
    var out, p, rest := s[..k] + t, k - 6, s[k..];
    ScrubbedBy(rest);
    Head(rest);
    if Occurs(out, MARK, p) || Occurs(s, MARK, p) {
      var whole := if Occurs(out, MARK, p) then out else s;
      MarkLetters(whole, p, 6);
      TokenFolds(whole[k]);
    }
    if t != "" && rest[0] == ' ' && NextCut(rest) != Drop {
      TokenKept(rest);
      SixLetters(s, out, k);
      assert out[k + 1..] == t[1..] && s[k + 1..] == rest[1..];
    } else if rest != "" && NextCut(rest) != Drop && t == "" {
      EmptyOnlyByDrop(rest);
    }
  }

  lemma EmptyOnlyByDrop(s: string)
    requires s != "" && NextCut(s) != Drop
    ensures Scrubbed(s) != ""
  {
    hide NextCut;
  }

  lemma SixLetters(s: string, t: string, k: nat)
    requires 6 <= k < |s| && k < |t| && s[..k] == t[..k] && s[k] == t[k]
    ensures Occurs(s, MARK, k - 6) == Occurs(t, MARK, k - 6)
  {
    forall q | 0 <= q <= k ensures s[q] == t[q] {
      assert q < k ==> s[..k][q] == t[..k][q];
    }
  }

  /** Up to the end of a marker nothing is exposed. */
  lemma HideExposes(s: string, k: nat, from: nat, t: string, p: nat)
    requires NextCut(s) == Hide(k, from) && p < k + |REDACTED|
    ensures !Exposed(s[..k] + REDACTED + t, p)
  {
    hide FindFolded, Occurs, TokenLength, IsToken;
    NextFound(s);
    var at := FindFolded(s, MARK).value;
    var front, out := s[..k], s[..k] + REDACTED + t;
    assert s == front + s[k..] && out == front + (REDACTED + t);
    if p < at {
      OccursEarlier(front, s[k..], MARK, p);
      OccursEarlier(front, REDACTED + t, MARK, p);
    } else if p == at {
      assert out[k..] == REDACTED + t;
      BracketIsNoToken();
      TokenLengthIs(out[k..], 0);
    } else if p < k {
      OccursEarlier(front, s[k..], MARK, at);
      OccursEarlier(front, REDACTED + t, MARK, at);
      NotInMark(out, at, p);
    } else {
      OccursLater(front, REDACTED + t, MARK, p - k);
      MarkerHasNoMark(t, p - k);
    }
  }

  lemma BracketIsNoToken()
    ensures !IsToken('[')
  {
  }

  lemma MarkerHasNoMark(t: string, j: nat)
    requires j < |REDACTED|
    ensures !Occurs(REDACTED + t, MARK, j)
  {
    var c := REDACTED[j];
    assert (REDACTED + t)[j] == c && Lower(c) != 'b' && MARK[0] == 'b';
  }

  /** In the output no token of eight or more stands behind a mark, if and only
      if the scan steps over no mark that has one. */
  lemma {:induction false} CleanExactly(s: string)
    ensures Clean(Scrubbed(s)) <==> !StepsOver(s)
    decreases |s|
  {
    hide NextCut, Scrubbed, Clean, Exposed, Across;
    ScrubbedBy(s);
    match NextCut(s)
    case Keep(k) =>
      var t := Scrubbed(s[k..]);
      CleanExactly(s[k..]);
      CleanSplit(s[..k], t);
      forall p: nat | p < k
        ensures Exposed(s[..k] + t, p) <==> p == k - 6 && Across(s, k) && NextCut(s[k..]) != Drop
      {
        KeepExposes(s, k, t, p);
      }
      AcrossAt(s, k);
      if k >= 6 {
        KeepExposes(s, k, t, k - 6);
      }
    case Hide(k, from) =>
      var t := Scrubbed(s[from..]);
      CleanExactly(s[from..]);
      CleanSplit(s[..k] + REDACTED, t);
      forall p: nat | p < k + |REDACTED| ensures !Exposed(s[..k] + REDACTED + t, p) {
        HideExposes(s, k, from, t, p);
      }
    case _ =>
      NothingExposed(s);
  }

  lemma AcrossAt(s: string, k: nat)
    ensures Across(s, k) ==> k >= 6
  {
  }

  lemma NothingExposed(s: string)
    ensures Clean("") && (NextCut(s) == Finish ==> Clean(s))
  {
    hide FindFolded, Occurs, TokenLength;
    NextFound(s);
    NothingToScrub();
    forall at: nat ensures !Exposed("", at) {
      if Occurs("", MARK, at) {
        OccursFits("", MARK, at);
      }
    }
    if NextCut(s) == Finish {
      forall at: nat ensures !Exposed(s, at) {
        if at <= |s| {
          assert FindFolded(s, MARK).None? ==> !Occurs(s, MARK, at);
          FinishFindsNone(s);
        }
      }
    }
  }

  lemma FinishFindsNone(s: string)
    requires NextCut(s) == Finish
    ensures FindFolded(s, MARK).None?
  {
    hide FindFolded;
    NextFound(s);
  }

  /** One mark directly behind another, or with one token character between. */
  predicate Close(s: string, p: nat, q: nat) {
    Occurs(s, MARK, p) && Occurs(s, MARK, q) && p + |MARK| <= q <= p + |MARK| + 1
    && (q == p + |MARK| + 1 ==> p + |MARK| < |s| && IsToken(s[p + |MARK|]))
  }

  ghost predicate NoneClose(s: string) {
    forall p: nat, q: nat :: !Close(s, p, q)
  }

  lemma CloseLater(front: string, t: string, p: nat, q: nat)
    ensures Close(t, p, q) ==> Close(front + t, |front| + p, |front| + q)
  {
    hide Occurs, IsToken;
    OccursLater(front, t, MARK, p);
    OccursLater(front, t, MARK, q);
  }

  lemma NoneCloseLater(s: string, k: nat)
    requires NoneClose(s) && k <= |s|
    ensures NoneClose(s[k..])
  {
    hide Close;
    assert s == s[..k] + s[k..];
    forall p: nat, q: nat ensures !Close(s[k..], p, q) {
      CloseLater(s[..k], s[k..], p, q);
    }
  }

  /** Where no two marks stand that close, no token of eight or more is left
      behind a mark. */
  lemma {:induction false} NoTokenLeft(s: string)
    requires NoneClose(s)
    ensures !StepsOver(s) && Clean(Scrubbed(s))
    decreases |s|
  {
    hide NextCut, Scrubbed, Clean, Across, NoneClose;
    match NextCut(s) {
      case Keep(k) =>
        NoneCloseLater(s, k);
        NoTokenLeft(s[k..]);
        NotAcross(s, k);
      case Hide(_, from) =>
        NoneCloseLater(s, from);
        NoTokenLeft(s[from..]);
      case _ =>
    }
    CleanExactly(s);
  }

  lemma NotAcross(s: string, k: nat)
    requires NoneClose(s) && NextCut(s) == Keep(k)
    ensures !Across(s, k)
  {
    hide FindFolded, Occurs, TokenLength, IsToken, NextCut, Edge;
    var at := KeepShape(s, k);
    if k >= 6 {
      assert !Close(s, at, k - 6);
      if at < k - 6 < at + |MARK| {
        NotInMark(s, at, k - 6);
      }
    }
  }

  /** A token behind two marks in a row is left. */
  lemma TokenLeft(token: string)
    requires |token| >= MIN_SECRET && forall i :: 0 <= i < |token| ==> IsToken(token[i])
    ensures var s := MARK + (MARK + token); Scrubbed(s) == s && Exposed(s, 7)
  {
    hide Occurs, TokenLength, IsToken, NextCut, Scrubbed, FirstMark, Exposed;
    var rest := " " + token;
    NoMarkIn(token);
    FinishUnchanged(rest);
    MarkIsFirst();
    BearerIsToken();
    PlaceholderKept("", MARK, "bearer", rest);
    TwoMarks(token);
    SecondExposed(token);
  }

  lemma TwoMarks(token: string)
    ensures "" + MARK + ("bearer" + (" " + token)) == MARK + (MARK + token)
    ensures "" + MARK + "bearer" + (" " + token) == MARK + (MARK + token)
  {
    assert MARK == "bearer" + " ";
  }

  lemma SecondExposed(token: string)
    requires |token| >= MIN_SECRET && forall i :: 0 <= i < |token| ==> IsToken(token[i])
    ensures Exposed(MARK + (MARK + token), 7)
  {
    hide Occurs, TokenLength, IsToken;
    var s := MARK + (MARK + token);
    TokenLengthIs(token, |token|);
    assert s[14..] == token;
    MarkIsFirst();
    OccursLater(MARK, MARK + token, MARK, 0);
    OccursEarlier(MARK, token, MARK, 0);
  }

  lemma MarkIsFirst()
    ensures FirstMark("", MARK) && Occurs(MARK, MARK, 0)
  {
    assert "" + MARK == MARK;
  }

  lemma BearerIsToken()
    ensures forall i :: 0 <= i < 6 ==> IsToken("bearer"[i])
    ensures !IsToken(' ')
  {
  }

  lemma NoMarkIn(token: string)
    requires forall i :: 0 <= i < |token| ==> IsToken(token[i])
    ensures NextCut(" " + token) == Finish
  {
    hide FindFolded, Occurs, TokenLength, IsToken, CutAt;
    var s := " " + token;
    NextFound(s);
    if FindFolded(s, MARK).Some? {
      var at := FindFolded(s, MARK).value;
      OccursFits(s, MARK, at);
      MarkNeeds(s, at, at + 6);
    }
  }

  lemma FinishUnchanged(s: string)
    requires NextCut(s) == Finish
    ensures Scrubbed(s) == s
  {
    hide NextCut;
  }
}
