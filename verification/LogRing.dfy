/** A bounded tail of a child's output: the most recent lines, each cut to a
    number of bytes on a character boundary.  Text is its UTF-8 bytes. */
module LogRing {
  import opened Utf8

  const U64_MAX: nat := 0xFFFF_FFFF_FFFF_FFFF

  const MARK_TEXT: string := "\U{2026}[truncated]"
  const MARK_SIZE: nat := 14

  // ------------------------------------------------ one line

  predicate IsBreak(b: nat) { b == 10 || b == 13 }

  /** Without the line breaks at its end. */
  function Trimmed(line: Bytes): Bytes {
    if line != [] && IsBreak(line[|line| - 1]) then Trimmed(line[..|line| - 1]) else line
  }

  predicate Boundary(text: Bytes, i: nat) {
    i == 0 || i == |text| || (i < |text| && !Continuation(text[i]))
  }

  /** The last character boundary up to a limit. */
  function CutPoint(text: Bytes, limit: nat): (cut: nat)
    ensures cut <= limit && (limit <= |text| ==> Boundary(text, cut))
    ensures forall i :: cut < i <= limit ==> !Boundary(text, i)
  {
    if limit == 0 || Boundary(text, limit) then limit else CutPoint(text, limit - 1)
  }

  /** A line as it is kept. */
  function Stored(line: Bytes, maxLine: nat): Bytes {
    var text := Trimmed(line);
    if |text| > maxLine && maxLine > MARK_SIZE then text[..CutPoint(text, maxLine - MARK_SIZE)] + Encode(MARK_TEXT)
    else text
  }

  // ------------------------------------------------ a history of calls

  datatype Call = Push(line: Bytes) | Clear

  /** The lines stored since the last clear. */
  function Since(calls: seq<Call>, maxLine: nat): seq<Bytes> {
    if calls == [] then []
    else
      match calls[|calls| - 1]
      case Clear => []
      case Push(line) => Since(calls[..|calls| - 1], maxLine) + [Stored(line, maxLine)]
  }

  function Last<T>(s: seq<T>, n: nat): seq<T> {
    if |s| <= n then s else s[|s| - n..]
  }

  function Pushes(calls: seq<Call>): nat {
    if calls == [] then 0
    else Pushes(calls[..|calls| - 1]) + (if calls[|calls| - 1].Push? then 1 else 0)
  }

  /** Lines pushed to a full ring. */
  function Evictions(calls: seq<Call>, capacity: nat, maxLine: nat): nat {
    if calls == [] then 0
    else
      var front := calls[..|calls| - 1];
      Evictions(front, capacity, maxLine)
      + (if calls[|calls| - 1].Push? && |Since(front, maxLine)| >= capacity then 1 else 0)
  }

  /** Lines a clear took away. */
  function Cleared(calls: seq<Call>, capacity: nat, maxLine: nat): nat {
    if calls == [] then 0
    else
      var front := calls[..|calls| - 1];
      Cleared(front, capacity, maxLine)
      + (if calls[|calls| - 1].Clear? then |Last(Since(front, maxLine), capacity)| else 0)
  }

  // ------------------------------------------------ the ring

  class LogRing {
    var lines: seq<Bytes>
    const capacity: nat
    const maxLine: nat
    var dropped: nat
    ghost var calls: seq<Call>

    /** The ring holds the last lines since the last clear, and has counted
        every eviction up to the counter's ceiling. */
    ghost predicate Valid()
      reads this
    {
      capacity >= 1 && maxLine > MARK_SIZE
      && lines == Last(Since(calls, maxLine), capacity)
      && dropped == (if Evictions(calls, capacity, maxLine) < U64_MAX then Evictions(calls, capacity, maxLine)
                     else U64_MAX)
    }

    constructor (givenCapacity: nat, givenMaxLine: nat)
      ensures Valid() && calls == [] && lines == [] && dropped == 0
      ensures capacity == (if givenCapacity < 1 then 1 else givenCapacity)
      ensures maxLine == (if givenMaxLine < MARK_SIZE + 1 then MARK_SIZE + 1 else givenMaxLine)
    {
      lines, dropped, calls := [], 0, [];
      capacity := if givenCapacity < 1 then 1 else givenCapacity;
      maxLine := if givenMaxLine < MARK_SIZE + 1 then MARK_SIZE + 1 else givenMaxLine;
    }

    method Push(line: Bytes)
      requires Valid()
      modifies this
      ensures Valid() && calls == old(calls) + [Call.Push(line)]
    {
      hide Since, Evictions, Stored, Last;
      var stored := Shortened(line, maxLine);
      PushNext(calls, line, capacity, maxLine);
      if |lines| == capacity {
        lines := lines[1..];
        dropped := if dropped < U64_MAX then dropped + 1 else U64_MAX;
      }
      lines := lines + [stored];
      calls := calls + [Call.Push(line)];
    }

    method Clear()
      requires Valid()
      modifies this
      ensures Valid() && calls == old(calls) + [Call.Clear] && lines == [] && dropped == old(dropped)
    {
      ClearNext(calls, capacity, maxLine);
      lines := [];
      calls := calls + [Call.Clear];
    }
  }

  /** Cut a line that is too long back to a character boundary, and mark it. */
  method Shortened(line: Bytes, maxLine: nat) returns (stored: Bytes)
    requires maxLine > MARK_SIZE
    ensures stored == Stored(line, maxLine)
  {
    hide Trimmed, Encode, Boundary;
    var text := Trimmed(line);
    if |text| > maxLine {
      var end: nat := maxLine - MARK_SIZE;
      while end > 0 && !Boundary(text, end)
        invariant end <= maxLine - MARK_SIZE
        invariant CutPoint(text, end) == CutPoint(text, maxLine - MARK_SIZE)
      {
        end := end - 1;
      }
      stored := text[..end] + Encode(MARK_TEXT);
    } else {
      stored := text;
    }
  }

  lemma PushNext(calls: seq<Call>, line: Bytes, capacity: nat, maxLine: nat)
    requires capacity >= 1
    ensures var after := calls + [Push(line)];
            var now := Last(Since(calls, maxLine), capacity);
            Last(Since(after, maxLine), capacity)
            == (if |now| == capacity then now[1..] else now) + [Stored(line, maxLine)]
            && Evictions(after, capacity, maxLine)
               == Evictions(calls, capacity, maxLine) + (if |now| == capacity then 1 else 0)
            && |now| <= capacity
  {
    hide Stored;
    assert (calls + [Push(line)])[..|calls|] == calls;
    var since := Since(calls, maxLine);
    LastNext(since, Stored(line, maxLine), capacity);
  }

  lemma LastNext<T>(s: seq<T>, x: T, n: nat)
    requires n >= 1
    ensures |Last(s, n)| == (if |s| < n then |s| else n)
    ensures Last(s + [x], n) == (if |s| >= n then Last(s, n)[1..] else Last(s, n)) + [x]
  {
  }

  lemma ClearNext(calls: seq<Call>, capacity: nat, maxLine: nat)
    ensures Since(calls + [Clear], maxLine) == []
    ensures Evictions(calls + [Clear], capacity, maxLine) == Evictions(calls, capacity, maxLine)
  {
    assert (calls + [Clear])[..|calls|] == calls;
  }

  // ------------------------------------------------ conservation

  /** Every line pushed is retained, was evicted, or was cleared. */
  lemma {:induction false} NoLineUnaccounted(calls: seq<Call>, capacity: nat, maxLine: nat)
    requires capacity >= 1
    ensures Pushes(calls) == |Last(Since(calls, maxLine), capacity)| + Evictions(calls, capacity, maxLine)
                             + Cleared(calls, capacity, maxLine)
  {
    hide Stored;
    if calls != [] {
      var front, last := calls[..|calls| - 1], calls[|calls| - 1];
      NoLineUnaccounted(front, capacity, maxLine);
      if last.Push? {
        assert calls == front + [Push(last.line)];
        PushNext(front, last.line, capacity, maxLine);
      }
    }
  }

  /** The drop counter is what was pushed and is neither retained nor cleared,
      until it reaches its ceiling. */
  lemma DroppedCounts(calls: seq<Call>, capacity: nat, maxLine: nat, dropped: nat)
    requires capacity >= 1 && Pushes(calls) <= U64_MAX
    requires dropped == (if Evictions(calls, capacity, maxLine) < U64_MAX then Evictions(calls, capacity, maxLine)
                         else U64_MAX)
    ensures dropped == Pushes(calls) - |Last(Since(calls, maxLine), capacity)| - Cleared(calls, capacity, maxLine)
  {
    hide Since, Evictions, Cleared, Pushes;
    NoLineUnaccounted(calls, capacity, maxLine);
  }

  /** The lines held are those pushed behind the last clear, oldest first. */
  lemma {:induction false} SinceLastClear(before: seq<Call>, pushes: seq<Call>, maxLine: nat)
    requires before == [] || before[|before| - 1].Clear?
    requires forall i :: 0 <= i < |pushes| ==> pushes[i].Push?
    ensures |Since(before + pushes, maxLine)| == |pushes|
    ensures forall i :: 0 <= i < |pushes| ==> Since(before + pushes, maxLine)[i] == Stored(pushes[i].line, maxLine)
  {
    hide Stored;
    var calls := before + pushes;
    if pushes == [] {
      assert calls == before;
    } else {
      assert calls[..|calls| - 1] == before + pushes[..|pushes| - 1];
      SinceLastClear(before, pushes[..|pushes| - 1], maxLine);
    }
  }

  // ------------------------------------------------ kept lines are text

  lemma MarkBytes()
    ensures |Encode(MARK_TEXT)| == MARK_SIZE
  {
    hide Encode, CharBytes;
    var word := "[truncated]";
    assert MARK_TEXT == ['\U{2026}'] + word;
    EncodeAppend(['\U{2026}'], word);
    OneEncoded('\U{2026}');
    ThreeBytes();
    Ascii(word);
  }

  lemma ThreeBytes()
    ensures |CharBytes('\U{2026}')| == 3
  {
  }

  lemma {:induction false} Ascii(s: string)
    requires forall i :: 0 <= i < |s| ==> s[i] < 128 as char
    ensures |Encode(s)| == |s|
  {
    if s != "" {
      Ascii(s[1..]);
    }
  }

  /** Every line kept fits. */
  lemma StoredFits(line: Bytes, maxLine: nat)
    requires maxLine > MARK_SIZE
    ensures |Stored(line, maxLine)| <= maxLine
  {
    hide Encode, Boundary, Trimmed;
    MarkBytes();
  }

  lemma {:induction false} EncodeAppend(a: string, b: string)
    ensures Encode(a + b) == Encode(a) + Encode(b)
  {
    hide CharBytes;
    if a == "" {
      assert a + b == b;
    } else {
      assert (a + b)[1..] == a[1..] + b;
      EncodeAppend(a[1..], b);
    }
  }

  function TrimmedText(s: string): string {
    if s != "" && (s[|s| - 1] == '\n' || s[|s| - 1] == '\r') then TrimmedText(s[..|s| - 1]) else s
  }

  /** The text without the line breaks behind it, whatever line breaks are in it. */
  lemma {:induction false} BreaksTrimmed(t: string, breaks: string)
    requires t == "" || (t[|t| - 1] != '\n' && t[|t| - 1] != '\r')
    requires forall i :: 0 <= i < |breaks| ==> breaks[i] == '\n' || breaks[i] == '\r'
    ensures TrimmedText(t + breaks) == t
  {
    var s := t + breaks;
    if breaks == "" {
      assert s == t;
    } else {
      assert s[|s| - 1] == breaks[|breaks| - 1];
      assert s[..|s| - 1] == t + breaks[..|breaks| - 1];
      BreaksTrimmed(t, breaks[..|breaks| - 1]);
    }
  }

  lemma LastByte(c: char)
    ensures IsBreak(CharBytes(c)[|CharBytes(c)| - 1]) <==> c == '\n' || c == '\r'
    ensures c == '\n' || c == '\r' ==> |CharBytes(c)| == 1
  {
    var b := CharBytes(c);
    assert |b| > 1 ==> Continuation(b[|b| - 1]);
  }

  lemma {:induction false} TrimmedEncode(s: string)
    ensures Trimmed(Encode(s)) == Encode(TrimmedText(s))
  {
    hide CharBytes, Encode, IsBreak;
    if s == "" {
      NothingEncoded();
    } else {
      var front, c := s[..|s| - 1], s[|s| - 1];
      assert s == front + [c];
      EncodeAppend(front, [c]);
      OneEncoded(c);
      LastByte(c);
      var text := Encode(s);
      assert text[|text| - 1] == CharBytes(c)[|CharBytes(c)| - 1];
      if c == '\n' || c == '\r' {
        assert text[..|text| - 1] == Encode(front);
        TrimmedEncode(front);
      }
    }
  }

  lemma NothingEncoded()
    ensures Encode("") == []
  {
  }

  lemma OneEncoded(c: char)
    ensures Encode([c]) == CharBytes(c)
  {
    assert [c][1..] == "";
  }

  lemma CutIs(text: Bytes, limit: nat, cut: nat)
    requires cut <= limit <= |text| && Boundary(text, cut)
    requires forall i :: cut < i <= limit ==> !Boundary(text, i)
    ensures CutPoint(text, limit) == cut
  {
    hide Boundary, CutPoint;
  }

  /** A cut on a byte boundary is a cut between characters: as many of them as
      fit, and the next one would not. */
  lemma {:induction false} CutBetweenChars(s: string, limit: nat) returns (k: nat)
    requires limit < |Encode(s)|
    ensures k < |s| && Encode(s)[..CutPoint(Encode(s), limit)] == Encode(s[..k])
    ensures |Encode(s[..k])| <= limit < |Encode(s[..k + 1])|
    decreases |s|
  {
    hide CharBytes, CutPoint, Boundary, Continuation;
    var text, first, rest := Encode(s), CharBytes(s[0]), s[1..];
    var b := |first|;
    assert text == first + Encode(rest);
    assert s[..1] == [s[0]];
    OneEncoded(s[0]);
    if limit < b {
      NoCutInside(first, Encode(rest), limit);
      k := 0;
      NothingEncoded();
      assert s[..0] == "";
    } else {
      var m := CutBetweenChars(rest, limit - b);
      k := m + 1;
      CutLater(s[0], rest, limit);
      assert s[..k] == [s[0]] + rest[..m] && s[..k + 1] == [s[0]] + rest[..m + 1];
      EncodeAppend([s[0]], rest[..m]);
      EncodeAppend([s[0]], rest[..m + 1]);
      var cut := CutPoint(Encode(rest), limit - b);
      assert text[..b + cut] == first + Encode(rest)[..cut];
    }
  }

  lemma NoCutInside(first: Bytes, rest: Bytes, limit: nat)
    requires limit < |first| && forall i :: 0 < i < |first| ==> Continuation(first[i])
    ensures CutPoint(first + rest, limit) == 0
  {
    var text := first + rest;
    assert forall i :: 0 < i <= limit ==> text[i] == first[i];
    CutIs(text, limit, 0);
  }

  lemma FirstByte(s: string)
    ensures Encode(s) == [] || !Continuation(Encode(s)[0])
  {
  }

  lemma CutLater(c: char, rest: string, limit: nat)
    requires |CharBytes(c)| <= limit <= |CharBytes(c)| + |Encode(rest)|
    ensures var b := |CharBytes(c)|;
            CutPoint(CharBytes(c) + Encode(rest), limit) == b + CutPoint(Encode(rest), limit - b)
  {
    hide CutPoint, Encode, CharBytes, Continuation;
    var b, later := |CharBytes(c)|, Encode(rest);
    var text, cut := CharBytes(c) + later, CutPoint(later, limit - b);
    FirstByte(rest);
    forall i: nat | b <= i <= limit
      ensures Boundary(text, i) == Boundary(later, i - b)
    {
      assert i < |text| ==> text[i] == later[i - b];
    }
    forall i | b + cut < i <= limit
      ensures !Boundary(text, i)
    {
      assert !Boundary(later, i - b);
    }
    CutIs(text, limit, b + cut);
  }

  /** A line of text is kept as text: whole without its line breaks, or, when
      that is too long, as many whole characters of it as leave room for the
      mark, and the mark. */
  lemma StoredIsText(s: string, maxLine: nat) returns (k: nat)
    requires maxLine > MARK_SIZE
    ensures var t := TrimmedText(s);
            if |Encode(t)| <= maxLine then Stored(Encode(s), maxLine) == Encode(t)
            else
              k < |t| && Stored(Encode(s), maxLine) == Encode(t[..k] + MARK_TEXT)
              && |Encode(t[..k])| <= maxLine - MARK_SIZE < |Encode(t[..k + 1])|
  {
    hide Encode, CutPoint, Boundary, Trimmed, TrimmedText, MARK_TEXT;
    TrimmedEncode(s);
    var t := TrimmedText(s);
    k := 0;
    if |Encode(t)| > maxLine {
      k := CutBetweenChars(t, maxLine - MARK_SIZE);
      EncodeAppend(t[..k], MARK_TEXT);
    }
  }
}
