/** Scrubbing of the value behind a name that means credential: `Name: value`,
    `"name": "value"`, `name=value`.  `letters` stands for the letters and digits
    beyond ASCII. */
module ScrubNamed {
  import opened Options
  import opened Strings
  import opened Redaction

  // ------------------------------------------------ characters

  predicate AsciiWord(c: char) {
    'a' <= c <= 'z' || 'A' <= c <= 'Z' || '0' <= c <= '9' || c == '_'
  }

  predicate IsWord(letters: set<char>, c: char) {
    AsciiWord(c) || (c as int >= 0x80 && c in letters)
  }

  predicate IsQuoteOrBlank(c: char) { c == '"' || c == '\'' || c == ' ' || c == '\t' }

  predicate IsColon(c: char) { c == ':' || c == '=' }

  predicate IsStop(c: char) { c == '"' || c == '\'' || c == ',' || c == '}' || c == '\n' || c == ';' }

  predicate IsSmallLetter(c: char) { 'a' <= c <= 'z' }

  // ------------------------------------------------ from the name to its value

  /** Up to and including the separator behind a name, if there is one. */
  function Gap(s: string): (gap: Option<nat>)
    ensures gap.Some? ==> 0 < gap.value <= |s|
  {
    if s == "" then None
    else if IsQuoteOrBlank(s[0]) then
      (match Gap(s[1..])
       case None => None
       case Some(n) => Some(n + 1))
    else if IsColon(s[0]) then Some(1)
    else None
  }

  /** Blanks and quotes before a value. */
  function Lead(s: string): (n: nat)
    ensures n <= |s| && (forall i :: 0 <= i < n ==> IsQuoteOrBlank(s[i])) && (n < |s| ==> !IsQuoteOrBlank(s[n]))
  {
    if s == "" || !IsQuoteOrBlank(s[0]) then 0 else 1 + Lead(s[1..])
  }

  /** Where a value ends: at a quote, a structural character, or the end. */
  function StopAt(s: string): (n: nat)
    ensures n <= |s| && (forall i :: 0 <= i < n ==> !IsStop(s[i])) && (n < |s| ==> IsStop(s[n]))
  {
    if s == "" || IsStop(s[0]) then 0 else 1 + StopAt(s[1..])
  }

  function TrimmedLength(s: string): (n: nat)
    ensures n <= |s| && (forall i :: n <= i < |s| ==> IsWhite(s[i])) && (n > 0 ==> !IsWhite(s[n - 1]))
  {
    if s == "" then 0
    else if IsWhite(s[|s| - 1]) then TrimmedLength(s[..|s| - 1])
    else |s|
  }

  function ValueLength(s: string): (n: nat)
    ensures n <= |s|
  {
    TrimmedLength(s[..StopAt(s)])
  }

  // ------------------------------------------------ the scan

  datatype Cut = Finish | Keep(upTo: nat) | Hide(upTo: nat, from: nat)

  /** The character before a place; `prev` stands before the text. */
  function Before(prev: Option<char>, s: string, at: nat): Option<char>
    requires at <= |s|
  {
    if at == 0 then prev else Some(s[at - 1])
  }

  predicate InWord(letters: set<char>, before: Option<char>) {
    before.Some? && IsWord(letters, before.value)
  }

  /** Where the value of the name that ends at `end` begins. */
  function ValueStart(s: string, end: nat): (start: Option<nat>)
    requires end <= |s|
    ensures start.Some? ==> end < start.value <= |s|
  {
    match Gap(s[end..])
    case None => None
    case Some(gap) => Some(end + gap + Lead(s[end + gap..]))
  }

  function NextCut(letters: set<char>, name: string, prev: Option<char>, s: string): (cut: Cut)
    requires name != ""
    ensures cut.Keep? ==> 0 < cut.upTo <= |s|
    ensures cut.Hide? ==> 0 < cut.upTo < cut.from <= |s|
  {
    match FindFolded(s, name)
    case None => Finish
    case Some(at) => CutAt(letters, name, prev, s, at)
  }

  function CutAt(letters: set<char>, name: string, prev: Option<char>, s: string, at: nat): (cut: Cut)
    requires name != "" && at + |name| <= |s|
    ensures cut.Keep? ==> at + |name| <= cut.upTo <= |s|
    ensures cut.Hide? ==> at + |name| <= cut.upTo < cut.from <= |s|
    ensures !cut.Finish?
  {
    var end := at + |name|;
    var start := ValueStart(s, end);
    if InWord(letters, Before(prev, s, at)) || start.None? then Keep(end)
    else
      var size := ValueLength(s[start.value..]);
      if size == 0 then Keep(start.value) else Hide(start.value, start.value + size)
  }

  function Scrubbed(letters: set<char>, name: string, prev: Option<char>, s: string): string
    requires name != ""
    decreases |s|
  {
    match NextCut(letters, name, prev, s)
    case Finish => s
    case Keep(k) => s[..k] + Scrubbed(letters, name, Some(s[k - 1]), s[k..])
    case Hide(k, from) => s[..k] + REDACTED + Scrubbed(letters, name, Some(s[from - 1]), s[from..])
  }

  // ------------------------------------------------ the pass

  method ScrubOneNamed(letters: set<char>, line: string, name: string) returns (out: string)
    requires name != ""
    ensures out == Scrubbed(letters, name, None, line)
  {
    hide *;
    var lower := LowerCase(line);
    out := "";
    var cursor := 0;
    Outset(letters, name, line);
    while true
      invariant |lower| == |line| && lower == LowerCase(line)
      invariant DoneTo(letters, name, line, out, cursor) && cursor <= |line|
      decreases |line| - cursor
    {
      LowerTail(line, cursor);
      NextFound(letters, name, Before(None, line, cursor), line[cursor..]);
      var found := Find(lower[cursor..], name);
      if found.None? {
        Rest(letters, name, line, cursor, out);
        break;
      }
      var nameStart := cursor + found.value;
      var nameEnd := nameStart + |name|;
      var inWord := InWord(letters, Before(None, line, nameStart));
      CutInLine(letters, name, line, cursor, found.value);
      var valueStart, trimmed := ValueBehind(line, nameEnd);
      if inWord || valueStart.None? {
        Kept(letters, name, line, cursor, nameEnd, out);
        out := out + line[cursor..nameEnd];
        cursor := nameEnd;
        continue;
      }
      if trimmed == 0 {
        Kept(letters, name, line, cursor, valueStart.value, out);
        out := out + line[cursor..valueStart.value];
        cursor := valueStart.value;
        continue;
      }
      Hidden(letters, name, line, cursor, valueStart.value, valueStart.value + trimmed, out);
      out := out + line[cursor..valueStart.value];
      out := out + REDACTED;
      cursor := valueStart.value + trimmed;
    }
    out := out + line[cursor..];
  }

  /** Where the value behind a name begins, and how long it is without the
      blanks at its end. */
  method ValueBehind(line: string, nameEnd: nat) returns (start: Option<nat>, trimmed: nat)
    requires nameEnd <= |line|
    ensures start == ValueStart(line, nameEnd)
    ensures start.Some? ==> nameEnd < start.value && start.value + trimmed <= |line|
                            && trimmed == ValueLength(line[start.value..])
  {
    hide Gap, Lead, StopAt, TrimmedLength;
    var afterName := line[nameEnd..];
    var gap := Gap(afterName);
    if gap.None? {
      return None, 0;
    }
    var region := afterName[gap.value..];
    assert region == line[nameEnd + gap.value..];
    start := Some(nameEnd + gap.value + Lead(region));
    var value := line[start.value..];
    trimmed := TrimmedLength(value[..StopAt(value)]);
  }

  /** What is out so far and what the rest will give are the whole. */
  predicate DoneTo(letters: set<char>, name: string, line: string, out: string, cursor: nat)
    requires name != ""
  {
    cursor <= |line|
    && out + Scrubbed(letters, name, Before(None, line, cursor), line[cursor..]) == Scrubbed(letters, name, None, line)
  }

  lemma Outset(letters: set<char>, name: string, line: string)
    requires name != ""
    ensures DoneTo(letters, name, line, "", 0) && |LowerCase(line)| == |line|
  {
    hide Scrubbed;
    assert line[0..] == line;
  }

  lemma Rest(letters: set<char>, name: string, line: string, cursor: nat, out: string)
    requires name != "" && DoneTo(letters, name, line, out, cursor)
    requires NextCut(letters, name, Before(None, line, cursor), line[cursor..]) == Finish
    ensures out + line[cursor..] == Scrubbed(letters, name, None, line)
  {
    hide NextCut, Scrubbed;
    ScrubbedBy(letters, name, Before(None, line, cursor), line[cursor..]);
  }

  lemma LowerTail(line: string, cursor: nat)
    requires cursor <= |line|
    ensures |LowerCase(line)| == |line| && LowerCase(line)[cursor..] == LowerCase(line[cursor..])
  {
  }

  lemma SameBefore(line: string, cursor: nat, at: nat)
    requires cursor + at <= |line|
    ensures Before(Before(None, line, cursor), line[cursor..], at) == Before(None, line, cursor + at)
  {
  }

  /** The value's place, seen from the cursor and seen from the line's start. */
  lemma StartShifted(line: string, cursor: nat, end: nat)
    requires cursor <= end <= |line|
    ensures var start := ValueStart(line, end);
            ValueStart(line[cursor..], end - cursor) == if start.None? then None else Some(start.value - cursor)
  {
    hide Gap, Lead;
    assert line[cursor..][end - cursor..] == line[end..];
    var gap := Gap(line[end..]);
    if gap.Some? {
      assert line[cursor..][end - cursor + gap.value..] == line[end + gap.value..];
    }
  }

  /** The next cut, in terms of places in the whole line. */
  lemma CutInLine(letters: set<char>, name: string, line: string, cursor: nat, at: nat)
    requires name != "" && cursor + at + |name| <= |line|
    ensures var nameEnd := cursor + at + |name|;
            var start := ValueStart(line, nameEnd);
            CutAt(letters, name, Before(None, line, cursor), line[cursor..], at) ==
            if InWord(letters, Before(None, line, cursor + at)) || start.None? then Keep(nameEnd - cursor)
            else if ValueLength(line[start.value..]) == 0 then Keep(start.value - cursor)
            else Hide(start.value - cursor, start.value + ValueLength(line[start.value..]) - cursor)
  {
    hide InWord, ValueLength, CutAt, Before, ValueStart;
    var prev, rest, nameEnd := Before(None, line, cursor), line[cursor..], cursor + at + |name|;
    SameBefore(line, cursor, at);
    StartShifted(line, cursor, nameEnd);
    CutBy(letters, name, prev, rest, at);
    var start := ValueStart(line, nameEnd);
    if start.Some? {
      assert rest[start.value - cursor..] == line[start.value..];
    }
  }

  lemma NextFound(letters: set<char>, name: string, prev: Option<char>, s: string)
    requires name != ""
    ensures Find(LowerCase(s), name) == FindFolded(s, name)
    ensures FindFolded(s, name).None? ==> NextCut(letters, name, prev, s) == Finish
    ensures FindFolded(s, name).Some? ==>
              var at := FindFolded(s, name).value;
              at + |name| <= |s| && Occurs(s, name, at)
              && NextCut(letters, name, prev, s) == CutAt(letters, name, prev, s, at)
  {
    hide Find, LowerCase, CutAt;
  }

  lemma CutBy(letters: set<char>, name: string, prev: Option<char>, s: string, at: nat)
    requires name != "" && at + |name| <= |s|
    ensures var start := ValueStart(s, at + |name|);
            CutAt(letters, name, prev, s, at) ==
            if InWord(letters, Before(prev, s, at)) || start.None? then Keep(at + |name|)
            else if ValueLength(s[start.value..]) == 0 then Keep(start.value)
            else Hide(start.value, start.value + ValueLength(s[start.value..]))
  {
    hide ValueStart, ValueLength, InWord, Before;
  }

  lemma ScrubbedBy(letters: set<char>, name: string, prev: Option<char>, s: string)
    requires name != ""
    ensures var cut := NextCut(letters, name, prev, s);
            Scrubbed(letters, name, prev, s) ==
            if cut.Finish? then s
            else if cut.Keep? then s[..cut.upTo] + Scrubbed(letters, name, Some(s[cut.upTo - 1]), s[cut.upTo..])
            else s[..cut.upTo] + REDACTED + Scrubbed(letters, name, Some(s[cut.from - 1]), s[cut.from..])
  {
    hide NextCut;
  }

  lemma TailParts(line: string, cursor: nat, start: nat, next: nat)
    requires cursor <= start <= next <= |line| && cursor < next
    ensures line[cursor..][..start - cursor] == line[cursor..start]
    ensures line[cursor..][next - cursor..] == line[next..]
    ensures Some(line[cursor..][next - cursor - 1]) == Before(None, line, next)
  {
  }

  /** A piece goes from what the rest gives to what is out. */
  lemma Advance(out: string, piece: string, rest: string, after: string, whole: string)
    requires out + rest == whole && rest == piece + after
    ensures out + piece + after == whole
  {
  }

  lemma AdvanceOver(out: string, piece: string, marker: string, rest: string, after: string, whole: string)
    requires out + rest == whole && rest == piece + marker + after
    ensures out + piece + marker + after == whole
  {
    assert out + (piece + marker + after) == out + piece + marker + after;
  }

  lemma Kept(letters: set<char>, name: string, line: string, cursor: nat, next: nat, out: string)
    requires name != "" && cursor < next <= |line| && DoneTo(letters, name, line, out, cursor)
    requires NextCut(letters, name, Before(None, line, cursor), line[cursor..]) == Keep(next - cursor)
    ensures DoneTo(letters, name, line, out + line[cursor..next], next)
  {
    hide NextCut, Scrubbed, Before;
    var rest := Scrubbed(letters, name, Before(None, line, cursor), line[cursor..]);
    var after := Scrubbed(letters, name, Before(None, line, next), line[next..]);
    ScrubbedBy(letters, name, Before(None, line, cursor), line[cursor..]);
    TailParts(line, cursor, next, next);
    Advance(out, line[cursor..next], rest, after, Scrubbed(letters, name, None, line));
  }

  lemma Hidden(letters: set<char>, name: string, line: string, cursor: nat, start: nat, next: nat, out: string)
    requires name != "" && cursor <= start < next <= |line| && DoneTo(letters, name, line, out, cursor)
    requires NextCut(letters, name, Before(None, line, cursor), line[cursor..]) == Hide(start - cursor, next - cursor)
    ensures DoneTo(letters, name, line, out + line[cursor..start] + REDACTED, next)
  {
    hide NextCut, Scrubbed, Before;
    var rest := Scrubbed(letters, name, Before(None, line, cursor), line[cursor..]);
    var after := Scrubbed(letters, name, Before(None, line, next), line[next..]);
    ScrubbedBy(letters, name, Before(None, line, cursor), line[cursor..]);
    TailParts(line, cursor, start, next);
    AdvanceOver(out, line[cursor..start], REDACTED, rest, after, Scrubbed(letters, name, None, line));
  }

  // ------------------------------------------------ what is left to hide

  /** A name that stands alone, has a separator behind it, and then a value
      that is not the marker already. */
  predicate Exposed(letters: set<char>, name: string, prev: Option<char>, s: string, at: nat) {
    Occurs(s, name, at) && at + |name| <= |s|
    && !InWord(letters, Before(prev, s, at))
    && var start := ValueStart(s, at + |name|);
    start.Some? && ValueExposed(s[start.value..])
  }

  predicate ValueExposed(value: string) {
    ValueLength(value) > 0 && value[..ValueLength(value)] != REDACTED
  }

  ghost predicate Clean(letters: set<char>, name: string, prev: Option<char>, s: string) {
    forall at: nat :: !Exposed(letters, name, prev, s, at)
  }

  /** What the scan needs of a name: it begins with a small letter, the marker
      cannot be the beginning of it, and no part of it behind a hyphen begins
      as the whole does. */
  predicate NameOk(name: string) {
    |name| >= 3 && IsSmallLetter(name[0]) && !(name[0] == 'r' && name[1] == 'e' && name[2] == 'd')
    && forall d :: 0 < d < |name| && !AsciiWord(name[d - 1]) ==> name[d] != name[0]
  }

  lemma ExposedLater(letters: set<char>, name: string, prev: Option<char>, a: string, b: string, at: nat)
    requires a != "" && name != ""
    ensures Exposed(letters, name, prev, a + b, |a| + at)
        <==> Exposed(letters, name, Some(a[|a| - 1]), b, at)
  {
    hide InWord, Gap, Lead, ValueExposed, Occurs;
    OccursLater(a, b, name, at);
    if Occurs(b, name, at) {
      OccursFits(b, name, at);
      assert (a + b)[|a| + at + |name|..] == b[at + |name|..];
      var gap := Gap(b[at + |name|..]);
      if gap.Some? {
        assert (a + b)[|a| + at + |name| + gap.value..] == b[at + |name| + gap.value..];
        var start := at + |name| + gap.value + Lead(b[at + |name| + gap.value..]);
        assert (a + b)[|a| + start..] == b[start..];
      }
    }
  }

  /** Before the first character only matters to a name that begins there. */
  lemma ExposedPast(letters: set<char>, name: string, p: Option<char>, q: Option<char>, s: string, at: nat)
    requires at > 0
    ensures Exposed(letters, name, p, s, at) <==> Exposed(letters, name, q, s, at)
  {
    hide InWord, ValueStart, ValueExposed, Occurs;
  }

  lemma CleanTail(letters: set<char>, name: string, prev: Option<char>, s: string, k: nat)
    requires name != "" && 0 < k <= |s| && Clean(letters, name, prev, s)
    ensures Clean(letters, name, Some(s[k - 1]), s[k..])
  {
    hide Exposed;
    var front, rest := s[..k], s[k..];
    var last := Some(s[k - 1]);
    assert s == front + rest && front[|front| - 1] == s[k - 1];
    forall at: nat ensures !Exposed(letters, name, last, rest, at) {
      ExposedLater(letters, name, prev, front, rest, at);
    }
  }

  /** A text with nothing exposed is left as it is. */
  lemma {:induction false} CleanUnchanged(letters: set<char>, name: string, prev: Option<char>, s: string)
    requires name != "" && Clean(letters, name, prev, s)
    ensures Scrubbed(letters, name, prev, s) == s
    decreases |s|
  {
    hide NextCut, Scrubbed, Clean;
    ScrubbedBy(letters, name, prev, s);
    var cut := NextCut(letters, name, prev, s);
    if cut.Keep? {
      CleanTail(letters, name, prev, s, cut.upTo);
      CleanUnchanged(letters, name, Some(s[cut.upTo - 1]), s[cut.upTo..]);
    } else if cut.Hide? {
      CleanTail(letters, name, prev, s, cut.from);
      CleanUnchanged(letters, name, Some(s[cut.from - 1]), s[cut.from..]);
      HiddenAlready(letters, name, prev, s);
      assert s == s[..cut.upTo] + s[cut.upTo..cut.from] + s[cut.from..];
    }
  }

  lemma Subslice(s: string, start: nat, size: nat)
    requires start + size <= |s|
    ensures s[start..][..size] == s[start..start + size]
  {
  }

  lemma HiddenAlready(letters: set<char>, name: string, prev: Option<char>, s: string)
    requires name != "" && Clean(letters, name, prev, s) && NextCut(letters, name, prev, s).Hide?
    ensures var cut := NextCut(letters, name, prev, s); s[cut.upTo..cut.from] == REDACTED
  {
    hide FindFolded, ValueStart, ValueLength, InWord, Occurs;
    NextFound(letters, name, prev, s);
    var at := FindFolded(s, name).value;
    CutBy(letters, name, prev, s, at);
    assert !Exposed(letters, name, prev, s, at);
    var start := ValueStart(s, at + |name|).value;
    var size := ValueLength(s[start..]);
    Subslice(s, start, size);
  }

  // ------------------------------------------------ texts that begin alike

  /** The two texts are alike up to and including the letter at `at`. */
  predicate AlikeTo(s: string, t: string, at: nat) {
    at < |s| && at < |t| && s[..at + 1] == t[..at + 1] && 'a' <= Lower(s[at]) <= 'z'
  }

  predicate AllBlank(s: string)
    decreases |s|
  {
    s == "" || IsStop(s[0]) || (IsWhite(s[0]) && AllBlank(s[1..]))
  }

  lemma AlikeNext(s: string, t: string, at: nat)
    requires AlikeTo(s, t, at) && at > 0
    ensures s != "" && t != "" && AlikeTo(s[1..], t[1..], at - 1) && s[0] == t[0]
  {
    assert s[1..][..at] == s[..at + 1][1..] && t[1..][..at] == t[..at + 1][1..];
    assert s[..at + 1][0] == s[0] && t[..at + 1][0] == t[0];
  }

  lemma LetterAt(s: string, t: string)
    requires AlikeTo(s, t, 0)
    ensures s != "" && t != "" && s[0] == t[0]
    ensures !IsQuoteOrBlank(s[0]) && !IsColon(s[0]) && !IsStop(s[0]) && !IsWhite(s[0])
  {
    assert s[..1][0] == s[0] && t[..1][0] == t[0];
  }

  lemma {:induction false} GapAlike(s: string, t: string, at: nat)
    requires AlikeTo(s, t, at)
    ensures Gap(s) == Gap(t)
    decreases at
  {
    hide AlikeTo, IsQuoteOrBlank, IsColon;
    if at == 0 {
      LetterAt(s, t);
    } else {
      AlikeNext(s, t, at);
      if IsQuoteOrBlank(s[0]) {
        GapAlike(s[1..], t[1..], at - 1);
      }
    }
  }

  lemma {:induction false} BlankAlike(s: string, t: string, at: nat)
    requires AlikeTo(s, t, at)
    ensures AllBlank(s) == AllBlank(t)
    decreases at
  {
    hide AlikeTo, IsStop, IsWhite;
    if at == 0 {
      LetterAt(s, t);
    } else {
      AlikeNext(s, t, at);
      BlankAlike(s[1..], t[1..], at - 1);
    }
  }

  lemma {:induction false} NoValue(s: string)
    ensures ValueLength(s) == 0 <==> AllBlank(s)
  {
    hide IsStop, IsWhite, StopAt, TrimmedLength, AllBlank;
    var n := StopAt(s);
    var text := s[..n];
    assert text == s[..n];
    BlankTo(s, n);
    assert ValueLength(s) == TrimmedLength(text);
    var m := TrimmedLength(text);
    if m > 0 {
      assert text[m - 1] == s[m - 1];
    }
    assert m == 0 ==> forall i :: 0 <= i < n ==> IsWhite(s[i]) by {
      if m == 0 {
        forall i | 0 <= i < n ensures IsWhite(s[i]) {
          assert text[i] == s[i] && IsWhite(text[i]);
        }
      }
    }
  }

  lemma {:induction false} BlankTo(s: string, n: nat)
    requires n <= |s| && (forall i :: 0 <= i < n ==> !IsStop(s[i])) && (n < |s| ==> IsStop(s[n]))
    ensures AllBlank(s) <==> forall i :: 0 <= i < n ==> IsWhite(s[i])
    decreases n
  {
    hide IsStop, IsWhite;
    if n > 0 {
      BlankTo(s[1..], n - 1);
      assert forall i :: 0 < i < n ==> s[i] == s[1..][i - 1];
      if AllBlank(s) {
        forall i | 0 <= i < n ensures IsWhite(s[i]) {
          assert i > 0 ==> s[1..][i - 1] == s[i];
        }
      }
    }
  }

  lemma LeadIs(s: string, n: nat)
    requires n <= |s| && (forall i :: 0 <= i < n ==> IsQuoteOrBlank(s[i])) && (n < |s| ==> !IsQuoteOrBlank(s[n]))
    ensures Lead(s) == n
  {
    hide Lead, IsQuoteOrBlank;
  }

  /** A separator found is found in any text with the same beginning. */
  lemma {:induction false} GapFront(s: string, t: string, gap: nat)
    requires Gap(s) == Some(gap) && gap <= |t| && s[..gap] == t[..gap]
    ensures Gap(t) == Some(gap)
    ensures forall i :: 0 <= i < gap ==> IsQuoteOrBlank(s[i]) || IsColon(s[i])
    decreases gap
  {
    hide IsQuoteOrBlank, IsColon;
    assert s[..gap][0] == s[0] && t[..gap][0] == t[0];
    if IsQuoteOrBlank(s[0]) {
      assert s[1..][..gap - 1] == s[..gap][1..] && t[1..][..gap - 1] == t[..gap][1..];
      GapFront(s[1..], t[1..], gap - 1);
      forall i | 0 <= i < gap ensures IsQuoteOrBlank(s[i]) || IsColon(s[i]) {
        assert i > 0 ==> s[1..][i - 1] == s[i];
      }
    }
  }

  // ------------------------------------------------ the pass leaves nothing exposed

  /** A scrubbed text begins as the text does, up to and including the first
      name in it. */
  lemma BeginsAlike(letters: set<char>, name: string, prev: Option<char>, s: string)
    requires NameOk(name)
    ensures var out := Scrubbed(letters, name, prev, s);
            Gap(out) == Gap(s) && AllBlank(out) == AllBlank(s)
            && (out == "" <==> s == "") && (s != "" ==> out[0] == s[0])
  {
    hide NextCut, Scrubbed, AlikeTo, Gap, AllBlank;
    var out := Scrubbed(letters, name, prev, s);
    ScrubbedBy(letters, name, prev, s);
    NextFound(letters, name, prev, s);
    var found := FindFolded(s, name);
    if found.Some? {
      FirstLetter(letters, name, prev, s, out, found.value);
      GapAlike(s, out, found.value);
      BlankAlike(s, out, found.value);
    }
  }

  lemma FirstLetter(letters: set<char>, name: string, prev: Option<char>, s: string, out: string, at: nat)
    requires NameOk(name) && FindFolded(s, name) == Some(at) && out == Scrubbed(letters, name, prev, s)
    ensures AlikeTo(s, out, at) && out[0] == s[0]
  {
    hide NextCut, Scrubbed, FindFolded, CutAt;
    ScrubbedBy(letters, name, prev, s);
    NextFound(letters, name, prev, s);
    var k := CutAt(letters, name, prev, s, at).upTo;
    assert out[..k] == s[..k] && k > at;
    assert out[..at + 1] == out[..k][..at + 1] && s[..at + 1] == s[..k][..at + 1];
    assert out[..k][0] == out[0] && s[..k][0] == s[0];
  }

  lemma NotALetter(name: string, s: string, p: nat)
    requires NameOk(name) && p < |s| && !('a' <= Lower(s[p]) <= 'z')
    ensures !Occurs(s, name, p)
  {
  }

  lemma NotExposedWithout(letters: set<char>, name: string, prev: Option<char>, s: string, p: nat)
    requires !Occurs(s, name, p)
    ensures !Exposed(letters, name, prev, s, p)
  {
  }

  /** No name is exposed before the end of the first one, but for the first. */
  lemma NoneInFront(letters: set<char>, name: string, prev: Option<char>, s: string, out: string, at: nat, p: nat)
    requires NameOk(name) && FindFolded(s, name) == Some(at) && at + |name| <= |s| && at + |name| <= |out|
    requires out[..at + |name|] == s[..at + |name|] && p < at + |name| && p != at
    ensures !Exposed(letters, name, prev, out, p)
  {
    hide FindFolded, ValueStart, ValueExposed;
    var end := at + |name|;
    var front := s[..end];
    assert s == front + s[end..] && out == front + out[end..];
    if p < at {
      OccursEarlier(front, s[end..], name, p);
      OccursEarlier(front, out[end..], name, p);
    } else {
      WithinName(letters, name, prev, s, out, at, p);
    }
  }

  lemma WithinName(letters: set<char>, name: string, prev: Option<char>, s: string, out: string, at: nat, p: nat)
    requires NameOk(name) && Occurs(s, name, at) && at + |name| <= |s| && at + |name| <= |out|
    requires out[..at + |name|] == s[..at + |name|] && at < p < at + |name|
    ensures !Exposed(letters, name, prev, out, p)
  {
    hide ValueStart, ValueExposed;
    var end, d := at + |name|, p - at;
    assert out[p] == out[..end][p] == s[..end][p] == s[p];
    assert out[p - 1] == out[..end][p - 1] == s[..end][p - 1] == s[p - 1];
    assert Lower(s[at + d]) == name[d] && Lower(s[at + (d - 1)]) == name[d - 1];
    if Occurs(out, name, p) && p + |name| <= |out| {
      assert Lower(out[p + 0]) == name[0];
      assert AsciiWord(name[d - 1]);
      assert AsciiWord(out[p - 1]);
    }
  }

  /** The value's place is found again in front of another value. */
  lemma StartAgain(s: string, end: nat, start: nat, rest: string)
    requires end <= |s| && ValueStart(s, end) == Some(start)
    requires rest == "" || !IsQuoteOrBlank(rest[0])
    ensures ValueStart(s[..start] + rest, end) == Some(start)
    ensures forall i :: end <= i < start ==> IsQuoteOrBlank(s[i]) || IsColon(s[i])
  {
    hide Gap, Lead, IsQuoteOrBlank, IsColon;
    var gap := Gap(s[end..]).value;
    var out, region := s[..start] + rest, s[end + gap..];
    var lead := Lead(region);
    assert s[end..][..gap] == out[end..][..gap];
    GapFront(s[end..], out[end..], gap);
    assert out[end + gap..] == region[..lead] + rest;
    LeadIs(out[end + gap..], lead);
    forall i | end <= i < start ensures IsQuoteOrBlank(s[i]) || IsColon(s[i]) {
      if i < end + gap {
        assert s[end..][i - end] == s[i];
      } else {
        assert region[i - end - gap] == s[i];
      }
    }
  }

  /** Between a name and its value no name begins. */
  lemma NoneBetween(letters: set<char>, name: string, prev: Option<char>, s: string, end: nat, start: nat,
                    rest: string, p: nat)
    requires NameOk(name) && end <= |s| && ValueStart(s, end) == Some(start)
    requires rest == "" || !IsQuoteOrBlank(rest[0])
    requires end <= p < start
    ensures !Exposed(letters, name, prev, s[..start] + rest, p)
  {
    hide ValueStart, Exposed, Occurs;
    StartAgain(s, end, start, rest);
    var out := s[..start] + rest;
    assert out[p] == s[p];
    NotALetter(name, out, p);
    NotExposedWithout(letters, name, prev, out, p);
  }

  /** How long a value is, from what stands in it and behind it. */
  lemma ValueIs(value: string, t: string)
    requires value != "" && (forall i :: 0 <= i < |value| ==> !IsStop(value[i])) && !IsWhite(value[|value| - 1])
    requires AllBlank(t)
    ensures ValueLength(value + t) == |value|
  {
    hide StopAt, AllBlank, IsStop, IsWhite, TrimmedLength;
    var n, r := StopAt(t), |value|;
    NoValue(t);
    BlankTo(t, n);
    var all := value + t;
    forall i | 0 <= i < r + n ensures !IsStop(all[i]) {
      assert all[i] == if i < r then value[i] else t[i - r];
    }
    assert r + n < |all| ==> all[r + n] == t[n];
    StopIs(all, r + n);
    var text := all[..r + n];
    assert text[r - 1] == value[r - 1];
    forall i | r <= i < r + n ensures IsWhite(text[i]) {
      assert text[i] == t[i - r];
    }
    TrimmedIs(text, r);
  }

  /** What was hidden is hidden. */
  lemma MarkerValue(t: string)
    requires AllBlank(t)
    ensures !ValueExposed(REDACTED + t)
  {
    hide AllBlank, IsStop, IsWhite, ValueLength;
    NoStopInMarker();
    ValueIs(REDACTED, t);
    assert (REDACTED + t)[..|REDACTED|] == REDACTED;
  }

  lemma NoStopInMarker()
    ensures forall i :: 0 <= i < |REDACTED| ==> !IsStop(REDACTED[i])
    ensures !IsWhite(']')
  {
  }

  lemma StopIs(s: string, n: nat)
    requires n <= |s| && (forall i :: 0 <= i < n ==> !IsStop(s[i])) && (n < |s| ==> IsStop(s[n]))
    ensures StopAt(s) == n
  {
    hide StopAt, IsStop;
  }

  lemma TrimmedIs(s: string, n: nat)
    requires n <= |s| && (forall i :: n <= i < |s| ==> IsWhite(s[i])) && (n > 0 ==> !IsWhite(s[n - 1]))
    ensures TrimmedLength(s) == n
  {
    hide TrimmedLength, IsWhite;
  }

  /** No name that stands alone begins inside a marker. */
  lemma NoneInMarker(letters: set<char>, name: string, prev: Option<char>, front: string, t: string, p: nat)
    requires NameOk(name) && |front| <= p < |front| + |REDACTED|
    ensures !Exposed(letters, name, prev, front + REDACTED + t, p)
  {
    hide ValueStart, ValueExposed;
    var out, o := front + REDACTED + t, p - |front|;
    MarkerChars(out, |front|);
    if Occurs(out, name, p) && p + |name| <= |out| {
      assert Lower(out[p + 0]) == name[0] && Lower(out[p + 1]) == name[1] && Lower(out[p + 2]) == name[2];
      assert o > 1 ==> AsciiWord(out[p - 1]);
    }
  }

  lemma MarkerChars(out: string, k: nat)
    requires k + |REDACTED| <= |out| && out[k..k + |REDACTED|] == REDACTED
    ensures out[k] == '[' && out[k + 1] == 'r' && out[k + 2] == 'e' && out[k + 3] == 'd' && out[k + 9] == ']'
    ensures forall q :: k < q <= k + 8 ==> IsSmallLetter(out[q])
  {
    var m := out[k..k + |REDACTED|];
    assert forall q :: k <= q < k + 10 ==> out[q] == m[q - k];
    assert m[1] == 'r' && m[2] == 'e' && m[3] == 'd' && m[4] == 'a' && m[5] == 'c' && m[6] == 't' && m[7] == 'e'
        && m[8] == 'd';
  }

  lemma NoneAtAll(letters: set<char>, name: string, prev: Option<char>, s: string)
    requires FindFolded(s, name).None?
    ensures Clean(letters, name, prev, s)
  {
    hide FindFolded, Occurs;
    forall at: nat ensures !Exposed(letters, name, prev, s, at) {
      assert at <= |s| ==> !Occurs(s, name, at);
    }
  }

  /** A name passed over was not exposed, and is not exposed now. */
  lemma NotAtKept(letters: set<char>, name: string, prev: Option<char>, s: string, at: nat, k: nat, t: string)
    requires NameOk(name) && at + |name| <= |s| && CutAt(letters, name, prev, s, at) == Keep(k)
    requires t == Scrubbed(letters, name, Some(s[k - 1]), s[k..])
    ensures !Exposed(letters, name, prev, s[..k] + t, at)
    ensures k > at + |name| ==> ValueStart(s, at + |name|) == Some(k) && (t == "" || !IsQuoteOrBlank(t[0]))
  {
    hide Scrubbed, Gap, Lead, Occurs, AllBlank, IsQuoteOrBlank, InWord, ValueLength;
    var end, out := at + |name|, s[..k] + t;
    BeginsAlike(letters, name, Some(s[k - 1]), s[k..]);
    assert Before(prev, out, at) == Before(prev, s, at);
    if k == end {
      assert out[end..] == t;
    } else {
      ValueBegins(s, end, k);
      StartAgain(s, end, k, t);
      assert out[k..] == t;
      NoValue(s[k..]);
      NoValue(t);
    }
  }

  lemma ValueBegins(s: string, end: nat, start: nat)
    requires end <= |s| && ValueStart(s, end) == Some(start)
    ensures s[start..] == "" || !IsQuoteOrBlank(s[start..][0])
  {
    hide Gap, Lead, IsQuoteOrBlank;
    var gap := Gap(s[end..]).value;
    var region := s[end + gap..];
    assert start < |s| ==> s[start] == region[start - end - gap];
  }

  /** Behind a hidden value comes nothing, a blank, or a stop. */
  lemma BlankBehind(value: string)
    ensures AllBlank(value[ValueLength(value)..])
  {
    hide AllBlank, IsStop, IsWhite, StopAt, TrimmedLength;
    var n := StopAt(value);
    var text := value[..n];
    var m := TrimmedLength(text);
    var rest := value[m..];
    forall i | 0 <= i < n - m ensures IsWhite(rest[i]) && !IsStop(rest[i]) {
      assert rest[i] == value[m + i] == text[m + i];
    }
    assert n < |value| ==> rest[n - m] == value[n];
    hide ValueLength;
    BlankTo(rest, n - m);
  }

  lemma NotAtHidden(letters: set<char>, name: string, prev: Option<char>, s: string, at: nat, k: nat, from: nat, t: string)
    requires NameOk(name) && at + |name| <= |s| && CutAt(letters, name, prev, s, at) == Hide(k, from)
    requires t == Scrubbed(letters, name, Some(s[from - 1]), s[from..])
    ensures !Exposed(letters, name, prev, s[..k] + REDACTED + t, at)
    ensures ValueStart(s, at + |name|) == Some(k) && AllBlank(t)
  {
    hide Scrubbed, Gap, Lead, Occurs, AllBlank, ValueLength, ValueExposed, ValueStart, InWord;
    var end, value := at + |name|, REDACTED + t;
    CutBy(letters, name, prev, s, at);
    BlankBehind(s[k..]);
    assert s[k..][from - k..] == s[from..];
    BeginsAlike(letters, name, Some(s[from - 1]), s[from..]);
    MarkerValue(t);
    StartAgain(s, end, k, value);
    var out := s[..k] + value;
    assert out == s[..k] + REDACTED + t && out[k..] == value;
  }

  /** After the pass no name is exposed. */
  lemma {:induction false} NothingExposed(letters: set<char>, name: string, prev: Option<char>, s: string)
    requires NameOk(name)
    ensures Clean(letters, name, prev, Scrubbed(letters, name, prev, s))
    decreases |s|
  {
    hide NextCut, Scrubbed, Clean, CutAt, FindFolded, Occurs, NameOk;
    NameNotEmpty(name);
    ScrubbedBy(letters, name, prev, s);
    NextFound(letters, name, prev, s);
    var cut := NextCut(letters, name, prev, s);
    if cut.Finish? {
      if FindFolded(s, name).None? {
        NoneAtAll(letters, name, prev, s);
      }
    } else if cut.Keep? {
      NothingExposed(letters, name, Some(s[cut.upTo - 1]), s[cut.upTo..]);
      CleanKept(letters, name, prev, s, FindFolded(s, name).value, cut.upTo);
    } else {
      NothingExposed(letters, name, Some(s[cut.from - 1]), s[cut.from..]);
      CleanHidden(letters, name, prev, s, FindFolded(s, name).value, cut.upTo, cut.from);
    }
  }

  lemma NameNotEmpty(name: string)
    requires NameOk(name)
    ensures name != ""
  {
  }

  lemma CleanKept(letters: set<char>, name: string, prev: Option<char>, s: string, at: nat, k: nat)
    requires NameOk(name) && at + |name| <= |s|
    requires FindFolded(s, name) == Some(at) && CutAt(letters, name, prev, s, at) == Keep(k)
    requires Clean(letters, name, Some(s[k - 1]), Scrubbed(letters, name, Some(s[k - 1]), s[k..]))
    ensures Clean(letters, name, prev, s[..k] + Scrubbed(letters, name, Some(s[k - 1]), s[k..]))
  {
    hide Scrubbed, CutAt, FindFolded, Occurs, Exposed, ValueStart, NameOk;
    NameNotEmpty(name);
    var t, end := Scrubbed(letters, name, Some(s[k - 1]), s[k..]), at + |name|;
    var front := s[..k];
    var out := front + t;
    NotAtKept(letters, name, prev, s, at, k, t);
    assert out[..end] == s[..end];
    forall p: nat ensures !Exposed(letters, name, prev, out, p) {
      if p >= k {
        ExposedLater(letters, name, prev, front, t, p - k);
        assert |front| + (p - k) == p && front[|front| - 1] == s[k - 1];
      } else if p >= end {
        NoneBetween(letters, name, prev, s, end, k, t, p);
      } else if p != at {
        NoneInFront(letters, name, prev, s, out, at, p);
      }
    }
  }

  lemma CleanHidden(letters: set<char>, name: string, prev: Option<char>, s: string, at: nat, k: nat, from: nat)
    requires NameOk(name) && at + |name| <= |s|
    requires FindFolded(s, name) == Some(at) && CutAt(letters, name, prev, s, at) == Hide(k, from)
    requires Clean(letters, name, Some(s[from - 1]), Scrubbed(letters, name, Some(s[from - 1]), s[from..]))
    ensures Clean(letters, name, prev, s[..k] + REDACTED + Scrubbed(letters, name, Some(s[from - 1]), s[from..]))
  {
    hide Scrubbed, CutAt, FindFolded, Occurs, Exposed, ValueStart, NameOk, AllBlank;
    NameNotEmpty(name);
    var t, end := Scrubbed(letters, name, Some(s[from - 1]), s[from..]), at + |name|;
    var front := s[..k] + REDACTED;
    var out, last := front + t, Some(front[|front| - 1]);
    NotAtHidden(letters, name, prev, s, at, k, from, t);
    assert out == s[..k] + (REDACTED + t) && out[..end] == s[..end];
    forall p: nat ensures !Exposed(letters, name, prev, out, p) {
      if p >= |front| {
        ExposedLater(letters, name, prev, front, t, p - |front|);
        if p == |front| {
          BlankFirst(letters, name, last, t);
        } else {
          ExposedPast(letters, name, last, Some(s[from - 1]), t, p - |front|);
        }
      } else if p >= k {
        NoneInMarker(letters, name, prev, s[..k], t, p);
      } else if p >= end {
        NoneBetween(letters, name, prev, s, end, k, REDACTED + t, p);
      } else if p != at {
        NoneInFront(letters, name, prev, s, out, at, p);
      }
    }
  }

  lemma BlankFirst(letters: set<char>, name: string, prev: Option<char>, t: string)
    requires NameOk(name) && AllBlank(t)
    ensures !Exposed(letters, name, prev, t, 0)
  {
    hide Occurs, Exposed;
    if t != "" {
      NotALetter(name, t, 0);
    } else {
      NoRoom(name);
    }
    NotExposedWithout(letters, name, prev, t, 0);
  }

  lemma NoRoom(name: string)
    requires name != ""
    ensures !Occurs("", name, 0)
  {
  }

  // ------------------------------------------------ the main results

  /** Scrubbing for a name twice is scrubbing once. */
  lemma OneNamedIdempotent(letters: set<char>, name: string, s: string)
    requires NameOk(name)
    ensures var out := Scrubbed(letters, name, None, s); Scrubbed(letters, name, None, out) == out
  {
    hide Scrubbed, Clean, NameOk;
    NameNotEmpty(name);
    NothingExposed(letters, name, None, s);
    CleanUnchanged(letters, name, None, Scrubbed(letters, name, None, s));
  }

  /** Exactly the lines in which the name is nowhere exposed come out unchanged. */
  lemma UnchangedExactly(letters: set<char>, name: string, s: string)
    requires NameOk(name)
    ensures Scrubbed(letters, name, None, s) == s <==> Clean(letters, name, None, s)
  {
    hide Scrubbed, Clean, NameOk;
    NameNotEmpty(name);
    NothingExposed(letters, name, None, s);
    if Clean(letters, name, None, s) {
      CleanUnchanged(letters, name, None, s);
    }
  }

  /** `mark` is the first name of a text, after `before`, and stands alone. */
  predicate FirstName(letters: set<char>, name: string, prev: Option<char>, before: string, mark: string) {
    |mark| == |name| && Occurs(before + mark, name, |before|)
    && (forall k :: 0 <= k < |before| ==> !Occurs(before + mark, name, k))
    && !InWord(letters, Before(prev, before + mark, |before|))
  }

  /** What can stand between a name and its value. */
  predicate Separates(between: string) {
    Gap(between).Some? && forall i :: Gap(between).value <= i < |between| ==> IsQuoteOrBlank(between[i])
  }

  /** A value: not empty, without quotes and structural characters, and with no
      blank at its ends. */
  predicate IsValue(value: string) {
    value != "" && (forall i :: 0 <= i < |value| ==> !IsStop(value[i]))
    && !IsQuoteOrBlank(value[0]) && !IsWhite(value[|value| - 1])
  }

  /** The value behind the first stand-alone name is gone, all of it, and
      everything around it stays. */
  lemma ValueReplaced(letters: set<char>, name: string, prev: Option<char>,
                      before: string, mark: string, between: string, value: string, rest: string)
    requires name != "" && FirstName(letters, name, prev, before, mark)
    requires Separates(between) && IsValue(value) && AllBlank(rest)
    ensures Scrubbed(letters, name, prev, before + mark + between + (value + rest))
         == before + mark + between + REDACTED + Scrubbed(letters, name, Some(value[|value| - 1]), rest)
  {
    hide *;
    var s, k := before + mark + between + (value + rest), |before + mark + between|;
    ValueCut(letters, name, prev, before, mark, between, value, rest);
    ValueEnds(value);
    ScrubbedBy(letters, name, prev, s);
    AroundValue(before + mark + between, value, rest);
  }

  lemma ValueEnds(value: string)
    requires IsValue(value)
    ensures value != ""
  {
  }

  lemma AroundValue(front: string, value: string, rest: string)
    requires value != ""
    ensures var s, k := front + (value + rest), |front|;
            s[..k] == front && s[k + |value|..] == rest && s[k + |value| - 1] == value[|value| - 1]
  {
  }

  lemma ValueCut(letters: set<char>, name: string, prev: Option<char>,
                 before: string, mark: string, between: string, value: string, rest: string)
    requires name != "" && FirstName(letters, name, prev, before, mark)
    requires Separates(between) && IsValue(value) && AllBlank(rest)
    ensures var k := |before + mark + between|;
            NextCut(letters, name, prev, before + mark + between + (value + rest)) == Hide(k, k + |value|)
  {
    hide FindFolded, Occurs, NextCut, CutAt, InWord, AllBlank, ValueLength, ValueStart, FirstName, Separates;
    var front := before + mark;
    var s, k := front + between + (value + rest), |front + between|;
    assert s == front + (between + (value + rest));
    NameFound(letters, name, prev, before, mark, between + (value + rest));
    NextFound(letters, name, prev, s);
    ValueFound(front, between, value + rest);
    assert s[k..] == value + rest;
    ValueIs(value, rest);
    CutBy(letters, name, prev, s, |before|);
  }

  lemma NameFound(letters: set<char>, name: string, prev: Option<char>, before: string, mark: string, tail: string)
    requires FirstName(letters, name, prev, before, mark)
    ensures |mark| == |name|
    ensures FindFolded(before + mark + tail, name) == Some(|before|)
    ensures !InWord(letters, Before(prev, before + mark + tail, |before|))
  {
    hide FindFolded, Occurs, InWord;
    var front, s := before + mark, before + mark + tail;
    forall k | 0 <= k <= |before|
      ensures Occurs(s, name, k) == Occurs(front, name, k)
    {
      OccursEarlier(front, tail, name, k);
    }
    FoundAt(s, name, |before|);
    assert Before(prev, s, |before|) == Before(prev, front, |before|);
  }

  lemma ValueFound(front: string, between: string, value: string)
    requires Separates(between) && value != "" && !IsQuoteOrBlank(value[0])
    ensures ValueStart(front + (between + value), |front|) == Some(|front| + |between|)
  {
    hide Gap, Lead, IsQuoteOrBlank, IsColon;
    var s, gap := front + (between + value), Gap(between).value;
    assert s[|front|..] == between + value;
    assert (between + value)[..gap] == between[..gap];
    GapFront(between, between + value, gap);
    var lead := between[gap..];
    assert s[|front| + gap..] == lead + value;
    forall i | 0 <= i < |lead| ensures IsQuoteOrBlank((lead + value)[i]) {
      assert (lead + value)[i] == between[gap + i];
    }
    LeadIs(lead + value, |lead|);
  }

  /** The output is the input with disjoint pieces replaced by the marker. */
  lemma {:induction false} OnlyPiecesReplaced(letters: set<char>, name: string, prev: Option<char>, s: string)
    requires name != ""
    ensures Redacts(s, Scrubbed(letters, name, prev, s))
    decreases |s|
  {
    hide NextCut, Scrubbed, Redacts;
    ScrubbedBy(letters, name, prev, s);
    var cut := NextCut(letters, name, prev, s);
    if cut.Finish? {
      RedactsNothing(s);
    } else if cut.Keep? {
      var k := cut.upTo;
      OnlyPiecesReplaced(letters, name, Some(s[k - 1]), s[k..]);
      RedactsFront(s[..k], s[k..], Scrubbed(letters, name, Some(s[k - 1]), s[k..]));
      assert s == s[..k] + s[k..];
    } else {
      var k, from := cut.upTo, cut.from;
      OnlyPiecesReplaced(letters, name, Some(s[from - 1]), s[from..]);
      RedactsNext(s[..k], s[k..from], s[from..], Scrubbed(letters, name, Some(s[from - 1]), s[from..]));
      assert s == s[..k] + s[k..from] + s[from..];
    }
  }
}
