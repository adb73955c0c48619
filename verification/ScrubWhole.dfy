/** The three scrubbing passes together: what one pass has cleaned, the others
    leave clean. */
module ScrubWhole {
  import opened Options
  import opened Redaction
  import opened ScrubNamed
  import opened Strings
  import Scrub
  import ScrubBearer
  import ScrubWords

  // ------------------------------------------------ where a value begins

  /** A name of small letters, underscores and hyphens. */
  predicate PlainName(name: string) {
    NameOk(name) && forall j :: 0 <= j < |name| ==> IsSmallLetter(name[j]) || name[j] == '_' || name[j] == '-'
  }

  /** A separator, then quotes and blanks up to a place. */
  predicate LeadsTo(s: string, m: nat, start: nat) {
    m < start <= |s| && IsColon(s[m]) && forall i :: m < i < start ==> IsQuoteOrBlank(s[i])
  }

  /** A value can begin here and go on past the end of the text. */
  ghost predicate Open(s: string, start: nat) {
    start <= |s| && (start < |s| ==> !IsQuoteOrBlank(s[start])) && (forall i :: start <= i < |s| ==> !IsStop(s[i]))
    && exists m: nat :: LeadsTo(s, m, start)
  }

  lemma {:induction false} GapColon(s: string, gap: nat)
    requires Gap(s) == Some(gap)
    ensures 0 < gap <= |s| && IsColon(s[gap - 1])
  {
    hide IsQuoteOrBlank, IsColon;
    if IsQuoteOrBlank(s[0]) {
      GapColon(s[1..], gap - 1);
    }
  }

  lemma StartLed(s: string, end: nat, start: nat)
    requires end <= |s| && ValueStart(s, end) == Some(start)
    ensures exists m: nat :: end <= m && LeadsTo(s, m, start)
  {
    hide Gap, Lead, IsQuoteOrBlank, IsColon;
    var gap := Gap(s[end..]).value;
    GapColon(s[end..], gap);
    var m, region := end + gap - 1, s[end + gap..];
    assert s[m] == s[end..][gap - 1];
    forall i | m < i < start ensures IsQuoteOrBlank(s[i]) {
      assert s[i] == region[i - m - 1];
    }
    assert LeadsTo(s, m, start);
  }

  /** A value that begins where the front ends, or before, begins there too when
      something else follows the front. */
  lemma StartFront(p: string, end: nat, x: string, y: string, start: nat)
    requires end <= |p| && ValueStart(p + y, end) == Some(start)
    requires y != "" ==> !IsQuoteOrBlank(y[0]) && !IsColon(y[0])
    requires start == |p| ==> x == "" || !IsQuoteOrBlank(x[0])
    ensures start <= |p| && ValueStart(p + x, end) == Some(start)
    ensures start < |p| ==> !IsQuoteOrBlank(p[start])
    ensures exists m: nat :: LeadsTo(p, m, start)
  {
    hide ValueStart, IsQuoteOrBlank, IsColon;
    var s := p + y;
    StartLed(s, end, start);
    var m: nat :| end <= m && LeadsTo(s, m, start);
    StartAgain(s, end, start, "");
    assert y != "" ==> s[|p|] == y[0];
    assert start <= |p|;
    assert p == s[..|p|];
    LedFront(s, |p|, m, start);
    ValueBegins(s, end, start);
    assert start < |p| ==> s[start..][0] == p[start];
    var rest := p[start..] + x;
    assert start < |p| ==> rest[0] == p[start];
    StartAgain(s, end, start, rest);
    assert s[..start] + rest == p + x;
  }

  lemma LedFront(s: string, n: nat, m: nat, start: nat)
    requires LeadsTo(s, m, start) && start <= n <= |s|
    ensures LeadsTo(s[..n], m, start)
  {
    hide IsQuoteOrBlank, IsColon;
  }

  lemma SameValue(a: string, x: string, y: string)
    requires exists i :: 0 <= i < |a| && IsStop(a[i])
    ensures ValueExposed(a + x) == ValueExposed(a + y)
  {
    hide IsStop, TrimmedLength, StopAt;
    var n := StopAt(a);
    StopIs(a + x, n);
    StopIs(a + y, n);
    assert (a + x)[..n] == a[..n] == (a + y)[..n];
    var k := TrimmedLength(a[..n]);
    assert (a + x)[..k] == a[..k] == (a + y)[..k];
  }

  // ------------------------------------------------ one piece replaced

  /** Whatever value reaches into the piece is one to hide. */
  ghost predicate Covers(p: string, v: string, q: string) {
    forall start: nat :: Open(p, start) ==> ValueExposed(p[start..] + v + q)
  }

  /** A name before a replaced piece: exposed now, it was exposed before. */
  lemma FrontExposed(letters: set<char>, name: string, p: string, v: string, q: string, at: nat)
    requires PlainName(name) && v != "" && !IsQuoteOrBlank(v[0]) && Covers(p, v, q)
    requires at + |name| <= |p| && Exposed(letters, name, None, p + REDACTED + q, at)
    ensures Exposed(letters, name, None, p + v + q, at)
  {
    hide Occurs, ValueStart, ValueExposed, IsQuoteOrBlank, IsStop, InWord, PlainName;
    var end, x, y := at + |name|, v + q, REDACTED + q;
    var s, t := p + x, p + y;
    assert s == p + v + q && t == p + REDACTED + q;
    OccursEarlier(p, x, name, at);
    OccursEarlier(p, y, name, at);
    var start := ValueStart(t, end).value;
    BracketIsPlain();
    StartFront(p, end, x, y, start);
    var a := p[start..];
    assert s[start..] == a + x == a + v + q && t[start..] == a + y;
    if exists i :: 0 <= i < |a| && IsStop(a[i]) {
      SameValue(a, x, y);
    } else {
      forall i | start <= i < |p| ensures !IsStop(p[i]) {
        assert p[i] == a[i - start];
      }
      assert Open(p, start);
    }
  }

  lemma BracketIsPlain()
    ensures REDACTED != "" && REDACTED[0] == '[' && !IsQuoteOrBlank(REDACTED[0]) && !IsColon(REDACTED[0])
  {
  }

  lemma NotAcross(name: string, p: string, q: string, at: nat)
    requires PlainName(name) && at < |p| < at + |name|
    ensures !Occurs(p + REDACTED + q, name, at)
  {
    var t, j := p + REDACTED + q, |p| - at;
    assert t[at + j] == '[' && name[j] != '[';
  }

  lemma BehindPiece(letters: set<char>, name: string, p: string, v: string, q: string, o: nat)
    requires NameOk(name) && v != "" && (q == "" || !('a' <= Lower(q[0]) <= 'z'))
    requires !Exposed(letters, name, None, p + v + q, |p + v| + o)
    ensures !Exposed(letters, name, None, p + REDACTED + q, |p + REDACTED| + o)
  {
    hide Exposed, NameOk;
    NameNotEmpty(name);
    var front, now := p + v, p + REDACTED;
    ExposedLater(letters, name, None, front, q, o);
    ExposedLater(letters, name, None, now, q, o);
    var before, after := Some(front[|front| - 1]), Some(now[|now| - 1]);
    if o == 0 {
      if q == "" {
        NoRoom(name);
      } else {
        NotALetter(name, q, 0);
      }
      NotExposedWithout(letters, name, after, q, 0);
    } else {
      ExposedPast(letters, name, before, after, q, o);
    }
  }

  /** A piece replaced by the marker exposes nothing, when every value that
      reaches into it was one to hide. */
  lemma PieceKeepsClean(letters: set<char>, name: string, p: string, v: string, q: string)
    requires PlainName(name) && v != "" && !IsQuoteOrBlank(v[0]) && (q == "" || !('a' <= Lower(q[0]) <= 'z'))
    requires Covers(p, v, q) && Clean(letters, name, None, p + v + q)
    ensures Clean(letters, name, None, p + REDACTED + q)
  {
    hide Exposed, Covers, IsQuoteOrBlank, Occurs;
    var t := p + REDACTED + q;
    forall at: nat ensures !Exposed(letters, name, None, t, at) {
      if at >= |p + REDACTED| {
        BehindPiece(letters, name, p, v, q, at - |p + REDACTED|);
      } else if at >= |p| {
        NoneInMarker(letters, name, None, p, q, at);
      } else if at + |name| > |p| {
        NotAcross(name, p, q, at);
        NotExposedWithout(letters, name, None, t, at);
      } else if Exposed(letters, name, None, t, at) {
        FrontExposed(letters, name, p, v, q, at);
      }
    }
  }

  // ------------------------------------------------ the pass for another name

  /** A piece that is a value, with what leads to it before it. */
  ghost predicate ValuePiece(p: string, v: string, q: string) {
    v != "" && !IsQuoteOrBlank(v[0]) && (forall i :: 0 <= i < |v| ==> !IsStop(v[i])) && !IsWhite(v[|v| - 1])
    && AllBlank(q) && exists m: nat :: LeadsTo(p, m, |p|)
  }

  lemma NoColonInMarker()
    ensures forall i :: 0 <= i < |REDACTED| ==> !IsColon(REDACTED[i])
  {
  }

  lemma ValueCovers(p: string, v: string, q: string)
    requires ValuePiece(p, v, q) && v != REDACTED
    ensures Covers(p, v, q)
  {
    hide IsQuoteOrBlank, IsStop, IsWhite, AllBlank, ValueLength;
    var m: nat :| LeadsTo(p, m, |p|);
    NoColonInMarker();
    forall start: nat | Open(p, start)
      ensures ValueExposed(p[start..] + v + q)
    {
      var w := p[start..] + v;
      forall i | 0 <= i < |w| ensures !IsStop(w[i]) {
        assert w[i] == if i < |p| - start then p[start + i] else v[i - (|p| - start)];
      }
      assert w[|w| - 1] == v[|v| - 1];
      ValueIs(w, q);
      assert (w + q)[..|w|] == w;
      if start < |p| {
        assert start <= m;
        assert w[m - start] == p[m];
      } else {
        assert w == v;
      }
    }
  }

  lemma BlankNoLetter(q: string)
    requires AllBlank(q)
    ensures q == "" || !('a' <= Lower(q[0]) <= 'z')
  {
  }

  /** What the scan hides is a value. */
  lemma HidesValue(letters: set<char>, pass: string, prev: Option<char>, s: string)
    requires pass != "" && NextCut(letters, pass, prev, s).Hide?
    ensures var cut := NextCut(letters, pass, prev, s);
            ValuePiece(s[..cut.upTo], s[cut.upTo..cut.from], s[cut.from..])
  {
    hide FindFolded, ValueStart, InWord, Occurs, ValuePiece, LeadsTo, IsQuoteOrBlank;
    NextFound(letters, pass, prev, s);
    var at := FindFolded(s, pass).value;
    CutBy(letters, pass, prev, s, at);
    var k := ValueStart(s, at + |pass|).value;
    StartLed(s, at + |pass|, k);
    ValueBegins(s, at + |pass|, k);
    ValueHere(s, k, ValueLength(s[k..]));
  }

  lemma ValueHere(s: string, k: nat, size: nat)
    requires k <= |s| && size == ValueLength(s[k..]) > 0 && !IsQuoteOrBlank(s[k..][0])
    requires exists m: nat :: LeadsTo(s, m, k)
    ensures ValuePiece(s[..k], s[k..k + size], s[k + size..])
  {
    hide IsQuoteOrBlank, AllBlank, IsWhite, IsStop, LeadsTo, ValueLength;
    var m: nat :| LeadsTo(s, m, k);
    LedFront(s, k, m, k);
    var value := s[k..];
    BlankBehind(value);
    ValueEndsWell(value);
    var p, v, q := s[..k], s[k..k + size], s[k + size..];
    assert v == value[..size] && q == value[size..];
    assert v[0] == value[0];
    assert LeadsTo(p, m, |p|);
    assert forall i :: 0 <= i < |v| ==> !IsStop(v[i]);
    assert !IsWhite(v[|v| - 1]);
    assert AllBlank(q);
  }

  lemma ValueEndsWell(value: string)
    requires ValueLength(value) > 0
    ensures var n := ValueLength(value);
            (forall i :: 0 <= i < n ==> !IsStop(value[..n][i])) && !IsWhite(value[..n][n - 1])
  {
    hide IsStop, IsWhite, StopAt, TrimmedLength;
    var n := StopAt(value);
    var k := TrimmedLength(value[..n]);
    assert forall i :: 0 <= i < k ==> value[..k][i] == value[i] == value[..n][i];
  }

  /** Scrubbing for one name leaves every other as clean as it was. */
  lemma {:induction false} PassKeepsClean(letters: set<char>, name: string, pass: string, prev: Option<char>,
                                          done: string, s: string)
    requires PlainName(name) && pass != "" && Clean(letters, name, None, done + s)
    ensures Clean(letters, name, None, done + Scrubbed(letters, pass, prev, s))
    decreases |s|
  {
    hide NextCut, Scrubbed, Clean, PlainName, ValuePiece;
    ScrubbedBy(letters, pass, prev, s);
    var cut := NextCut(letters, pass, prev, s);
    if cut.Keep? {
      var k := cut.upTo;
      assert done + s == done + s[..k] + s[k..];
      PassKeepsClean(letters, name, pass, Some(s[k - 1]), done + s[..k], s[k..]);
      var rest := Scrubbed(letters, pass, Some(s[k - 1]), s[k..]);
      assert done + (s[..k] + rest) == done + s[..k] + rest;
    } else if cut.Hide? {
      var k, from := cut.upTo, cut.from;
      HidesValue(letters, pass, prev, s);
      assert s == s[..k] + s[k..from] + s[from..];
      HideKeepsClean(letters, name, done, s[..k], s[k..from], s[from..]);
      PassKeepsClean(letters, name, pass, Some(s[from - 1]), done + s[..k] + REDACTED, s[from..]);
      var rest := Scrubbed(letters, pass, Some(s[from - 1]), s[from..]);
      assert done + (s[..k] + REDACTED + rest) == done + s[..k] + REDACTED + rest;
    }
  }

  lemma HideKeepsClean(letters: set<char>, name: string, done: string, p: string, v: string, q: string)
    requires PlainName(name) && ValuePiece(p, v, q) && Clean(letters, name, None, done + (p + v + q))
    ensures Clean(letters, name, None, done + p + REDACTED + q)
  {
    hide Clean, PlainName, AllBlank, IsQuoteOrBlank, IsStop, IsWhite, IsColon;
    var front := done + p;
    assert done + (p + v + q) == front + v + q;
    var m: nat :| LeadsTo(p, m, |p|);
    assert LeadsTo(front, |done| + m, |front|);
    BlankNoLetter(q);
    if v != REDACTED {
      ValueCovers(front, v, q);
      PieceKeepsClean(letters, name, front, v, q);
    }
  }

  // ------------------------------------------------ the pass over the words

  /** A secret-shaped word with separators or nothing around it. */
  predicate WordPiece(p: string, v: string, q: string) {
    ScrubWords.SecretShaped(v) && ScrubWords.SeparatorFree(v)
    && (p == "" || ScrubWords.IsSeparator(p[|p| - 1])) && (q == "" || ScrubWords.IsSeparator(q[0]))
  }

  lemma SeparatorKinds(c: char)
    ensures IsStop(c) || IsWhite(c) || IsQuoteOrBlank(c) || c == '[' || c == ']' ==> ScrubWords.IsSeparator(c)
    ensures ScrubWords.IsSeparator(c) ==> !('a' <= Lower(c) <= 'z')
  {
  }

  lemma SecretNotEmpty(v: string)
    requires ScrubWords.SecretShaped(v)
    ensures v != "" && v[0] != 'r'
  {
    hide ScrubWords.SecretShaped;
    ScrubWords.Harmless("");
    if v != "" && v[0] == 'r' {
      ScrubWords.Harmless(v);
    }
  }

  lemma MarkerSeparators()
    ensures |REDACTED| == 10 && REDACTED[1] == 'r'
    ensures ScrubWords.IsSeparator(REDACTED[0])
    ensures forall i :: 0 < i < 9 ==> !ScrubWords.IsSeparator(REDACTED[i])
  {
    ScrubWords.PlainWordFree();
    assert REDACTED[1..9] == "redacted";
    assert forall i :: 0 < i < 9 ==> REDACTED[i] == "redacted"[i - 1];
  }

  /** No value that ends with a secret word is the marker. */
  lemma NotTheMarker(a: string, v: string, q: string, size: nat)
    requires WordPiece(a, v, q) && |a + v| <= size <= |a + v + q|
    ensures (a + v + q)[..size] != REDACTED
  {
    hide ScrubWords.SecretShaped, ScrubWords.IsSeparator, REDACTED;
    SecretNotEmpty(v);
    MarkerSeparators();
    var text := (a + v + q)[..size];
    assert text[|a|] == v[0] && !ScrubWords.IsSeparator(v[0]);
    assert |a| > 0 ==> text[|a| - 1] == a[|a| - 1];
    assert text[|a + v| - 1] == v[|v| - 1] && !ScrubWords.IsSeparator(v[|v| - 1]);
  }

  lemma WordCovers(p: string, v: string, q: string)
    requires WordPiece(p, v, q)
    ensures Covers(p, v, q)
  {
    hide ScrubWords.SecretShaped, ScrubWords.IsSeparator, IsStop, IsWhite, StopAt, TrimmedLength, IsQuoteOrBlank;
    SecretNotEmpty(v);
    forall start: nat | Open(p, start)
      ensures ValueExposed(p[start..] + v + q)
    {
      var a := p[start..];
      var text, w := a + v + q, |a + v|;
      forall i | 0 <= i < w ensures !IsStop(text[i]) {
        SeparatorKinds(text[i]);
        assert text[i] == if i < |a| then p[start + i] else v[i - |a|];
      }
      assert text[w - 1] == v[|v| - 1];
      SeparatorKinds(v[|v| - 1]);
      assert StopAt(text) >= w;
      assert text[..StopAt(text)][w - 1] == text[w - 1];
      assert ValueLength(text) >= w;
      assert a != "" ==> a[|a| - 1] == p[|p| - 1];
      NotTheMarker(a, v, q, ValueLength(text));
    }
  }

  lemma WordKeepsClean(letters: set<char>, name: string, p: string, v: string, q: string)
    requires PlainName(name) && WordPiece(p, v, q) && Clean(letters, name, None, p + v + q)
    ensures Clean(letters, name, None, p + REDACTED + q)
  {
    hide Clean, PlainName, Covers, ScrubWords.IsSeparator, ScrubWords.SecretShaped, IsQuoteOrBlank;
    SecretNotEmpty(v);
    SeparatorKinds(v[0]);
    if q != "" { SeparatorKinds(q[0]); }
    WordCovers(p, v, q);
    PieceKeepsClean(letters, name, p, v, q);
  }

  /** Masking words leaves every name as clean as it was. */
  lemma {:induction false} WordsKeepClean(letters: set<char>, name: string, done: string, s: string)
    requires PlainName(name) && (done == "" || ScrubWords.IsSeparator(done[|done| - 1]))
    requires Clean(letters, name, None, done + s)
    ensures Clean(letters, name, None, done + ScrubWords.Masked(s))
    decreases |s|
  {
    hide *;
    var k := ScrubWords.FirstSeparator(s);
    var core, rest := s[..k], s[k..];
    assert s == core + rest && done + s == done + core + rest;
    var masked := ScrubWords.Mask(core);
    MaskOne(letters, name, done, core, rest);
    if rest == "" {
      assert core == s;
      ScrubWords.MaskedWord(s);
      assert done + masked + rest == done + masked;
    } else {
      var c, more := s[k], s[k + 1..];
      assert rest == [c] + more && s == core + [c] + more;
      ScrubWords.MaskedStep(core, c, more);
      var before := done + masked + [c];
      assert done + masked + rest == before + more;
      WordsKeepClean(letters, name, before, more);
      assert done + (masked + [c] + ScrubWords.Masked(more)) == before + ScrubWords.Masked(more);
    }
  }

  lemma MaskOne(letters: set<char>, name: string, done: string, core: string, rest: string)
    requires PlainName(name) && (done == "" || ScrubWords.IsSeparator(done[|done| - 1]))
    requires ScrubWords.SeparatorFree(core) && (rest == "" || ScrubWords.IsSeparator(rest[0]))
    requires Clean(letters, name, None, done + core + rest)
    ensures Clean(letters, name, None, done + ScrubWords.Mask(core) + rest)
  {
    hide Clean, PlainName, ScrubWords.SeparatorFree, ScrubWords.IsSeparator, ScrubWords.SecretShaped;
    if ScrubWords.SecretShaped(core) {
      WordKeepsClean(letters, name, done, core, rest);
    }
  }

  // ------------------------------------------------ no value behind a name is left

  ghost predicate AllPlain(names: seq<string>) {
    forall i :: 0 <= i < |names| ==> PlainName(names[i])
  }

  /** Once a name's pass is over, or nothing was exposed at first, nothing is. */
  lemma {:induction false} NamesLeaveClean(letters: set<char>, names: seq<string>, name: string, line: string)
    requires Scrub.AllOk(names) && PlainName(name) && (name in names || Clean(letters, name, None, line))
    ensures Clean(letters, name, None, Scrub.NamesScrubbed(letters, names, line))
    decreases |names|
  {
    hide Clean, NameOk, Scrubbed;
    if names != [] {
      NameNotEmpty(names[0]);
      var next := Scrubbed(letters, names[0], None, line);
      if names[0] == name {
        NothingExposed(letters, name, None, line);
      } else if Clean(letters, name, None, line) {
        assert "" + line == line && "" + next == next;
        PassKeepsClean(letters, name, names[0], None, "", line);
      }
      NamesLeaveClean(letters, names[1..], name, next);
    }
  }

  lemma AuthHeadersPlain()
    ensures AllPlain(Scrub.AUTH_HEADERS)
  {
    hide NameOk;
    Scrub.AuthHeadersOk();
  }

  lemma KeyNamesPlain()
    ensures AllPlain(Scrub.KEY_NAMES)
  {
    hide NameOk;
    Scrub.KeyNamesOk();
  }

  lemma TokenNamesPlain()
    ensures AllPlain(Scrub.TOKEN_NAMES)
  {
    hide NameOk;
    Scrub.TokenNamesOk();
  }

  lemma SecretNamesPlain()
    ensures AllPlain(Scrub.SECRET_NAMES)
  {
    hide NameOk;
    Scrub.SecretNamesOk();
  }

  lemma SessionNamesPlain()
    ensures AllPlain(Scrub.SESSION_NAMES)
  {
    hide NameOk;
    Scrub.SessionNamesOk();
  }

  lemma ListedPlain()
    ensures AllPlain(Scrub.CREDENTIAL_NAMES)
  {
    hide PlainName;
    AuthHeadersPlain();
    KeyNamesPlain();
    TokenNamesPlain();
    SecretNamesPlain();
    SessionNamesPlain();
  }

  /** No listed name is exposed in a scrubbed line: none stands alone with a
      separator and a value behind it that is not the marker. */
  lemma NoNamedValueLeft(letters: set<char>, line: string, name: string)
    requires name in Scrub.CREDENTIAL_NAMES
    ensures Clean(letters, name, None, Scrub.LineScrubbed(letters, line))
  {
    hide Clean, PlainName, Scrub.CREDENTIAL_NAMES, Scrub.NamesScrubbed, ScrubBearer.Scrubbed, ScrubWords.Masked;
    ListedPlain();
    Scrub.ListedNamesOk();
    var named := Scrub.NamesScrubbed(letters, Scrub.CREDENTIAL_NAMES, ScrubBearer.Scrubbed(line));
    NamesLeaveClean(letters, Scrub.CREDENTIAL_NAMES, name, ScrubBearer.Scrubbed(line));
    assert "" + named == named && "" + ScrubWords.Masked(named) == ScrubWords.Masked(named);
    WordsKeepClean(letters, name, "", named);
  }

  // ------------------------------------------------ the bearer pass over a scrubbed line

  /** The text ends with the end of a bearer mark. */
  predicate EndsInMark(p: string) { |p| >= 2 && p[|p| - 1] == ' ' && Lower(p[|p| - 2]) == 'r' }

  lemma NoValueBehindMark(p: string, m: nat)
    requires EndsInMark(p)
    ensures !LeadsTo(p, m, |p|)
  {
    assert !IsColon(' ') && !IsColon(p[|p| - 2]) && !IsQuoteOrBlank(p[|p| - 2]);
  }

  lemma NoBlankInMarker()
    ensures forall i :: 0 <= i < |REDACTED| ==> REDACTED[i] != ' ' && !IsWhite(REDACTED[i])
    ensures forall i :: 0 <= i < 9 ==> REDACTED[i] != ']'
  {
  }

  lemma TokenKinds(c: char)
    requires ScrubBearer.IsToken(c)
    ensures !IsStop(c) && !IsWhite(c) && !IsQuoteOrBlank(c) && c != '[' && c as int < 0x80
  {
  }

  lemma LetterIsToken(c: char)
    requires 'a' <= Lower(c) <= 'z' || c == 'r' || c == 's' || c == 'y' || c == 'e'
    ensures ScrubBearer.IsToken(c)
  {
  }

  lemma TokenCovers(p: string, v: string, q: string)
    requires EndsInMark(p) && v != "" && forall i :: 0 <= i < |v| ==> ScrubBearer.IsToken(v[i])
    ensures Covers(p, v, q)
  {
    hide IsStop, IsWhite, StopAt, TrimmedLength, IsQuoteOrBlank, ScrubBearer.IsToken, LeadsTo;
    NoBlankInMarker();
    forall start: nat | Open(p, start)
      ensures ValueExposed(p[start..] + v + q)
    {
      var m: nat :| LeadsTo(p, m, start);
      NoValueBehindMark(p, m);
      var a := p[start..];
      var text, w := a + v + q, |a + v|;
      forall i | 0 <= i < w ensures !IsStop(text[i]) {
        assert text[i] == if i < |a| then p[start + i] else v[i - |a|];
        if i >= |a| { TokenKinds(v[i - |a|]); }
      }
      TokenKinds(v[|v| - 1]);
      assert text[w - 1] == v[|v| - 1];
      assert StopAt(text) >= w;
      assert text[..StopAt(text)][w - 1] == text[w - 1];
      var size := ValueLength(text);
      assert size >= w;
      assert text[..size][|a| - 1] == p[|p| - 1] == ' ';
    }
  }

  lemma TokenKeepsClean(letters: set<char>, name: string, p: string, v: string, q: string)
    requires PlainName(name) && EndsInMark(p) && v != ""
    requires (forall i :: 0 <= i < |v| ==> ScrubBearer.IsToken(v[i])) && (q == "" || !ScrubBearer.IsToken(q[0]))
    requires Clean(letters, name, None, p + v + q)
    ensures Clean(letters, name, None, p + REDACTED + q)
  {
    hide Clean, PlainName, Covers, IsQuoteOrBlank, ScrubBearer.IsToken, EndsInMark;
    TokenKinds(v[0]);
    if q != "" && 'a' <= Lower(q[0]) <= 'z' { LetterIsToken(q[0]); }
    TokenCovers(p, v, q);
    PieceKeepsClean(letters, name, p, v, q);
  }

  /** Where the bearer pass can drop the rest of a line: at the beginning,
      behind a marker, or behind a mark and what was stepped over with it. */
  ghost predicate CutWell(p: string) {
    p == "" || p[|p| - 1] == ']' || exists n: nat :: SteppedOver(p, n)
  }

  predicate SteppedOver(p: string, n: nat) {
    n < |p| < n + 8 && EndsInMark(p[..n]) && (forall i :: n <= i < |p| ==> p[i] as int < 0x80)
    && (n == |p| - 1 || forall i :: n <= i < |p| ==> ScrubBearer.IsToken(p[i]))
  }

  /** Behind such a place there is no beginning of a marker that is a value. */
  lemma NoHalfMarker(p: string, start: nat)
    requires CutWell(p) && Open(p, start) && start < |p|
    ensures !(|p[start..]| < |REDACTED| && p[start..] == REDACTED[..|p[start..]|])
  {
    hide IsStop, IsWhite, IsQuoteOrBlank, ScrubBearer.IsToken, LeadsTo, EndsInMark;
    NoBlankInMarker();
    var a := p[start..];
    if |a| < |REDACTED| && a == REDACTED[..|a|] {
      assert p[|p| - 1] == a[|a| - 1] == REDACTED[|a| - 1];
      assert p[start] == a[0] == '[';
      var n: nat :| SteppedOver(p, n);
      HalfMarkerStepped(p, n, start);
    }
  }

  lemma HalfMarkerStepped(p: string, n: nat, start: nat)
    requires SteppedOver(p, n) && Open(p, start) && start < |p| && p[start] == '['
    ensures exists i :: start <= i < |p| && p[i] == ' '
  {
    hide IsStop, IsQuoteOrBlank, LeadsTo;
    assert p[n - 1] == p[..n][n - 1] == ' ';
    if start >= n {
      assert start == n;
      var m: nat :| LeadsTo(p, m, start);
      LedFront(p, n, m, n);
      NoValueBehindMark(p[..n], m);
      assert false;
    }
  }

  /** A value cut short is still one to hide, unless it was cut inside a marker. */
  lemma ShortValue(a: string, v: string)
    requires a != "" && (forall i :: 0 <= i < |a| ==> !IsStop(a[i])) && ValueExposed(a)
    requires !(|a| < |REDACTED| && a == REDACTED[..|a|])
    ensures ValueExposed(a + v)
  {
    hide IsStop, IsWhite, StopAt, TrimmedLength;
    NoBlankInMarker();
    StopIs(a, |a|);
    assert a[..|a|] == a;
    var k, text := ValueLength(a), a + v;
    assert k == TrimmedLength(a);
    assert StopAt(text) >= |a| by {
      assert forall i :: 0 <= i < |a| ==> text[i] == a[i];
    }
    assert text[..StopAt(text)][k - 1] == a[k - 1];
    var size := ValueLength(text);
    assert size >= k;
    assert text[..size][..k] == a[..k];
    assert k < |a| && k < size ==> text[..size][k] == a[k] && IsWhite(a[..|a|][k]);
  }

  /** Dropping the rest of a line at such a place exposes nothing. */
  lemma CutKeepsClean(letters: set<char>, name: string, p: string, v: string)
    requires NameOk(name) && CutWell(p) && Clean(letters, name, None, p + v)
    ensures Clean(letters, name, None, p)
  {
    hide Exposed, CutWell, Occurs, NameOk;
    forall at: nat ensures !Exposed(letters, name, None, p, at) {
      if Exposed(letters, name, None, p, at) {
        CutExposed(letters, name, p, v, at);
      }
    }
  }

  lemma CutExposed(letters: set<char>, name: string, p: string, v: string, at: nat)
    requires CutWell(p) && Exposed(letters, name, None, p, at)
    ensures Exposed(letters, name, None, p + v, at)
  {
    hide Occurs, ValueStart, ValueExposed, IsQuoteOrBlank, IsStop, InWord, CutWell;
    OccursEarlier(p, v, name, at);
    var end, s := at + |name|, p + v;
    var start := ValueStart(p, end).value;
    assert p + "" == p;
    NothingHere();
    assert start < |p| by { assert p[|p|..] == ""; }
    StartFront(p, end, v, "", start);
    var a := p[start..];
    assert s[start..] == a + v && a + "" == a;
    if exists i :: 0 <= i < |a| && IsStop(a[i]) {
      SameValue(a, v, "");
    } else {
      forall i | start <= i < |p| ensures !IsStop(p[i]) {
        assert p[i] == a[i - start];
      }
      assert Open(p, start);
      NoHalfMarker(p, start);
      ShortValue(a, v);
    }
  }

  lemma NothingHere()
    ensures !ValueExposed("")
  {
  }

  /** A mark stepped over, with what comes with it. */
  lemma KeptEnds(done: string, s: string, k: nat)
    requires ScrubBearer.NextCut(s) == ScrubBearer.Keep(k)
    ensures CutWell(done + s[..k])
  {
    hide ScrubBearer.NextCut, Occurs, FindFolded, ScrubBearer.IsToken;
    var at := ScrubBearer.KeepShape(s, k);
    var p, n := done + s[..k], |done| + at + 7;
    MarkBehind(done, s, at);
    assert p[..n] == done + s[..at + 7];
    var rest := s[at + 7..];
    forall i | n <= i < |p| ensures p[i] as int < 0x80 && p[i] == s[i - |done|] {
      if ScrubBearer.IsToken(s[i - |done|]) {
        TokenKinds(s[i - |done|]);
      } else {
        assert i == n && s[i - |done|] == rest[0];
      }
    }
    assert SteppedOver(p, n);
  }

  lemma MarkBehind(done: string, s: string, at: nat)
    requires Occurs(s, ScrubBearer.MARK, at)
    ensures at + 7 <= |s| && EndsInMark(done + s[..at + 7])
  {
    ScrubBearer.MarkLetters(s, at, 6);
    ScrubBearer.MarkLetters(s, at, 5);
    ScrubBearer.TokenFolds(s[at + 6]);
  }

  /** What the bearer pass hides. */
  lemma HidesToken(done: string, s: string)
    requires ScrubBearer.NextCut(s).Hide?
    ensures var cut := ScrubBearer.NextCut(s);
            EndsInMark(done + s[..cut.upTo]) && s[cut.upTo..cut.from] != ""
            && (forall i :: cut.upTo <= i < cut.from ==> ScrubBearer.IsToken(s[i]))
            && (cut.from < |s| ==> !ScrubBearer.IsToken(s[cut.from]))
  {
    hide Occurs, FindFolded, ScrubBearer.IsToken, ScrubBearer.TokenLength, EndsInMark;
    ScrubBearer.NextFound(s);
    var at := FindFolded(s, ScrubBearer.MARK).value;
    MarkBehind(done, s, at);
    var rest := s[at + 7..];
    assert forall i :: at + 7 <= i < |s| ==> s[i] == rest[i - (at + 7)];
  }

  /** The bearer pass leaves every name as clean as it was. */
  lemma {:induction false} BearerKeepsClean(letters: set<char>, name: string, done: string, s: string)
    requires PlainName(name) && CutWell(done) && Clean(letters, name, None, done + s)
    ensures Clean(letters, name, None, done + ScrubBearer.Scrubbed(s))
    decreases |s|
  {
    hide ScrubBearer.NextCut, ScrubBearer.Scrubbed, Clean, NameOk, CutWell, EndsInMark, ScrubBearer.IsToken;
    ScrubBearer.ScrubbedBy(s);
    var cut := ScrubBearer.NextCut(s);
    match cut
    case Finish =>
    case Drop =>
      CutKeepsClean(letters, name, done, s);
      assert done + "" == done;
    case Keep(k) =>
      assert done + s == done + s[..k] + s[k..];
      KeptEnds(done, s, k);
      BearerKeepsClean(letters, name, done + s[..k], s[k..]);
      assert done + (s[..k] + ScrubBearer.Scrubbed(s[k..])) == done + s[..k] + ScrubBearer.Scrubbed(s[k..]);
    case Hide(k, from) =>
      HidesToken(done, s);
      assert done + s == done + s[..k] + s[k..from] + s[from..];
      TokenKeepsClean(letters, name, done + s[..k], s[k..from], s[from..]);
      MarkerCutsWell(done + s[..k]);
      BearerKeepsClean(letters, name, done + s[..k] + REDACTED, s[from..]);
      assert done + (s[..k] + REDACTED + ScrubBearer.Scrubbed(s[from..]))
          == done + s[..k] + REDACTED + ScrubBearer.Scrubbed(s[from..]);
  }

  lemma MarkerCutsWell(p: string)
    ensures CutWell(p + REDACTED)
  {
  }

  // ------------------------------------------------ and leaves the words clean

  predicate CleanText(s: string) { ScrubWords.Clean(ScrubWords.Words(s)) }

  lemma CleanAcross(a: string, c: char, b: string)
    requires ScrubWords.IsSeparator(c)
    ensures CleanText(a + [c] + b) <==> CleanText(a) && CleanText(b)
  {
    hide ScrubWords.SecretShaped, ScrubWords.Words, ScrubWords.IsSeparator;
    ScrubWords.WordsAcross(a, c, b);
    var x, y := ScrubWords.Words(a), ScrubWords.Words(b);
    assert forall i :: 0 <= i < |x| ==> (x + y)[i] == x[i];
    assert forall i :: 0 <= i < |y| ==> (x + y)[|x| + i] == y[i];
  }

  lemma OneWordClean(w: string)
    requires ScrubWords.SeparatorFree(w)
    ensures CleanText(w) <==> !ScrubWords.SecretShaped(w)
  {
    hide ScrubWords.SecretShaped, ScrubWords.Words, ScrubWords.SeparatorFree;
    ScrubWords.OneFreeWord(w);
    assert ScrubWords.Words(w)[0] == w;
  }

  /** A secret word begins with one of three letters. */
  lemma OddStart(w: string)
    requires w != "" ==> Lower(w[0]) != 's' && Lower(w[0]) != 'y' && w[0] != 'e'
    ensures !ScrubWords.SecretShaped(w)
  {
    hide ScrubWords.ByteLength, ScrubWords.CountOf;
    if w == "" {
      ScrubWords.NoBytes();
    } else {
      ScrubWords.OtherStart(LowerCase(w), "sk-");
      ScrubWords.OtherStart(LowerCase(w), "sk_");
      ScrubWords.OtherStart(LowerCase(w), "ya29.");
      ScrubWords.OtherStart(w, "eyJ");
    }
  }

  lemma LetterFolds(c: char)
    requires !ScrubBearer.IsToken(c)
    ensures Lower(c) != 's' && Lower(c) != 'y' && c != 'e'
  {
  }

  /** What follows a token is as clean as it was together with it. */
  lemma BehindToken(v: string, q: string)
    requires CleanText(v + q) && (q == "" || !ScrubBearer.IsToken(q[0]))
    ensures CleanText(q)
  {
    hide ScrubBearer.IsToken, CleanText;
    var j := ScrubWords.FirstSeparator(q);
    var w := q[..j];
    assert w != "" ==> w[0] == q[0];
    if q != "" { LetterFolds(q[0]); }
    OddStart(w);
    OneWordClean(w);
    if j < |q| {
      var c, rest := q[j], q[j + 1..];
      assert q == w + [c] + rest && v + q == (v + w) + [c] + rest;
      CleanAcross(w, c, rest);
      CleanAcross(v + w, c, rest);
    } else {
      assert w == q;
    }
  }

  lemma MarkerKeepsWords(p: string, v: string, q: string)
    requires EndsInMark(p) && (q == "" || !ScrubBearer.IsToken(q[0])) && CleanText(p + v + q)
    ensures CleanText(p + REDACTED + q)
  {
    hide CleanText, ScrubBearer.IsToken, ScrubWords.SecretShaped;
    var front, word := p[..|p| - 1], "redacted";
    assert p == front + [' '];
    assert p + v + q == front + [' '] + (v + q);
    CleanAcross(front, ' ', v + q);
    BehindToken(v, q);
    ScrubWords.PlainWordFree();
    ScrubWords.Harmless(word);
    OneWordClean(word);
    ScrubWords.Harmless("");
    OneWordClean("");
    CleanAcross(word, ']', q);
    var tail := word + [']'] + q;
    CleanAcross("", '[', tail);
    CleanAcross(front, ' ', "" + ['['] + tail);
    assert p + REDACTED + q == front + [' '] + ("" + ['['] + tail);
  }

  /** Few characters make no secret. */
  lemma {:induction false} ShortClean(s: string)
    requires |s| < 8 && forall i :: 0 <= i < |s| ==> s[i] as int < 0x80
    ensures CleanText(s)
    decreases |s|
  {
    hide CleanText;
    var k := ScrubWords.FirstSeparator(s);
    var w := s[..k];
    ScrubWords.AsciiBytes(w);
    OneWordClean(w);
    if k < |s| {
      ShortClean(s[k + 1..]);
      CleanAcross(w, s[k], s[k + 1..]);
      assert s == w + [s[k]] + s[k + 1..];
    } else {
      assert w == s;
    }
  }

  lemma CutKeepsWords(p: string, v: string)
    requires CutWell(p) && CleanText(p + v)
    ensures CleanText(p)
  {
    hide CleanText, EndsInMark, ScrubWords.SecretShaped, ScrubBearer.IsToken;
    if p == "" {
      ShortClean("");
    } else if p[|p| - 1] == ']' {
      var front := p[..|p| - 1];
      assert p + v == front + [']'] + v && p == front + [']'] + "";
      CleanAcross(front, ']', v);
      CleanAcross(front, ']', "");
      ShortClean("");
    } else {
      var n: nat :| SteppedOver(p, n);
      BlankBefore(p[..n]);
      var front, tail := p[..n - 1], p[n..];
      assert p[n - 1] == p[..n][n - 1];
      assert p == front + [' '] + tail && p + v == front + [' '] + (tail + v);
      ShortClean(tail);
      CleanAcross(front, ' ', tail + v);
      CleanAcross(front, ' ', tail);
    }
  }

  lemma BlankBefore(p: string)
    requires EndsInMark(p)
    ensures |p| >= 1 && p[|p| - 1] == ' '
  {
  }

  /** The bearer pass makes no word secret. */
  lemma {:induction false} BearerKeepsWords(done: string, s: string)
    requires CutWell(done) && CleanText(done + s)
    ensures CleanText(done + ScrubBearer.Scrubbed(s))
    decreases |s|
  {
    hide ScrubBearer.NextCut, ScrubBearer.Scrubbed, CleanText, CutWell, EndsInMark, ScrubBearer.IsToken;
    ScrubBearer.ScrubbedBy(s);
    var cut := ScrubBearer.NextCut(s);
    match cut
    case Finish =>
    case Drop =>
      CutKeepsWords(done, s);
      assert done + "" == done;
    case Keep(k) =>
      assert done + s == done + s[..k] + s[k..];
      KeptEnds(done, s, k);
      BearerKeepsWords(done + s[..k], s[k..]);
      assert done + (s[..k] + ScrubBearer.Scrubbed(s[k..])) == done + s[..k] + ScrubBearer.Scrubbed(s[k..]);
    case Hide(k, from) =>
      HidesToken(done, s);
      assert done + s == done + s[..k] + s[k..from] + s[from..];
      MarkerKeepsWords(done + s[..k], s[k..from], s[from..]);
      MarkerCutsWell(done + s[..k]);
      BearerKeepsWords(done + s[..k] + REDACTED, s[from..]);
      assert done + (s[..k] + REDACTED + ScrubBearer.Scrubbed(s[from..]))
          == done + s[..k] + REDACTED + ScrubBearer.Scrubbed(s[from..]);
  }

  // ------------------------------------------------ scrubbing again

  /** In a scrubbed line there is nothing left for the second and third pass,
      even after another bearer pass: scrubbing again is that pass alone. */
  lemma SecondIsBearer(letters: set<char>, line: string)
    ensures var out := Scrub.LineScrubbed(letters, line);
            Scrub.LineScrubbed(letters, out) == ScrubBearer.Scrubbed(out)
  {
    hide Clean, PlainName, NameOk, Scrub.CREDENTIAL_NAMES, Scrub.NamesScrubbed, ScrubBearer.Scrubbed, Scrubbed,
      ScrubWords.Masked, ScrubWords.Clean, ScrubWords.Words;
    var out := Scrub.LineScrubbed(letters, line);
    var again := ScrubBearer.Scrubbed(out);
    Scrub.ListedNamesOk();
    ListedPlain();
    assert "" + out == out && "" + again == again && CutWell("");
    forall i: nat | i < |Scrub.CREDENTIAL_NAMES|
      ensures Scrub.CREDENTIAL_NAMES[i] != ""
      ensures Scrubbed(letters, Scrub.CREDENTIAL_NAMES[i], None, again) == again
    {
      var name := Scrub.CREDENTIAL_NAMES[i];
      NameNotEmpty(name);
      NoNamedValueLeft(letters, line, name);
      BearerKeepsClean(letters, name, "", out);
      UnchangedExactly(letters, name, again);
    }
    Scrub.NamesUnchanged(letters, Scrub.CREDENTIAL_NAMES, again);
    Scrub.NoSecretWords(letters, line);
    BearerKeepsWords("", out);
    ScrubWords.CleanUnchanged(again);
  }

  /** Scrubbing a third time changes nothing, whatever the line. */
  lemma ThirdChangesNothing(letters: set<char>, line: string)
    ensures var twice := Scrub.LineScrubbed(letters, Scrub.LineScrubbed(letters, line));
            Scrub.LineScrubbed(letters, twice) == twice
  {
    hide *;
    var out := Scrub.LineScrubbed(letters, line);
    SecondIsBearer(letters, line);
    SecondIsBearer(letters, out);
    ScrubBearer.BearerIdempotent(out);
  }

  /** The bearer scan comes upon no token to hide and no edge to stop at. */
  predicate Rests(s: string)
    decreases |s|
  {
    match ScrubBearer.NextCut(s)
    case Finish => true
    case Keep(k) => Rests(s[k..])
    case Hide(_, _) => false
    case Drop => false
  }

  lemma {:induction false} RestsExactly(s: string)
    ensures ScrubBearer.Scrubbed(s) == s <==> Rests(s)
    decreases |s|
  {
    hide ScrubBearer.NextCut, ScrubBearer.Scrubbed, ScrubBearer.IsToken, EndsInMark;
    ScrubBearer.ScrubbedBy(s);
    var cut := ScrubBearer.NextCut(s);
    match cut
    case Finish =>
    case Drop => ScrubBearer.DropHasEdge(s);
    case Keep(k) =>
      RestsExactly(s[k..]);
      SameBehind(s, k, ScrubBearer.Scrubbed(s[k..]));
    case Hide(k, from) =>
      HidesToken("", s);
      TokenKinds(s[k]);
      assert (s[..k] + REDACTED + ScrubBearer.Scrubbed(s[from..]))[k] == '[';
  }

  lemma SameBehind(s: string, k: nat, t: string)
    requires k <= |s|
    ensures s[..k] + t == s <==> t == s[k..]
  {
    assert (s[..k] + t)[k..] == t && s == s[..k] + s[k..];
  }

  /** Scrubbing once is enough exactly when a bearer scan of the result comes
      upon nothing. */
  lemma OnceEnoughExactly(letters: set<char>, line: string)
    ensures var out := Scrub.LineScrubbed(letters, line);
            Scrub.LineScrubbed(letters, out) == out <==> Rests(out)
  {
    hide *;
    SecondIsBearer(letters, line);
    RestsExactly(Scrub.LineScrubbed(letters, line));
  }

  // ------------------------------------------------ a line that changes when scrubbed again

  /** A name with a letter that the text does not have is not in it. */
  lemma LetterMissing(text: string, name: string, j: nat)
    requires j < |name| && forall i :: 0 <= i < |text| ==> Lower(text[i]) != name[j]
    ensures forall at: nat :: !Occurs(text, name, at)
  {
    forall at: nat ensures !Occurs(text, name, at) {
      assert at + |name| <= |text| ==> Lower(text[at + j]) != name[j];
    }
  }

  ghost predicate HasAny(name: string) {
    exists j :: 0 <= j < |name| && (name[j] == 'c' || name[j] == 'i' || name[j] == 'p' || name[j] == 't')
  }

  lemma Has(name: string, j: nat)
    requires j < |name| && (name[j] == 'c' || name[j] == 'i' || name[j] == 'p' || name[j] == 't')
    ensures HasAny(name)
  {
  }

  lemma HeadersHave()
    ensures forall name :: name in Scrub.AUTH_HEADERS ==> HasAny(name)
  {
    hide HasAny;
    Has("authorization", 2);
    Has("proxy-authorization", 0);
    Has("cookie", 0);
    Has("set-cookie", 2);
  }

  lemma KeysHave()
    ensures forall name :: name in Scrub.KEY_NAMES ==> HasAny(name)
  {
    hide HasAny;
    Has("x-api-key", 3);
    Has("x-goog-api-key", 8);
    Has("api-key", 1);
    Has("api_key", 1);
    Has("apikey", 1);
  }

  lemma TokensHave()
    ensures forall name :: name in Scrub.TOKEN_NAMES ==> HasAny(name)
  {
    hide HasAny;
    Has("access_token", 1);
    Has("accesstoken", 1);
    Has("refresh_token", 8);
    Has("refreshtoken", 7);
    Has("id_token", 0);
    Has("idtoken", 0);
  }

  lemma SecretsHave()
    ensures forall name :: name in Scrub.SECRET_NAMES ==> HasAny(name)
  {
    hide HasAny;
    Has("client_secret", 0);
    Has("clientsecret", 0);
    Has("password", 0);
    Has("secret", 2);
  }

  lemma SessionsHave()
    ensures forall name :: name in Scrub.SESSION_NAMES ==> HasAny(name)
  {
    hide HasAny;
    Has("session_token", 4);
    Has("sessiontoken", 4);
    Has("x-cursor-checksum", 2);
    Has("x-client-key", 2);
  }

  lemma EachHas()
    ensures forall name :: name in Scrub.CREDENTIAL_NAMES ==> HasAny(name)
  {
    hide HasAny;
    HeadersHave();
    KeysHave();
    TokensHave();
    SecretsHave();
    SessionsHave();
  }

  lemma NamesMissing(text: string)
    requires forall i :: 0 <= i < |text| ==> text[i] !in "ciptCIPT"
    ensures Scrub.NoNames(text)
  {
    hide Occurs, Scrub.CREDENTIAL_NAMES;
    EachHas();
    forall i: nat, at: nat | i < |Scrub.CREDENTIAL_NAMES|
      ensures !Occurs(text, Scrub.CREDENTIAL_NAMES[i], at)
    {
      var name := Scrub.CREDENTIAL_NAMES[i];
      assert name in Scrub.CREDENTIAL_NAMES && HasAny(name);
      var j :| 0 <= j < |name| && (name[j] == 'c' || name[j] == 'i' || name[j] == 'p' || name[j] == 't');
      forall k | 0 <= k < |text| ensures Lower(text[k]) != name[j] {
        NotThatLetter(text[k]);
      }
      LetterMissing(text, name, j);
    }
  }

  lemma NotThatLetter(c: char)
    requires c !in "ciptCIPT"
    ensures Lower(c) != 'c' && Lower(c) != 'i' && Lower(c) != 'p' && Lower(c) != 't'
  {
  }

  predicate AllZ(s: string) { forall i :: 0 <= i < |s| ==> s[i] == 'z' }

  lemma NoMarkBefore(before: string)
    requires forall i :: 0 <= i < |before| ==> Lower(before[i]) != 'b'
    ensures ScrubBearer.FirstMark(before, ScrubBearer.MARK)
  {
    ScrubBearer.MarkIsFirst();
    OccursLater(before, ScrubBearer.MARK, ScrubBearer.MARK, 0);
    var s := before + ScrubBearer.MARK;
    forall k | 0 <= k < |before| ensures !Occurs(s, ScrubBearer.MARK, k) {
      assert Lower(s[k + 0]) != ScrubBearer.MARK[0];
    }
  }

  lemma WordFree(s: string)
    requires forall i :: 0 <= i < |s| ==> s[i] == ':' || s[i] == '-' || 'a' <= s[i] <= 'z'
    ensures ScrubWords.SeparatorFree(s)
  {
  }

  /** `sk-z…z:bearer` is a secret word. */
  lemma HidingWord(z: string) returns (word: string)
    requires AllZ(z) && |z| >= 2
    ensures word == "sk-" + z + ":" + "bearer"
    ensures ScrubWords.SeparatorFree(word) && ScrubWords.SecretShaped(word)
  {
    hide ScrubWords.SecretShaped, ScrubWords.IsSeparator, ScrubWords.SeparatorFree;
    word := "sk-" + z + ":" + "bearer";
    WordFree(word);
    ScrubWords.AsciiBytes(word);
    SecretBySk(word);
  }

  lemma SecretBySk(word: string)
    requires |word| >= 12 && word[0] == 's' && word[1] == 'k' && word[2] == '-' && ScrubWords.ByteLength(word) >= 12
    ensures ScrubWords.SecretShaped(word)
  {
    hide ScrubWords.ByteLength, ScrubWords.CountOf;
    assert LowerCase(word)[0..3] == "sk-";
  }

  /** What is left of the line behind the hiding word. */
  lemma CleanRest(token: string)
    requires AllZ(token)
    ensures CleanText(" bearer" + (" " + token))
  {
    hide CleanText, ScrubWords.SeparatorFree, ScrubWords.SecretShaped;
    WordFree("");
    WordFree("bearer");
    WordFree(token);
    OddStart("");
    OddStart("bearer");
    OddStart(token);
    OneWordClean("");
    OneWordClean("bearer");
    OneWordClean(token);
    CleanAcross("bearer", ' ', token);
    var more := "bearer" + [' '] + token;
    CleanAcross("", ' ', more);
    assert " bearer" + (" " + token) == "" + [' '] + more;
  }

  /** The bearer pass steps over the second mark and leaves the line. */
  lemma BearerStepsOver(z: string, token: string)
    requires AllZ(z) && AllZ(token)
    ensures var line := "sk-" + z + ":" + "bearer" + (" bearer" + (" " + token));
            ScrubBearer.Scrubbed(line) == line
  {
    hide ScrubBearer.Scrubbed, ScrubBearer.NextCut, ScrubBearer.FirstMark, ScrubBearer.IsToken, Occurs;
    var before, rest := "sk-" + z + ":", " " + token;
    NoMarkBefore(before);
    ScrubBearer.BearerIsToken();
    forall i | 0 <= i < |token| ensures ScrubBearer.IsToken(token[i]) {
      ZIsToken(token[i]);
    }
    ScrubBearer.NoMarkIn(token);
    ScrubBearer.FinishUnchanged(rest);
    ScrubBearer.PlaceholderKept(before, ScrubBearer.MARK, "bearer", rest);
    assert ScrubBearer.MARK == "bearer" + " " && " bearer" == " " + "bearer";
    var line := before + "bearer" + (" bearer" + rest);
    assert line == before + ScrubBearer.MARK + ("bearer" + rest) == before + ScrubBearer.MARK + "bearer" + rest;
  }

  lemma ZIsToken(c: char)
    requires c == 'z'
    ensures ScrubBearer.IsToken(c)
  {
  }

  lemma LineLetters(z: string, token: string)
    requires AllZ(z) && AllZ(token)
    ensures var line := "sk-" + z + ":" + "bearer" + (" bearer" + (" " + token));
            forall i :: 0 <= i < |line| ==> line[i] == 'z' || line[i] in "sk-:bearer "
  {
  }

  lemma NoneOfThese(c: char)
    requires c == 'z' || c in "sk-:bearer "
    ensures c !in "ciptCIPT"
  {
  }

  /** The first scrubbing hides the first word, and the mark in it. */
  lemma ScrubbedOnce(letters: set<char>, z: string, token: string)
    requires AllZ(z) && AllZ(token) && |z| >= 2
    ensures Scrub.LineScrubbed(letters, "sk-" + z + ":" + "bearer" + (" bearer" + (" " + token)))
         == REDACTED + (" bearer" + (" " + token))
  {
    hide ScrubBearer.Scrubbed, Occurs, Scrub.CREDENTIAL_NAMES, Scrub.NamesScrubbed, ScrubWords.Masked,
      ScrubWords.SecretShaped, ScrubWords.SeparatorFree, CleanText, AllZ, NameOk;
    var after := " bearer" + (" " + token);
    var line := "sk-" + z + ":" + "bearer" + after;
    BearerStepsOver(z, token);
    LineLetters(z, token);
    forall i | 0 <= i < |line| ensures line[i] !in "ciptCIPT" {
      NoneOfThese(line[i]);
    }
    NamesMissing(line);
    Scrub.ListedNamesOk();
    Scrub.NamesAbsent(letters, Scrub.CREDENTIAL_NAMES, line);
    MaskedRest(z, token);
  }

  lemma MaskedRest(z: string, token: string)
    requires AllZ(z) && AllZ(token) && |z| >= 2
    ensures ScrubWords.Masked("sk-" + z + ":" + "bearer" + (" bearer" + (" " + token)))
         == REDACTED + (" bearer" + (" " + token))
  {
    hide ScrubWords.Masked, ScrubWords.SecretShaped, ScrubWords.SeparatorFree, ScrubWords.Words, ScrubWords.Clean, AllZ;
    var after := " bearer" + (" " + token);
    var word := HidingWord(z);
    CleanRest(token);
    ScrubWords.CleanUnchanged(after);
    ScrubWords.NothingMasked();
    ScrubWords.MaskedBetween("", word, after);
    assert "" + word + after == word + after && "" + REDACTED + after == REDACTED + after;
  }

  /** Scrubbing once is not enough for every line: in this one the first
      scrubbing leaves a token, because a mark stood before its own, and takes
      that mark away, so that the second finds the token. */
  lemma SecondChanges(letters: set<char>, z: string, token: string)
    requires AllZ(z) && AllZ(token) && |z| >= 2 && |token| >= 8
    ensures var out := Scrub.LineScrubbed(letters, "sk-" + z + ":" + "bearer" + (" bearer" + (" " + token)));
            out == REDACTED + " bearer " + token
            && Scrub.LineScrubbed(letters, out) == REDACTED + " bearer " + REDACTED
            && Scrub.LineScrubbed(letters, out) != out
  {
    hide Scrub.LineScrubbed, ScrubBearer.Scrubbed, ScrubBearer.FirstMark, ScrubBearer.IsToken;
    var line := "sk-" + z + ":" + "bearer" + (" bearer" + (" " + token));
    ScrubbedOnce(letters, z, token);
    SecondIsBearer(letters, line);
    var before := REDACTED + " ";
    NoMarkBefore(before);
    forall i | 0 <= i < |token| ensures ScrubBearer.IsToken(token[i]) {
      ZIsToken(token[i]);
    }
    ScrubBearer.TokenReplaced(before, ScrubBearer.MARK, token, "");
    ScrubBearer.NothingToScrub();
    MarkSplits(before, token);
    MarkSplits(before, REDACTED);
    assert token + "" == token && REDACTED + "" == REDACTED;
    assert token[0] != REDACTED[0];
    assert (before + ScrubBearer.MARK + token)[|before| + 7] == token[0];
    assert (before + ScrubBearer.MARK + REDACTED)[|before| + 7] == REDACTED[0];
  }

  lemma MarkSplits(before: string, tail: string)
    requires before == REDACTED + " "
    ensures before + ScrubBearer.MARK + tail == REDACTED + " bearer " + tail == REDACTED + (" bearer" + (" " + tail))
    ensures |ScrubBearer.MARK| == 7
  {
    assert " bearer " == " " + ScrubBearer.MARK && " bearer " == " bearer" + " ";
  }
}
