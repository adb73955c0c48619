/** The whole scrubbing of a log line: bearer tokens, then the value behind each
    credential name in turn, then words that are secrets by their shape. */
module Scrub {
  import opened Options
  import opened Redaction
  import ScrubBearer
  import opened ScrubNamed
  import ScrubWords
  import opened Strings

  const AUTH_HEADERS: seq<string> := ["authorization", "proxy-authorization", "cookie", "set-cookie"]
  const KEY_NAMES: seq<string> := ["x-api-key", "x-goog-api-key", "api-key", "api_key", "apikey"]
  const TOKEN_NAMES: seq<string> := ["access_token", "accesstoken", "refresh_token",
                                     "refreshtoken", "id_token", "idtoken"]
  const SECRET_NAMES: seq<string> := ["client_secret", "clientsecret", "password", "secret"]
  const SESSION_NAMES: seq<string> := ["session_token", "sessiontoken", "x-cursor-checksum", "x-client-key"]
  const CREDENTIAL_NAMES: seq<string> := AUTH_HEADERS + KEY_NAMES + TOKEN_NAMES + SECRET_NAMES + SESSION_NAMES

  ghost predicate AllOk(names: seq<string>) {
    forall i :: 0 <= i < |names| ==> NameOk(names[i])
  }

  lemma AuthHeadersOk()
    ensures AllOk(AUTH_HEADERS)
  {
    assert NameOk("authorization");
    assert NameOk("proxy-authorization");
    assert NameOk("cookie");
    assert NameOk("set-cookie");
    hide NameOk;
  }

  lemma KeyNamesOk()
    ensures AllOk(KEY_NAMES)
  {
    assert NameOk("x-api-key");
    assert NameOk("x-goog-api-key");
    assert NameOk("api-key");
    assert NameOk("api_key");
    assert NameOk("apikey");
    hide NameOk;
  }

  lemma TokenNamesOk()
    ensures AllOk(TOKEN_NAMES)
  {
    TokenOfAccess();
    TokenOfRefresh();
    assert NameOk("id_token");
    assert NameOk("idtoken");
    hide NameOk;
  }

  lemma TokenOfAccess()
    ensures NameOk("access_token") && NameOk("accesstoken")
  {
  }

  lemma TokenOfRefresh()
    ensures NameOk("refresh_token") && NameOk("refreshtoken")
  {
  }

  lemma SecretNamesOk()
    ensures AllOk(SECRET_NAMES)
  {
    assert NameOk("client_secret");
    assert NameOk("clientsecret");
    assert NameOk("password");
    assert NameOk("secret");
    hide NameOk;
  }

  lemma SessionNamesOk()
    ensures AllOk(SESSION_NAMES)
  {
    TokenOfSession();
    assert NameOk("x-cursor-checksum");
    assert NameOk("x-client-key");
    hide NameOk;
  }

  lemma TokenOfSession()
    ensures NameOk("session_token") && NameOk("sessiontoken")
  {
  }

  /** Every listed name is one the scan is made for. */
  lemma ListedNamesOk()
    ensures AllOk(CREDENTIAL_NAMES)
  {
    hide NameOk;
    AuthHeadersOk();
    KeyNamesOk();
    TokenNamesOk();
    SecretNamesOk();
    SessionNamesOk();
  }

  // ------------------------------------------------ the passes in turn

  function NamesScrubbed(letters: set<char>, names: seq<string>, line: string): string
    requires AllOk(names)
    decreases |names|
  {
    if names == [] then line
    else
      NameNotEmpty(names[0]);
      NamesScrubbed(letters, names[1..], Scrubbed(letters, names[0], None, line))
  }

  function LineScrubbed(letters: set<char>, line: string): string {
    ListedNamesOk();
    ScrubWords.Masked(NamesScrubbed(letters, CREDENTIAL_NAMES, ScrubBearer.Scrubbed(line)))
  }

  method ScrubNames(letters: set<char>, line: string) returns (out: string)
    ensures AllOk(CREDENTIAL_NAMES) && out == NamesScrubbed(letters, CREDENTIAL_NAMES, line)
  {
    hide NameOk, Scrubbed;
    ListedNamesOk();
    out := line;
    var names := CREDENTIAL_NAMES;
    hide CREDENTIAL_NAMES;
    assert names[0..] == names;
    for i := 0 to |names|
      invariant AllOk(names[i..])
      invariant NamesScrubbed(letters, names[i..], out) == NamesScrubbed(letters, names, line)
    {
      assert names[i..][0] == names[i] && names[i..][1..] == names[i + 1..];
      NameNotEmpty(names[i]);
      out := ScrubOneNamed(letters, out, names[i]);
    }
  }

  method ScrubLine(letters: set<char>, line: string) returns (out: string)
    ensures out == LineScrubbed(letters, line)
    ensures ScrubWords.Clean(ScrubWords.Words(out)) && ScrubWords.Masked(out) == out
  {
    hide ScrubWords.Masked, ScrubBearer.Scrubbed, NamesScrubbed, ScrubWords.Clean, ScrubWords.Words;
    NoSecretWords(letters, line);
    out := ScrubBearer.ScrubBearer(line);
    out := ScrubNames(letters, out);
    out := ScrubWords.ScrubSelfIdentifying(out);
  }

  /** No scrubbed line has a word that is a secret by its shape, and the last
      pass would find nothing more to do in it. */
  lemma NoSecretWords(letters: set<char>, line: string)
    ensures var out := LineScrubbed(letters, line);
            ScrubWords.Clean(ScrubWords.Words(out)) && ScrubWords.Masked(out) == out
  {
    hide ScrubWords.Masked, ScrubBearer.Scrubbed, NamesScrubbed, ScrubWords.Clean, ScrubWords.Words;
    ListedNamesOk();
    var named := NamesScrubbed(letters, CREDENTIAL_NAMES, ScrubBearer.Scrubbed(line));
    ScrubWords.NoSecretLeft(named);
    ScrubWords.SelfIdentifyingIdempotent(named);
  }

  // ------------------------------------------------ what happens to a whole line

  /** The piece, which has no capitals, in any casing. */
  predicate AnyCase(text: string, piece: string) {
    |text| == |piece|
    && forall j :: 0 <= j < |piece| ==>
         !('A' <= piece[j] <= 'Z')
         && (text[j] == piece[j] || ('a' <= piece[j] <= 'z' && text[j] as int == piece[j] as int - 32))
  }

  /** Letters, digits, and the punctuation of tokens. */
  predicate IsTokenChar(c: char) {
    'a' <= c <= 'z' || 'A' <= c <= 'Z' || '0' <= c <= '9'
    || c == '-' || c == '_' || c == '.' || c == '~' || c == '+' || c == '/' || c == '='
  }

  /** A letter, a digit or an underscore. */
  predicate WordChar(letters: set<char>, c: char) {
    c == '_' || '0' <= c <= '9' || 'a' <= c <= 'z' || 'A' <= c <= 'Z' || (c as int > 0x7F && c in letters)
  }

  lemma WordsAlike(letters: set<char>, c: char)
    ensures WordChar(letters, c) <==> IsWord(letters, c)
  {
  }

  /** Where the listed names stand: nowhere but ending at `end`. */
  ghost predicate NamesOnlyTo(text: string, end: nat) {
    forall i: nat, at: nat :: i < |CREDENTIAL_NAMES| && Occurs(text, CREDENTIAL_NAMES[i], at) ==>
      at + |CREDENTIAL_NAMES[i]| == end
  }

  ghost predicate NoNames(text: string) {
    forall i: nat, at: nat :: i < |CREDENTIAL_NAMES| ==> !Occurs(text, CREDENTIAL_NAMES[i], at)
  }

  /** Where the bearer marks stand: nowhere but at `place`. */
  ghost predicate MarksOnlyAt(text: string, place: Option<nat>) {
    forall at: nat :: Occurs(text, "bearer ", at) ==> place == Some(at)
  }

  lemma AnyCaseOccurs(before: string, text: string, piece: string)
    requires AnyCase(text, piece)
    ensures Occurs(before + text, piece, |before|)
  {
    var s := before + text;
    forall j | 0 <= j < |piece|
      ensures Lower(s[|before| + j]) == piece[j]
    {
      assert s[|before| + j] == text[j];
    }
  }

  lemma NameAbsent(letters: set<char>, name: string, prev: Option<char>, text: string)
    requires name != "" && forall at: nat :: !Occurs(text, name, at)
    ensures Scrubbed(letters, name, prev, text) == text
  {
    hide Occurs, Scrubbed;
    NextFound(letters, name, prev, text);
    ScrubbedBy(letters, name, prev, text);
  }

  lemma {:induction false} NamesAbsent(letters: set<char>, names: seq<string>, text: string)
    requires AllOk(names)
    requires forall i: nat, at: nat :: i < |names| ==> !Occurs(text, names[i], at)
    ensures NamesScrubbed(letters, names, text) == text
    decreases |names|
  {
    hide Occurs, NameOk, Scrubbed;
    if names != [] {
      NameNotEmpty(names[0]);
      forall at: nat ensures !Occurs(text, names[0], at) {
        assert names[0] == names[0 as nat];
      }
      NameAbsent(letters, names[0], None, text);
      forall i: nat, at: nat | i < |names[1..]| ensures !Occurs(text, names[1..][i], at) {
        assert names[1..][i] == names[i + 1];
      }
      NamesAbsent(letters, names[1..], text);
    }
  }

  /** A bearer token of eight characters or more, in a line without another
      mark, a listed name or a secret-shaped word beside it, comes out as the
      marker and the rest of the line as it was. */
  lemma BearerGone(letters: set<char>, before: string, mark: string, token: string, rest: string)
    requires AnyCase(mark, "bearer ")
    requires |token| >= 8 && forall i :: 0 <= i < |token| ==> IsTokenChar(token[i])
    requires rest == "" || !IsTokenChar(rest[0])
    requires var plain := before + mark + "[redacted]" + rest;
             MarksOnlyAt(plain, Some(|before|)) && NoNames(plain) && ScrubWords.Clean(ScrubWords.Words(plain))
    ensures LineScrubbed(letters, before + mark + (token + rest)) == before + mark + "[redacted]" + rest
  {
    hide Occurs, AnyCase, ScrubWords.Clean, ScrubWords.Words, ScrubWords.Masked, ScrubBearer.Scrubbed, NamesScrubbed,
      ScrubBearer.FirstMark;
    var plain := before + mark + "[redacted]" + rest;
    TokensAlike(token, rest);
    OneMark(before, mark, rest);
    ScrubBearer.TokenReplaced(before, mark, token, rest);
    ListedNamesOk();
    NamesAbsent(letters, CREDENTIAL_NAMES, plain);
    ScrubWords.CleanUnchanged(plain);
  }

  lemma TokensAlike(token: string, rest: string)
    requires forall i :: 0 <= i < |token| ==> IsTokenChar(token[i])
    requires rest == "" || !IsTokenChar(rest[0])
    ensures forall i :: 0 <= i < |token| ==> ScrubBearer.IsToken(token[i])
    ensures rest == "" || !ScrubBearer.IsToken(rest[0])
  {
  }

  lemma OneMark(before: string, mark: string, rest: string)
    requires AnyCase(mark, "bearer ") && MarksOnlyAt(before + mark + "[redacted]" + rest, Some(|before|))
    ensures ScrubBearer.FirstMark(before, mark) && ScrubBearer.Scrubbed(rest) == rest
  {
    hide Occurs, ScrubBearer.Scrubbed, ScrubBearer.NextCut;
    var plain, head := before + mark + "[redacted]" + rest, before + mark;
    assert |mark| == 7;
    AnyCaseOccurs(before, mark, "bearer ");
    assert plain == head + ("[redacted]" + rest) && plain == (head + "[redacted]") + rest;
    forall k: nat | k < |before| ensures !Occurs(head, "bearer ", k) {
      OccursEarlier(head, "[redacted]" + rest, "bearer ", k);
    }
    forall at: nat ensures !Occurs(rest, "bearer ", at) {
      OccursLater(head + "[redacted]", rest, "bearer ", at);
    }
    MarkAbsent(rest);
  }

  lemma MarkAbsent(text: string)
    requires forall at: nat :: !Occurs(text, "bearer ", at)
    ensures ScrubBearer.Scrubbed(text) == text
  {
    hide Occurs;
    ScrubBearer.NextFound(text);
    ScrubBearer.FinishUnchanged(text);
  }

  /** What can stand between a name and its value. */
  predicate Between(text: string) {
    text == ": " || text == ":" || text == "=" || text == " = " || text == "\":\"" || text == "\": \""
  }

  predicate Ends(c: char) { c == '"' || c == '\'' || c == ',' || c == '}' || c == ';' || c == '\n' }

  /** A value: no quote and nothing structural in it, and no blank at its ends. */
  predicate ValueText(text: string) {
    text != "" && (forall i :: 0 <= i < |text| ==> !Ends(text[i]))
    && 0x21 <= text[0] as int <= 0x7E && 0x21 <= text[|text| - 1] as int <= 0x7E
  }

  /** White space up to the end of a value. */
  predicate EndsSoon(text: string) {
    text == "" || Ends(text[0]) || ((text[0] == ' ' || text[0] == '\t' || text[0] == '\r') && EndsSoon(text[1..]))
  }

  lemma {:induction false} EndsBlank(text: string)
    requires EndsSoon(text)
    ensures AllBlank(text)
  {
    if text != "" && !Ends(text[0]) { EndsBlank(text[1..]); }
  }

  lemma ValueAlike(between: string, value: string, rest: string)
    requires Between(between) && ValueText(value) && EndsSoon(rest)
    ensures Separates(between) && IsValue(value) && AllBlank(rest) && IsValue("[redacted]")
  {
    BetweenSeparates(between);
    EndsBlank(rest);
  }

  lemma BetweenSeparates(between: string)
    requires Between(between)
    ensures Separates(between)
  {
    if between == ": " {
      assert Gap(between) == Some(1);
    } else if between == " = " {
      assert between[1..] == "= " && Gap("= ") == Some(1);
    } else if between == "\":\"" {
      assert between[1..] == ":\"" && Gap(":\"") == Some(1);
    } else if between == "\": \"" {
      assert between[1..] == ": \"" && Gap(": \"") == Some(1);
    }
  }

  /** One pass over a line in which names end at one place only, with a value
      behind: it hides the value or does nothing. */
  lemma NamePass(letters: set<char>, name: string, head: string, between: string, value: string, rest: string)
    requires NameOk(name) && Separates(between) && IsValue(value) && AllBlank(rest)
    requires forall at: nat :: Occurs(head + between + (value + rest), name, at) ==> at + |name| == |head|
    ensures var line, plain := head + between + (value + rest), head + between + "[redacted]" + rest;
            var out := Scrubbed(letters, name, None, line);
            out == line || out == plain
    ensures var line, at := head + between + (value + rest), |head| - |name|;
            at >= 0 && Occurs(line, name, at) && !InWord(letters, Before(None, line, at)) ==>
              Scrubbed(letters, name, None, line) == head + between + "[redacted]" + rest
  {
    hide Occurs, NameOk, Scrubbed, Separates, IsValue, AllBlank, InWord, Before;
    NameNotEmpty(name);
    var line := head + between + (value + rest);
    if at: nat :| Occurs(line, name, at) {
      OccursFits(line, name, at);
      assert line == head + (between + (value + rest));
      NameTail(name, head, between + (value + rest));
      if InWord(letters, Before(None, line, at)) {
        NameKept(letters, name, head, between + (value + rest), at);
      } else {
        NameHidden(letters, name, head, between, value, rest, at);
      }
    } else {
      NameAbsent(letters, name, None, line);
    }
  }

  /** Behind the place where names end there is none. */
  lemma NameTail(name: string, head: string, tail: string)
    requires forall at: nat :: Occurs(head + tail, name, at) ==> at + |name| == |head|
    requires name != ""
    ensures forall at: nat :: !Occurs(tail, name, at)
  {
    hide Occurs;
    forall at: nat ensures !Occurs(tail, name, at) {
      OccursLater(head, tail, name, at);
    }
  }

  lemma NameKept(letters: set<char>, name: string, head: string, tail: string, at: nat)
    requires name != "" && at + |name| == |head| && Occurs(head + tail, name, at)
    requires forall k: nat :: Occurs(head + tail, name, k) ==> k == at
    requires forall k: nat :: !Occurs(tail, name, k)
    requires InWord(letters, Before(None, head + tail, at))
    ensures Scrubbed(letters, name, None, head + tail) == head + tail
  {
    hide Occurs, Scrubbed, InWord, Before, ValueStart, FindFolded;
    var line := head + tail;
    FoundAt(line, name, at);
    NextFound(letters, name, None, line);
    CutBy(letters, name, None, line, at);
    ScrubbedBy(letters, name, None, line);
    assert line[..|head|] == head && line[|head|..] == tail;
    NameAbsent(letters, name, Some(line[|head| - 1]), tail);
  }

  lemma NameHidden(letters: set<char>, name: string, head: string, between: string, value: string, rest: string,
                   at: nat)
    requires name != "" && Separates(between) && IsValue(value) && AllBlank(rest)
    requires at + |name| == |head| && Occurs(head + between + (value + rest), name, at)
    requires forall k: nat :: Occurs(head + between + (value + rest), name, k) ==> k == at
    requires forall k: nat :: !Occurs(between + (value + rest), name, k)
    requires !InWord(letters, Before(None, head + between + (value + rest), at))
    ensures Scrubbed(letters, name, None, head + between + (value + rest)) == head + between + "[redacted]" + rest
  {
    hide Occurs, Scrubbed, Separates, IsValue, AllBlank, InWord;
    var before, mark := head[..at], head[at..];
    var tail := between + (value + rest);
    assert head == before + mark && head + between + (value + rest) == head + tail;
    forall k: nat | k <= at ensures Occurs(head + tail, name, k) == Occurs(head, name, k) {
      OccursEarlier(head, tail, name, k);
    }
    assert Before(None, head, at) == Before(None, head + tail, at);
    assert FirstName(letters, name, None, before, mark);
    ValueReplaced(letters, name, None, before, mark, between, value, rest);
    forall k: nat ensures !Occurs(rest, name, k) {
      OccursLater(between + value, rest, name, k);
      assert between + value + rest == between + (value + rest);
    }
    ValueEnds(value);
    NameAbsent(letters, name, Some(value[|value| - 1]), rest);
  }

  /** Passes that each hide the value or do nothing hide it in the end. */
  lemma {:induction false} NamesReach(letters: set<char>, names: seq<string>, name: string, line: string,
                                      plain: string, now: string)
    requires AllOk(names) && (now == line || now == plain)
    requires forall i :: 0 <= i < |names| ==> PassesTo(letters, names[i], name, line, plain)
    ensures now == plain || name in names ==> NamesScrubbed(letters, names, now) == plain
    decreases |names|
  {
    hide NameOk, Scrubbed;
    if names != [] {
      NameNotEmpty(names[0]);
      NamesReach(letters, names[1..], name, line, plain, Scrubbed(letters, names[0], None, now));
    }
  }

  predicate PassesTo(letters: set<char>, pass: string, name: string, line: string, plain: string) {
    NameOk(pass)
    && (NameNotEmpty(pass);
        var out := Scrubbed(letters, pass, None, line);
        (out == line || out == plain) && Scrubbed(letters, pass, None, plain) == plain
        && (pass == name ==> out == plain))
  }

  /** The value behind a listed name that stands alone, in a line without a
      bearer mark, another name or a secret-shaped word beside it, comes out as
      the marker and the rest of the line as it was.  A listed name can end
      another, as `cookie` does `set-cookie`. */
  lemma NamedGone(letters: set<char>, name: string, before: string, mark: string, between: string,
                  value: string, rest: string)
    requires name in CREDENTIAL_NAMES && AnyCase(mark, name) && Between(between) && ValueText(value)
    requires before == "" || !WordChar(letters, before[|before| - 1])
    requires EndsSoon(rest)
    requires var line, plain := before + mark + between + (value + rest), before + mark + between + "[redacted]" + rest;
             MarksOnlyAt(line, None) && NamesOnlyTo(line, |before + mark|) && NamesOnlyTo(plain, |before + mark|)
             && ScrubWords.Clean(ScrubWords.Words(plain))
    ensures LineScrubbed(letters, before + mark + between + (value + rest))
         == before + mark + between + "[redacted]" + rest
  {
    hide Occurs, NameOk, AnyCase, Between, ValueText, EndsSoon, ScrubWords.Clean, ScrubWords.Words, ScrubWords.Masked,
      ScrubBearer.Scrubbed, NamesScrubbed, PassesTo, Scrubbed, IsWord, WordChar;
    if before != "" { WordsAlike(letters, before[|before| - 1]); }
    var head := before + mark;
    var line, plain := head + between + (value + rest), head + between + "[redacted]" + rest;
    ValueAlike(between, value, rest);
    MarkAbsent(line);
    ListedNamesOk();
    forall i | 0 <= i < |CREDENTIAL_NAMES|
      ensures PassesTo(letters, CREDENTIAL_NAMES[i], name, line, plain)
    {
      EachPass(letters, i, name, before, mark, between, value, rest);
    }
    NamesReach(letters, CREDENTIAL_NAMES, name, line, plain, line);
    ScrubWords.CleanUnchanged(plain);
  }

  lemma EachPass(letters: set<char>, i: nat, name: string, before: string, mark: string, between: string,
                 value: string, rest: string)
    requires i < |CREDENTIAL_NAMES| && AllOk(CREDENTIAL_NAMES) && AnyCase(mark, name)
    requires Separates(between) && IsValue(value) && AllBlank(rest) && IsValue("[redacted]")
    requires before == "" || !IsWord(letters, before[|before| - 1])
    requires NamesOnlyTo(before + mark + between + (value + rest), |before + mark|)
    requires NamesOnlyTo(before + mark + between + "[redacted]" + rest, |before + mark|)
    ensures PassesTo(letters, CREDENTIAL_NAMES[i], name, before + mark + between + (value + rest),
                     before + mark + between + "[redacted]" + rest)
  {
    hide Occurs, NameOk, AnyCase, Scrubbed, Separates, IsValue, AllBlank, IsWord, CREDENTIAL_NAMES;
    var pass, head := CREDENTIAL_NAMES[i], before + mark;
    var line := head + between + (value + rest);
    assert head + between + "[redacted]" + rest == head + between + ("[redacted]" + rest);
    NameNotEmpty(pass);
    NamePass(letters, pass, head, between, value, rest);
    NamePass(letters, pass, head, between, "[redacted]", rest);
    if pass == name {
      AnyCaseOccurs(before, mark, name);
      OccursEarlier(head, between + (value + rest), name, |before|);
      assert line == head + (between + (value + rest));
      SameLength(mark, name);
      assert before != "" ==> line[|before| - 1] == before[|before| - 1];
    }
  }

  lemma SameLength(text: string, piece: string)
    requires AnyCase(text, piece)
    ensures |text| == |piece|
  {
  }

  /** A name inside a longer word, or with neither a colon, an equals sign, a
      quote nor a blank behind it. */
  predicate NotAField(letters: set<char>, line: string, at: nat, end: nat)
    requires at <= end <= |line|
  {
    (at > 0 && WordChar(letters, line[at - 1])) || end == |line| || line[end] !in ":=\"' \t"
  }

  /** A line in which no listed name stands as a field, without a bearer mark or
      a secret-shaped word, comes out unchanged. */
  lemma OtherLinesKept(letters: set<char>, line: string)
    requires MarksOnlyAt(line, None) && ScrubWords.Clean(ScrubWords.Words(line))
    requires forall i: nat, at: nat :: i < |CREDENTIAL_NAMES| && Occurs(line, CREDENTIAL_NAMES[i], at) ==>
               NotAField(letters, line, at, at + |CREDENTIAL_NAMES[i]|)
    ensures LineScrubbed(letters, line) == line
  {
    hide Occurs, NameOk, ScrubWords.Clean, ScrubWords.Words, ScrubWords.Masked, ScrubBearer.Scrubbed, NamesScrubbed,
      Scrubbed, NotAField, CREDENTIAL_NAMES;
    MarkAbsent(line);
    ListedNamesOk();
    forall i: nat | i < |CREDENTIAL_NAMES|
      ensures NameOk(CREDENTIAL_NAMES[i]) && CREDENTIAL_NAMES[i] != ""
      ensures Scrubbed(letters, CREDENTIAL_NAMES[i], None, line) == line
    {
      var name := CREDENTIAL_NAMES[i];
      NameNotEmpty(name);
      forall at: nat | Occurs(line, name, at)
        ensures at + |name| <= |line| && NotAField(letters, line, at, at + |name|)
      {
        OccursFits(line, name, at);
        assert Occurs(line, CREDENTIAL_NAMES[i], at);
      }
      NoField(letters, name, line);
    }
    NamesUnchanged(letters, CREDENTIAL_NAMES, line);
    ScrubWords.CleanUnchanged(line);
  }

  lemma NoField(letters: set<char>, name: string, line: string)
    requires NameOk(name) && name != ""
    requires forall at: nat :: Occurs(line, name, at) ==>
               at + |name| <= |line| && NotAField(letters, line, at, at + |name|)
    ensures Scrubbed(letters, name, None, line) == line
  {
    hide Occurs, NameOk, Scrubbed, NotAField, Exposed;
    forall at: nat ensures !Exposed(letters, name, None, line, at) {
      NotExposed(letters, name, line, at);
    }
    ScrubNamed.UnchangedExactly(letters, name, line);
  }

  lemma NotExposed(letters: set<char>, name: string, line: string, at: nat)
    requires Occurs(line, name, at) ==> at + |name| <= |line| && NotAField(letters, line, at, at + |name|)
    ensures !Exposed(letters, name, None, line, at)
  {
    hide Occurs;
    if Occurs(line, name, at) {
      if at > 0 { WordsAlike(letters, line[at - 1]); }
      var tail := line[at + |name|..];
      assert tail != "" ==> tail[0] == line[at + |name|];
    }
  }

  lemma {:induction false} NamesUnchanged(letters: set<char>, names: seq<string>, line: string)
    requires AllOk(names)
    requires forall i: nat :: i < |names| ==> names[i] != "" && Scrubbed(letters, names[i], None, line) == line
    ensures NamesScrubbed(letters, names, line) == line
    decreases |names|
  {
    hide NameOk, Scrubbed;
    if names != [] {
      NameNotEmpty(names[0]);
      assert names[0] == names[0 as nat];
      forall i: nat | i < |names[1..]|
        ensures names[1..][i] != "" && Scrubbed(letters, names[1..][i], None, line) == line
      {
        assert names[1..][i] == names[i + 1];
      }
      NamesUnchanged(letters, names[1..], line);
    }
  }

  /** What sets words apart: white space, quotes, brackets and punctuation. */
  predicate Apart(c: char) { c in " \t\n\r\"',;=?&|()[]<>}" }

  /** A secret-shaped word set apart in a line without a bearer mark, a listed
      name or another such word comes out as the marker, and the rest of the
      line as it was. */
  lemma WordGone(letters: set<char>, before: string, word: string, after: string)
    requires ScrubWords.SecretShaped(word) && forall i :: 0 <= i < |word| ==> IsTokenChar(word[i]) && word[i] != '='
    requires before == "" || Apart(before[|before| - 1])
    requires after == "" || Apart(after[0])
    requires MarksOnlyAt(before + word + after, None) && NoNames(before + word + after)
    requires ScrubWords.Clean(ScrubWords.Words(before)) && ScrubWords.Clean(ScrubWords.Words(after))
    ensures LineScrubbed(letters, before + word + after) == before + "[redacted]" + after
  {
    hide Occurs, ScrubWords.Clean, ScrubWords.Words, ScrubWords.Masked, ScrubBearer.Scrubbed, NamesScrubbed,
      ScrubWords.SecretShaped, Apart, NameOk, CREDENTIAL_NAMES;
    var line := before + word + after;
    MarkAbsent(line);
    ListedNamesOk();
    NamesAbsent(letters, CREDENTIAL_NAMES, line);
    if before != "" { ApartSeparates(before[|before| - 1]); }
    if after != "" { ApartSeparates(after[0]); }
    TokenWordFree(word);
    ScrubWords.MaskedBetween(before, word, after);
    ScrubWords.CleanUnchanged(before);
    ScrubWords.CleanUnchanged(after);
  }

  lemma TokenWordFree(word: string)
    requires forall i :: 0 <= i < |word| ==> IsTokenChar(word[i]) && word[i] != '='
    ensures ScrubWords.SeparatorFree(word)
  {
  }

  lemma ApartSeparates(c: char)
    requires Apart(c)
    ensures ScrubWords.IsSeparator(c)
  {
  }
}
