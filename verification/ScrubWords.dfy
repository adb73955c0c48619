/** Scrubbing of words that are credentials on their own evidence: the line is
    cut at separators and each secret-shaped word is replaced by a marker. */
module ScrubWords {
  import opened Redaction
  import opened Strings
  import Utf8

  // ------------------------------------------------ characters and shapes

  predicate IsSeparator(c: char) {
    IsWhite(c) || c == '"' || c == '\'' || c == ',' || c == ';' || c == '}' || c == ')' || c == ']' || c == '='
    || c == '?' || c == '&' || c == '(' || c == '[' || c == '<' || c == '>' || c == '|'
  }

  function Utf8Size(c: char): nat {
    var n := c as int;
    if n < 0x80 then 1 else if n < 0x800 then 2 else if n < 0x1_0000 then 3 else 4
  }

  function ByteLength(s: string): nat {
    if s == "" then 0 else Utf8Size(s[0]) + ByteLength(s[1..])
  }

  function CountOf(s: string, c: char): nat {
    if s == "" then 0 else (if s[0] == c then 1 else 0) + CountOf(s[1..], c)
  }

  /** A bare word that is a credential: an `sk-` key, a Google token, a JWT. */
  predicate SecretShaped(word: string) {
    ByteLength(word) >= MIN_SECRET
    && (((StartsAt(LowerCase(word), "sk-", 0) || StartsAt(LowerCase(word), "sk_", 0)) && ByteLength(word) >= 12)
        || StartsAt(LowerCase(word), "ya29.", 0)
        || (StartsAt(word, "eyJ", 0) && CountOf(word, '.') == 2))
  }

  // ------------------------------------------------ words and separators

  predicate SeparatorFree(s: string) {
    forall i :: 0 <= i < |s| ==> !IsSeparator(s[i])
  }

  /** The maximal separator-free words of a text, one more than its separators. */
  function Words(s: string): (words: seq<string>)
    ensures |words| == |Separators(s)| + 1
  {
    if s == "" then [""]
    else if IsSeparator(s[0]) then [""] + Words(s[1..])
    else [[s[0]] + Words(s[1..])[0]] + Words(s[1..])[1..]
  }

  function Separators(s: string): string {
    if s == "" then ""
    else (if IsSeparator(s[0]) then [s[0]] else "") + Separators(s[1..])
  }

  function Join(words: seq<string>, separators: string): string
    requires |words| == |separators| + 1
  {
    if separators == "" then words[0] else words[0] + [separators[0]] + Join(words[1..], separators[1..])
  }

  function Mask(word: string): string {
    if SecretShaped(word) then REDACTED else word
  }

  function MaskAll(words: seq<string>): seq<string> {
    seq(|words|, i requires 0 <= i < |words| => Mask(words[i]))
  }

  /** The text with its separators and words in place, but for the secret ones. */
  function Masked(s: string): string {
    Join(MaskAll(Words(s)), Separators(s))
  }

  // ------------------------------------------------ the pass

  /** How many separators a word ends with. */
  function TrailingCount(word: string): (n: nat)
    ensures n <= |word|
  {
    if word == "" || !IsSeparator(word[|word| - 1]) then 0 else 1 + TrailingCount(word[..|word| - 1])
  }

  function FirstSeparator(s: string): (k: nat)
    ensures k <= |s| && SeparatorFree(s[..k]) && (k < |s| ==> IsSeparator(s[k]))
  {
    if s == "" || IsSeparator(s[0]) then 0
    else
      var k := FirstSeparator(s[1..]) + 1;
      assert s[..k] == [s[0]] + s[1..][..k - 1];
      k
  }

  method ScrubSelfIdentifying(line: string) returns (out: string)
    ensures out == Masked(line)
  {
    hide *;
    out := "";
    var rest := line;
    NothingMasked();
    assert "" + Masked(line) == Masked(line);
    while rest != ""
      invariant out + Masked(rest) == Masked(line)
      decreases |rest|
    {
      var k := FirstSeparator(rest);
      var word := if k < |rest| then rest[..k + 1] else rest;
      var trailing := TrailingCount(word);
      var core, tail := word[..|word| - trailing], word[|word| - trailing..];
      var masked := if SecretShaped(core) then REDACTED else core;
      ghost var before := rest;
      rest := rest[|word|..];
      MaskUnfolds(core);
      if k < |before| {
        FirstWord(before, k);
        assert core == before[..k] && tail == [before[k]] && rest == before[k + 1..];
      } else {
        assert before[..k] == before;
        LastWord(before);
        assert core == before && tail == "" && rest == "";
      }
      Regroup(out, masked, tail, Masked(rest));
      out := out + masked;
      out := out + tail;
    }
    assert out + "" == out;
  }

  lemma Regroup(a: string, b: string, c: string, d: string)
    ensures a + (b + c + d) == a + b + c + d
  {
  }

  lemma LastWord(s: string)
    requires SeparatorFree(s)
    ensures TrailingCount(s) == 0 && Masked(s) == Mask(s) + "" + Masked("")
  {
    hide *;
    NoTrailing(s);
    MaskedWord(s);
    NothingMasked();
    assert Mask(s) + "" + "" == Mask(s);
  }

  lemma NothingMasked()
    ensures Masked("") == ""
  {
    hide IsSeparator;
    assert Words("") == [""] && ByteLength("") == 0;
  }

  /** The first word of a text and its separator. */
  lemma FirstWord(rest: string, k: nat)
    requires k < |rest| && SeparatorFree(rest[..k]) && IsSeparator(rest[k])
    ensures TrailingCount(rest[..k + 1]) == 1
    ensures Masked(rest) == Mask(rest[..k]) + [rest[k]] + Masked(rest[k + 1..])
  {
    hide *;
    CutWord(rest[..k], rest[k], rest[k + 1..]);
    assert rest[..k + 1] == rest[..k] + [rest[k]];
    assert rest == rest[..k] + [rest[k]] + rest[k + 1..];
  }

  lemma MaskUnfolds(core: string)
    ensures Mask(core) == if SecretShaped(core) then REDACTED else core
  {
  }

  lemma CutWord(front: string, c: char, after: string)
    requires SeparatorFree(front) && IsSeparator(c)
    ensures TrailingCount(front + [c]) == 1
    ensures Masked(front + [c] + after) == Mask(front) + [c] + Masked(after)
  {
    hide *;
    NoTrailing(front);
    OneTrailing(front, c);
    MaskedStep(front, c, after);
  }

  lemma OneTrailing(core: string, c: char)
    requires TrailingCount(core) == 0 && IsSeparator(c)
    ensures TrailingCount(core + [c]) == 1
  {
    assert (core + [c])[..|core|] == core;
  }

  lemma NoTrailing(s: string)
    requires SeparatorFree(s)
    ensures TrailingCount(s) == 0
  {
  }

  // ------------------------------------------------ words of a concatenation

  lemma {:induction false} OneFreeWord(s: string)
    requires SeparatorFree(s)
    ensures Words(s) == [s] && Separators(s) == ""
  {
    hide IsSeparator;
    if s != "" {
      OneFreeWord(s[1..]);
      assert [s[0]] + s[1..] == s;
    }
  }

  lemma {:induction false} WordsAcross(a: string, c: char, b: string)
    requires IsSeparator(c)
    ensures Words(a + [c] + b) == Words(a) + Words(b)
    ensures Separators(a + [c] + b) == Separators(a) + [c] + Separators(b)
  {
    hide IsSeparator, Words, Separators;
    var s := a + [c] + b;
    if a == "" {
      assert s == [c] + b;
      WordsCons(c, b);
      assert "" + [c] + Separators(b) == [c] + Separators(b);
    } else {
      var head, more := a[0], a[1..];
      assert a == [head] + more && s == [head] + (more + [c] + b);
      WordsAcross(more, c, b);
      WordsCons(head, more);
      WordsCons(head, more + [c] + b);
      var words := Words(more);
      if IsSeparator(head) {
        assert [""] + (words + Words(b)) == [""] + words + Words(b);
        assert [head] + (Separators(more) + [c] + Separators(b)) == [head] + Separators(more) + [c] + Separators(b);
      } else {
        assert (words + Words(b))[0] == words[0] && (words + Words(b))[1..] == words[1..] + Words(b);
      }
    }
  }

  lemma WordsCons(head: char, more: string)
    ensures Words([head] + more) ==
            if IsSeparator(head) then [""] + Words(more) else [[head] + Words(more)[0]] + Words(more)[1..]
    ensures Separators([head] + more) == if IsSeparator(head) then [head] + Separators(more) else Separators(more)
    ensures Words("") == [""] && Separators("") == ""
  {
    hide IsSeparator;
    assert ([head] + more)[1..] == more;
    assert "" + Separators(more) == Separators(more);
  }

  lemma MaskedWord(s: string)
    requires SeparatorFree(s)
    ensures Masked(s) == Mask(s)
  {
    hide SecretShaped;
    OneFreeWord(s);
  }

  lemma MaskedStep(core: string, c: char, rest: string)
    requires SeparatorFree(core) && IsSeparator(c)
    ensures Masked(core + [c] + rest) == Mask(core) + [c] + Masked(rest)
  {
    hide SecretShaped, IsSeparator, Words, Separators;
    OneFreeWord(core);
    WordsAcross(core, c, rest);
    var words := [core] + Words(rest);
    assert MaskAll(words)[1..] == MaskAll(Words(rest));
    assert ([c] + Separators(rest))[1..] == Separators(rest);
    assert "" + [c] + Separators(rest) == [c] + Separators(rest);
  }

  // ------------------------------------------------ the main results

  predicate Clean(words: seq<string>) {
    forall i :: 0 <= i < |words| ==> !SecretShaped(words[i])
  }

  lemma {:induction false} JoinWords(s: string)
    ensures Join(Words(s), Separators(s)) == s
  {
    hide IsSeparator;
    if s != "" {
      JoinWords(s[1..]);
      if IsSeparator(s[0]) {
        assert ([s[0]] + Separators(s[1..]))[1..] == Separators(s[1..]);
      } else {
        JoinFront(s[0], Words(s[1..]), Separators(s[1..]));
        assert [s[0]] + s[1..] == s && "" + Separators(s[1..]) == Separators(s[1..]);
      }
    }
  }

  lemma JoinFront(c: char, words: seq<string>, separators: string)
    requires |words| == |separators| + 1
    ensures Join([[c] + words[0]] + words[1..], separators) == [c] + Join(words, separators)
  {
  }

  /** A text without secret-shaped words is left as it is. */
  lemma CleanUnchanged(s: string)
    requires Clean(Words(s))
    ensures Masked(s) == s
  {
    hide SecretShaped, Words, Separators;
    assert MaskAll(Words(s)) == Words(s);
    JoinWords(s);
  }

  lemma Harmless(word: string)
    requires word == "" || word[0] == 'r'
    ensures !SecretShaped(word)
  {
    hide ByteLength, CountOf;
    if word != "" {
      assert LowerCase(word)[0] == 'r';
      OtherStart(LowerCase(word), "sk-");
      OtherStart(LowerCase(word), "sk_");
      OtherStart(LowerCase(word), "ya29.");
      OtherStart(word, "eyJ");
    } else {
      NoBytes();
    }
  }

  lemma NoBytes()
    ensures ByteLength("") == 0
  {
  }

  lemma OtherStart(s: string, piece: string)
    requires s != "" && piece != "" && s[0] != piece[0]
    ensures !StartsAt(s, piece, 0)
  {
    assert |piece| <= |s| ==> s[0..|piece|][0] == s[0];
  }

  lemma MarkerWords()
    ensures Words(REDACTED) == ["", "redacted", ""] && Clean(Words(REDACTED))
  {
    hide SecretShaped, SeparatorFree, Words, Separators;
    var word := "redacted";
    EmptyFree();
    PlainWordFree();
    OneFreeWord("");
    OneFreeWord(word);
    assert word + [']'] + "" == word + [']'];
    WordsAcross(word, ']', "");
    assert "" + ['['] + (word + [']']) == REDACTED;
    WordsAcross("", '[', word + [']']);
    assert [""] + ([word] + [""]) == ["", word, ""];
    Harmless("");
    Harmless(word);
  }

  lemma EmptyFree()
    ensures SeparatorFree("")
  {
  }

  lemma PlainWordFree()
    ensures SeparatorFree("redacted")
  {
    forall i | 0 <= i < 8 ensures !IsSeparator("redacted"[i]) {
      SmallLetterFree("redacted"[i]);
    }
  }

  lemma SmallLetterFree(c: char)
    requires 'a' <= c <= 'z'
    ensures !IsSeparator(c)
  {
  }

  lemma MaskClean(core: string)
    requires SeparatorFree(core)
    ensures Clean(Words(Mask(core)))
  {
    hide SecretShaped, Words, SeparatorFree;
    OneFreeWord(core);
    MarkerWords();
  }

  /** After the pass no maximal separator-free word is secret-shaped. */
  lemma {:induction false} NoSecretLeft(s: string)
    ensures Clean(Words(Masked(s)))
    decreases |s|
  {
    hide SecretShaped, Words, Masked, Mask, IsSeparator, SeparatorFree;
    var k := FirstSeparator(s);
    MaskClean(s[..k]);
    if k < |s| {
      var rest := s[k + 1..];
      assert s == s[..k] + [s[k]] + rest;
      MaskedStep(s[..k], s[k], rest);
      WordsAcross(Mask(s[..k]), s[k], Masked(rest));
      NoSecretLeft(rest);
    } else {
      assert s[..k] == s;
      MaskedWord(s);
    }
  }

  /** Every separator stays where it is, and what stands on either side of it
      is scrubbed as if it stood alone. */
  lemma {:induction false} SeparatorsStay(a: string, c: char, b: string)
    requires IsSeparator(c)
    ensures Masked(a + [c] + b) == Masked(a) + [c] + Masked(b)
    decreases |a|
  {
    hide *;
    var k := FirstSeparator(a);
    if k < |a| {
      var front, more := a[..k], a[k + 1..];
      assert a == front + [a[k]] + more;
      assert a + [c] + b == front + [a[k]] + (more + [c] + b);
      SeparatorsStay(more, c, b);
      MaskedStep(front, a[k], more);
      MaskedStep(front, a[k], more + [c] + b);
    } else {
      assert a[..k] == a;
      MaskedWord(a);
      MaskedStep(a, c, b);
    }
  }

  /** A word with separators or nothing around it is masked by itself. */
  lemma MaskedBetween(before: string, word: string, after: string)
    requires SeparatorFree(word)
    requires before == "" || IsSeparator(before[|before| - 1])
    requires after == "" || IsSeparator(after[0])
    ensures Masked(before + word + after) == Masked(before) + Mask(word) + Masked(after)
  {
    hide *;
    NothingMasked();
    MaskedWord(word);
    if after != "" {
      SeparatorsStay(word, after[0], after[1..]);
      SeparatorsStay("", after[0], after[1..]);
      assert word + [after[0]] + after[1..] == word + after && "" + [after[0]] + after[1..] == after;
    }
    assert Masked(word + after) == Mask(word) + Masked(after) by { assert word + "" == word; }
    var n := |before|;
    if n > 0 {
      SeparatorsStay(before[..n - 1], before[n - 1], word + after);
      SeparatorsStay(before[..n - 1], before[n - 1], "");
      assert before[..n - 1] + [before[n - 1]] + (word + after) == before + word + after;
      assert before[..n - 1] + [before[n - 1]] + "" == before;
    } else {
      assert before + word + after == word + after;
    }
  }

  /** Scrubbing twice is scrubbing once. */
  lemma SelfIdentifyingIdempotent(s: string)
    ensures Masked(Masked(s)) == Masked(s)
  {
    hide Masked, Words, Clean;
    NoSecretLeft(s);
    CleanUnchanged(Masked(s));
  }

  /** Exactly the lines without a secret-shaped word come out unchanged. */
  lemma UnchangedExactly(s: string)
    ensures Masked(s) == s <==> Clean(Words(s))
  {
    hide Masked, Words, Clean;
    NoSecretLeft(s);
    if Clean(Words(s)) {
      CleanUnchanged(s);
    }
  }

  // ------------------------------------------------ which words are secret

  function WithDots(parts: seq<string>): string
    requires parts != []
  {
    if |parts| == 1 then parts[0] else parts[0] + "." + WithDots(parts[1..])
  }

  lemma {:induction false} DotsCounted(parts: seq<string>)
    requires parts != [] && forall i :: 0 <= i < |parts| ==> '.' !in parts[i]
    ensures CountOf(WithDots(parts), '.') == |parts| - 1
  {
    NoDots(parts[0]);
    if |parts| > 1 {
      DotsCounted(parts[1..]);
      CountAcross(parts[0] + ".", WithDots(parts[1..]), '.');
      CountAcross(parts[0], ".", '.');
    }
  }

  lemma {:induction false} NoDots(s: string)
    requires '.' !in s
    ensures CountOf(s, '.') == 0
  {
    if s != "" {
      NoDots(s[1..]);
    }
  }

  lemma {:induction false} CountAcross(a: string, b: string, c: char)
    ensures CountOf(a + b, c) == CountOf(a, c) + CountOf(b, c)
  {
    if a == "" {
      assert a + b == b;
    } else {
      assert (a + b)[1..] == a[1..] + b && (a + b)[0] == a[0];
      CountAcross(a[1..], b, c);
    }
  }

  /** How a word begins, in any casing. */
  predicate Begins(word: string, piece: string) {
    |piece| <= |word| && AllSameButCase(word[..|piece|], piece)
  }

  lemma BeginsFolded(word: string, piece: string)
    requires LowerCase(piece) == piece
    ensures StartsAt(LowerCase(word), piece, 0) <==> Begins(word, piece)
  {
    if |piece| <= |word| {
      FoldingTells(word[..|piece|], piece);
      assert LowerCase(word)[0..|piece|] == LowerCase(word[..|piece|]);
    }
  }

  lemma SmallPieces()
    ensures LowerCase("sk-") == "sk-" && LowerCase("sk_") == "sk_" && LowerCase("ya29.") == "ya29."
  {
  }

  /** A word that begins like a JSON object in base64 is secret exactly when it
      has three parts between dots and at least eight bytes. */
  lemma TokenOfThreeParts(parts: seq<string>)
    requires parts != [] && forall i :: 0 <= i < |parts| ==> '.' !in parts[i]
    ensures var word := "eyJ" + WithDots(parts);
            SecretShaped(word) <==> |parts| == 3 && ByteLength(word) >= 8
  {
    hide ByteLength, CountOf, WithDots;
    var word := "eyJ" + WithDots(parts);
    DotsCounted(parts);
    CountAcross("eyJ", WithDots(parts), '.');
    NoDots("eyJ");
    assert LowerCase(word)[0] == 'e' && word[0..3] == "eyJ";
    OtherStart(LowerCase(word), "sk-");
    OtherStart(LowerCase(word), "sk_");
    OtherStart(LowerCase(word), "ya29.");
  }

  /** Otherwise a word is secret exactly when it begins with `sk-` or `sk_` and
      has at least twelve bytes, or with `ya29.` and at least eight, in any
      casing. */
  lemma SecretByPrefix(word: string)
    requires !("eyJ" <= word)
    ensures SecretShaped(word) <==>
            ((Begins(word, "sk-") || Begins(word, "sk_")) && ByteLength(word) >= 12)
            || (Begins(word, "ya29.") && ByteLength(word) >= 8)
  {
    hide ByteLength, CountOf, Begins;
    SmallPieces();
    BeginsFolded(word, "sk-");
    BeginsFolded(word, "sk_");
    BeginsFolded(word, "ya29.");
    assert StartsAt(word, "eyJ", 0) ==> "eyJ" <= word;
  }

  /** A length in bytes is the number of the text's bytes. */
  lemma {:induction false} LengthInBytes(s: string)
    ensures ByteLength(s) == |Utf8.Encode(s)|
  {
    if s != "" { LengthInBytes(s[1..]); }
  }

  /** Bytes are those of UTF-8, one for each ASCII character. */
  lemma {:induction false} AsciiBytes(s: string)
    requires forall i :: 0 <= i < |s| ==> s[i] as int < 0x80
    ensures ByteLength(s) == |s|
  {
    if s != "" {
      AsciiBytes(s[1..]);
    }
  }
}
