/** Searching in text, and ASCII case folding. */
module Strings {
  import opened Options

  function Lower(c: char): char {
    if 'A' <= c <= 'Z' then c + 32 as char else c
  }

  function LowerCase(s: string): string {
    seq(|s|, i requires 0 <= i < |s| => Lower(s[i]))
  }

  /** Alike but for the case of ASCII letters. */
  predicate SameButCase(a: char, b: char) {
    a == b
    || ('a' <= a <= 'z' && a as int == b as int + 32 && 'A' <= b <= 'Z')
    || ('a' <= b <= 'z' && b as int == a as int + 32 && 'A' <= a <= 'Z')
  }

  predicate AllSameButCase(s: string, t: string) {
    |s| == |t| && forall i :: 0 <= i < |s| ==> SameButCase(s[i], t[i])
  }

  lemma FoldedChar(a: char, b: char)
    ensures Lower(a) == Lower(b) <==> SameButCase(a, b)
    ensures SameButCase(Lower(a), a) && !('A' <= Lower(a) <= 'Z')
  {
  }

  /** Folding makes alike exactly what differs in case only, and leaves no
      capital. */
  lemma FoldingTells(s: string, t: string)
    ensures LowerCase(s) == LowerCase(t) <==> AllSameButCase(s, t)
    ensures AllSameButCase(LowerCase(s), s) && forall i :: 0 <= i < |s| ==> !('A' <= LowerCase(s)[i] <= 'Z')
  {
    hide Lower, SameButCase;
    forall i | 0 <= i < |s| ensures SameButCase(Lower(s[i]), s[i]) && !('A' <= Lower(s[i]) <= 'Z') {
      FoldedChar(s[i], s[i]);
    }
    if |s| == |t| {
      forall i | 0 <= i < |s| ensures LowerCase(s)[i] == LowerCase(t)[i] <==> SameButCase(s[i], t[i]) {
        FoldedChar(s[i], t[i]);
      }
    }
  }

  predicate StartsAt(s: string, piece: string, at: nat) {
    at + |piece| <= |s| && s[at..at + |piece|] == piece
  }

  predicate EndsWith(s: string, piece: string) {
    |piece| <= |s| && s[|s| - |piece|..] == piece
  }

  /** The leftmost place of a piece. */
  function Find(s: string, piece: string): (at: Option<nat>)
    ensures at.Some? ==> StartsAt(s, piece, at.value) && forall k :: 0 <= k < at.value ==> !StartsAt(s, piece, k)
    ensures at.None? ==> forall k :: 0 <= k <= |s| ==> !StartsAt(s, piece, k)
  {
    FindFrom(s, piece, 0)
  }

  function FindFrom(s: string, piece: string, from: nat): (at: Option<nat>)
    requires from <= |s| + 1
    ensures at.Some? ==> StartsAt(s, piece, at.value) && forall k :: from <= k < at.value ==> !StartsAt(s, piece, k)
    ensures at.None? ==> forall k :: from <= k <= |s| ==> !StartsAt(s, piece, k)
    decreases |s| + 1 - from
  {
    if from > |s| then None
    else if StartsAt(s, piece, from) then Some(from)
    else FindFrom(s, piece, from + 1)
  }
}
