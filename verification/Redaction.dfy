/** What the scrubbing passes share: the marker, and what it means that a text
    came out with pieces of it replaced by the marker. */
module Redaction {
  import opened Options
  import opened Strings

  const REDACTED := "[redacted]"
  const MIN_SECRET: nat := 8

  /** The Unicode White_Space property. */
  predicate IsWhite(c: char) {
    var n := c as int;
    9 <= n <= 13 || n == 0x20 || n == 0x85 || n == 0xA0 || n == 0x1680 || 0x2000 <= n <= 0x200A
    || n == 0x2028 || n == 0x2029 || n == 0x202F || n == 0x205F || n == 0x3000
  }

  // ------------------------------------------------ searching in any casing

  /** The piece, lower-case, stands at `at` in some casing. */
  predicate Occurs(s: string, piece: string, at: nat) {
    at + |piece| <= |s| && forall j :: 0 <= j < |piece| ==> Lower(s[at + j]) == piece[j]
  }

  /** The leftmost place of a piece in any casing. */
  function FindFolded(s: string, piece: string): (at: Option<nat>)
    ensures at.Some? ==> Occurs(s, piece, at.value) && forall k :: 0 <= k < at.value ==> !Occurs(s, piece, k)
    ensures at.None? ==> forall k :: 0 <= k <= |s| ==> !Occurs(s, piece, k)
  {
    FoldedAlike(s, piece);
    Find(LowerCase(s), piece)
  }

  lemma FoldedAlike(s: string, piece: string)
    ensures forall k :: 0 <= k <= |s| ==> (Occurs(s, piece, k) <==> StartsAt(LowerCase(s), piece, k))
  {
    forall k | 0 <= k <= |s|
      ensures Occurs(s, piece, k) <==> StartsAt(LowerCase(s), piece, k)
    {
      OneFoldedAlike(s, piece, k);
    }
  }

  lemma OneFoldedAlike(s: string, piece: string, k: nat)
    ensures Occurs(s, piece, k) <==> StartsAt(LowerCase(s), piece, k)
  {
    var lower, n := LowerCase(s), |piece|;
    if StartsAt(lower, piece, k) {
      forall j | 0 <= j < n ensures Lower(s[k + j]) == piece[j] {
        assert lower[k..k + n][j] == lower[k + j];
      }
    }
    if Occurs(s, piece, k) {
      assert lower[k..k + n] == piece;
    }
  }

  lemma OccursLater(a: string, b: string, piece: string, k: nat)
    ensures Occurs(a + b, piece, |a| + k) == Occurs(b, piece, k)
  {
    if |a| + k + |piece| <= |a + b| {
      assert forall j :: 0 <= j < |piece| ==>
          (Lower((a + b)[|a| + k + j]) == piece[j] <==> Lower(b[k + j]) == piece[j]);
    }
  }

  lemma OccursEarlier(a: string, b: string, piece: string, k: nat)
    requires k + |piece| <= |a|
    ensures Occurs(a + b, piece, k) == Occurs(a, piece, k)
  {
  }

  /** The leftmost place is the only one with nothing before it. */
  lemma FoundAt(s: string, piece: string, at: nat)
    requires Occurs(s, piece, at) && forall k :: 0 <= k < at ==> !Occurs(s, piece, k)
    ensures FindFolded(s, piece) == Some(at)
  {
    hide Occurs;
    OccursFits(s, piece, at);
  }

  lemma OccursFits(s: string, piece: string, at: nat)
    requires Occurs(s, piece, at)
    ensures at + |piece| <= |s|
  {
  }

  // ------------------------------------------------ replaced pieces

  /** `b` is `a` with disjoint non-empty pieces replaced by the marker. */
  ghost predicate Redacts(a: string, b: string)
    decreases |a|, 1
  {
    a == b || exists k, m :: RedactsAt(a, b, k, m)
  }

  ghost predicate RedactsAt(a: string, b: string, k: int, m: int)
    decreases |a|, 0
  {
    0 <= k && 0 < m && k + m <= |a| && k + |REDACTED| <= |b|
    && b[..k] == a[..k] && b[k..k + |REDACTED|] == REDACTED
    && Redacts(a[k + m..], b[k + |REDACTED|..])
  }

  lemma RedactsFront(p: string, a: string, b: string)
    requires Redacts(a, b)
    ensures Redacts(p + a, p + b)
  {
    if a != b {
      var k, m :| RedactsAt(a, b, k, m);
      var n, x, y := |REDACTED|, p + a, p + b;
      assert x[|p| + k + m..] == a[k + m..] && y[|p| + k + n..] == b[k + n..];
      assert y[|p| + k..|p| + k + n] == b[k..k + n];
      assert x[..|p| + k] == p + a[..k] && y[..|p| + k] == p + b[..k];
      assert RedactsAt(x, y, |p| + k, m);
    }
  }

  lemma RedactsNext(p: string, secret: string, a: string, b: string)
    requires secret != "" && Redacts(a, b)
    ensures Redacts(p + secret + a, p + REDACTED + b)
  {
    hide Redacts;
    var x, y, k, n := p + secret + a, p + REDACTED + b, |p|, |REDACTED|;
    assert x[k + |secret|..] == a && y[k + n..] == b;
    assert x[..k] == p && y[..k] == p && y[k..k + n] == REDACTED;
    assert RedactsAt(x, y, k, |secret|);
    RedactsBy(x, y, k, |secret|);
  }

  lemma RedactsBy(a: string, b: string, k: int, m: int)
    requires RedactsAt(a, b, k, m)
    ensures Redacts(a, b)
  {
  }

  lemma RedactsNothing(a: string)
    ensures Redacts(a, a)
  {
  }
}
