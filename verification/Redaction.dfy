/** Secret redaction: sequential replacement of every variant of every secret by a mask. */
module Redaction {

  const MASK := "***"
  const MIN_REDACTABLE_LENGTH := 4

  predicate At(text: string, v: string, i: int) {
    0 <= i && i + |v| <= |text| && text[i..i + |v|] == v
  }

  predicate Contains(text: string, v: string) {
    exists i :: 0 <= i <= |text| && At(text, v, i)
  }

  /** `text.replace(v, MASK)`: leftmost occurrences, without overlap. */
  function Replace(text: string, v: string): string
    requires v != []
    decreases |text|
  {
    if |text| < |v| then text
    else if text[..|v|] == v then MASK + Replace(text[|v|..], v)
    else [text[0]] + Replace(text[1..], v)
  }

  /** `redact`: every variant in turn. */
  function Redacted(values: seq<string>, text: string): string
    requires forall i :: 0 <= i < |values| ==> values[i] != []
  {
    if values == [] then text
    else Replace(Redacted(values[..|values| - 1], text), values[|values| - 1])
  }

  // ---------------------------------------------------------------- first occurrences

  predicate First(text: string, v: string, j: int) {
    At(text, v, j) && forall i :: 0 <= i < j ==> !At(text, v, i)
  }

  lemma AtRest(text: string, v: string, i: nat)
    requires text != []
    ensures At(text[1..], v, i) <==> At(text, v, i + 1)
  {
    if i + 1 + |v| <= |text| {
      assert text[1..][i..i + |v|] == text[i + 1..i + 1 + |v|];
    }
  }

  /** Without an occurrence at the start, the first one is the first of the rest. */
  lemma FirstInRest(text: string, v: string, j: nat)
    requires v != [] && First(text, v, j) && j > 0
    ensures First(text[1..], v, j - 1)
  {
    AtRest(text, v, j - 1);
    forall i | 0 <= i < j - 1 ensures !At(text[1..], v, i) {
      AtRest(text, v, i);
    }
  }

  lemma ReplaceAtStart(text: string, v: string)
    requires v != []
    ensures At(text, v, 0) ==> Replace(text, v) == MASK + Replace(text[|v|..], v)
    ensures !At(text, v, 0) && text != [] ==> Replace(text, v) == [text[0]] + Replace(text[1..], v)
  {
    if |text| >= |v| {
      assert text[0..|v|] == text[..|v|];
    } else if text != [] {
      assert text == [text[0]] + text[1..];
      ReplaceShorter(text[1..], v);
    }
  }

  lemma {:induction false} ReplaceFirst(text: string, v: string, j: nat)
    requires v != [] && First(text, v, j)
    ensures Replace(text, v) == text[..j] + MASK + Replace(text[j + |v|..], v)
    decreases |text|
  {
    ReplaceAtStart(text, v);
    if j == 0 {
      assert text[..0] == [];
    } else {
      assert !At(text, v, 0);
      FirstInRest(text, v, j);
      ReplaceFirst(text[1..], v, j - 1);
      assert text[1..][j - 1 + |v|..] == text[j + |v|..];
      Regroup(text, j, Replace(text[j + |v|..], v));
    }
  }

  lemma Regroup(text: string, j: nat, tail: string)
    requires 0 < j <= |text|
    ensures [text[0]] + (text[1..][..j - 1] + MASK + tail) == text[..j] + MASK + tail
  {
    assert text[..j] == [text[0]] + text[1..][..j - 1];
  }

  lemma {:induction false} ReplaceNothing(text: string, v: string)
    requires v != [] && !Contains(text, v)
    ensures Replace(text, v) == text
    decreases |text|
  {
    if |text| >= |v| {
      assert !At(text, v, 0) && text[0..|v|] == text[..|v|];
      var rest := text[1..];
      forall i | 0 <= i <= |rest| ensures !At(rest, v, i) {
        AtRest(text, v, i);
      }
      ReplaceNothing(rest, v);
    }
  }

  lemma FirstExists(text: string, v: string) returns (j: nat)
    requires Contains(text, v)
    ensures First(text, v, j)
  {
    j := 0;
    while !At(text, v, j)
      invariant j <= |text| && forall i :: 0 <= i < j ==> !At(text, v, i)
      decreases |text| - j
    {
      var i :| 0 <= i <= |text| && At(text, v, i);
      assert j < i;
      j := j + 1;
    }
  }

  // ---------------------------------------------------------------- masks hide nothing new

  /** The mask cannot be part of an occurrence of `v`, nor overlap one. */
  predicate Safe(v: string) {
    v != [] && v[0] != '*' && v[|v| - 1] != '*' && !Contains(v, MASK)
  }

  /** A variant without the mask's character is safe. */
  lemma StarFreeIsSafe(v: string)
    requires v != [] && '*' !in v
    ensures Safe(v)
  {
    forall i | 0 <= i <= |v| ensures !At(v, MASK, i) {
      if i + 3 <= |v| {
        assert v[i..i + 3][0] == v[i] && MASK[0] == '*';
        assert v[i] in v;
      }
    }
  }

  lemma OccursLeft(a: string, b: string, w: string, i: nat)
    requires i + |w| <= |a| && At(a + b, w, i)
    ensures At(a, w, i)
  {
    assert a[i..i + |w|] == (a + b)[i..i + |w|];
  }

  lemma OccursRight(a: string, b: string, w: string, i: nat)
    requires i >= |a| && At(a + b, w, i)
    ensures At(b, w, i - |a|)
  {
    assert b[i - |a|..i - |a| + |w|] == (a + b)[i..i + |w|];
  }

  lemma SliceOfSlice(text: string, i: nat, j: nat, k: nat, m: nat)
    requires i <= j <= |text| && k <= m <= j - i
    ensures text[i..j][k..m] == text[i + k..i + m]
  {
    var inner, outer := text[i..j][k..m], text[i + k..i + m];
    assert |inner| == |outer|;
    assert forall x :: 0 <= x < |outer| ==> inner[x] == text[i..j][k + x] == outer[x];
  }

  lemma CharsOf(text: string, v: string, i: nat, k: nat)
    requires At(text, v, i) && k < |v|
    ensures v[k] == text[i + k]
  {
    assert text[i..i + |v|][k] == text[i + k];
  }

  lemma MaskChar(text: string, p: nat, x: nat)
    requires At(text, MASK, p) && p <= x < p + 3
    ensures text[x] == '*'
  {
    CharsOf(text, MASK, p, x - p);
  }

  /** An occurrence that starts inside the mask at `p` starts with a star. */
  lemma StartsInMask(text: string, w: string, i: nat, p: nat)
    requires w != [] && At(text, w, i) && At(text, MASK, p) && p <= i < p + 3
    ensures w[0] == '*'
  {
    CharsOf(text, w, i, 0);
    MaskChar(text, p, i);
  }

  /** An occurrence that ends inside the mask ends with a star. */
  lemma EndsInMask(text: string, w: string, i: nat, p: nat)
    requires w != [] && At(text, w, i) && At(text, MASK, p) && p < i + |w| <= p + 3
    ensures w[|w| - 1] == '*'
  {
    CharsOf(text, w, i, |w| - 1);
    MaskChar(text, p, i + |w| - 1);
  }

  /** An occurrence that spans the mask contains it. */
  lemma SpansMask(text: string, w: string, i: nat, p: nat)
    requires At(text, w, i) && At(text, MASK, p) && i < p && p + 3 <= i + |w|
    ensures Contains(w, MASK)
  {
    SliceOfSlice(text, i, i + |w|, p - i, p - i + 3);
    assert At(w, MASK, p - i);
  }

  /** An occurrence that overlaps the mask at `p` starts or ends with a star or contains the mask. */
  lemma OccursAcross(text: string, w: string, i: nat, p: nat)
    requires w != [] && At(text, w, i) && At(text, MASK, p) && i < p + 3 && i + |w| > p
    ensures !Safe(w)
  {
    if i >= p {
      StartsInMask(text, w, i, p);
    } else if i + |w| <= p + 3 {
      EndsInMask(text, w, i, p);
    } else {
      SpansMask(text, w, i, p);
    }
  }

  /** In `a + MASK + b`, a string occurs inside `a`, inside `b`, or so that it overlaps the mask. */
  lemma OccursBeside(a: string, b: string, w: string, i: nat)
    requires w != [] && At(a + MASK + b, w, i)
    ensures At(a, w, i) || (i >= |a| + 3 && At(b, w, i - |a| - 3)) || !Safe(w)
  {
    if i + |w| <= |a| {
      assert a + MASK + b == a + (MASK + b);
      OccursLeft(a, MASK + b, w, i);
    } else if i >= |a| + 3 {
      OccursRight(a + MASK, b, w, i);
    } else {
      assert (a + MASK + b)[|a|..|a| + 3] == MASK;
      OccursAcross(a + MASK + b, w, i, |a|);
    }
  }

  /** Replacing `v` leaves no `v`, and brings in no other safe string that was not there. */
  lemma {:induction false} ReplaceBringsNothing(text: string, v: string, w: string)
    requires v != [] && Safe(w) && (w == v || !Contains(text, w))
    ensures !Contains(Replace(text, v), w)
    decreases |text|
  {
    if Contains(text, v) {
      var j := FirstExists(text, v);
      ReplaceFirst(text, v, j);
      var a, b := text[..j], text[j + |v|..];
      if w != v {
        SuffixContainsLess(text, j + |v|, w);
      }
      ReplaceBringsNothing(b, v, w);
      var out := a + MASK + Replace(b, v);
      forall i | 0 <= i <= |out| ensures !At(out, w, i) {
        NotInPieces(text, v, w, j, i);
      }
    } else {
      ReplaceNothing(text, v);
    }
  }

  lemma SuffixContainsLess(text: string, k: nat, w: string)
    requires k <= |text| && !Contains(text, w)
    ensures !Contains(text[k..], w)
  {
    var b := text[k..];
    forall i | 0 <= i <= |b| ensures !At(b, w, i) {
      assert !At(text, w, i + k);
      assert i + |w| <= |b| ==> b[i..i + |w|] == text[i + k..i + k + |w|];
    }
  }

  lemma PrefixOccurs(text: string, j: nat, w: string, i: int)
    requires j <= |text|
    ensures At(text[..j], w, i) ==> At(text, w, i)
  {
    if At(text[..j], w, i) {
      assert text[i..i + |w|] == text[..j][i..i + |w|];
    }
  }

  lemma NotInPieces(text: string, v: string, w: string, j: nat, i: nat)
    requires v != [] && Safe(w) && (w == v || !Contains(text, w)) && First(text, v, j)
    requires !Contains(Replace(text[j + |v|..], v), w)
    ensures !At(text[..j] + MASK + Replace(text[j + |v|..], v), w, i)
  {
    PrefixOccurs(text, j, w, i);
    if At(text[..j] + MASK + Replace(text[j + |v|..], v), w, i) {
      OccursBeside(text[..j], Replace(text[j + |v|..], v), w, i);
    }
  }

  predicate NonEmpty(values: seq<string>) {
    forall i :: 0 <= i < |values| ==> values[i] != []
  }

  /** Redaction leaves no safe variant anywhere in the text, whatever the other variants are. */
  lemma {:induction false} RedactedHidesSafe(values: seq<string>, text: string, k: nat)
    requires NonEmpty(values) && k < |values| && Safe(values[k])
    ensures !Contains(Redacted(values, text), values[k])
    decreases |values|
  {
    var front, last := values[..|values| - 1], values[|values| - 1];
    if k < |front| {
      RedactedHidesSafe(front, text, k);
      assert front[k] == values[k];
    }
    ReplaceBringsNothing(Redacted(front, text), last, values[k]);
  }

  lemma ContainsTransitive(text: string, v: string, w: string)
    requires Contains(text, v) && Contains(v, w)
    ensures Contains(text, w)
  {
    var i :| 0 <= i <= |text| && At(text, v, i);
    var j :| 0 <= j <= |v| && At(v, w, j);
    SliceOfSlice(text, i, i + |v|, j, j + |w|);
    assert At(text, w, i + j);
  }

  /** A variant is hidden too, safe or not, if it contains a safe one. */
  lemma RedactedHidesAround(values: seq<string>, text: string, k: nat, v: string)
    requires NonEmpty(values) && k < |values| && Safe(values[k]) && Contains(v, values[k])
    ensures !Contains(Redacted(values, text), v)
  {
    RedactedHidesSafe(values, text, k);
    if Contains(Redacted(values, text), v) {
      ContainsTransitive(Redacted(values, text), v, values[k]);
    }
  }

  lemma {:induction false} RedactedIdentity(values: seq<string>, text: string)
    requires forall i :: 0 <= i < |values| ==> values[i] != [] && !Contains(text, values[i])
    ensures Redacted(values, text) == text
  {
    if values != [] {
      RedactedIdentity(values[..|values| - 1], text);
      ReplaceNothing(text, values[|values| - 1]);
    }
  }

  /** With safe variants, redacting twice is redacting once. */
  lemma RedactionIsIdempotent(values: seq<string>, text: string)
    requires forall i :: 0 <= i < |values| ==> values[i] != [] && Safe(values[i])
    ensures Redacted(values, Redacted(values, text)) == Redacted(values, text)
  {
    forall i | 0 <= i < |values| ensures !Contains(Redacted(values, text), values[i]) {
      RedactedHidesSafe(values, text, i);
    }
    RedactedIdentity(values, Redacted(values, text));
  }

  // ---------------------------------------------------------------- safety is necessary

  /** A text whose redaction still shows the secret. */
  ghost predicate Leaks(v: string, text: string)
    requires v != []
  {
    Contains(Replace(text, v), v)
  }

  lemma LeakAtStart(v: string)
    requires v != [] && v[0] == '*'
    ensures Leaks(v, v + v[1..])
  {
    var text := v + v[1..];
    assert At(text, v, 0);
    ReplaceFirst(text, v, 0);
    assert text[..0] == [] && text[|v|..] == v[1..];
    var out := Replace(text, v);
    assert out == MASK + v[1..];
    assert out[2..2 + |v|] == v;
    assert At(out, v, 2);
  }

  lemma LeakAtEnd(v: string)
    requires v != [] && v[0] != '*' && v[|v| - 1] == '*'
    ensures Leaks(v, v[..|v| - 1] + v)
  {
    var w := v[..|v| - 1];
    var text := w + v;
    assert text[|w|..|w| + |v|] == v;
    forall j | 0 <= j < |w| ensures !At(text, v, j) {
      var found := text[j..j + |v|];
      assert found[|v| - 1] == text[j + |v| - 1] == v[j];
      assert found[0] == text[j] == v[j];
    }
    assert First(text, v, |w|);
    ReplaceFirst(text, v, |w|);
    assert text[..|w|] == w && text[|w| + |v|..] == [];
    var out := Replace(text, v);
    assert out == w + MASK;
    assert out[0..|v|] == v;
    assert At(out, v, 0);
  }

  /** Around a secret, the text before and after its first mask-like part adds no earlier match. */
  lemma FirstInside(v: string, p: nat)
    requires v != [] && First(v, MASK, p)
    ensures First(v[..p] + v + v[p + 3..], v, p)
  {
    var text := v[..p] + v + v[p + 3..];
    assert text[p..p + |v|] == v;
    forall j | 0 <= j < p ensures !At(text, v, j) {
      assert text[j..j + |v|][p..p + 3] == text[j + p..j + p + 3];
      assert text[p..p + |v|][j..j + 3] == text[j + p..j + p + 3];
      assert !At(v, MASK, j);
    }
  }

  lemma ReplaceShorter(text: string, v: string)
    requires |text| < |v|
    ensures Replace(text, v) == text
  {
  }

  lemma SplitAt(text: string, v: string, p: nat)
    requires At(text, v, p)
    ensures text == text[..p] + v + text[p + |v|..]
  {
  }

  lemma LeakInside(v: string)
    requires v != [] && v[0] != '*' && v[|v| - 1] != '*' && Contains(v, MASK)
    ensures exists text :: Leaks(v, text)
  {
    var p := FirstExists(v, MASK);
    LeakAround(v, p, v[..p] + v + v[p + 3..]);
  }

  lemma LeakAround(v: string, p: nat, text: string)
    requires v != [] && First(v, MASK, p) && text == v[..p] + v + v[p + 3..]
    ensures Leaks(v, text)
  {
    var before, after := v[..p], v[p + 3..];
    FirstInside(v, p);
    ReplaceFirst(text, v, p);
    assert text[..p] == before && text[p + |v|..] == after;
    ReplaceShorter(after, v);
    SplitAt(v, MASK, p);
    assert At(v, v, 0);
  }

  /** One variant: redaction hides it in every text exactly when it is safe. */
  lemma HidesExactlyWhenSafe(v: string)
    requires v != []
    ensures (forall text: string :: !Leaks(v, text)) <==> Safe(v)
  {
    if Safe(v) {
      forall text: string ensures !Leaks(v, text) {
        ReplaceBringsNothing(text, v, v);
      }
    } else if v[0] == '*' {
      LeakAtStart(v);
    } else if v[|v| - 1] == '*' {
      LeakAtEnd(v);
    } else {
      LeakInside(v);
    }
  }

  // ---------------------------------------------------------------- a list of variants

  lemma Bound(k: nat, m: nat, n: nat, c: nat)
    requires k <= m * c && m < n
    ensures k + c <= n * c
  {
    assert (m + 1) * c <= n * c;
  }

  /** `q` characters of the text decide the first `n` of its replacement. */
  ghost predicate Decides(text: string, v: string, q: nat, n: nat)
    requires v != [] && q <= |text|
  {
    q <= n * |v| && n <= |Replace(text[..q], v)| && Replace(text[..q], v) <= Replace(text, v)
  }

  lemma DecidesAfterMatch(text: string, v: string, k: nat, m: nat, n: nat)
    requires v != [] && At(text, v, 0) && k <= |text| - |v| && Decides(text[|v|..], v, k, m) && m < n <= m + 3
    ensures Decides(text, v, |v| + k, n)
  {
    var q, rest := |v| + k, text[|v|..];
    assert text[..q][|v|..] == rest[..k] && At(text[..q], v, 0);
    ReplaceAtStart(text, v);
    ReplaceAtStart(text[..q], v);
    Bound(k, m, n, |v|);
  }

  lemma DecidesAfterSkip(text: string, v: string, k: nat, n: nat)
    requires v != [] && text != [] && !At(text, v, 0) && k <= |text| - 1 && Decides(text[1..], v, k, n)
    ensures Decides(text, v, 1 + k, n + 1)
  {
    var q := 1 + k;
    assert text[..q][1..] == text[1..][..k];
    NoEarlierMatch(text, v, q);
    ReplaceAtStart(text, v);
    ReplaceAtStart(text[..q], v);
    Bound(k, n, n + 1, |v|);
  }

  /** A beginning of the text decides the first `n` characters of its replacement. */
  lemma {:induction false} PrefixDecides(text: string, v: string, n: nat) returns (q: nat)
    requires v != [] && n <= |Replace(text, v)|
    ensures q <= |text| && Decides(text, v, q, n)
    decreases |text|
  {
    ReplaceAtStart(text, v);
    if n == 0 {
      q := 0;
    } else if At(text, v, 0) {
      var m := if n < 3 then 0 else n - 3;
      var k := PrefixDecides(text[|v|..], v, m);
      DecidesAfterMatch(text, v, k, m, n);
      q := |v| + k;
    } else {
      var k := PrefixDecides(text[1..], v, n - 1);
      DecidesAfterSkip(text, v, k, n - 1);
      q := 1 + k;
    }
  }

  lemma NoEarlierMatch(text: string, v: string, q: nat)
    requires !At(text, v, 0) && q <= |text|
    ensures !At(text[..q], v, 0)
  {
    if |v| <= q {
      assert text[..q][0..|v|] == text[0..|v|];
    }
  }

  /** An occurrence in the replacement begins with one of the first three characters of the replacement
      of some end of the text. */
  lemma {:induction false} SuffixDecides(text: string, v: string, w: string, i: nat) returns (p: nat, j: nat)
    requires v != [] && w != [] && At(Replace(text, v), w, i)
    ensures p <= |text| && j < 3 && At(Replace(text[p..], v), w, j)
    decreases |text|
  {
    ReplaceAtStart(text, v);
    if i < 3 {
      p, j := 0, i;
      assert text[0..] == text;
    } else if At(text, v, 0) {
      OccursRight(MASK, Replace(text[|v|..], v), w, i);
      p, j := SuffixDecides(text[|v|..], v, w, i - 3);
      assert text[|v|..][p..] == text[|v| + p..];
      p := |v| + p;
    } else {
      OccursRight([text[0]], Replace(text[1..], v), w, i);
      p, j := SuffixDecides(text[1..], v, w, i - 1);
      assert text[1..][p..] == text[1 + p..];
      p := 1 + p;
    }
  }

  predicate Short(v: string, text: string) {
    |text| <= (|v| + 2) * |v|
  }

  /** What leaks from a text leaks from a short part of it. */
  lemma LeaksFromShortPart(v: string, text: string) returns (part: string)
    requires v != [] && Leaks(v, text)
    ensures Leaks(v, part) && Short(v, part) && Contains(text, part)
  {
    var i :| 0 <= i <= |Replace(text, v)| && At(Replace(text, v), v, i);
    var p, j := SuffixDecides(text, v, v, i);
    var rest := text[p..];
    var q := PrefixDecides(rest, v, j + |v|);
    part := rest[..q];
    assert (j + |v|) * |v| <= (|v| + 2) * |v|;
    var out, whole := Replace(part, v), Replace(rest, v);
    assert out[j..j + |v|] == whole[j..j + |v|];
    assert At(out, v, j);
    assert part == text[p..p + q] && At(text, part, p);
  }

  /** The redacted text still shows the string. */
  predicate Shows(values: seq<string>, text: string, v: string) {
    NonEmpty(values) && Contains(Redacted(values, text), v)
  }

  ghost predicate HiddenEverywhere(values: seq<string>, v: string) {
    forall text: string :: !Shows(values, text, v)
  }

  predicate AllSafe(values: seq<string>) {
    forall i :: 0 <= i < |values| ==> Safe(values[i])
  }

  predicate ShowsSome(values: seq<string>, text: string) {
    exists j :: 0 <= j < |values| && Contains(text, values[j])
  }

  lemma RedactedLast(front: seq<string>, v: string, text: string)
    requires NonEmpty(front) && v != []
    ensures NonEmpty(front + [v]) && Redacted(front + [v], text) == Replace(Redacted(front, text), v)
  {
    assert (front + [v])[..|front|] == front;
  }

  /** What leaks from one text leaks from every text that has none of the other variants. */
  lemma LeakNeedsOthers(front: seq<string>, v: string, text: string)
    requires AllSafe(front) && v != [] && Shows(front + [v], text, v)
    ensures exists part :: Short(v, part) && Leaks(v, part) && !ShowsSome(front, part)
  {
    var t := Redacted(front, text);
    RedactedLast(front, v, text);
    var part := LeaksFromShortPart(v, t);
    forall j | 0 <= j < |front| ensures !Contains(part, front[j]) {
      RedactedHidesSafe(front, text, j);
      if Contains(part, front[j]) {
        ContainsTransitive(t, part, front[j]);
      }
    }
  }

  lemma LeakWithoutOthers(front: seq<string>, v: string, text: string)
    requires AllSafe(front) && v != [] && Leaks(v, text) && !ShowsSome(front, text)
    ensures Shows(front + [v], text, v)
  {
    RedactedLast(front, v, text);
    RedactedIdentity(front, text);
  }

  /** A list of variants in which only the last may be unsafe, such as those of a single secret, whose
      quoted and encoded forms have no star and are longer: the last is hidden in every text exactly when
      every short text from which it leaks by itself shows one of the others. */
  lemma ListHidesExactly(front: seq<string>, v: string)
    requires AllSafe(front) && v != []
    ensures HiddenEverywhere(front + [v], v) <==>
            forall text: string :: Short(v, text) && Leaks(v, text) ==> ShowsSome(front, text)
  {
    if forall text: string :: Short(v, text) && Leaks(v, text) ==> ShowsSome(front, text) {
      forall text: string ensures !Shows(front + [v], text, v) {
        if Shows(front + [v], text, v) {
          LeakNeedsOthers(front, v, text);
        }
      }
    }
    if HiddenEverywhere(front + [v], v) {
      forall text: string | Short(v, text) && Leaks(v, text) ensures ShowsSome(front, text) {
        assert !Shows(front + [v], text, v);
        if !ShowsSome(front, text) {
          LeakWithoutOthers(front, v, text);
        }
      }
    }
  }

  // ---------------------------------------------------------------- hidden without a safe variant inside

  /** A beginning of the replacement without the mask's character is a beginning of the text. */
  lemma {:induction false} StarFreePrefixStays(text: string, v: string, w: string)
    requires v != [] && '*' !in w && At(Replace(text, v), w, 0)
    ensures At(text, w, 0)
    decreases |text|
  {
    ReplaceAtStart(text, v);
    if w != [] {
      assert Replace(text, v)[0..|w|][0] == w[0];
      if !At(text, v, 0) {
        var out := Replace(text[1..], v);
        assert ([text[0]] + out)[0..|w|][1..] == out[0..|w| - 1];
        StarFreePrefixStays(text[1..], v, w[1..]);
        assert text[0..|w|] == [text[0]] + text[1..][0..|w| - 1];
        assert w == [w[0]] + w[1..];
      }
    }
  }

  lemma AtHead(text: string, a: string, b: string)
    requires At(text, a, 0) && At(text[|a|..], b, 0)
    ensures At(text, a + b, 0)
  {
    assert text[0..|a + b|] == text[0..|a|] + text[|a|..][0..|b|];
  }

  lemma TailOf(text: string, u: string, i: nat)
    requires At(text, ['*'] + u, i)
    ensures text[i] == '*' && i + 1 <= |text| && At(text[i + 1..], u, 0)
  {
    assert text[i..i + 1 + |u|][0] == '*';
    assert text[i + 1..][0..|u|] == text[i..i + 1 + |u|][1..];
  }

  lemma ContainedInRest(text: string, k: nat, w: string)
    requires k <= |text| && Contains(text[k..], w)
    ensures Contains(text, w)
  {
    assert At(text, text[k..], k);
    ContainsTransitive(text, text[k..], w);
  }

  /** A variant with a single star in front leaks only where its letters are repeated after it. */
  lemma {:induction false} StarLeaks(text: string, u: string, i: nat)
    requires u != [] && '*' !in u && At(Replace(text, ['*'] + u), ['*'] + u, i)
    ensures Contains(text, ['*'] + u + u)
    decreases |text|
  {
    var v := ['*'] + u;
    ReplaceAtStart(text, v);
    if At(text, v, 0) {
      var rest := text[|v|..];
      if i < 3 {
        StarBeforeLetters(rest, u, i);
        AtHead(text, v, u);
      } else {
        OccursRight(MASK, Replace(rest, v), v, i);
        StarLeaks(rest, u, i - 3);
        ContainedInRest(text, |v|, v + u);
      }
    } else {
      assert i > 0 by {
        NoFreshStart(text, u, i);
      }
      OccursRight([text[0]], Replace(text[1..], v), v, i);
      StarLeaks(text[1..], u, i - 1);
      ContainedInRest(text, 1, v + u);
    }
  }

  /** An occurrence that begins in a mask begins with its last star, before the letters. */
  lemma StarBeforeLetters(rest: string, u: string, i: nat)
    requires u != [] && '*' !in u && i < 3
    requires At(MASK + Replace(rest, ['*'] + u), ['*'] + u, i)
    ensures At(rest, u, 0)
  {
    var v := ['*'] + u;
    var tail := Replace(rest, v);
    TailOf(MASK + tail, u, i);
    assert (MASK + tail)[i + 1..][0..|u|][0] == u[0];
    assert i == 2;
    assert (MASK + tail)[3..] == tail;
    StarFreePrefixStays(rest, v, u);
  }

  /** Where the text does not begin with the variant, neither does its replacement. */
  lemma NoFreshStart(text: string, u: string, i: nat)
    requires u != [] && '*' !in u && text != [] && !At(text, ['*'] + u, 0)
    requires At([text[0]] + Replace(text[1..], ['*'] + u), ['*'] + u, i)
    ensures i > 0
  {
    var v := ['*'] + u;
    var tail := Replace(text[1..], v);
    if i == 0 {
      TailOf([text[0]] + tail, u, 0);
      assert ([text[0]] + tail)[1..] == tail;
      StarFreePrefixStays(text[1..], v, u);
      assert text[0..1] == ['*'];
      AtHead(text, ['*'], u);
      assert false;
    }
  }

  /** For such a variant after safe ones: it is hidden in every text exactly when one of the others
      occurs in it followed by its letters. */
  lemma StarHidesExactly(front: seq<string>, u: string)
    requires AllSafe(front) && u != [] && '*' !in u
    ensures HiddenEverywhere(front + [['*'] + u], ['*'] + u) <==> ShowsSome(front, ['*'] + u + u)
  {
    var v := ['*'] + u;
    assert v[1..] == u;
    LeakAtStart(v);
    if ShowsSome(front, v + u) {
      forall text: string ensures !Shows(front + [v], text, v) {
        StarHidden(front, u, text);
      }
    } else {
      LeakWithoutOthers(front, v, v + u);
      assert !HiddenEverywhere(front + [v], v);
    }
  }

  lemma StarHidden(front: seq<string>, u: string, text: string)
    requires AllSafe(front) && u != [] && '*' !in u && ShowsSome(front, ['*'] + u + u)
    ensures !Shows(front + [['*'] + u], text, ['*'] + u)
  {
    var v := ['*'] + u;
    RedactedLast(front, v, text);
    var t := Redacted(front, text);
    if Contains(Replace(t, v), v) {
      var i :| 0 <= i <= |Replace(t, v)| && At(Replace(t, v), v, i);
      StarLeaks(t, u, i);
      var j :| 0 <= j < |front| && Contains(v + u, front[j]);
      ContainsTransitive(t, v + u, front[j]);
      RedactedHidesSafe(front, text, j);
      assert false;
    }
  }

  /** So a variant can be hidden in every text without being safe and without containing a safe one. */
  lemma HiddenWithoutSafeInside()
    ensures var front, v := ["aaaa"], "*aaa";
            && AllSafe(front) && !Safe(v) && !ShowsSome(front, v)
            && HiddenEverywhere(front + [v], v)
  {
    var front, u := ["aaaa"], "aaa";
    var v := ['*'] + u;
    assert v == "*aaa";
    StarFreeIsSafe("aaaa");
    assert v[0..4][0] == '*';
    assert !Contains(v, front[0]);
    assert (v + u)[1..5] == "aaaa";
    assert At(v + u, front[0], 1);
    StarHidesExactly(front, u);
  }

  // ---------------------------------------------------------------- the redactor

  predicate ByLength(values: seq<string>) {
    forall i, j :: 0 <= i < j < |values| ==> |values[i]| >= |values[j]|
  }

  predicate NoRepeats(values: seq<string>) {
    forall i, j :: 0 <= i < j < |values| ==> values[i] != values[j]
  }

  function InsertByLength(values: seq<string>, v: string): (r: seq<string>)
    requires ByLength(values)
    ensures ByLength(r) && forall x :: x in r <==> x == v || x in values
  {
    if values == [] || |v| >= |values[0]| then [v] + values
    else
      var rest := InsertByLength(values[1..], v);
      assert forall i :: 0 <= i < |rest| ==> rest[i] in rest;
      assert values == [values[0]] + values[1..];
      [values[0]] + rest
  }

  lemma {:induction false} InsertOnce(values: seq<string>, v: string)
    requires ByLength(values) && NoRepeats(values) && v !in values
    ensures NoRepeats(InsertByLength(values, v))
  {
    if values != [] && |v| < |values[0]| {
      InsertOnce(values[1..], v);
      var rest := InsertByLength(values[1..], v);
      forall i | 0 <= i < |rest| ensures rest[i] != values[0] {
        assert rest[i] in rest;
        assert rest[i] != v ==> rest[i] in values[1..];
      }
    }
  }

  /** The variants of a secret: itself, its URL-quoted form, its Base64 form. Short secrets have none. */
  function VariantsOf(quote: string -> string, encode: string -> string, secret: string): set<string> {
    if |secret| < MIN_REDACTABLE_LENGTH then {}
    else {secret, quote(secret)} + if |encode(secret)| >= MIN_REDACTABLE_LENGTH then {encode(secret)} else {}
  }

  /** `Redactor.__init__`: all variants of all secrets, the longest first. */
  method BuildRedactor(quote: string -> string, encode: string -> string, secrets: seq<string>)
    returns (values: seq<string>)
    ensures ByLength(values) && NoRepeats(values)
    ensures forall v :: v in values <==> exists i :: 0 <= i < |secrets| && v in VariantsOf(quote, encode, secrets[i])
  {
    var variants: set<string> := {};
    for i := 0 to |secrets|
      invariant forall v :: v in variants <==> exists j :: 0 <= j < i && v in VariantsOf(quote, encode, secrets[j])
    {
      variants := variants + VariantsOf(quote, encode, secrets[i]);
    }
    values := [];
    var todo := variants;
    while todo != {}
      invariant todo <= variants && ByLength(values) && NoRepeats(values)
      invariant forall v :: v in values <==> v in variants - todo
      decreases todo
    {
      var v :| v in todo;
      InsertOnce(values, v);
      values := InsertByLength(values, v);
      todo := todo - {v};
    }
  }

  /** The redactor of one secret whose other forms have no star and are longer, as the URL-quoted form of
      a secret with a star and every Base64 form are: the secret comes last and the others are safe. So it
      is hidden in every text exactly when every short text from which it leaks by itself shows one of
      its other forms. */
  lemma OneSecretHidesExactly(values: seq<string>, quoted: string, encoded: string, secret: string)
    requires ByLength(values) && NoRepeats(values) && secret != []
    requires forall x :: x in values <==> x == secret || x == quoted || x == encoded
    requires '*' !in quoted && '*' !in encoded && |quoted| > |secret| && |encoded| > |secret|
    ensures HiddenEverywhere(values, secret) <==>
            forall text: string :: Short(secret, text) && Leaks(secret, text) ==>
                Contains(text, quoted) || Contains(text, encoded)
  {
    SecretComesLast(values, quoted, encoded, secret);
    var last := |values| - 1;
    var front := values[..last];
    StarFreeIsSafe(quoted);
    StarFreeIsSafe(encoded);
    forall i | 0 <= i < |front| ensures Safe(front[i]) {
      assert front[i] in values && front[i] != values[last];
    }
    assert values == front + [secret];
    ListHidesExactly(front, secret);
    forall text: string ensures ShowsSome(front, text) <==> Contains(text, quoted) || Contains(text, encoded) {
      OthersAreInFront(values, quoted, encoded, secret, text);
    }
  }

  lemma SecretComesLast(values: seq<string>, quoted: string, encoded: string, secret: string)
    requires ByLength(values) && |quoted| > |secret| && |encoded| > |secret|
    requires forall x :: x in values <==> x == secret || x == quoted || x == encoded
    ensures values != [] && values[|values| - 1] == secret
  {
    assert secret in values;
    var k :| 0 <= k < |values| && values[k] == secret;
    assert values[|values| - 1] in values;
    assert |values[|values| - 1]| <= |secret|;
  }

  lemma OthersAreInFront(values: seq<string>, quoted: string, encoded: string, secret: string, text: string)
    requires values != [] && values[|values| - 1] == secret && NoRepeats(values)
    requires forall x :: x in values <==> x == secret || x == quoted || x == encoded
    requires secret != quoted && secret != encoded
    ensures ShowsSome(values[..|values| - 1], text) <==> Contains(text, quoted) || Contains(text, encoded)
  {
    var front := values[..|values| - 1];
    assert quoted in values && encoded in values;
    var i :| 0 <= i < |values| && values[i] == quoted;
    var j :| 0 <= j < |values| && values[j] == encoded;
    assert front[i] == quoted && front[j] == encoded;
    forall k | 0 <= k < |front| ensures front[k] == quoted || front[k] == encoded {
      assert front[k] == values[k] && values[k] in values && values[k] != values[|values| - 1];
    }
  }

  /** `redact`: a variant is only replaced where it occurs. */
  method Redact(values: seq<string>, input: string) returns (text: string)
    requires NonEmpty(values)
    ensures text == Redacted(values, input)
    ensures forall i :: 0 <= i < |values| && Safe(values[i]) ==> !Contains(text, values[i])
  {
    text := input;
    for k := 0 to |values|
      invariant text == Redacted(values[..k], input)
    {
      assert values[..k + 1][..k] == values[..k];
      if Contains(text, values[k]) {
        text := Replace(text, values[k]);
      } else {
        ReplaceNothing(text, values[k]);
      }
    }
    assert values[..|values|] == values;
    forall i | 0 <= i < |values| && Safe(values[i]) ensures !Contains(text, values[i]) {
      RedactedHidesSafe(values, input, i);
    }
  }

  /** A redactor built from secrets and applied to a text: no safe variant of any secret survives, so in
      particular no secret of redactable length without a star. */
  method RedactSecrets(quote: string -> string, encode: string -> string, secrets: seq<string>, input: string)
    returns (text: string)
    requires forall i :: 0 <= i < |secrets| && |secrets[i]| >= MIN_REDACTABLE_LENGTH ==> quote(secrets[i]) != []
    ensures forall i, v :: 0 <= i < |secrets| && v in VariantsOf(quote, encode, secrets[i]) && Safe(v) ==>
            !Contains(text, v)
    ensures forall i :: 0 <= i < |secrets| && |secrets[i]| >= MIN_REDACTABLE_LENGTH && '*' !in secrets[i] ==>
              !Contains(text, secrets[i])
  {
    var values := BuildRedactor(quote, encode, secrets);
    forall i | 0 <= i < |values| ensures values[i] != [] {
      assert values[i] in values;
    }
    text := Redact(values, input);
    forall i, v | 0 <= i < |secrets| && v in VariantsOf(quote, encode, secrets[i]) && Safe(v)
      ensures !Contains(text, v) {
      assert v in values;
    }
    forall i | 0 <= i < |secrets| && |secrets[i]| >= MIN_REDACTABLE_LENGTH && '*' !in secrets[i]
      ensures !Contains(text, secrets[i]) {
      StarFreeIsSafe(secrets[i]);
      assert secrets[i] in VariantsOf(quote, encode, secrets[i]);
    }
  }
}
