/** Go's string comparison and `strings.TrimSpace`. */
module Strings {

  /** The lexicographic order behind Go's `<` on strings.  UTF-8 keeps the order of code points,
      so comparing characters and comparing bytes agree. */
  predicate Less(a: string, b: string) {
    b != [] && (a == [] || a[0] < b[0] || (a[0] == b[0] && Less(a[1..], b[1..])))
  }

  /** a comes before b: it is a proper prefix, or smaller at the first character in which they differ. */
  ghost predicate DiffersFirst(a: string, b: string, n: nat) {
    && n <= |a| && n < |b| && a[..n] == b[..n] && (n == |a| || a[n] < b[n])
  }

  lemma {:induction false} LessIffDiffersFirst(a: string, b: string)
    ensures Less(a, b) <==> exists n: nat :: DiffersFirst(a, b, n)
  {
    forall n: nat ensures DiffersFirst(a, b, n) <==> DiffersAfterFirst(a, b, n) {
      FirstOrLater(a, b, n);
    }
    if a != [] && b != [] && a[0] == b[0] {
      LessIffDiffersFirst(a[1..], b[1..]);
      if n: nat :| DiffersFirst(a[1..], b[1..], n) {
        assert DiffersAfterFirst(a, b, n + 1);
      }
    } else if b != [] && (a == [] || a[0] < b[0]) {
      assert DiffersAfterFirst(a, b, 0);
    }
  }

  /** The same, looking at the first character on its own. */
  ghost predicate DiffersAfterFirst(a: string, b: string, n: nat) {
    if n == 0 then b != [] && (a == [] || a[0] < b[0])
    else a != [] && b != [] && a[0] == b[0] && DiffersFirst(a[1..], b[1..], n - 1)
  }

  lemma FirstOrLater(a: string, b: string, n: nat)
    ensures DiffersFirst(a, b, n) <==> DiffersAfterFirst(a, b, n)
  {
    if 0 < n <= |a| && n <= |b| {
      assert a[..n] == [a[0]] + a[1..][..n - 1] && b[..n] == [b[0]] + b[1..][..n - 1];
      assert a[..n] == b[..n] <==> a[0] == b[0] && a[1..][..n - 1] == b[1..][..n - 1] by {
        if a[..n] == b[..n] {
          assert a[..n][0] == b[..n][0] && a[..n][1..] == b[..n][1..];
        }
      }
    }
  }

  lemma {:induction false} LessIrreflexive(a: string)
    ensures !Less(a, a)
  {
    if a != [] {
      LessIrreflexive(a[1..]);
    }
  }

  lemma {:induction false} LessTransitive(a: string, b: string, c: string)
    requires Less(a, b) && Less(b, c)
    ensures Less(a, c)
  {
    if a != [] && a[0] == b[0] == c[0] {
      LessTransitive(a[1..], b[1..], c[1..]);
    }
  }

  lemma {:induction false} LessTotal(a: string, b: string)
    ensures a == b || Less(a, b) || Less(b, a)
  {
    if a != [] && b != [] && a[0] == b[0] {
      LessTotal(a[1..], b[1..]);
      assert a == [a[0]] + a[1..] && b == [b[0]] + b[1..];
    }
  }

  lemma LessAsymmetric(a: string, b: string)
    requires Less(a, b)
    ensures !Less(b, a)
  {
    if Less(b, a) {
      LessTransitive(a, b, a);
      LessIrreflexive(a);
    }
  }

  lemma NotLessTransitive(a: string, b: string, c: string)
    requires !Less(a, b) && !Less(b, c)
    ensures !Less(a, c)
  {
    LessTotal(a, b);
    if Less(a, c) && Less(b, a) {
      LessTransitive(b, a, c);
    }
  }

  /** The three laws of a strict total order, for every triple of strings at once. */
  lemma LessIsStrictTotalOrder()
    ensures forall a: string :: !Less(a, a)
    ensures forall a: string, b: string, c: string :: Less(a, b) && Less(b, c) ==> Less(a, c)
    ensures forall a: string, b: string :: a == b || Less(a, b) || Less(b, a)
  {
    forall a: string ensures !Less(a, a) { LessIrreflexive(a); }
    forall a: string, b: string, c: string | Less(a, b) && Less(b, c) ensures Less(a, c) {
      LessTransitive(a, b, c);
    }
    forall a: string, b: string ensures a == b || Less(a, b) || Less(b, a) { LessTotal(a, b); }
  }

  /** Go's `unicode.IsSpace`. */
  predicate IsSpace(c: char) {
    || '\t' <= c <= '\r' || c == ' ' || c == '\U{85}' || c == '\U{A0}' || c == '\U{1680}'
    || '\U{2000}' <= c <= '\U{200A}' || c == '\U{2028}' || c == '\U{2029}' || c == '\U{202F}'
    || c == '\U{205F}' || c == '\U{3000}'
  }

  function TrimSpace(s: string): string {
    if s == [] then []
    else if IsSpace(s[0]) then TrimSpace(s[1..])
    else if IsSpace(s[|s| - 1]) then TrimSpace(s[..|s| - 1])
    else s
  }

  predicate AllSpace(s: string) { forall i :: 0 <= i < |s| ==> IsSpace(s[i]) }

  lemma ConsAround(x: char, before: string, t: string, after: string)
    ensures [x] + (before + t + after) == ([x] + before) + t + after
  {
  }

  lemma SnocAround(before: string, t: string, after: string, x: char)
    ensures (before + t + after) + [x] == before + t + (after + [x])
  {
  }

  /** What is left is a part of the string with blanks only around it and none at its ends. */
  lemma {:induction false} TrimSpaceTrims(s: string) returns (before: string, after: string)
    ensures s == before + TrimSpace(s) + after && AllSpace(before) && AllSpace(after)
    ensures var t := TrimSpace(s); t != [] ==> !IsSpace(t[0]) && !IsSpace(t[|t| - 1])
    decreases |s|
  {
    before, after := [], [];
    if s != [] && IsSpace(s[0]) {
      var b, a := TrimSpaceTrims(s[1..]);
      before, after := [s[0]] + b, a;
      ConsAround(s[0], b, TrimSpace(s), a);
      assert s == [s[0]] + s[1..];
    } else if s != [] && IsSpace(s[|s| - 1]) {
      var b, a := TrimSpaceTrims(s[..|s| - 1]);
      before, after := b, a + [s[|s| - 1]];
      SnocAround(b, TrimSpace(s), a, s[|s| - 1]);
      assert s == s[..|s| - 1] + [s[|s| - 1]];
    }
  }
}
