/** Small shared vocabulary: an optional value, as Python's `None`-or-value. */
module Common {

  datatype Option<+T> = None | Some(value: T)

  /** The size constants of the theme module (`dayu_theme.huge` … `dayu_theme.tiny`,
      `dayu_theme.default_size`). The theme module is not part of this model, so the
      widgets receive them as a value. */
  datatype Theme = Theme(huge: int, large: int, medium: int, small: int, tiny: int, defaultSize: int)

  /** Layout or text margins: left, top, right, bottom. */
  datatype Margins = Margins(left: int, top: int, right: int, bottom: int)

  /** A list with the first occurrence of `x` taken out (`takeAt(indexOf(x))` on a
      layout, `removeWidget`); unchanged when `x` does not occur. */
  function RemoveFirst<T(==)>(s: seq<T>, x: T): (r: seq<T>)
    ensures x !in s ==> r == s
    ensures s != [] && s[0] == x ==> r == s[1..]
    ensures x in s ==> |r| == |s| - 1
    ensures x in s ==> exists i :: 0 <= i < |s| && s[i] == x && x !in s[..i] && r == s[..i] + s[i + 1..]
  {
    if s == [] then []
    else if s[0] == x then
      assert s == [s[0]] + s[1..];
      assert s[..0] == [] && s[1..] == s[..0] + s[0 + 1..];
      assert x !in s[..0];
      s[1..]
    else
      assert s == [s[0]] + s[1..];
      var tail := RemoveFirst(s[1..], x);
      FirstOccurrenceBehindHead(s, x, tail);
      [s[0]] + tail
  }

  /** When `x` is not at the head, its first occurrence in `s` is the one right behind the
      first occurrence in the tail. */
  lemma FirstOccurrenceBehindHead<T>(s: seq<T>, x: T, tail: seq<T>)
    requires s != [] && s[0] != x
    requires x in s[1..] ==> exists j :: 0 <= j < |s[1..]| && s[1..][j] == x && x !in s[1..][..j] && tail == s[1..][..j] + s[1..][j + 1..]
    ensures x in s ==> exists i :: 0 <= i < |s| && s[i] == x && x !in s[..i] && [s[0]] + tail == s[..i] + s[i + 1..]
  {
    if x in s {
      assert s == [s[0]] + s[1..];
      assert x in s[1..];
      var t := s[1..];
      var j :| 0 <= j < |t| && t[j] == x && x !in t[..j] && tail == t[..j] + t[j + 1..];
      assert t[..j] == s[1..j + 1] && t[j + 1..] == s[j + 2..];
      OccurrenceAfterHead(s, x, tail, j + 1);
    }
  }

  lemma OccurrenceAfterHead<T>(s: seq<T>, x: T, tail: seq<T>, i: int)
    requires 1 <= i < |s| && s[0] != x && s[i] == x
    requires x !in s[1..i] && tail == s[1..i] + s[i + 1..]
    ensures x !in s[..i] && [s[0]] + tail == s[..i] + s[i + 1..]
  {
    assert s[..i] == [s[0]] + s[1..i];
  }

  /** Exactly one copy of `x` is taken out when there is one, and nothing else. */
  lemma {:induction false} RemoveFirstMultiset<T>(s: seq<T>, x: T)
    ensures multiset(RemoveFirst(s, x)) == multiset(s) - multiset{x}
  {
    if s != [] {
      assert s == [s[0]] + s[1..];
      if s[0] != x {
        RemoveFirstMultiset(s[1..], x);
      }
    }
  }

  /** `ys` can be obtained from `xs` by deleting elements. */
  predicate IsSubsequence<T(==)>(ys: seq<T>, xs: seq<T>)
  {
    if ys == [] then true
    else if xs == [] then false
    else if ys[0] == xs[0] then IsSubsequence(ys[1..], xs[1..])
    else IsSubsequence(ys, xs[1..])
  }

  lemma {:induction false} SubsequenceMembers<T>(ys: seq<T>, xs: seq<T>)
    requires IsSubsequence(ys, xs)
    ensures forall y :: y in ys ==> y in xs
    decreases |xs|
  {
    if ys != [] && xs != [] {
      if ys[0] == xs[0] {
        SubsequenceMembers(ys[1..], xs[1..]);
        assert ys == [ys[0]] + ys[1..];
      } else {
        SubsequenceMembers(ys, xs[1..]);
      }
    }
  }

  /** A subsequence stays one when the list grows at the end, whether or not the new
      element is kept. */
  lemma {:induction false} SubsequenceAppend<T>(ys: seq<T>, xs: seq<T>, x: T)
    requires IsSubsequence(ys, xs)
    ensures IsSubsequence(ys, xs + [x])
    ensures IsSubsequence(ys + [x], xs + [x])
    decreases |xs|
  {
    if xs == [] {
      assert ys == [];
      assert ([x] + [])[1..] == [];
    } else {
      assert (xs + [x])[1..] == xs[1..] + [x];
      if ys == [] {
        SubsequenceEmpty(xs + [x]);
        SubsequenceSelf([x]);
        if xs[0] != x {
          SubsequenceAppend([], xs[1..], x);
        }
      } else if ys[0] == xs[0] {
        SubsequenceAppend(ys[1..], xs[1..], x);
        assert (ys + [x])[1..] == ys[1..] + [x];
      } else {
        SubsequenceAppend(ys, xs[1..], x);
      }
    }
  }

  lemma SubsequenceEmpty<T>(xs: seq<T>)
    ensures IsSubsequence([], xs)
  {
  }

  lemma {:induction false} SubsequenceSelf<T>(xs: seq<T>)
    ensures IsSubsequence(xs, xs)
    decreases |xs|
  {
    if xs != [] {
      SubsequenceSelf(xs[1..]);
    }
  }
}
