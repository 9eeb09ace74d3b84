/** The few Python string operations the widgets rely on, over `seq<char>`. */
module Strings {

  /** `sep.join(parts)`. */
  function Join(parts: seq<string>, sep: string): string
  {
    if |parts| == 0 then ""
    else if |parts| == 1 then parts[0]
    else parts[0] + sep + Join(parts[1..], sep)
  }

  /** Index of the first `c` in `s`, or -1 (`s.find(c)`). */
  function IndexOf(s: string, c: char): (k: int)
    ensures -1 <= k < |s|
    ensures k >= 0 ==> s[k] == c && c !in s[..k]
    ensures k == -1 <==> c !in s
  {
    if |s| == 0 then -1
    else if s[0] == c then 0
    else
      var k := IndexOf(s[1..], c);
      if k == -1 then -1
      else
        assert s[1..][..k] == s[1..k + 1];
        k + 1
  }

  /** Index of the last `c` in `s`, or -1 (`s.rfind(c)`). */
  function LastIndexOf(s: string, c: char): (k: int)
    ensures -1 <= k < |s|
    ensures k >= 0 ==> s[k] == c
    ensures forall j :: k < j < |s| ==> s[j] != c
  {
    if |s| == 0 then -1
    else if s[|s| - 1] == c then |s| - 1
    else LastIndexOf(s[..|s| - 1], c)
  }

  /** `s.split(c)` for a one-character separator. */
  function Split(s: string, c: char): (parts: seq<string>)
    ensures |parts| >= 1
    decreases |s|
  {
    var k := IndexOf(s, c);
    if k == -1 then [s] else [s[..k]] + Split(s[k + 1..], c)
  }

  /** Joining one more part adds the separator and that part at the end. */
  lemma {:induction false} JoinAppend(parts: seq<string>, sep: string, last: string)
    requires |parts| >= 1
    ensures Join(parts + [last], sep) == Join(parts, sep) + sep + last
    decreases |parts|
  {
    if |parts| == 1 {
      assert parts + [last] == [parts[0], last];
    } else {
      assert (parts + [last])[1..] == parts[1..] + [last];
      JoinAppend(parts[1..], sep, last);
    }
  }

  /** Splitting a joined list on the separator gives the list back, provided no part
      holds the separator. */
  lemma {:induction false} SplitJoin(parts: seq<string>, c: char)
    requires |parts| >= 1
    requires forall i :: 0 <= i < |parts| ==> c !in parts[i]
    ensures Split(Join(parts, [c]), c) == parts
  {
    if |parts| == 1 {
    } else {
      var rest := Join(parts[1..], [c]);
      var s := parts[0] + [c] + rest;
      assert s[|parts[0]|] == c;
      assert s[..|parts[0]|] == parts[0];
      assert IndexOf(s, c) == |parts[0]|;
      assert s[|parts[0]| + 1..] == rest;
      SplitJoin(parts[1..], c);
    }
  }

  /** `s.endswith(suffix)`. */
  predicate EndsWith(s: string, suffix: string)
  {
    |suffix| <= |s| && s[|s| - |suffix|..] == suffix
  }

  /** ASCII lower-casing of one character. */
  function LowerChar(c: char): char
  {
    if 'A' <= c <= 'Z' then (c as int - 'A' as int + 'a' as int) as char else c
  }

  /** `s.lower()`, restricted to the ASCII letters. */
  function Lower(s: string): (r: string)
    ensures |r| == |s|
    ensures forall i :: 0 <= i < |s| ==> r[i] == LowerChar(s[i])
  {
    seq(|s|, i requires 0 <= i < |s| => LowerChar(s[i]))
  }

  /** Lower-casing twice is lower-casing once. */
  lemma LowerIdempotent(s: string)
    ensures Lower(Lower(s)) == Lower(s)
  {
    forall i | 0 <= i < |s|
      ensures Lower(Lower(s))[i] == Lower(s)[i]
    {
      var c := s[i];
      if 'A' <= c <= 'Z' {
        assert 'a' <= LowerChar(c) <= 'z';
      }
    }
  }

  /** `s.replace(pat, rep)`: every non-overlapping occurrence of `pat`, scanning left to
      right, is replaced by `rep`. */
  function ReplaceAll(s: string, pat: string, rep: string): (r: string)
    requires pat != []
    ensures |s| < |pat| ==> r == s
    ensures |rep| <= |pat| ==> |r| <= |s|
    ensures |rep| >= |pat| ==> |r| >= |s|
    decreases |s|
  {
    if |s| < |pat| then s
    else if s[..|pat|] == pat then rep + ReplaceAll(s[|pat|..], pat, rep)
    else [s[0]] + ReplaceAll(s[1..], pat, rep)
  }

  /** `pat` occurs in `s` at offset `i`. */
  predicate OccursAt(s: string, pat: string, i: int)
  {
    0 <= i && i + |pat| <= |s| && s[i..i + |pat|] == pat
  }

  /** Text without the pattern is left as it is. */
  lemma {:induction false} ReplaceAllAbsent(s: string, pat: string, rep: string)
    requires pat != []
    requires forall i :: 0 <= i <= |s| - |pat| ==> !OccursAt(s, pat, i)
    ensures ReplaceAll(s, pat, rep) == s
    decreases |s|
  {
    if |s| >= |pat| {
      assert !OccursAt(s, pat, 0);
      assert s[0..|pat|] == s[..|pat|];
      forall i | 0 <= i <= |s[1..]| - |pat|
        ensures !OccursAt(s[1..], pat, i)
      {
        assert !OccursAt(s, pat, i + 1);
        assert s[1..][i..i + |pat|] == s[i + 1..i + 1 + |pat|];
      }
      ReplaceAllAbsent(s[1..], pat, rep);
    }
  }

  /** Replacing the pattern by itself changes nothing. */
  lemma {:induction false} ReplaceAllBySelf(s: string, pat: string)
    requires pat != []
    ensures ReplaceAll(s, pat, pat) == s
    decreases |s|
  {
    if |s| >= |pat| {
      if s[..|pat|] == pat {
        ReplaceAllBySelf(s[|pat|..], pat);
        assert s == s[..|pat|] + s[|pat|..];
      } else {
        ReplaceAllBySelf(s[1..], pat);
        assert s == [s[0]] + s[1..];
      }
    }
  }

  /** A text that starts with the pattern gets the replacement in front, and the scan
      resumes right behind the pattern. */
  lemma ReplaceAllWhole(pat: string, rep: string, rest: string)
    requires pat != []
    ensures ReplaceAll(pat + rest, pat, rep) == rep + ReplaceAll(rest, pat, rep)
  {
    var s := pat + rest;
    assert s[..|pat|] == pat;
    assert s[|pat|..] == rest;
  }

  /** Text that holds no first character of the pattern is copied as it is, and the scan
      resumes behind it. */
  lemma {:induction false} ReplaceAllSkip(piece: string, tail: string, pat: string, rep: string)
    requires pat != []
    requires pat[0] !in piece
    ensures ReplaceAll(piece + tail, pat, rep) == piece + ReplaceAll(tail, pat, rep)
    decreases |piece|
  {
    if piece != [] {
      var s := piece + tail;
      if |s| >= |pat| {
        assert s[..|pat|][0] == piece[0];
        assert s[..|pat|] != pat;
        assert ReplaceAll(s, pat, rep) == [s[0]] + ReplaceAll(s[1..], pat, rep);
        assert s[1..] == piece[1..] + tail;
        ReplaceAllSkip(piece[1..], tail, pat, rep);
        assert piece == [piece[0]] + piece[1..];
      } else {
        assert ReplaceAll(tail, pat, rep) == tail;
      }
    } else {
      assert piece + tail == tail;
    }
  }

  /** Text in front of `tail` is copied as it is, and the scan resumes at `tail`, when
      the pattern starts at none of its positions. */
  lemma {:induction false} ReplaceAllPrefix(piece: string, tail: string, pat: string, rep: string)
    requires pat != []
    requires forall i :: 0 <= i < |piece| ==> !OccursAt(piece + tail, pat, i)
    ensures ReplaceAll(piece + tail, pat, rep) == piece + ReplaceAll(tail, pat, rep)
    decreases |piece|
  {
    var s := piece + tail;
    if piece == [] {
      assert s == tail;
    } else if |s| < |pat| {
      assert ReplaceAll(tail, pat, rep) == tail;
    } else {
      assert !OccursAt(s, pat, 0);
      assert s[..|pat|] != pat by {
        assert s[..|pat|] == s[0..|pat|];
      }
      assert ReplaceAll(s, pat, rep) == [s[0]] + ReplaceAll(s[1..], pat, rep);
      var piece' := piece[1..];
      assert s[1..] == piece' + tail;
      forall i | 0 <= i < |piece'|
        ensures !OccursAt(piece' + tail, pat, i)
      {
        assert !OccursAt(s, pat, i + 1);
        if i + |pat| <= |s[1..]| {
          assert s[1..][i..i + |pat|] == s[i + 1..i + 1 + |pat|];
        }
      }
      ReplaceAllPrefix(piece', tail, pat, rep);
      assert piece == [s[0]] + piece';
    }
  }

  /** When the pattern's first character does not recur in it, an occurrence can start
      inside a pattern-free piece only by overlapping the pattern that follows it, and
      that would put the first character again inside the occurrence. */
  lemma NoStraddle(piece: string, pat: string, rest: string)
    requires pat != [] && pat[0] !in pat[1..]
    requires forall j :: !OccursAt(piece, pat, j)
    ensures forall i :: 0 <= i < |piece| ==> !OccursAt(piece + (pat + rest), pat, i)
  {
    var s := piece + (pat + rest);
    forall i | 0 <= i < |piece|
      ensures !OccursAt(s, pat, i)
    {
      if i + |pat| <= |piece| {
        assert s[i..i + |pat|] == piece[i..i + |pat|];
        assert !OccursAt(piece, pat, i);
      } else {
        var k := |piece| - i;
        assert pat[1..][k - 1] == pat[k];
        assert s[|piece|] == pat[0] != pat[k];
        if i + |pat| <= |s| {
          assert s[i..i + |pat|][k] != pat[k];
        }
      }
    }
  }

  /** A text made of pieces separated by the pattern, where no piece holds the pattern and
      the pattern's first character does not recur in it, gets every separator replaced
      and nothing else. */
  lemma {:induction false} ReplaceAllJoin(pieces: seq<string>, pat: string, rep: string)
    requires pat != [] && pat[0] !in pat[1..] && |pieces| >= 1
    requires forall i :: 0 <= i < |pieces| ==> forall j :: !OccursAt(pieces[i], pat, j)
    ensures ReplaceAll(Join(pieces, pat), pat, rep) == Join(pieces, rep)
    decreases |pieces|
  {
    if |pieces| == 1 {
      assert pieces[0] + [] == pieces[0];
      assert forall i :: 0 <= i < |pieces[0]| ==> !OccursAt(pieces[0] + [], pat, i);
      ReplaceAllPrefix(pieces[0], [], pat, rep);
    } else {
      var rest := Join(pieces[1..], pat);
      assert forall i :: 0 <= i < |pieces[1..]| ==> forall j :: !OccursAt(pieces[1..][i], pat, j) by {
        forall i | 0 <= i < |pieces[1..]|
          ensures forall j :: !OccursAt(pieces[1..][i], pat, j)
        {
          assert pieces[1..][i] == pieces[i + 1];
        }
      }
      calc {
        ReplaceAll(Join(pieces, pat), pat, rep);
        { assert Join(pieces, pat) == pieces[0] + pat + rest == pieces[0] + (pat + rest); }
        ReplaceAll(pieces[0] + (pat + rest), pat, rep);
        { NoStraddle(pieces[0], pat, rest);
          ReplaceAllPrefix(pieces[0], pat + rest, pat, rep); }
        pieces[0] + ReplaceAll(pat + rest, pat, rep);
        { ReplaceAllWhole(pat, rep, rest); }
        pieces[0] + (rep + ReplaceAll(rest, pat, rep));
        { ReplaceAllJoin(pieces[1..], pat, rep); }
        pieces[0] + (rep + Join(pieces[1..], rep));
        Join(pieces, rep);
      }
    }
  }
}
