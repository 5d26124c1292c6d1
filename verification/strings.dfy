/** The parts of Go's `strings` package that the pod builder relies on:
    `HasPrefix`, `EqualFold`, `TrimSpace`, `Split` (with a one-character
    separator), the inverse `Join`, and `ReplaceAll`.
    Strings are sequences of characters; the builder only ever splits or
    replaces on ASCII characters, for which the byte view and the character
    view of a UTF-8 string agree. */
module Strings {

  /** `strings.HasPrefix`: `s` is `prefix` followed by the rest of `s`. */
  predicate HasPrefix(s: string, prefix: string)
    ensures HasPrefix(s, prefix) <==> |prefix| <= |s| && s == prefix + s[|prefix|..]
  {
    |prefix| <= |s| && s[..|prefix|] == prefix
  }

  // ---------------------------------------------------------------------
  // Case folding

  /** ASCII upper case to lower case; every other character is unchanged. */
  function ToLowerAscii(c: char): char {
    if 'A' <= c <= 'Z' then (c as int + 32) as char else c
  }

  /** `strings.EqualFold` restricted to ASCII case folding. */
  predicate EqualFold(a: string, b: string) {
    |a| == |b| && forall i :: 0 <= i < |a| ==> ToLowerAscii(a[i]) == ToLowerAscii(b[i])
  }

  // ---------------------------------------------------------------------
  // Trimming

  /** The ASCII white space `strings.TrimSpace` removes:
      tab, newline, vertical tab, form feed, carriage return and space. */
  predicate IsSpace(c: char) {
    c == ' ' || c == '\t' || c == '\n' || c == '\U{000B}' || c == '\U{000C}' || c == '\r'
  }

  /** Drops the leading white space: the result is the longest suffix of `s`
      that starts with a non-space character (or is empty). */
  function TrimLeft(s: string): (r: string)
    ensures |r| <= |s| && r == s[|s| - |r|..]
    ensures |r| > 0 ==> !IsSpace(r[0])
    ensures forall k :: 0 <= k < |s| - |r| ==> IsSpace(s[k])
  {
    if |s| > 0 && IsSpace(s[0]) then
      var r := TrimLeft(s[1..]);
      assert s[1..][|s| - 1 - |r|..] == s[|s| - |r|..];
      assert forall k :: 1 <= k < |s| ==> s[k] == s[1..][k - 1];
      r
    else s
  }

  /** Drops the trailing white space: the result is the longest prefix of `s`
      that ends with a non-space character (or is empty). */
  function TrimRight(s: string): (r: string)
    ensures |r| <= |s| && r == s[..|r|]
    ensures |r| > 0 ==> !IsSpace(r[|r| - 1])
    ensures forall k :: |r| <= k < |s| ==> IsSpace(s[k])
  {
    if |s| > 0 && IsSpace(s[|s| - 1]) then
      var r := TrimRight(s[..|s| - 1]);
      assert s[..|s| - 1][..|r|] == s[..|r|];
      r
    else s
  }

  /** `strings.TrimSpace`: the slice of `s` between its leading and its
      trailing white space. */
  function TrimSpace(s: string): (r: string)
    ensures |r| <= |s|
    ensures |r| > 0 ==> !IsSpace(r[0]) && !IsSpace(r[|r| - 1])
  {
    TrimRight(TrimLeft(s))
  }

  /** A string without white space at either end is its own trimming, and a
      string of white space trims to nothing. */
  lemma TrimSpaceFixedPoints(s: string)
    ensures (|s| == 0 || (!IsSpace(s[0]) && !IsSpace(s[|s| - 1]))) ==> TrimSpace(s) == s
    ensures (forall k :: 0 <= k < |s| ==> IsSpace(s[k])) ==> TrimSpace(s) == ""
  {
  }

  lemma SliceOfSlice(s: string, i: nat, n: nat)
    requires i + n <= |s|
    ensures s[i..][..n] == s[i..i + n]
  {
  }

  /** `r` is the slice of `s` starting at `i`, and everything in front of it
      and behind it is white space. */
  predicate TrimmedSlice(s: string, r: string, i: nat) {
    i + |r| <= |s| && r == s[i..i + |r|] &&
    (forall k :: 0 <= k < i ==> IsSpace(s[k])) &&
    (forall k :: i + |r| <= k < |s| ==> IsSpace(s[k]))
  }

  /** A prefix `r` of a suffix `l` of `s`, each with only white space cut
      off, is a trimmed slice of `s`. */
  lemma PrefixOfSuffix(s: string, l: string, r: string)
    requires |l| <= |s| && l == s[|s| - |l|..]
    requires forall k :: 0 <= k < |s| - |l| ==> IsSpace(s[k])
    requires |r| <= |l| && r == l[..|r|]
    requires forall k :: |r| <= k < |l| ==> IsSpace(l[k])
    ensures TrimmedSlice(s, r, |s| - |l|)
  {
    var i := |s| - |l|;
    SliceOfSlice(s, i, |r|);
    forall k | i + |r| <= k < |s|
      ensures IsSpace(s[k])
    {
      assert s[k] == l[k - i];
    }
  }

  /** `TrimSpace` returns a slice of its input: what it drops in front and
      behind is white space, and nothing else is changed. */
  lemma TrimSpaceIsSlice(s: string)
    ensures TrimmedSlice(s, TrimSpace(s), |s| - |TrimLeft(s)|)
  {
    var l := TrimLeft(s);
    var r := TrimRight(l);
    assert TrimSpace(s) == r;
    PrefixOfSuffix(s, l, r);
  }

  /** Trimming twice trims nothing more. */
  lemma TrimSpaceIdempotent(s: string)
    ensures TrimSpace(TrimSpace(s)) == TrimSpace(s)
  {
    TrimSpaceFixedPoints(TrimSpace(s));
  }

  // ---------------------------------------------------------------------
  // Split and Join on a one-character separator

  /** Number of occurrences of `c` in `s`. */
  function Occurrences(s: string, c: char): nat {
    multiset(s)[c]
  }

  /** `strings.Split(s, [sep])`: the pieces of `s` between the separators, in
      order. The empty string gives one empty piece. */
  function Split(s: string, sep: char): (parts: seq<string>)
    ensures |parts| > 0
  {
    if |s| == 0 then [""]
    else
      var rest := Split(s[1..], sep);
      if s[0] == sep then [""] + rest
      else [[s[0]] + rest[0]] + rest[1..]
  }

  /** There is always one more piece than there are separators, and no piece
      holds a separator. */
  lemma {:induction false} SplitPieces(s: string, sep: char)
    ensures var parts := Split(s, sep);
      |parts| == Occurrences(s, sep) + 1 &&
      forall i :: 0 <= i < |parts| ==> sep !in parts[i]
  {
    if |s| > 0 {
      var t := s[1..];
      SplitPieces(t, sep);
      assert s == [s[0]] + t;
      assert multiset(s) == multiset([s[0]]) + multiset(t);
      SplitCons(s[0], t, sep);
      var rest := Split(t, sep);
      var parts := Split(s, sep);
      if s[0] != sep {
        forall i | 0 <= i < |parts|
          ensures sep !in parts[i]
        {
          if i == 0 {
            assert parts[0] == [s[0]] + rest[0];
          } else {
            assert parts[i] == rest[i];
          }
        }
      }
    }
  }

  /** `strings.Join(parts, sep)`. */
  function Join(parts: seq<string>, sep: string): string {
    if |parts| == 0 then ""
    else if |parts| == 1 then parts[0]
    else parts[0] + sep + Join(parts[1..], sep)
  }

  /** Split unfolded at its first character. */
  lemma SplitCons(c: char, t: string, sep: char)
    ensures Split([c] + t, sep) == ConsPieces(c, Split(t, sep), sep)
  {
    assert ([c] + t)[1..] == t;
  }

  /** Join unfolded at its first piece. */
  lemma JoinCons(p: string, rest: seq<string>, sep: string)
    requires |rest| > 0
    ensures Join([p] + rest, sep) == p + sep + Join(rest, sep)
  {
    assert ([p] + rest)[1..] == rest;
  }

  /** An empty first piece puts a separator in front of the join. */
  lemma JoinEmptyFirst(rest: seq<string>, sep: string, joined: string)
    requires |rest| > 0 && Join(rest, sep) == joined
    ensures Join([""] + rest, sep) == sep + joined
  {
    JoinCons("", rest, sep);
    assert "" + sep == sep;
  }

  /** Putting text in front of the first piece puts it in front of the join. */
  lemma JoinPrepend(c: string, parts: seq<string>, sep: string)
    requires |parts| > 0
    ensures Join([c + parts[0]] + parts[1..], sep) == c + Join(parts, sep)
  {
    if |parts| > 1 {
      assert parts == [parts[0]] + parts[1..];
      JoinCons(c + parts[0], parts[1..], sep);
      JoinCons(parts[0], parts[1..], sep);
    }
  }

  /** Splitting and joining back on the same separator gives the input back. */
  lemma {:induction false} JoinSplit(s: string, sep: char)
    ensures Join(Split(s, sep), [sep]) == s
  {
    if |s| > 0 {
      var t := s[1..];
      JoinSplit(t, sep);
      assert s == [s[0]] + t;
      SplitCons(s[0], t, sep);
      var rest := Split(t, sep);
      if s[0] == sep {
        JoinCons("", rest, [sep]);
      } else if |rest| > 1 {
        assert rest == [rest[0]] + rest[1..];
        JoinCons([s[0]] + rest[0], rest[1..], [sep]);
        JoinCons(rest[0], rest[1..], [sep]);
      }
    }
  }

  /** A string free of the separator is a single piece. */
  lemma {:induction false} SplitNoSeparator(s: string, sep: char)
    requires sep !in s
    ensures Split(s, sep) == [s]
  {
    if |s| > 0 {
      assert s == [s[0]] + s[1..];
      assert sep !in s[1..];
      SplitNoSeparator(s[1..], sep);
      assert s[0] != sep;
    }
  }

  /** The pieces of `[c] + s` in terms of the pieces `rest` of `s`. */
  function ConsPieces(c: char, rest: seq<string>, sep: char): seq<string>
    requires |rest| > 0
  {
    if c == sep then [""] + rest else [[c] + rest[0]] + rest[1..]
  }

  /** Putting a character in front distributes over concatenated pieces. */
  lemma ConsPiecesAppend(c: char, ra: seq<string>, rb: seq<string>, sep: char)
    requires |ra| > 0
    ensures ConsPieces(c, ra + rb, sep) == ConsPieces(c, ra, sep) + rb
  {
    if c == sep {
      assert [""] + (ra + rb) == ([""] + ra) + rb;
    } else {
      assert (ra + rb)[1..] == ra[1..] + rb;
    }
  }

  /** One step of `SplitAround`: a character in front of `a`. */
  lemma SplitAroundStep(c: char, a: string, b: string, sep: char)
    requires Split(a + [sep] + b, sep) == Split(a, sep) + Split(b, sep)
    ensures Split([c] + (a + [sep] + b), sep) == Split([c] + a, sep) + Split(b, sep)
  {
    SplitCons(c, a + [sep] + b, sep);
    SplitCons(c, a, sep);
    ConsPiecesAppend(c, Split(a, sep), Split(b, sep), sep);
  }

  /** A separator between `a` and `b` splits them apart and nothing more. */
  lemma {:induction false} SplitAround(a: string, b: string, sep: char)
    ensures Split(a + [sep] + b, sep) == Split(a, sep) + Split(b, sep)
  {
    if |a| == 0 {
      assert a + [sep] + b == [sep] + b;
      SplitCons(sep, b, sep);
    } else {
      SplitAround(a[1..], b, sep);
      SplitAroundStep(a[0], a[1..], b, sep);
      assert a == [a[0]] + a[1..];
      assert a + [sep] + b == [a[0]] + (a[1..] + [sep] + b);
    }
  }

  /** Joining separator-free pieces and splitting again gives the pieces back. */
  lemma {:induction false} SplitJoin(parts: seq<string>, sep: char)
    requires |parts| > 0
    requires forall i :: 0 <= i < |parts| ==> sep !in parts[i]
    ensures Split(Join(parts, [sep]), sep) == parts
  {
    if |parts| == 1 {
      SplitNoSeparator(parts[0], sep);
    } else {
      SplitNoSeparator(parts[0], sep);
      SplitJoin(parts[1..], sep);
      SplitAround(parts[0], Join(parts[1..], [sep]), sep);
      assert [parts[0]] + parts[1..] == parts;
    }
  }

  /** The first two pieces of a split sit at the front of the input:
      the first piece, a separator, the second piece, and then either the
      end of the input or another separator. */
  lemma SplitFront(s: string, sep: char)
    requires |Split(s, sep)| > 1
    ensures var parts := Split(s, sep);
      var n := |parts[0]| + 1 + |parts[1]|;
      n <= |s| && s[..n] == parts[0] + [sep] + parts[1] && (n == |s| || s[n] == sep)
  {
    var parts := Split(s, sep);
    JoinSplit(s, sep);
    assert s == parts[0] + [sep] + Join(parts[1..], [sep]);
    var tail := parts[1..];
    if |tail| > 1 {
      assert Join(tail, [sep]) == tail[0] + [sep] + Join(tail[1..], [sep]);
    }
  }

  // ---------------------------------------------------------------------
  // ReplaceAll

  /** `pat` occurs in `s` starting at index `i`. */
  predicate OccursAt(s: string, pat: string, i: int) {
    0 <= i && i + |pat| <= |s| && s[i..i + |pat|] == pat
  }

  /** `strings.Contains`. */
  predicate Contains(s: string, pat: string) {
    exists i :: 0 <= i <= |s| && OccursAt(s, pat, i)
  }

  /** Number of replacements `ReplaceAll` makes: the occurrences of `pat`
      found scanning left to right, each search resuming after the previous
      match. */
  function Matches(s: string, pat: string): nat
    requires |pat| > 0
    decreases |s|
  {
    if |s| < |pat| then 0
    else if s[..|pat|] == pat then 1 + Matches(s[|pat|..], pat)
    else Matches(s[1..], pat)
  }

  /** The text between the matches of `pat` found scanning left to right:
      one more piece than there are matches. */
  function Pieces(s: string, pat: string): (pieces: seq<string>)
    requires |pat| > 0
    ensures |pieces| == Matches(s, pat) + 1
    decreases |s|
  {
    if |s| < |pat| then [s]
    else if s[..|pat|] == pat then [""] + Pieces(s[|pat|..], pat)
    else
      var rest := Pieces(s[1..], pat);
      [[s[0]] + rest[0]] + rest[1..]
  }

  /** Putting the matches back between the pieces gives the input back, so
      the pieces and the matches cover the input exactly. */
  lemma {:induction false} PiecesJoinBack(s: string, pat: string)
    requires |pat| > 0
    ensures Join(Pieces(s, pat), pat) == s
    decreases |s|
  {
    if |s| >= |pat| {
      if s[..|pat|] == pat {
        var t := s[|pat|..];
        PiecesJoinBack(t, pat);
        PiecesJoinBackMatch(t, pat);
        assert s == pat + t;
      } else {
        var t := s[1..];
        PiecesJoinBack(t, pat);
        assert s == [s[0]] + t;
        PiecesJoinBackSkip(s[0], t, pat);
      }
    }
  }

  /** A match at the front ends an empty first piece. */
  lemma PiecesAfterMatch(t: string, pat: string)
    requires |pat| > 0
    ensures Pieces(pat + t, pat) == [""] + Pieces(t, pat)
  {
    var s := pat + t;
    assert s[..|pat|] == pat && s[|pat|..] == t;
  }

  /** A step of `PiecesJoinBack` over a match at the front. */
  lemma PiecesJoinBackMatch(t: string, pat: string)
    requires |pat| > 0 && Join(Pieces(t, pat), pat) == t
    ensures Join(Pieces(pat + t, pat), pat) == pat + t
  {
    PiecesAfterMatch(t, pat);
    JoinEmptyFirst(Pieces(t, pat), pat, t);
  }

  /** A step of `PiecesJoinBack` over a character that starts no match. */
  lemma PiecesJoinBackSkip(c: char, t: string, pat: string)
    requires |pat| > 0 && |t| + 1 >= |pat| && ([c] + t)[..|pat|] != pat
    requires Join(Pieces(t, pat), pat) == t
    ensures Join(Pieces([c] + t, pat), pat) == [c] + t
  {
    assert ([c] + t)[1..] == t;
    JoinPrepend([c], Pieces(t, pat), pat);
  }

  /** `strings.ReplaceAll(s, pat, rep)` for a non-empty `pat`: every
      non-overlapping occurrence, found left to right, becomes `rep`. */
  function ReplaceAll(s: string, pat: string, rep: string): string
    requires |pat| > 0
    decreases |s|
  {
    if |s| < |pat| then s
    else if s[..|pat|] == pat then rep + ReplaceAll(s[|pat|..], pat, rep)
    else [s[0]] + ReplaceAll(s[1..], pat, rep)
  }

  /** `ReplaceAll` keeps the pieces between the matches and puts `rep` where
      each match was. */
  lemma {:induction false} ReplaceAllIsJoin(s: string, pat: string, rep: string)
    requires |pat| > 0
    ensures ReplaceAll(s, pat, rep) == Join(Pieces(s, pat), rep)
    decreases |s|
  {
    if |s| < |pat| {
    } else if s[..|pat|] == pat {
      var t := s[|pat|..];
      ReplaceAllIsJoin(t, pat, rep);
      JoinCons("", Pieces(t, pat), rep);
    } else {
      var t := s[1..];
      ReplaceAllIsJoin(t, pat, rep);
      JoinPrepend([s[0]], Pieces(t, pat), rep);
    }
  }

  lemma MulSuccessor(m: int, d: int)
    ensures (m + 1) * d == m * d + d
  {
  }

  /** Each replacement changes the length by `|rep| - |pat|`. */
  lemma {:induction false} ReplaceAllLength(s: string, pat: string, rep: string)
    requires |pat| > 0
    ensures |ReplaceAll(s, pat, rep)| == |s| + Matches(s, pat) * (|rep| - |pat|)
    decreases |s|
  {
    if |s| < |pat| {
    } else if s[..|pat|] == pat {
      var t := s[|pat|..];
      var m := Matches(t, pat);
      var d := |rep| - |pat|;
      ReplaceAllLength(t, pat, rep);
      assert ReplaceAll(s, pat, rep) == rep + ReplaceAll(t, pat, rep);
      assert Matches(s, pat) == m + 1;
      assert |t| == |s| - |pat|;
      MulSuccessor(m, d);
    } else {
      var t := s[1..];
      ReplaceAllLength(t, pat, rep);
      assert ReplaceAll(s, pat, rep) == [s[0]] + ReplaceAll(t, pat, rep);
      assert Matches(s, pat) == Matches(t, pat);
    }
  }

  /** An occurrence in the tail of a string is an occurrence in the string. */
  lemma OccursAtShift(c: string, s: string, pat: string, i: int)
    requires OccursAt(s, pat, i)
    ensures OccursAt(c + s, pat, i + |c|)
  {
    assert (c + s)[i + |c|..i + |c| + |pat|] == s[i..i + |pat|];
  }

  /** `ReplaceAll` finds a match exactly when the pattern occurs. */
  lemma {:induction false} MatchesIffContains(s: string, pat: string)
    requires |pat| > 0
    ensures Matches(s, pat) > 0 <==> Contains(s, pat)
    decreases |s|
  {
    if |s| < |pat| {
      forall i | 0 <= i <= |s|
        ensures !OccursAt(s, pat, i)
      {
      }
    } else if s[..|pat|] == pat {
      assert OccursAt(s, pat, 0);
    } else {
      MatchesIffContains(s[1..], pat);
      if Contains(s, pat) {
        var i :| 0 <= i <= |s| && OccursAt(s, pat, i);
        assert i != 0;
        assert s[1..][i - 1..i - 1 + |pat|] == s[i..i + |pat|];
        assert OccursAt(s[1..], pat, i - 1);
      }
      if Contains(s[1..], pat) {
        var i :| 0 <= i <= |s[1..]| && OccursAt(s[1..], pat, i);
        assert s == [s[0]] + s[1..];
        OccursAtShift([s[0]], s[1..], pat, i);
      }
    }
  }

  lemma MulNonZero(m: int, d: int)
    requires m != 0 && d != 0
    ensures m * d != 0
  {
  }

  /** Replacing a pattern that does not occur changes nothing, and a
      replacement of a different length changes something when it occurs. */
  lemma ReplaceAllUnchangedIff(s: string, pat: string, rep: string)
    requires |pat| > 0 && |rep| != |pat|
    ensures ReplaceAll(s, pat, rep) == s <==> !Contains(s, pat)
  {
    MatchesIffContains(s, pat);
    ReplaceAllLength(s, pat, rep);
    var m := Matches(s, pat);
    if m == 0 {
      ReplaceAllAbsent(s, pat, rep);
    } else {
      MulNonZero(m, |rep| - |pat|);
    }
  }

  /** With nothing to match, `ReplaceAll` is the identity. */
  lemma {:induction false} ReplaceAllAbsent(s: string, pat: string, rep: string)
    requires |pat| > 0 && Matches(s, pat) == 0
    ensures ReplaceAll(s, pat, rep) == s
    decreases |s|
  {
    if |s| >= |pat| {
      ReplaceAllAbsent(s[1..], pat, rep);
      assert s == [s[0]] + s[1..];
    }
  }

  /** Replacing one character by one character works position by position. */
  lemma {:induction false} ReplaceAllCharwise(s: string, pat: string, rep: string)
    requires |pat| == 1 && |rep| == 1
    ensures var r := ReplaceAll(s, pat, rep);
      |r| == |s| && forall i :: 0 <= i < |s| ==> r[i] == (if s[i] == pat[0] then rep[0] else s[i])
    decreases |s|
  {
    if |s| > 0 {
      ReplaceAllCharwise(s[1..], pat, rep);
      assert s[..1] == [s[0]];
      assert pat == [pat[0]];
    }
  }
}
