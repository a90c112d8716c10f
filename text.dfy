/**
 * String operations the chat server relies on, with Python's semantics:
 * `str.startswith`, `str.replace(c, "")` for one character, `str.split(sep)`
 * with an explicit one-character separator, and `str.replace(old, new)`.
 */
module Text {

  /** Python's `s.startswith(p)`. */
  predicate StartsWith(s: string, p: string)
  {
    |p| <= |s| && s[..|p|] == p
  }

  /** Python's `s.replace(c, "")` for a one-character `c`: every `c` is dropped. */
  function Remove(s: string, c: char): (r: string)
    ensures c !in r
    ensures |r| <= |s|
    ensures forall x :: x in r ==> x in s
    ensures multiset(r) == multiset(s)[c := 0]
  {
    if s == [] then []
    else
      assert s == [s[0]] + s[1..];
      if s[0] == c then Remove(s[1..], c)
      else [s[0]] + Remove(s[1..], c)
  }

  /**
   * Removal works piece by piece: the kept characters of a concatenation are
   * the kept characters of each part, in the same order. With the one-character
   * cases this fixes `Remove` completely.
   */
  lemma {:induction false} RemoveAppend(a: string, b: string, c: char)
    ensures Remove(a + b, c) == Remove(a, c) + Remove(b, c)
  {
    if a == [] {
      assert a + b == b;
    } else {
      var tail := a[1..] + b;
      assert (a + b)[0] == a[0] && (a + b)[1..] == tail;
      RemoveAppend(a[1..], b, c);
      if a[0] == c {
        assert Remove(a + b, c) == Remove(tail, c);
      } else {
        assert Remove(a + b, c) == [a[0]] + Remove(tail, c);
      }
    }
  }

  /** A single character is kept exactly when it is not the one removed. */
  lemma RemoveOne(x: char, c: char)
    ensures Remove([x], c) == if x == c then [] else [x]
  {
    assert [x][1..] == [];
  }

  /** Dropping a character that does not occur changes nothing. */
  lemma {:induction false} RemoveAbsent(s: string, c: char)
    requires c !in s
    ensures Remove(s, c) == s
  {
    if s != [] {
      RemoveAbsent(s[1..], c);
    }
  }

  /** Removing a character twice is removing it once. */
  lemma RemoveIdempotent(s: string, c: char)
    ensures Remove(Remove(s, c), c) == Remove(s, c)
  {
    RemoveAbsent(Remove(s, c), c);
  }

  /**
   * Python's `s.split(sep)` with an explicit separator: the pieces between
   * consecutive separators, so two adjacent separators give an empty piece.
   */
  function Split(s: string, sep: char): (parts: seq<string>)
    ensures |parts| >= 1
    ensures forall i :: 0 <= i < |parts| ==> sep !in parts[i]
  {
    if s == [] then [[]]
    else
      var rest := Split(s[1..], sep);
      if s[0] == sep then [[]] + rest
      else [[s[0]] + rest[0]] + rest[1..]
  }

  /** Python's `sep.join(parts)`. */
  function Join(parts: seq<string>, sep: char): (s: string)
    requires |parts| >= 1
    ensures |s| >= |parts| - 1
  {
    if |parts| == 1 then parts[0]
    else parts[0] + [sep] + Join(parts[1..], sep)
  }

  /** Joining the pieces of a split restores the string. */
  lemma {:induction false} JoinSplit(s: string, sep: char)
    ensures Join(Split(s, sep), sep) == s
  {
    if s != [] {
      var rest := Split(s[1..], sep);
      JoinSplit(s[1..], sep);
      if s[0] != sep {
        if |rest| == 1 {
          assert Split(s, sep) == [[s[0]] + rest[0]];
        } else {
          assert Split(s, sep)[1..] == rest[1..];
          assert Join(rest, sep) == rest[0] + [sep] + Join(rest[1..], sep);
        }
      }
    }
  }

  /** Splitting a join of separator-free pieces gives the pieces back. */
  lemma {:induction false} SplitJoin(parts: seq<string>, sep: char)
    requires |parts| >= 1
    requires forall i :: 0 <= i < |parts| ==> sep !in parts[i]
    ensures Split(Join(parts, sep), sep) == parts
  {
    if |parts| == 1 {
      SplitPiece(parts[0], sep);
    } else {
      SplitJoin(parts[1..], sep);
      SplitPrefix(parts[0], Join(parts[1..], sep), sep);
      assert parts[0] + [sep] + Join(parts[1..], sep) == parts[0] + ([sep] + Join(parts[1..], sep));
    }
  }

  /** A string without the separator splits into itself alone. */
  lemma {:induction false} SplitPiece(s: string, sep: char)
    requires sep !in s
    ensures Split(s, sep) == [s]
  {
    if s != [] {
      SplitPiece(s[1..], sep);
      assert s == [s[0]] + s[1..];
    }
  }

  /** A separator-free prefix followed by a separator becomes the first piece. */
  lemma {:induction false} SplitPrefix(p: string, rest: string, sep: char)
    requires sep !in p
    ensures Split(p + ([sep] + rest), sep) == [p] + Split(rest, sep)
  {
    if p != [] {
      SplitPrefix(p[1..], rest, sep);
      var whole := p + ([sep] + rest);
      assert whole[0] == p[0] != sep;
      assert whole[1..] == p[1..] + ([sep] + rest);
      assert p == [p[0]] + p[1..];
    } else {
      assert p + ([sep] + rest) == [sep] + rest;
    }
  }

  /**
   * Python's `s.replace(pat, rep)`: every non-overlapping occurrence of
   * `pat`, scanned from the left, becomes `rep`. An empty `pat` matches
   * before every character and at the end.
   */
  function ReplaceAll(s: string, pat: string, rep: string): (r: string)
    decreases |s|
  {
    if pat == [] then Interleave(s, rep)
    else if s == [] then []
    else if StartsWith(s, pat) then rep + ReplaceAll(s[|pat|..], pat, rep)
    else [s[0]] + ReplaceAll(s[1..], pat, rep)
  }

  /** `rep` before every character of `s` and once at the end. */
  function Interleave(s: string, rep: string): (r: string)
    ensures |r| == |s| + (|s| + 1) * |rep|
  {
    if s == [] then rep else rep + [s[0]] + Interleave(s[1..], rep)
  }

  /** Replacing a pattern by itself leaves the string as it was. */
  lemma {:induction false} ReplaceAllSelf(s: string, pat: string)
    ensures ReplaceAll(s, pat, pat) == s
    decreases |s|
  {
    if pat == [] {
      InterleaveEmpty(s);
    } else if s != [] {
      if StartsWith(s, pat) {
        ReplaceAllSelf(s[|pat|..], pat);
        assert s == s[..|pat|] + s[|pat|..];
      } else {
        ReplaceAllSelf(s[1..], pat);
        assert s == [s[0]] + s[1..];
      }
    }
  }

  /** Interleaving the empty string changes nothing. */
  lemma {:induction false} InterleaveEmpty(s: string)
    ensures Interleave(s, []) == s
  {
    if s != [] {
      InterleaveEmpty(s[1..]);
      assert s == [s[0]] + s[1..];
    }
  }

  /** An occurrence of a non-empty pattern at the front is replaced, and the scan goes on after it. */
  lemma ReplaceAllMatch(s: string, pat: string, rep: string)
    requires pat != []
    ensures ReplaceAll(pat + s, pat, rep) == rep + ReplaceAll(s, pat, rep)
  {
    assert (pat + s)[..|pat|] == pat;
    assert (pat + s)[|pat|..] == s;
  }

  /** Where a non-empty pattern does not start, the first character is copied and the scan moves on by one. */
  lemma ReplaceAllStep(w: string, pat: string, rep: string)
    requires pat != [] && w != [] && !StartsWith(w, pat)
    ensures ReplaceAll(w, pat, rep) == [w[0]] + ReplaceAll(w[1..], pat, rep)
  {
  }

  /** A stretch without the pattern's first character is copied unchanged, and the scan goes on after it. */
  lemma {:induction false} ReplaceAllSkipFirst(p: string, s: string, pat: string, rep: string)
    requires pat != [] && pat[0] !in p
    ensures ReplaceAll(p + s, pat, rep) == p + ReplaceAll(s, pat, rep)
    decreases |p|
  {
    if p == [] {
      assert p + s == s;
    } else {
      var w, tail := p + s, p[1..] + s;
      var r := ReplaceAll(s, pat, rep);
      assert ReplaceAll(w, pat, rep) == [p[0]] + ReplaceAll(tail, pat, rep) by {
        assert w[0] == p[0] && w[1..] == tail;
        assert !StartsWith(w, pat) by {
          if |pat| <= |w| {
            assert w[..|pat|][0] == p[0] != pat[0];
          }
        }
        ReplaceAllStep(w, pat, rep);
      }
      assert ReplaceAll(tail, pat, rep) == p[1..] + r by {
        assert p[0] in p;
        ReplaceAllSkipFirst(p[1..], s, pat, rep);
      }
      assert [p[0]] + (p[1..] + r) == p + r by {
        assert p == [p[0]] + p[1..];
      }
    }
  }

  /** A pattern whose first character does not come back after it is replaced once, at the front. */
  lemma ReplaceAllFrontOnly(pat: string, rest: string, rep: string)
    requires pat != [] && pat[0] !in rest
    ensures ReplaceAll(pat + rest, pat, rep) == rep + rest
  {
    ReplaceAllMatch(rest, pat, rep);
    ReplaceAllSkipFirst(rest, [], pat, rep);
    assert rest + [] == rest;
  }

  /** A pattern whose first character occurs nowhere else is cut out once, where it stands. */
  lemma ReplaceAllCutOne(before: string, pat: string, after: string)
    requires pat != [] && pat[0] !in before && pat[0] !in after
    ensures ReplaceAll(before + (pat + after), pat, []) == before + after
  {
    ReplaceAllSkipFirst(before, pat + after, pat, []);
    ReplaceAllFrontOnly(pat, after, []);
    assert [] + after == after;
  }

  /** A non-empty pattern that never starts at any position leaves the string unchanged. */
  lemma {:induction false} ReplaceAllAbsent(s: string, pat: string, rep: string)
    requires pat != []
    requires forall i :: 0 <= i < |s| ==> !StartsWith(s[i..], pat)
    ensures ReplaceAll(s, pat, rep) == s
    decreases |s|
  {
    if s != [] {
      assert s[0..] == s;
      forall i | 0 <= i < |s[1..]|
        ensures !StartsWith(s[1..][i..], pat)
      {
        assert s[1..][i..] == s[i + 1..];
      }
      ReplaceAllAbsent(s[1..], pat, rep);
      assert s == [s[0]] + s[1..];
    }
  }
}
