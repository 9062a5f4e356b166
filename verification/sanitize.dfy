/**
 * `clean_string`: free text loses every newline and every backslash before
 * it is written out. The characters are deleted, not escaped.
 */
module Sanitize {

  /** The characters `clean_string` deletes. */
  predicate Removed(c: char) {
    c == '\n' || c == '\\'
  }

  /** No character of `s` is one `clean_string` deletes. */
  predicate IsClean(s: string) {
    forall i :: 0 <= i < |s| ==> !Removed(s[i])
  }

  /**
   * `s.replace(c, "")` for a one-character pattern: every occurrence of `c`
   * is deleted and everything else stays, in order.
   */
  function Delete(s: string, c: char): (r: string)
    ensures forall i :: 0 <= i < |r| ==> r[i] != c
    ensures |r| <= |s|
  {
    if |s| == 0 then []
    else (if s[0] == c then [] else [s[0]]) + Delete(s[1..], c)
  }

  /**
   * Delete loses only `c`: every other character stays as often as `s` has
   * it, and the result is a subsequence of `s`.
   */
  lemma DeleteKeepsOthers(s: string, c: char)
    ensures multiset(Delete(s, c))[c] == 0
    ensures forall d :: d != c ==> multiset(Delete(s, c))[d] == multiset(s)[d]
    ensures |Delete(s, c)| == |s| - multiset(s)[c]
    ensures Subsequence(Delete(s, c), s)
  {
    DeleteCounts(s, c);
    DeleteIsSubsequence(s, c);
  }

  lemma {:induction false} DeleteCounts(s: string, c: char)
    ensures multiset(Delete(s, c)) == multiset(s)[c := 0]
    decreases |s|
  {
    if |s| > 0 {
      DeleteCounts(s[1..], c);
      assert s == [s[0]] + s[1..];
      assert multiset(s) == multiset([s[0]]) + multiset(s[1..]);
      if s[0] != c {
        assert multiset(Delete(s, c)) == multiset([s[0]]) + multiset(Delete(s[1..], c));
      }
    }
  }

  lemma {:induction false} DeleteIsSubsequence(s: string, c: char)
    ensures Subsequence(Delete(s, c), s)
    decreases |s|
  {
    if |s| > 0 {
      DeleteIsSubsequence(s[1..], c);
      var rest := Delete(s[1..], c);
      if s[0] == c {
        assert Delete(s, c) == rest;
        SubsequenceSkip(rest, s);
      } else {
        assert Delete(s, c) == [s[0]] + rest;
        assert Delete(s, c)[1..] == rest;
      }
    }
  }

  /**
   * `clean_string`: first every newline is deleted, then every backslash.
   * The result keeps each other character as often as `s` has it.
   */
  function Clean(s: string): (r: string)
    ensures IsClean(r)
    ensures |r| <= |s|
  {
    var once := Delete(s, '\n');
    DeleteAddsNothing(once, '\\', '\n');
    Delete(once, '\\')
  }

  /** Deleting characters never brings in a character `d` that `s` lacks. */
  lemma {:induction false} DeleteAddsNothing(s: string, c: char, d: char)
    requires forall i :: 0 <= i < |s| ==> s[i] != d
    ensures forall i :: 0 <= i < |Delete(s, c)| ==> Delete(s, c)[i] != d
    decreases |s|
  {
    if |s| > 0 {
      DeleteAddsNothing(s[1..], c, d);
    }
  }

  /**
   * Nothing but newlines and backslashes is lost: every other character
   * stays as often as `s` has it, and the result is a subsequence of `s`.
   */
  lemma CleanKeepsOthers(s: string)
    ensures forall d :: !Removed(d) ==> multiset(Clean(s))[d] == multiset(s)[d]
    ensures |Clean(s)| == |s| - multiset(s)['\n'] - multiset(s)['\\']
    ensures Subsequence(Clean(s), s)
  {
    var once := Delete(s, '\n');
    DeleteKeepsOthers(s, '\n');
    DeleteKeepsOthers(once, '\\');
    SubsequenceTransitive(Clean(s), once, s);
  }

  /** `t` can be obtained from `s` by deleting characters. */
  ghost predicate Subsequence(t: string, s: string)
    decreases |s|
  {
    if |t| == 0 then true
    else if |s| == 0 then false
    else (t[0] == s[0] && Subsequence(t[1..], s[1..])) || Subsequence(t, s[1..])
  }

  /** Deleting the first character of the longer string keeps a subsequence. */
  lemma SubsequenceSkip(t: string, s: string)
    requires |s| > 0 && Subsequence(t, s[1..])
    ensures Subsequence(t, s)
  {
  }

  lemma {:induction false} SubsequenceTransitive(a: string, b: string, c: string)
    requires Subsequence(a, b) && Subsequence(b, c)
    ensures Subsequence(a, c)
    decreases |c|
  {
    if |a| == 0 {
    } else if Subsequence(b, c[1..]) {
      SubsequenceTransitive(a, b, c[1..]);
    } else {
      assert b[0] == c[0] && Subsequence(b[1..], c[1..]);
      if a[0] == b[0] && Subsequence(a[1..], b[1..]) {
        SubsequenceTransitive(a[1..], b[1..], c[1..]);
      } else {
        SubsequenceTransitive(a, b[1..], c[1..]);
      }
    }
  }

  /** A subsequence never has more copies of a character than its source. */
  lemma {:induction false} SubsequenceCount(t: string, s: string, d: char)
    requires Subsequence(t, s)
    ensures multiset(t)[d] <= multiset(s)[d]
    decreases |s|
  {
    if |t| == 0 {
    } else {
      assert s == [s[0]] + s[1..];
      if t[0] == s[0] && Subsequence(t[1..], s[1..]) {
        assert t == [t[0]] + t[1..];
        SubsequenceCount(t[1..], s[1..], d);
      } else {
        SubsequenceCount(t, s[1..], d);
      }
    }
  }

  /** A single-pass definition: keep exactly the characters that are not removed. */
  function Keep(s: string): string {
    if |s| == 0 then []
    else (if Removed(s[0]) then [] else [s[0]]) + Keep(s[1..])
  }

  /** Deleting newlines and then backslashes is the same as one filtering pass. */
  lemma {:induction false} CleanIsKeep(s: string)
    ensures Clean(s) == Keep(s)
  {
    DeleteBothIsKeep(s);
  }

  lemma {:induction false} DeleteBothIsKeep(s: string)
    ensures Delete(Delete(s, '\n'), '\\') == Keep(s)
    decreases |s|
  {
    if |s| > 0 {
      DeleteBothIsKeep(s[1..]);
      var once := Delete(s, '\n');
      if s[0] == '\n' {
        assert once == Delete(s[1..], '\n');
      } else {
        assert once == [s[0]] + Delete(s[1..], '\n');
        assert once[1..] == Delete(s[1..], '\n');
      }
    }
  }

  /**
   * Clean(s) is the only subsequence of `s` that has no removed character
   * and keeps every other character of `s`, so nothing is reordered.
   */
  lemma {:induction false} CleanUnique(s: string, t: string)
    requires Subsequence(t, s)
    requires IsClean(t)
    requires forall d :: !Removed(d) ==> multiset(t)[d] == multiset(s)[d]
    ensures t == Keep(s)
    decreases |s|
  {
    if |s| == 0 {
      assert |t| == 0;
    } else {
      assert s == [s[0]] + s[1..];
      var x := s[0];
      if Removed(x) {
        if |t| > 0 {
          assert t[0] != x;
        }
        assert Subsequence(t, s[1..]);
        CleanUnique(s[1..], t);
      } else {
        assert multiset(t)[x] >= 1;
        assert |t| > 0;
        assert t == [t[0]] + t[1..];
        if t[0] == x && Subsequence(t[1..], s[1..]) {
          forall d | !Removed(d)
            ensures multiset(t[1..])[d] == multiset(s[1..])[d]
          {
          }
          CleanUnique(s[1..], t[1..]);
        } else {
          assert Subsequence(t, s[1..]);
          SubsequenceCount(t, s[1..], x);
          assert false;
        }
      }
    }
  }

  /** The characterisation above, stated for Clean itself. */
  lemma CleanCharacterised(s: string, t: string)
    requires Subsequence(t, s) && IsClean(t)
    requires forall d :: !Removed(d) ==> multiset(t)[d] == multiset(s)[d]
    ensures t == Clean(s)
  {
    CleanUnique(s, t);
    CleanIsKeep(s);
  }

  /** Cleaning twice is cleaning once. */
  lemma CleanIdempotent(s: string)
    ensures Clean(Clean(s)) == Clean(s)
  {
    var r := Clean(s);
    SubsequenceReflexive(r);
    CleanCharacterised(r, r);
  }

  lemma {:induction false} SubsequenceReflexive(s: string)
    ensures Subsequence(s, s)
    decreases |s|
  {
    if |s| > 0 {
      SubsequenceReflexive(s[1..]);
    }
  }

  /** Text that has nothing to remove is written unchanged. */
  lemma CleanKeepsCleanText(s: string)
    requires IsClean(s)
    ensures Clean(s) == s
  {
    SubsequenceReflexive(s);
    CleanCharacterised(s, s);
  }

  /** Cleaning works character by character: it distributes over concatenation. */
  lemma {:induction false} KeepConcat(a: string, b: string)
    ensures Keep(a + b) == Keep(a) + Keep(b)
    decreases |a|
  {
    if |a| > 0 {
      assert (a + b)[1..] == a[1..] + b;
      KeepConcat(a[1..], b);
    } else {
      assert a + b == b;
    }
  }

  lemma CleanConcat(a: string, b: string)
    ensures Clean(a + b) == Clean(a) + Clean(b)
  {
    CleanIsKeep(a);
    CleanIsKeep(b);
    CleanIsKeep(a + b);
    KeepConcat(a, b);
  }
}
