/**
 * The two string operations the response assembly relies on, as Python
 * defines them: `str.strip()` (and the `str.strip(chars)` it specialises),
 * and `str.split('\n')`.
 */
module Text {

  /** The characters for which Python's `str.isspace` holds. */
  const Whitespace: set<char> := {
    '\t', '\n', '\U{000B}', '\U{000C}', '\r', '\U{001C}', '\U{001D}', '\U{001E}', '\U{001F}', ' ',
    '\U{0085}', '\U{00A0}', '\U{1680}', '\U{2000}', '\U{2001}', '\U{2002}', '\U{2003}', '\U{2004}',
    '\U{2005}', '\U{2006}', '\U{2007}', '\U{2008}', '\U{2009}', '\U{200A}', '\U{2028}', '\U{2029}',
    '\U{202F}', '\U{205F}', '\U{3000}'
  }

  predicate IsSpace(c: char) {
    c in Whitespace
  }

  /** Every character of `s` is one of `chars`. */
  predicate AllIn(s: string, chars: set<char>) {
    forall i :: 0 <= i < |s| ==> s[i] in chars
  }

  /** Neither end of `s` is one of `chars`. */
  predicate Trimmed(s: string, chars: set<char>) {
    s == [] || (s[0] !in chars && s[|s| - 1] !in chars)
  }

  /** `s` without its leading run of `chars`. */
  function StripLeft(s: string, chars: set<char>): (r: string)
    ensures |r| <= |s|
  {
    if s != [] && s[0] in chars then StripLeft(s[1..], chars) else s
  }

  /** `s` without its trailing run of `chars`. */
  function StripRight(s: string, chars: set<char>): (r: string)
    ensures |r| <= |s|
  {
    if s != [] && s[|s| - 1] in chars then StripRight(s[..|s| - 1], chars) else s
  }

  /** `StripLeft` removes a prefix made of `chars`, and only that. */
  lemma {:induction false} StripLeftFacts(s: string, chars: set<char>)
    ensures var r := StripLeft(s, chars);
      && |r| <= |s| && r == s[|s| - |r|..]
      && AllIn(s[..|s| - |r|], chars)
      && (r == [] || r[0] !in chars)
  {
    if s != [] && s[0] in chars {
      StripLeftFacts(s[1..], chars);
      var r := StripLeft(s[1..], chars);
      assert s[..|s| - |r|] == [s[0]] + s[1..][..|s| - 1 - |r|];
    }
  }

  /** `StripRight` removes a suffix made of `chars`, and only that. */
  lemma {:induction false} StripRightFacts(s: string, chars: set<char>)
    ensures var r := StripRight(s, chars);
      && |r| <= |s| && r == s[..|r|]
      && AllIn(s[|r|..], chars)
      && (r == [] || r[|r| - 1] !in chars)
  {
    if s != [] && s[|s| - 1] in chars {
      StripRightFacts(s[..|s| - 1], chars);
      var r := StripRight(s[..|s| - 1], chars);
      assert s[|r|..] == s[..|s| - 1][|r|..] + [s[|s| - 1]];
    }
  }

  /**
   * Python's `s.strip(chars)`: the part of `s` left once the runs of `chars`
   * at both ends are removed. It is empty exactly when `s` is made of `chars`.
   */
  function StripChars(s: string, chars: set<char>): (r: string)
    ensures Trimmed(r, chars)
    ensures var i := |s| - |StripLeft(s, chars)|;
      i + |r| <= |s| && r == s[i..i + |r|] && AllIn(s[..i], chars) && AllIn(s[i + |r|..], chars)
    ensures r == [] <==> AllIn(s, chars)
  {
    StripMiddle(s, chars);
    StripTrimmed(s, chars);
    StripEmptyIff(s, chars);
    StripRight(StripLeft(s, chars), chars)
  }

  /** Python's `s.strip()`: `s` without whitespace at either end. */
  function Strip(s: string): (r: string)
    ensures |r| <= |s| && Trimmed(r, Whitespace)
    ensures r == [] <==> AllIn(s, Whitespace)
  {
    StripChars(s, Whitespace)
  }

  lemma StripMiddle(s: string, chars: set<char>)
    ensures var l := StripLeft(s, chars); var r := StripRight(l, chars); var i := |s| - |l|;
      i + |r| <= |s| && r == s[i..i + |r|] && AllIn(s[..i], chars) && AllIn(s[i + |r|..], chars)
  {
    StripLeftFacts(s, chars);
    StripRightFacts(StripLeft(s, chars), chars);
    var l := StripLeft(s, chars);
    var r := StripRight(l, chars);
    assert s[|s| - |l| + |r|..] == l[|r|..];
  }

  lemma StripTrimmed(s: string, chars: set<char>)
    ensures Trimmed(StripRight(StripLeft(s, chars), chars), chars)
  {
    StripLeftFacts(s, chars);
    StripRightFacts(StripLeft(s, chars), chars);
    var l := StripLeft(s, chars);
    var r := StripRight(l, chars);
    if r != [] { assert r[0] == l[0]; }
  }

  lemma StripEmptyIff(s: string, chars: set<char>)
    ensures StripRight(StripLeft(s, chars), chars) == [] <==> AllIn(s, chars)
  {
    StripLeftFacts(s, chars);
    var l := StripLeft(s, chars);
    StripRightFacts(l, chars);
    var r := StripRight(l, chars);
    var i := |s| - |l|;
    if r != [] {
      assert r[0] == s[i] && s[i] !in chars;
    } else {
      forall k | 0 <= k < |s| ensures s[k] in chars {
        assert s[..i][k] == s[k];
      }
    }
  }

  lemma {:induction false} StripLeftUnique(s: string, chars: set<char>, i: nat)
    requires i <= |s| && AllIn(s[..i], chars)
    requires i == |s| || s[i] !in chars
    ensures StripLeft(s, chars) == s[i..]
    decreases i
  {
    if i > 0 {
      assert s[1..][..i - 1] == s[1..i];
      assert s[..i][0] in chars;
      StripLeftUnique(s[1..], chars, i - 1);
    }
  }

  lemma {:induction false} StripRightUnique(s: string, chars: set<char>, j: nat)
    requires j <= |s| && AllIn(s[j..], chars)
    requires j == 0 || s[j - 1] !in chars
    ensures StripRight(s, chars) == s[..j]
    decreases |s| - j
  {
    if j < |s| {
      var p := s[..|s| - 1];
      assert p[j..] == s[j..|s| - 1];
      assert s[j..][|s| - 1 - j] in chars;
      StripRightUnique(p, chars, j);
      assert p[..j] == s[..j];
    }
  }

  /**
   * Whenever `s` splits as a run of `chars`, a trimmed middle, and a run of
   * `chars`, the middle is what `StripChars` returns: the ends are removed
   * and nothing else.
   */
  lemma StripUnique(s: string, chars: set<char>, i: nat, j: nat)
    requires i <= j <= |s|
    requires AllIn(s[..i], chars) && AllIn(s[j..], chars) && Trimmed(s[i..j], chars)
    ensures StripChars(s, chars) == s[i..j]
  {
    if i == j {
      forall k | 0 <= k < |s| ensures s[k] in chars {
        if k < i { assert s[..i][k] == s[k]; } else { assert s[j..][k - j] == s[k]; }
      }
      StripLeftUnique(s, chars, |s|);
    } else {
      assert s[i..j][0] == s[i];
      StripLeftUnique(s, chars, i);
      var l := s[i..];
      assert l[j - i..] == s[j..];
      assert l[j - i - 1] == s[i..j][j - i - 1];
      StripRightUnique(l, chars, j - i);
    }
  }

  /** Stripping twice is stripping once. */
  lemma StripIdempotent(s: string, chars: set<char>)
    ensures StripChars(StripChars(s, chars), chars) == StripChars(s, chars)
  {
    var r := StripChars(s, chars);
    assert r[..0] == [] && r[|r|..] == [] && r[0..|r|] == r;
    StripUnique(r, chars, 0, |r|);
  }

  /** The lines of `ls` joined with `'\n'` between them. */
  function JoinLines(ls: seq<string>): (r: string)
    requires |ls| >= 1
  {
    if |ls| == 1 then ls[0] else ls[0] + "\n" + JoinLines(ls[1..])
  }

  /**
   * Python's `s.split('\n')`: the pieces between newlines, at least one, none
   * holding a newline, which joined with newlines give back `s`.
   */
  function SplitLines(s: string): (r: seq<string>)
    ensures |r| >= 1
    ensures forall k :: 0 <= k < |r| ==> '\n' !in r[k]
    ensures JoinLines(r) == s
  {
    if s == [] then [""]
    else
      var rest := SplitLines(s[1..]);
      if s[0] == '\n' then
        assert [s[0]] + s[1..] == s;
        [""] + rest
      else
        var r := [[s[0]] + rest[0]] + rest[1..];
        assert r[1..] == rest[1..];
        assert |rest| > 1 ==> JoinLines(rest) == rest[0] + "\n" + JoinLines(rest[1..]);
        assert JoinLines(r) == [s[0]] + JoinLines(rest);
        assert [s[0]] + s[1..] == s;
        r
  }

  lemma {:induction false} SplitLinesPrefix(a: string, rest: string)
    requires '\n' !in a
    ensures SplitLines(a + rest) == [a + SplitLines(rest)[0]] + SplitLines(rest)[1..]
  {
    if a != [] {
      assert (a + rest)[1..] == a[1..] + rest;
      assert (a + rest)[0] == a[0];
      SplitLinesPrefix(a[1..], rest);
      assert [a[0]] + (a[1..] + SplitLines(rest)[0]) == a + SplitLines(rest)[0];
    } else {
      assert a + rest == rest;
      assert a + SplitLines(rest)[0] == SplitLines(rest)[0];
      assert [SplitLines(rest)[0]] + SplitLines(rest)[1..] == SplitLines(rest);
    }
  }

  /** Splitting lines that hold no newline, once joined, gives them back. */
  lemma {:induction false} SplitJoinLines(ls: seq<string>)
    requires |ls| >= 1
    requires forall k :: 0 <= k < |ls| ==> '\n' !in ls[k]
    ensures SplitLines(JoinLines(ls)) == ls
  {
    if |ls| == 1 {
      SplitLinesPrefix(ls[0], "");
      assert ls[0] + "" == ls[0];
    } else {
      var tail := JoinLines(ls[1..]);
      assert JoinLines(ls) == ls[0] + ("\n" + tail);
      SplitJoinLines(ls[1..]);
      assert SplitLines("\n" + tail) == [""] + ls[1..] by {
        assert ("\n" + tail)[1..] == tail;
      }
      SplitLinesPrefix(ls[0], "\n" + tail);
      assert ls[0] + "" == ls[0];
      assert [ls[0]] + ls[1..] == ls;
    }
  }
}
