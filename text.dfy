/** Byte-string primitives the log parser is built from: the character classes of
    Python's regular expressions on `str`, literal occurrence, maximal runs, the end
    of the current line (where `.` stops), a least-position search, and the literal
    forms of `str.split`, `str.join` and `re.sub`. */
module Text {
  import opened Wrappers

  type String = seq<char>

  /** Python's `\s` on byte strings: space, tab, line feed, carriage return,
      form feed and vertical tab. */
  predicate IsSpace(c: char) {
    c == ' ' || c == '\t' || c == '\n' || c == '\r' || c == '\U{000C}' || c == '\U{000B}'
  }

  /** Python's `\S`. */
  predicate NotSpace(c: char) {
    !IsSpace(c)
  }

  /** Python's `\d` on byte strings. */
  predicate IsDigit(c: char) {
    '0' <= c <= '9'
  }

  /** What `.` matches: every character except a line feed. */
  predicate NotNewline(c: char) {
    c != '\n'
  }

  /** The literal `w` occurs in `s` starting at index `i`. */
  predicate LitAt(s: String, i: nat, w: String) {
    i + |w| <= |s| && s[i..i + |w|] == w
  }

  /** The least `k` in `lo..hi` (both inclusive) that satisfies `P`: the position a
      regular-expression engine settles on when it tries positions left to right. */
  function First(lo: nat, hi: int, P: nat -> bool): (r: Option<nat>)
    ensures r.Some? ==> lo <= r.value <= hi && P(r.value)
    ensures r.Some? ==> forall k :: lo <= k < r.value ==> !P(k)
    ensures r.None? ==> forall k :: lo <= k <= hi ==> !P(k)
    decreases hi - lo + 1
  {
    if hi < lo then None
    else if P(lo) then Some(lo)
    else First(lo + 1, hi, P)
  }

  /** The first occurrence of `w` in `s` at or after `from`. */
  function Find(s: String, w: String, from: nat): (r: Option<nat>)
    ensures r.Some? ==> from <= r.value && LitAt(s, r.value, w)
    ensures r.Some? ==> forall k :: from <= k < r.value ==> !LitAt(s, k, w)
    ensures r.None? ==> forall k :: from <= k ==> !LitAt(s, k, w)
  {
    var occurs := (k: nat) => LitAt(s, k, w);
    assert forall k: nat :: occurs(k) == LitAt(s, k, w);
    First(from, |s| - |w|, occurs)
  }

  /** `re.search(w, s)` for a pattern `w` without special characters. */
  predicate Contains(s: String, w: String)
    ensures Contains(s, w) <==> exists i: nat :: LitAt(s, i, w)
  {
    Find(s, w, 0).Some?
  }

  /** The end of the longest run of characters satisfying `P` that starts at `i`:
      how far a greedy `[...]*` reaches. */
  function Run(s: String, i: nat, P: char -> bool): (e: nat)
    requires i <= |s|
    ensures i <= e <= |s|
    ensures forall k :: i <= k < e ==> P(s[k])
    ensures e < |s| ==> !P(s[e])
    decreases |s| - i
  {
    if i < |s| && P(s[i]) then Run(s, i + 1, P) else i
  }

  /** A run ends at the first character that fails `P`. */
  lemma RunEnds(s: String, i: nat, P: char -> bool, e: nat)
    requires i <= e <= |s|
    requires forall k :: i <= k < e ==> P(s[k])
    requires e < |s| ==> !P(s[e])
    ensures Run(s, i, P) == e
  {
  }

  /** The index of the first line feed at or after `i`, or `|s|`: the furthest
      position a `.*` or `.*?` starting at `i` can reach. */
  function LineEnd(s: String, i: nat): (e: nat)
    requires i <= |s|
    ensures i <= e <= |s|
    ensures forall k :: i <= k < e ==> s[k] != '\n'
    ensures e < |s| ==> s[e] == '\n'
  {
    Run(s, i, NotNewline)
  }

  /** `sep.join(ps)`. */
  function Join(ps: seq<String>, sep: String): String
  {
    if |ps| == 0 then []
    else if |ps| == 1 then ps[0]
    else ps[0] + sep + Join(ps[1..], sep)
  }

  /** A join starts with the first piece, followed by the separator when there is a
      second piece; an empty list joins to the empty string. */
  lemma JoinHead(ps: seq<String>, sep: String)
    ensures |ps| == 0 ==> Join(ps, sep) == []
    ensures |ps| > 0 ==> |ps[0]| <= |Join(ps, sep)| && Join(ps, sep)[..|ps[0]|] == ps[0]
    ensures |ps| > 1 ==>
      |ps[0]| + |sep| <= |Join(ps, sep)| && Join(ps, sep)[|ps[0]|..|ps[0]| + |sep|] == sep
  {
    if |ps| > 1 {
      var r := Join(ps, sep);
      assert r == ps[0] + sep + Join(ps[1..], sep);
      assert r[..|ps[0]|] == ps[0];
      assert r[|ps[0]|..|ps[0]| + |sep|] == sep;
    }
  }

  /** `s.split(sep)` for a non-empty separator: the pieces between the
      non-overlapping occurrences of `sep`, found left to right. */
  function Split(s: String, sep: String): (r: seq<String>)
    requires |sep| > 0
    ensures |r| >= 1
    ensures forall k :: 0 <= k < |r| ==> !Contains(r[k], sep)
    ensures Join(r, sep) == s
    decreases |s|
  {
    match Find(s, sep, 0)
    case None => [s]
    case Some(i) =>
      var rest := Split(s[i + |sep|..], sep);
      var r := [s[..i]] + rest;
      assert r[1..] == rest;
      assert !Contains(s[..i], sep) by {
        forall j: nat | LitAt(s[..i], j, sep) ensures false {
          assert s[..i][j..j + |sep|] == s[j..j + |sep|];
          assert LitAt(s, j, sep) && j < i;
        }
      }
      assert s == s[..i] + sep + s[i + |sep|..] by {
        assert s[i..i + |sep|] == sep;
      }
      r
  }

  /** `re.sub(pat, rep, s)` for a pattern and replacement without special
      characters: one left-to-right pass that replaces each occurrence of `pat`
      and resumes after it. */
  function Sub(s: String, pat: String, rep: String): String
    requires |pat| > 0
    decreases |s|
  {
    if |s| == 0 then []
    else if LitAt(s, 0, pat) then rep + Sub(s[|pat|..], pat, rep)
    else [s[0]] + Sub(s[1..], pat, rep)
  }

  /** Characters before the first occurrence are copied unchanged. */
  lemma {:induction false} SubSkip(s: String, pat: String, rep: String, i: nat)
    requires |pat| > 0 && i <= |s|
    requires forall k :: 0 <= k < i ==> !LitAt(s, k, pat)
    ensures Sub(s, pat, rep) == s[..i] + Sub(s[i..], pat, rep)
    decreases i
  {
    if i > 0 {
      assert !LitAt(s, 0, pat);
      NoLitInTail(s, pat, i - 1);
      SubSkip(s[1..], pat, rep, i - 1);
      assert s[1..][..i - 1] == s[1..i];
      assert s[1..][i - 1..] == s[i..];
      assert s[..i] == [s[0]] + s[1..i];
    } else {
      assert s[..0] + s[0..] == s;
    }
  }

  /** Dropping the first character shifts the positions without an occurrence. */
  lemma NoLitInTail(s: String, pat: String, n: nat)
    requires n < |s| && forall k :: 0 <= k <= n ==> !LitAt(s, k, pat)
    ensures forall k :: 0 <= k < n ==> !LitAt(s[1..], k, pat)
  {
    forall k | 0 <= k < n ensures !LitAt(s[1..], k, pat) {
      if LitAt(s[1..], k, pat) {
        assert s[1..][k..k + |pat|] == s[k + 1..k + 1 + |pat|];
        assert LitAt(s, k + 1, pat);
      }
    }
  }

  /** The single pass of `re.sub` is the same as splitting on the pattern and
      joining the pieces with the replacement. */
  lemma {:induction false} SubIsJoinSplit(s: String, pat: String, rep: String)
    requires |pat| > 0
    ensures Sub(s, pat, rep) == Join(Split(s, pat), rep)
    decreases |s|
  {
    match Find(s, pat, 0)
    case None =>
      SubSkip(s, pat, rep, |s|);
      assert s[..|s|] == s;
    case Some(i) =>
      SubSkip(s, pat, rep, i);
      var tail := s[i..];
      assert LitAt(tail, 0, pat) by {
        assert tail[0..|pat|] == s[i..i + |pat|];
      }
      assert tail[|pat|..] == s[i + |pat|..];
      SubIsJoinSplit(s[i + |pat|..], pat, rep);
      var rest := Split(s[i + |pat|..], pat);
      assert ([s[..i]] + rest)[1..] == rest;
  }

  /** A window of `x + sep + y` that reaches into `sep` shares a character with it. */
  lemma WindowMeetsSeparator(x: String, sep: String, y: String, w: String, j: nat)
    requires |w| > 0 && |sep| > 0 && LitAt(x + sep + y, j, w)
    requires |x| < j + |w| && j < |x| + |sep|
    ensures exists c :: c in sep && c in w
  {
    var z := x + sep + y;
    var t := if j < |x| then |x| else j;
    assert z[t] == z[j..j + |w|][t - j];
    assert z[t] == sep[t - |x|];
    assert sep[t - |x|] in sep && w[t - j] in w;
  }

  /** No occurrence of `w` can straddle a separator made of characters foreign to `w`. */
  lemma JoinPairAvoids(x: String, sep: String, y: String, w: String)
    requires |w| > 0 && |sep| > 0
    requires forall c :: c in sep ==> c !in w
    requires !Contains(x, w) && !Contains(y, w)
    ensures !Contains(x + sep + y, w)
  {
    var z := x + sep + y;
    forall j: nat | LitAt(z, j, w) ensures false {
      if j + |w| <= |x| {
        assert z[j..j + |w|] == x[j..j + |w|];
        assert LitAt(x, j, w);
      } else if j >= |x| + |sep| {
        var j' := j - |x| - |sep|;
        assert y[j'..j' + |w|] == w by {
          forall m | 0 <= m < |w| ensures y[j' + m] == w[m] {
            assert z[j + m] == z[j..j + |w|][m];
          }
        }
        assert LitAt(y, j', w);
      } else {
        WindowMeetsSeparator(x, sep, y, w, j);
      }
    }
  }

  /** Joining pieces free of `w` with such a separator leaves no occurrence of `w`. */
  lemma {:induction false} JoinAvoids(ps: seq<String>, sep: String, w: String)
    requires |w| > 0 && |sep| > 0
    requires forall c :: c in sep ==> c !in w
    requires forall k :: 0 <= k < |ps| ==> !Contains(ps[k], w)
    ensures !Contains(Join(ps, sep), w)
    decreases |ps|
  {
    if |ps| == 0 {
      assert !LitAt([], 0, w);
    } else if |ps| > 1 {
      JoinAvoids(ps[1..], sep, w);
      JoinPairAvoids(ps[0], sep, Join(ps[1..], sep), w);
    }
  }
}
