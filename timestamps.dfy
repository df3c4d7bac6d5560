/** The timestamp: `re.compile('^(\S* \S* \S*)').search(blob).group(1)`, the first
    three space-separated tokens at the very start of the blob (month, day and time
    of the syslog prefix). */
module Timestamps {
  import opened Wrappers
  import opened Text
  import opened Failures

  predicate NoSpaceIn(s: String, lo: nat, hi: nat)
    requires lo <= hi <= |s|
  {
    forall k :: lo <= k < hi ==> NotSpace(s[k])
  }

  /** The pattern matches `s[..c]`, with its two spaces at `a` and `b`. Each `\S*`
      is greedy and the first two must be followed by a space, so every token is a
      maximal run of non-whitespace characters. */
  predicate TimestampAt(s: String, a: nat, b: nat, c: nat) {
    && a < b && b + 1 <= c <= |s|
    && s[a] == ' ' && s[b] == ' '
    && NoSpaceIn(s, 0, a) && NoSpaceIn(s, a + 1, b) && NoSpaceIn(s, b + 1, c)
    && (c == |s| || IsSpace(s[c]))
  }

  /** Lines 42 and 43 of `main`; a blob whose start has fewer than three tokens makes
      `.group(1)` fail on `None`. */
  function Timestamp(s: String): (r: Result<String, Field>)
    ensures r.Err? <==> forall a, b, c :: !TimestampAt(s, a, b, c)
    ensures r.Err? ==> r.error == TimestampField
    ensures r.Ok? ==> exists a, b :: TimestampAt(s, a, b, |r.value|) && r.value == s[..|r.value|]
  {
    var a := Run(s, 0, NotSpace);
    var b := if a < |s| then Run(s, a + 1, NotSpace) else a;
    var c := if b < |s| then Run(s, b + 1, NotSpace) else b;
    forall a': nat, b': nat, c': nat | TimestampAt(s, a', b', c') ensures a' == a && b' == b && c' == c {
      TokenEnds(s, 0, a, a');
      TokenEnds(s, a + 1, b, b');
      TokenEnds(s, b + 1, c, c');
    }
    if a < |s| && s[a] == ' ' && b < |s| && s[b] == ' ' then
      assert TimestampAt(s, a, b, c);
      Ok(s[..c])
    else
      Err(TimestampField)
  }

  /** A token followed by a space, or by whitespace or the end, ends where the run
      of non-space characters from its start ends. */
  lemma TokenEnds(s: String, lo: nat, e: nat, e': nat)
    requires lo <= |s| && e == Run(s, lo, NotSpace)
    requires lo <= e' <= |s| && NoSpaceIn(s, lo, e') && (e' == |s| || IsSpace(s[e']))
    ensures e' == e
  {
  }

  /** The pattern matches at most one prefix: each token ends where its run of
      non-space characters ends. */
  lemma TimestampUnique(s: String, a: nat, b: nat, c: nat, a': nat, b': nat, c': nat)
    requires TimestampAt(s, a, b, c) && TimestampAt(s, a', b', c')
    ensures c == c'
  {
    TokenEnds(s, 0, Run(s, 0, NotSpace), a);
    TokenEnds(s, 0, Run(s, 0, NotSpace), a');
    TokenEnds(s, a + 1, Run(s, a + 1, NotSpace), b);
    TokenEnds(s, a + 1, Run(s, a + 1, NotSpace), b');
    TokenEnds(s, b + 1, Run(s, b + 1, NotSpace), c);
    TokenEnds(s, b + 1, Run(s, b + 1, NotSpace), c');
  }

  /** Three space-separated tokens at the start of the blob, followed by whitespace or
      by nothing, are exactly what is read as the timestamp. */
  lemma TimestampOfTokens(x: String, y: String, z: String, rest: String)
    requires forall k :: 0 <= k < |x| ==> NotSpace(x[k])
    requires forall k :: 0 <= k < |y| ==> NotSpace(y[k])
    requires forall k :: 0 <= k < |z| ==> NotSpace(z[k])
    requires |rest| == 0 || IsSpace(rest[0])
    ensures Timestamp(x + " " + y + " " + z + rest) == Ok(x + " " + y + " " + z)
  {
    var t := x + " " + y + " " + z;
    var s := t + rest;
    var a, b, c := |x|, |x| + 1 + |y|, |t|;
    TokensAt(x, y, z, rest);
    assert TimestampAt(s, a, b, c);
    var v := Timestamp(s).value;
    var a', b' :| TimestampAt(s, a', b', |v|) && v == s[..|v|];
    TimestampUnique(s, a, b, c, a', b', |v|);
  }

  /** The tokens of `x + " " + y + " " + z + rest` lie where their lengths put them. */
  lemma TokensAt(x: String, y: String, z: String, rest: String)
    requires forall k :: 0 <= k < |x| ==> NotSpace(x[k])
    requires forall k :: 0 <= k < |y| ==> NotSpace(y[k])
    requires forall k :: 0 <= k < |z| ==> NotSpace(z[k])
    requires |rest| == 0 || IsSpace(rest[0])
    ensures var s, a, b := x + " " + y + " " + z + rest, |x|, |x| + 1 + |y|;
      && s[..b + 1 + |z|] == x + " " + y + " " + z
      && s[a] == ' ' && s[b] == ' '
      && NoSpaceIn(s, 0, a) && NoSpaceIn(s, a + 1, b) && NoSpaceIn(s, b + 1, b + 1 + |z|)
      && (b + 1 + |z| == |s| || IsSpace(s[b + 1 + |z|]))
  {
    var t := x + " " + y + " " + z;
    var s := t + rest;
    var a, b, c := |x|, |x| + 1 + |y|, |t|;
    assert s[..a] == x && s[a] == ' ';
    assert s[a + 1..b] == y && s[b] == ' ';
    assert s[b + 1..c] == z && s[..c] == t;
    assert c < |s| ==> s[c] == rest[0];
    SliceNoSpace(s, 0, a);
    SliceNoSpace(s, a + 1, b);
    SliceNoSpace(s, b + 1, c);
  }

  lemma SliceNoSpace(s: String, lo: nat, hi: nat)
    requires lo <= hi <= |s|
    requires forall k :: 0 <= k < hi - lo ==> NotSpace(s[lo..hi][k])
    ensures NoSpaceIn(s, lo, hi)
  {
    forall k | lo <= k < hi ensures NotSpace(s[k]) {
      assert s[k] == s[lo..hi][k - lo];
    }
  }
}
