/** The delivery status: `stat=(.*?) \((.*?)\)` on the blob, then the detail inside
    the parentheses split into a message identifier and the rest, with
    `(\S+ \S+) (.*)` when the detail mentions `InternalId` and `(\S+) (.*)` otherwise. */
module Statuses {
  import opened Wrappers
  import opened Text
  import opened Failures

  datatype Status = Status(primary: String, detail: String)

  datatype Detail = Detail(code: String, rest: String)

  const StatTag: String := "stat="
  const OpenTag: String := " ("
  const InternalIdTag: String := "InternalId"

  /** The status pattern matches with `stat=` at `i`, ` (` at `q` and `)` at `r`,
      both lazy groups staying on one line. */
  predicate StatusMatch(s: String, i: nat, q: nat, r: nat) {
    && LitAt(s, i, StatTag)
    && i + |StatTag| <= q <= LineEnd(s, i + |StatTag|) && LitAt(s, q, OpenTag)
    && q + |OpenTag| <= r <= LineEnd(s, q + |OpenTag|) && r < |s| && s[r] == ')'
  }

  /** The match `re.search` reports: leftmost start, then the least end of each lazy
      group in turn. */
  ghost predicate FirstStatusMatch(s: String, i: nat, q: nat, r: nat) {
    && StatusMatch(s, i, q, r)
    && (forall i': nat, q': nat, r': nat :: i' < i ==> !StatusMatch(s, i', q', r'))
    && (forall q': nat, r': nat :: q' < q ==> !StatusMatch(s, i, q', r'))
    && (forall r': nat :: r' < r ==> !StatusMatch(s, i, q, r'))
  }

  predicate CloseAt(s: String, r: nat) {
    r < |s| && s[r] == ')'
  }

  /** The least `)` closing a detail opened at `q`. */
  function CloseFor(s: String, q: nat): (r: Option<nat>)
    requires LitAt(s, q, OpenTag)
    ensures r.Some? ==> q + 2 <= r.value <= LineEnd(s, q + 2) && CloseAt(s, r.value)
    ensures r.Some? ==> forall k :: q + 2 <= k < r.value ==> !CloseAt(s, k)
    ensures r.None? ==> forall k :: q + 2 <= k <= LineEnd(s, q + 2) ==> !CloseAt(s, k)
  {
    var close := (k: nat) => CloseAt(s, k);
    assert forall k: nat :: close(k) == CloseAt(s, k);
    First(q + 2, LineEnd(s, q + 2), close)
  }

  predicate OpensAt(s: String, q: nat) {
    LitAt(s, q, OpenTag) && CloseFor(s, q).Some?
  }

  /** The least ` (` after `stat=` at `i` that a `)` closes. */
  function OpenFor(s: String, i: nat): (m: Option<(nat, nat)>)
    requires LitAt(s, i, StatTag)
    ensures m.Some? ==> StatusMatch(s, i, m.value.0, m.value.1)
    ensures m.Some? ==> forall q': nat, r': nat :: q' < m.value.0 ==> !StatusMatch(s, i, q', r')
    ensures m.Some? ==> forall r': nat :: r' < m.value.1 ==> !StatusMatch(s, i, m.value.0, r')
    ensures m.None? ==> forall q': nat, r': nat :: !StatusMatch(s, i, q', r')
  {
    var opens := (k: nat) => OpensAt(s, k);
    assert forall k: nat :: opens(k) == OpensAt(s, k);
    forall q': nat, r': nat | StatusMatch(s, i, q', r') ensures OpensAt(s, q') {
      assert CloseAt(s, r');
    }
    match First(i + 5, LineEnd(s, i + 5), opens)
    case None => None
    case Some(q) =>
      var r := CloseFor(s, q).value;
      forall r': nat | r' < r ensures !StatusMatch(s, i, q, r') {
        if q + 2 <= r' {
          assert !CloseAt(s, r');
        }
      }
      Some((q, r))
  }

  predicate StartsStatus(s: String, i: nat) {
    LitAt(s, i, StatTag) && OpenFor(s, i).Some?
  }

  /** The positions of the match `re.search` finds, if any. */
  function SearchStatus(s: String): (m: Option<(nat, nat, nat)>)
    ensures m.Some? ==> FirstStatusMatch(s, m.value.0, m.value.1, m.value.2)
    ensures m.None? ==> forall i, q, r :: !StatusMatch(s, i, q, r)
  {
    var starts := (k: nat) => StartsStatus(s, k);
    assert forall k: nat :: starts(k) == StartsStatus(s, k);
    forall i: nat, q: nat, r: nat | StatusMatch(s, i, q, r) ensures StartsStatus(s, i) {
    }
    match First(0, |s|, starts)
    case None => None
    case Some(i) =>
      var qr := OpenFor(s, i).value;
      Some((i, qr.0, qr.1))
  }

  /** The two groups of a status match. The detail never holds a `)` nor a line feed:
      the lazy group stops at the first `)` of its line. */
  function StatusGroups(s: String, i: nat, q: nat, r: nat): (st: Status)
    requires FirstStatusMatch(s, i, q, r)
    ensures st.primary == s[i + 5..q] && st.detail == s[q + 2..r]
    ensures forall k :: 0 <= k < |st.detail| ==> st.detail[k] != ')' && st.detail[k] != '\n'
    ensures forall k :: 0 <= k < |st.primary| ==> st.primary[k] != '\n'
  {
    forall k | q + 2 <= k < r ensures s[k] != ')' {
      assert !StatusMatch(s, i, q, k);
    }
    Status(s[i + 5..q], s[q + 2..r])
  }

  /** Lines 52 and 53 of `main`; a blob without a status makes `.groups()` fail on
      `None`. */
  function FindStatus(s: String): (r: Result<Status, Field>)
    ensures r.Err? <==> forall i, q, k :: !StatusMatch(s, i, q, k)
    ensures r.Err? ==> r.error == StatusField
    ensures r.Ok? ==> exists i, q, k :: FirstStatusMatch(s, i, q, k) && r.value == StatusGroups(s, i, q, k)
  {
    match SearchStatus(s)
    case None => Err(StatusField)
    case Some((i, q, k)) => Ok(StatusGroups(s, i, q, k))
  }

  /** A blob without `stat=` has no status. */
  lemma NoStatWithoutTag(s: String)
    requires !Contains(s, StatTag)
    ensures FindStatus(s) == Err(StatusField)
  {
    forall i: nat, q: nat, k: nat | StatusMatch(s, i, q, k) ensures LitAt(s, i, StatTag) {
    }
  }

  // ---------------------------------------------------------------------------
  // The detail: `(\S+ \S+) (.*)` or `(\S+) (.*)`, searched in the detail text.

  /** `\S+ ` matched at `i`: a non-empty run of non-space characters and the space
      after it, which is at the returned index. A greedy `\S+` that must be followed
      by a space matches exactly the maximal run. */
  function TokenAt(d: String, i: nat): (a: Option<nat>)
    requires i <= |d|
    ensures a.Some? ==> i < a.value < |d| && d[a.value] == ' '
    ensures a.Some? ==> forall k :: i <= k < a.value ==> NotSpace(d[k])
  {
    var a := Run(d, i, NotSpace);
    if i < a < |d| && d[a] == ' ' then Some(a) else None
  }

  /** The pattern with `words` leading tokens matches at `i`, its group 1 ending at
      the returned (space) position. */
  function CodeEnd(d: String, i: nat, words: nat): (b: Option<nat>)
    requires i <= |d| && 1 <= words <= 2
    ensures b.Some? ==> i < b.value < |d| && d[b.value] == ' '
  {
    match TokenAt(d, i)
    case None => None
    case Some(a) => if words == 1 then Some(a) else TokenAt(d, a + 1)
  }

  predicate DetailAt(d: String, i: nat, words: nat)
    requires 1 <= words <= 2
  {
    i <= |d| && CodeEnd(d, i, words).Some?
  }

  /** `d` mentions an internal identifier, so the code takes two tokens. */
  function Words(d: String): nat
  {
    if Contains(d, InternalIdTag) then 2 else 1
  }

  ghost predicate FirstDetailAt(d: String, i: nat, words: nat)
    requires 1 <= words <= 2
  {
    DetailAt(d, i, words) && forall i': nat :: i' < i ==> !DetailAt(d, i', words)
  }

  /** The two groups of a detail match at `i`: the code, which is followed by a
      space, and the rest of the line. On a detail without line feeds the two,
      joined by that space, are the detail from `i` on. */
  function DetailGroups(d: String, i: nat, words: nat): (g: Detail)
    requires 1 <= words <= 2 && DetailAt(d, i, words)
    ensures |g.code| > 0 && i + |g.code| < |d| && d[i..i + |g.code| + 1] == g.code + " "
    ensures forall k :: 0 <= k < |g.rest| ==> g.rest[k] != '\n'
    ensures (forall k :: 0 <= k < |d| ==> d[k] != '\n') ==> d[i..] == g.code + " " + g.rest
  {
    var b := CodeEnd(d, i, words).value;
    var e := LineEnd(d, b + 1);
    assert d[i..b + 1] == d[i..b] + " ";
    assert (forall k :: 0 <= k < |d| ==> d[k] != '\n') ==> e == |d|;
    assert d[i..] == d[i..b] + " " + d[b + 1..];
    Detail(d[i..b], d[b + 1..e])
  }

  /** Lines 54 and 55 of `main`: the leftmost start where the pattern matches, the
      code running to the space that ends its tokens and the rest to the end of the
      line; a detail the pattern does not match makes `.groups()` fail on `None`. */
  function SplitDetail(d: String): (r: Result<Detail, Field>)
    ensures r.Err? <==> forall i :: !DetailAt(d, i, Words(d))
    ensures r.Err? ==> r.error == StatusDetailField
    ensures r.Ok? ==> exists i :: FirstDetailAt(d, i, Words(d)) && r.value == DetailGroups(d, i, Words(d))
  {
    var w := Words(d);
    var matches := (k: nat) => DetailAt(d, k, w);
    assert forall k: nat :: matches(k) == DetailAt(d, k, w);
    match First(0, |d|, matches)
    case None => Err(StatusDetailField)
    case Some(i) => Ok(DetailGroups(d, i, w))
  }

  /** A detail mentioning `InternalId` whose first two tokens are followed by a
      space splits into those two tokens and what follows them. */
  lemma DetailWithInternalId(x: String, y: String, rest: String)
    requires |x| > 0 && |y| > 0
    requires forall k :: 0 <= k < |x| ==> NotSpace(x[k])
    requires forall k :: 0 <= k < |y| ==> NotSpace(y[k])
    requires forall k :: 0 <= k < |rest| ==> rest[k] != '\n'
    requires Contains(x + " " + y + " " + rest, InternalIdTag)
    ensures SplitDetail(x + " " + y + " " + rest) == Ok(Detail(x + " " + y, rest))
  {
    var d := x + " " + y + " " + rest;
    TwoTokensAtStart(x, y, rest);
    var r := SplitDetail(d);
    var i :| FirstDetailAt(d, i, 2) && r.value == DetailGroups(d, i, 2);
    assert i == 0;
  }

  lemma TwoTokensAtStart(x: String, y: String, rest: String)
    requires |x| > 0 && |y| > 0
    requires forall k :: 0 <= k < |x| ==> NotSpace(x[k])
    requires forall k :: 0 <= k < |y| ==> NotSpace(y[k])
    requires forall k :: 0 <= k < |rest| ==> rest[k] != '\n'
    ensures DetailAt(x + " " + y + " " + rest, 0, 2)
    ensures DetailGroups(x + " " + y + " " + rest, 0, 2) == Detail(x + " " + y, rest)
  {
    var d := x + " " + y + " " + rest;
    var a, b := |x|, |x| + 1 + |y|;
    SlicesOfTwoTokens(x, y, rest);
    forall k | 0 <= k < a ensures NotSpace(d[k]) {
      assert d[k] == d[0..a][k];
    }
    forall k | a < k < b ensures NotSpace(d[k]) {
      assert d[k] == d[a + 1..b][k - a - 1];
    }
    forall k | b < k < |d| ensures d[k] != '\n' {
      assert d[k] == d[b + 1..][k - b - 1];
    }
    TwoTokensAt(d, a, b);
  }

  /** Two tokens, each followed by a space, at the start of a detail whose rest
      has no line feed. */
  lemma TwoTokensAt(d: String, a: nat, b: nat)
    requires 0 < a && a + 1 < b < |d| && d[a] == ' ' && d[b] == ' '
    requires forall k :: 0 <= k < a ==> NotSpace(d[k])
    requires forall k :: a < k < b ==> NotSpace(d[k])
    requires forall k :: b < k < |d| ==> d[k] != '\n'
    ensures DetailAt(d, 0, 2) && DetailGroups(d, 0, 2) == Detail(d[..b], d[b + 1..])
  {
    RunEnds(d, 0, NotSpace, a);
    RunEnds(d, a + 1, NotSpace, b);
    RunEnds(d, b + 1, NotNewline, |d|);
  }

  lemma SlicesOfTwoTokens(x: String, y: String, rest: String)
    ensures var d, a, b := x + " " + y + " " + rest, |x|, |x| + 1 + |y|;
      && d[0..a] == x && d[a] == ' ' && d[a + 1..b] == y && d[b] == ' '
      && d[..b] == x + " " + y && d[b + 1..] == rest
  {
  }

  /** A non-empty word of non-space characters followed by a space is a token. */
  lemma TokenAtWord(d: String, i: nat, x: String)
    requires |x| > 0 && (forall k :: 0 <= k < |x| ==> NotSpace(x[k]))
    requires i + |x| < |d| && d[i..i + |x|] == x && d[i + |x|] == ' '
    ensures TokenAt(d, i) == Some(i + |x|)
  {
    forall k | i <= k < i + |x| ensures NotSpace(d[k]) {
      assert d[k] == d[i..i + |x|][k - i];
    }
    RunEnds(d, i, NotSpace, i + |x|);
  }

  /** From `i`, a text whose tail has no line feed runs to its end. */
  lemma RestToEnd(d: String, i: nat)
    requires i <= |d| && forall k :: 0 <= k < |d[i..]| ==> d[i..][k] != '\n'
    ensures LineEnd(d, i) == |d|
  {
    forall k | i <= k < |d| ensures d[k] != '\n' {
      assert d[k] == d[i..][k - i];
    }
    RunEnds(d, i, NotNewline, |d|);
  }

  /** A detail without `InternalId` splits at the space after its first token. */
  lemma DetailWithoutInternalId(x: String, rest: String)
    requires |x| > 0
    requires forall k :: 0 <= k < |x| ==> NotSpace(x[k])
    requires forall k :: 0 <= k < |rest| ==> rest[k] != '\n'
    requires !Contains(x + " " + rest, InternalIdTag)
    ensures SplitDetail(x + " " + rest) == Ok(Detail(x, rest))
  {
    var d := x + " " + rest;
    OneTokenAtStart(x, rest);
    var r := SplitDetail(d);
    var i :| FirstDetailAt(d, i, 1) && r.value == DetailGroups(d, i, 1);
    assert i == 0;
  }

  lemma OneTokenAtStart(x: String, rest: String)
    requires |x| > 0
    requires forall k :: 0 <= k < |x| ==> NotSpace(x[k])
    requires forall k :: 0 <= k < |rest| ==> rest[k] != '\n'
    ensures DetailAt(x + " " + rest, 0, 1)
    ensures DetailGroups(x + " " + rest, 0, 1) == Detail(x, rest)
  {
    var d := x + " " + rest;
    var a := |x|;
    assert d[0..a] == x && d[a] == ' ' && d[a + 1..] == rest;
    TokenAtWord(d, 0, x);
    RestToEnd(d, a + 1);
  }
}
