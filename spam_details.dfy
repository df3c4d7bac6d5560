/** Spam details: `Spam-Details: (.*?) engine=` on the blob; the text it captures is
    split on single spaces, the pieces are sorted, and each is read as a pair with
    `(.*)=(.*)`, whose greedy first group takes everything up to the last `=`. */
module SpamDetails {
  import opened Wrappers
  import opened Text
  import opened Sorting
  import opened Failures

  const SpamTag: String := "Spam-Details: "
  const EngineTag: String := " engine="

  /** The pattern matches with its tag at `i` and ` engine=` at `q`, the lazy group
      staying on one line. */
  predicate SpamMatch(s: String, i: nat, q: nat) {
    LitAt(s, i, SpamTag) && i + |SpamTag| <= q <= LineEnd(s, i + |SpamTag|) && LitAt(s, q, EngineTag)
  }

  ghost predicate FirstSpamMatch(s: String, i: nat, q: nat) {
    && SpamMatch(s, i, q)
    && (forall i': nat, q': nat :: i' < i ==> !SpamMatch(s, i', q'))
    && (forall q': nat :: q' < q ==> !SpamMatch(s, i, q'))
  }

  function EngineFor(s: String, i: nat): (r: Option<nat>)
    requires LitAt(s, i, SpamTag)
    ensures r.Some? ==> SpamMatch(s, i, r.value)
    ensures r.Some? ==> forall q: nat :: q < r.value ==> !SpamMatch(s, i, q)
    ensures r.None? ==> forall q: nat :: !SpamMatch(s, i, q)
  {
    var at := (q: nat) => LitAt(s, q, EngineTag);
    assert forall q: nat :: at(q) == LitAt(s, q, EngineTag);
    First(i + |SpamTag|, LineEnd(s, i + |SpamTag|), at)
  }

  predicate StartsSpam(s: String, i: nat) {
    LitAt(s, i, SpamTag) && EngineFor(s, i).Some?
  }

  /** The positions of the match `re.search` finds, if any. */
  function SearchSpam(s: String): (m: Option<(nat, nat)>)
    ensures m.Some? ==> FirstSpamMatch(s, m.value.0, m.value.1)
    ensures m.None? ==> forall i: nat, q: nat :: !SpamMatch(s, i, q)
  {
    var starts := (i: nat) => StartsSpam(s, i);
    assert forall i: nat :: starts(i) == StartsSpam(s, i);
    forall i: nat, q: nat | SpamMatch(s, i, q) ensures StartsSpam(s, i) {
    }
    match First(0, |s|, starts)
    case None => None
    case Some(i) => Some((i, EngineFor(s, i).value))
  }

  /** The captured text, split on single spaces and sorted: the tokens line 61
      visits, in the order it visits them. */
  function Tokens(s: String, i: nat, q: nat): (ts: seq<String>)
    requires SpamMatch(s, i, q)
    ensures Sorted(ts) && multiset(ts) == multiset(Split(s[i + |SpamTag|..q], " "))
    ensures forall k :: 0 <= k < |ts| ==> '\n' !in ts[k]
  {
    var text := s[i + |SpamTag|..q];
    var ts := Sort(Split(text, " "));
    forall k | 0 <= k < |ts| ensures '\n' !in ts[k] {
      SortKeeps(Split(text, " "), k);
      var j :| 0 <= j < |Split(text, " ")| && Split(text, " ")[j] == ts[k];
      PieceCharsIn(Split(text, " "), " ", j);
      assert forall c :: c in text ==> c != '\n';
    }
    ts
  }

  /** Each character of a piece occurs in the joined text. */
  lemma {:induction false} PieceCharsIn(ps: seq<String>, sep: String, k: nat)
    requires k < |ps|
    ensures forall c :: c in ps[k] ==> c in Join(ps, sep)
    decreases |ps|
  {
    if |ps| > 1 {
      assert Join(ps, sep) == ps[0] + sep + Join(ps[1..], sep);
      if k > 0 {
        PieceCharsIn(ps[1..], sep, k - 1);
        assert ps[1..][k - 1] == ps[k];
      }
    }
  }

  // ---------------------------------------------------------------------------
  // One pair: `(.*)=(.*)`.

  /** The pair pattern matches from `i` with its `=` at `k`, the last `=` before the
      end of the line. */
  predicate PairAt(d: String, i: nat, k: nat) {
    && i <= |d| && i <= k < LineEnd(d, i) && d[k] == '='
    && forall k' :: k < k' < LineEnd(d, i) ==> d[k'] != '='
  }

  ghost predicate FirstPairAt(d: String, i: nat, k: nat) {
    PairAt(d, i, k) && forall i': nat, k': nat :: i' < i ==> !PairAt(d, i', k')
  }

  /** The last `=` in `d[lo..hi]`. */
  function LastEquals(d: String, lo: nat, hi: nat): (r: Option<nat>)
    requires lo <= hi <= |d|
    ensures r.Some? ==> lo <= r.value < hi && d[r.value] == '='
    ensures r.Some? ==> forall k :: r.value < k < hi ==> d[k] != '='
    ensures r.None? ==> forall k :: lo <= k < hi ==> d[k] != '='
    decreases hi
  {
    if hi == lo then None
    else if d[hi - 1] == '=' then Some(hi - 1)
    else LastEquals(d, lo, hi - 1)
  }

  predicate StartsPair(d: String, i: nat) {
    i <= |d| && LastEquals(d, i, LineEnd(d, i)).Some?
  }

  /** `spam_detail_regex.search(d).groups()`: `None` when the token has no `=`. */
  function ReadPair(d: String): (r: Option<(String, String)>)
    ensures r.None? <==> forall i: nat, k: nat :: !PairAt(d, i, k)
    ensures r.Some? ==> exists i: nat, k: nat :: FirstPairAt(d, i, k) && r.value == (d[i..k], d[k + 1..LineEnd(d, i)])
  {
    var starts := (i: nat) => StartsPair(d, i);
    assert forall i: nat :: starts(i) == StartsPair(d, i);
    forall i: nat, k: nat | PairAt(d, i, k) ensures StartsPair(d, i) {
    }
    match First(0, |d|, starts)
    case None => None
    case Some(i) =>
      var e := LineEnd(d, i);
      var k := LastEquals(d, i, e).value;
      assert PairAt(d, i, k);
      Some((d[i..k], d[k + 1..e]))
  }

  /** On a token without line feeds a pair is read exactly when the token holds an
      `=`, and the token is the key, `=` and the value, the value free of `=`: the
      token is split at its last `=`. */
  lemma ReadPairSplitsAtLastEquals(d: String)
    requires '\n' !in d
    ensures ReadPair(d).Some? <==> '=' in d
    ensures ReadPair(d).Some? ==> ReadPair(d).value.0 + "=" + ReadPair(d).value.1 == d
    ensures ReadPair(d).Some? ==> '=' !in ReadPair(d).value.1
  {
    forall i | 0 <= i <= |d| ensures LineEnd(d, i) == |d| {
      RunEnds(d, i, NotNewline, |d|);
    }
    if '=' in d {
      var k :| 0 <= k < |d| && d[k] == '=';
      assert PairAt(d, 0, LastEquals(d, 0, |d|).value);
      PairFromStart(d);
    }
  }

  /** On one line, a pair read from a token holding `=` starts at its first
      character and splits it at its last `=`. */
  lemma PairFromStart(d: String)
    requires ReadPair(d).Some?
    requires forall i :: 0 <= i <= |d| ==> LineEnd(d, i) == |d|
    requires exists k: nat :: PairAt(d, 0, k)
    ensures ReadPair(d).value.0 + "=" + ReadPair(d).value.1 == d
    ensures '=' !in ReadPair(d).value.1
  {
    var i: nat, k: nat :| FirstPairAt(d, i, k) && ReadPair(d).value == (d[i..k], d[k + 1..LineEnd(d, i)]);
    assert i == 0;
    assert d == d[..k] + "=" + d[k + 1..];
  }

  /** A token read into a pair, or the failure of `.groups()` on `None`. */
  function PairOf(d: String): (r: Result<(String, String), Field>)
    ensures r.Err? <==> ReadPair(d).None?
    ensures r.Err? ==> r.error == SpamDetailField
    ensures r.Ok? ==> r.value == ReadPair(d).value
  {
    match ReadPair(d)
    case None => Err(SpamDetailField)
    case Some(kv) => Ok(kv)
  }

  predicate TokenWithoutEquals(ts: seq<String>) {
    exists k :: 0 <= k < |ts| && '=' !in ts[k]
  }

  /** Each pair, joined by `=`, is its token, and its value holds no `=`. */
  predicate SplitsAtLastEquals(pairs: seq<(String, String)>, ts: seq<String>) {
    |pairs| == |ts| && forall k :: 0 <= k < |ts| ==> pairs[k].0 + "=" + pairs[k].1 == ts[k] && '=' !in pairs[k].1
  }

  /** Lines 58 to 61 of `main`: `None` without a spam-details match; otherwise every
      sorted token split at its last `=`, failing at the first token without one. */
  function FindSpamDetails(s: String): (r: Result<Option<seq<(String, String)>>, Field>)
    ensures r == Ok(None) <==> forall i: nat, q: nat :: !SpamMatch(s, i, q)
    ensures r.Err? ==> r.error == SpamDetailField
    ensures r.Err? ==>
      exists i: nat, q: nat :: FirstSpamMatch(s, i, q) && TokenWithoutEquals(Tokens(s, i, q))
    ensures r.Ok? && r.value.Some? ==>
      exists i: nat, q: nat :: FirstSpamMatch(s, i, q) && SplitsAtLastEquals(r.value.value, Tokens(s, i, q))
  {
    match SearchSpam(s)
    case None => Ok(None)
    case Some((i, q)) =>
      var ts := Tokens(s, i, q);
      match MapAll(ts, PairOf)
      case Err(f) =>
        FailedPairs(ts, f);
        Err(f)
      case Ok(pairs) =>
        ReadPairs(ts, pairs);
        Ok(Some(pairs))
  }

  /** Reading the tokens fails only at a token without `=`. */
  lemma FailedPairs(ts: seq<String>, f: Field)
    requires forall k :: 0 <= k < |ts| ==> '\n' !in ts[k]
    requires MapAll(ts, PairOf) == Err(f)
    ensures f == SpamDetailField && TokenWithoutEquals(ts)
  {
    var k :| 0 <= k < |ts| && PairOf(ts[k]) == Err(f) && forall j :: 0 <= j < k ==> PairOf(ts[j]).Ok?;
    ReadPairSplitsAtLastEquals(ts[k]);
  }

  /** Read tokens are split at their last `=`. */
  lemma ReadPairs(ts: seq<String>, pairs: seq<(String, String)>)
    requires forall k :: 0 <= k < |ts| ==> '\n' !in ts[k]
    requires MapAll(ts, PairOf) == Ok(pairs)
    ensures SplitsAtLastEquals(pairs, ts)
  {
    forall k | 0 <= k < |pairs|
      ensures pairs[k].0 + "=" + pairs[k].1 == ts[k] && '=' !in pairs[k].1
    {
      ReadPairSplitsAtLastEquals(ts[k]);
    }
  }
}
