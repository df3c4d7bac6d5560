/** The line filter: the log lines that mention the queue id, each with its escaped
    line breaks (the two characters backslash and `n`) removed, joined into one blob
    with that same two-character sequence between them. */
module LineFilter {
  import opened Text

  /** The two characters backslash and `n`, both what is stripped and the separator. */
  const Escape: String := ['\\', 'n']

  /** `re.sub(r'\\n', '', line)`: the line with every occurrence of the escape found
      in one left-to-right pass removed; a real line feed is left in place. */
  function StripEscapes(line: String): (r: String)
    ensures r == Join(Split(line, Escape), [])
  {
    SubIsJoinSplit(line, Escape, []);
    Sub(line, Escape, [])
  }

  /** A line without the escape is kept as it is. */
  lemma StripWithoutEscape(line: String)
    requires !Contains(line, Escape)
    ensures StripEscapes(line) == line
  {
    assert Find(line, Escape, 0).None?;
  }

  /** One pass is not a fixpoint: removing the escape from backslash, backslash, `n`,
      `n` joins the first backslash and the last `n` into a new escape. */
  lemma StripLeavesFormedEscape()
    ensures StripEscapes(['\\', '\\', 'n', 'n']) == Escape
    ensures Contains(StripEscapes(['\\', '\\', 'n', 'n']), Escape)
  {
    var s: String := ['\\', '\\', 'n', 'n'];
    assert s[0..2][1] != Escape[1];
    assert !LitAt(s, 0, Escape);
    assert s[1..] == ['\\', 'n', 'n'] && LitAt(s[1..], 0, Escape);
    assert s[1..][2..] == ['n'] && !LitAt(['n'], 0, Escape);
    assert ['n'][1..] == [];
    assert Sub(s, Escape, []) == ['\\'] + ([] + (['n'] + []));
    assert LitAt(Escape, 0, Escape);
  }

  /** The lines in which `re.search(qid, line)` succeeds, in log order (the queue id
      is taken as a literal). */
  function Matching(lines: seq<String>, qid: String): (r: seq<String>)
    ensures |r| <= |lines|
    ensures forall k :: 0 <= k < |r| ==> Contains(r[k], qid)
  {
    if |lines| == 0 then []
    else (if Contains(lines[0], qid) then [lines[0]] else []) + Matching(lines[1..], qid)
  }

  /** Filtering distributes over concatenation, so the kept lines keep their order. */
  lemma {:induction false} MatchingAppend(a: seq<String>, b: seq<String>, qid: String)
    ensures Matching(a + b, qid) == Matching(a, qid) + Matching(b, qid)
    decreases |a|
  {
    if |a| > 0 {
      var head := if Contains(a[0], qid) then [a[0]] else [];
      assert (a + b)[0] == a[0] && (a + b)[1..] == a[1..] + b;
      assert Matching(a + b, qid) == head + Matching(a[1..] + b, qid);
      MatchingAppend(a[1..], b, qid);
      assert Matching(a, qid) == head + Matching(a[1..], qid);
    } else {
      assert a + b == b;
    }
  }

  /** Nothing is kept exactly when no line mentions the queue id. */
  lemma {:induction false} MatchingNone(lines: seq<String>, qid: String)
    ensures Matching(lines, qid) == [] <==> forall k :: 0 <= k < |lines| ==> !Contains(lines[k], qid)
    decreases |lines|
  {
    if |lines| > 0 {
      MatchingNone(lines[1..], qid);
      if forall k :: 0 <= k < |lines| ==> !Contains(lines[k], qid) {
        assert forall k :: 0 <= k < |lines| - 1 ==> !Contains(lines[1..][k], qid) by {
          forall k | 0 <= k < |lines| - 1 ensures !Contains(lines[1..][k], qid) {
            assert lines[1..][k] == lines[k + 1];
          }
        }
      } else {
        var k :| 0 <= k < |lines| && Contains(lines[k], qid);
        if k > 0 {
          assert lines[1..][k - 1] == lines[k];
        }
      }
    }
  }

  function StripAll(lines: seq<String>): (r: seq<String>)
    ensures |r| == |lines| && forall k :: 0 <= k < |r| ==> r[k] == StripEscapes(lines[k])
  {
    seq(|lines|, k requires 0 <= k < |lines| => StripEscapes(lines[k]))
  }

  /** `'\\n'.join([re.sub(r'\\n', '', e) for e in log if re.search(qid, e)])`. */
  function Blob(lines: seq<String>, qid: String): (r: String)
    ensures |Matching(lines, qid)| == 0 ==> r == []
    ensures var m := Matching(lines, qid);
      |m| > 0 ==> |StripEscapes(m[0])| <= |r| && r[..|StripEscapes(m[0])|] == StripEscapes(m[0])
    ensures var m := Matching(lines, qid);
      |m| > 1 ==> |StripEscapes(m[0])| + |Escape| <= |r| && r[|StripEscapes(m[0])|..|StripEscapes(m[0])| + |Escape|] == Escape
  {
    JoinHead(StripAll(Matching(lines, qid)), Escape);
    Join(StripAll(Matching(lines, qid)), Escape)
  }

  /** The blob is empty, the "no entries" signal, exactly when no line matched or
      a single line matched and nothing of it survives the stripping. */
  lemma BlobEmpty(lines: seq<String>, qid: String)
    ensures Blob(lines, qid) == [] <==>
      var m := Matching(lines, qid);
      |m| == 0 || (|m| == 1 && StripEscapes(m[0]) == [])
  {
    var ps := StripAll(Matching(lines, qid));
    if |ps| >= 2 {
      assert |Join(ps, Escape)| >= |Escape|;
    }
  }

  /** A log without the queue id gives the empty blob. */
  lemma NoMatchEmptyBlob(lines: seq<String>, qid: String)
    requires forall k :: 0 <= k < |lines| ==> !Contains(lines[k], qid)
    ensures Blob(lines, qid) == []
  {
    MatchingNone(lines, qid);
  }

  /** The blob is, piece by piece, the stripped matching lines with the escape between
      consecutive ones. */
  lemma BlobOfTwo(a: String, b: String, qid: String)
    requires Contains(a, qid) && Contains(b, qid)
    ensures Blob([a, b], qid) == StripEscapes(a) + Escape + StripEscapes(b)
  {
    assert [a, b][1..] == [b];
    assert [b][1..] == [];
    assert Matching([b], qid) == [b];
    assert Matching([a, b], qid) == [a, b];
    var ps := StripAll([a, b]);
    assert ps == [StripEscapes(a), StripEscapes(b)];
    assert ps[1..] == [StripEscapes(b)];
    assert Join(ps, Escape) == ps[0] + Escape + Join(ps[1..], Escape);
  }
}
