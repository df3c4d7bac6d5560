/** Attachments: `(mod=mail cmd=attachment .*? a=[1-9][0-9]*?)` isolates one entry per
    attachment with `findall`, and `file=(\S*).*? type=(\S*).*? size=(\S*).*? a=([1-9]).*?`
    reads its file name, MIME type, size and index.

    Each greedy `(\S*)` is followed by a lazy `.*?` and then a literal that begins
    with a space; a shorter group would only hand non-space characters to the `.*?`,
    where that literal cannot begin, so the maximal run is the only group that can
    succeed. Each lazy `.*?` ends at the least position, on the same line, from which
    the rest of the pattern matches. */
module Attachments {
  import opened Wrappers
  import opened Text
  import opened Failures

  datatype Attachment = Attachment(file: String, mimeType: String, size: String, index: String)

  const EntryTag: String := "mod=mail cmd=attachment "
  const IndexTag: String := " a="
  const FileTag: String := "file="
  const TypeTag: String := " type="
  const SizeTag: String := " size="

  predicate NonZeroDigit(c: char) {
    '1' <= c <= '9'
  }

  /** ` a=[1-9]` at `p`. */
  predicate IndexAt(s: String, p: nat) {
    LitAt(s, p, IndexTag) && p + 3 < |s| && NonZeroDigit(s[p + 3])
  }

  // ---------------------------------------------------------------------------
  // Isolating the entries.

  /** The isolating pattern matches with its tag at `i` and ` a=` at `p`. Its final
      lazy `[0-9]*?` takes no digit, so the match is `s[i..p + 4]`. */
  predicate EntryMatch(s: String, i: nat, p: nat) {
    LitAt(s, i, EntryTag) && i + |EntryTag| <= p <= LineEnd(s, i + |EntryTag|) && IndexAt(s, p)
  }

  /** The match a search from `from` reports: the leftmost start, then the least ` a=`. */
  ghost predicate FirstEntryFrom(s: String, from: nat, i: nat, p: nat) {
    && from <= i && EntryMatch(s, i, p)
    && (forall i': nat, p': nat :: from <= i' < i ==> !EntryMatch(s, i', p'))
    && (forall p': nat :: p' < p ==> !EntryMatch(s, i, p'))
  }

  function IndexFor(s: String, i: nat): (r: Option<nat>)
    requires LitAt(s, i, EntryTag)
    ensures r.Some? ==> EntryMatch(s, i, r.value)
    ensures r.Some? ==> forall p: nat :: p < r.value ==> !EntryMatch(s, i, p)
    ensures r.None? ==> forall p: nat :: !EntryMatch(s, i, p)
  {
    var at := (p: nat) => IndexAt(s, p);
    assert forall p: nat :: at(p) == IndexAt(s, p);
    First(i + |EntryTag|, LineEnd(s, i + |EntryTag|), at)
  }

  predicate StartsEntry(s: String, i: nat) {
    LitAt(s, i, EntryTag) && IndexFor(s, i).Some?
  }

  /** The first entry at or after `from`. */
  function SearchEntry(s: String, from: nat): (m: Option<(nat, nat)>)
    ensures m.Some? ==> FirstEntryFrom(s, from, m.value.0, m.value.1)
    ensures m.None? ==> forall i: nat, p: nat :: from <= i ==> !EntryMatch(s, i, p)
  {
    var starts := (i: nat) => StartsEntry(s, i);
    assert forall i: nat :: starts(i) == StartsEntry(s, i);
    forall i: nat, p: nat | EntryMatch(s, i, p) ensures StartsEntry(s, i) && i <= |s| {
    }
    match First(from, |s|, starts)
    case None => None
    case Some(i) => Some((i, IndexFor(s, i).value))
  }

  /** Where the search for the `k`-th entry starts: at `from`, or where the previous
      entry ended. */
  function Resume(ms: seq<(nat, nat)>, from: nat, k: nat): nat
    requires k <= |ms|
  {
    if k == 0 then from else ms[k - 1].1 + 4
  }

  predicate EntriesWithin(s: String, ms: seq<(nat, nat)>) {
    forall k :: 0 <= k < |ms| ==> ms[k].0 <= ms[k].1 + 4 <= |s|
  }

  /** `findall`: the entries left to right, each search resuming where the previous
      match ended. */
  function FindEntries(s: String, from: nat): (ms: seq<(nat, nat)>)
    requires from <= |s|
    decreases |s| - from
  {
    match SearchEntry(s, from)
    case None => []
    case Some((i, p)) => [(i, p)] + FindEntries(s, p + 4)
  }

  /** The first entry found from `from`, followed by the entries found after it. */
  lemma FindEntriesUnfold(s: String, from: nat)
    requires from <= |s| && SearchEntry(s, from).Some?
    ensures var m := SearchEntry(s, from).value;
      && m.1 + 4 <= |s|
      && |FindEntries(s, from)| == |FindEntries(s, m.1 + 4)| + 1 && FindEntries(s, from)[0] == m
      && forall j :: 1 <= j < |FindEntries(s, from)| ==> FindEntries(s, from)[j] == FindEntries(s, m.1 + 4)[j - 1]
  {
    var m := SearchEntry(s, from).value;
    var rest := FindEntries(s, m.1 + 4);
    var ms := [m] + rest;
    assert m.1 + 4 <= |s|;
    assert FindEntries(s, from) == ms;
    assert |ms| == |rest| + 1 && ms[0] == m;
    assert forall j :: 1 <= j < |ms| ==> ms[j] == rest[j - 1];
  }

  /** Each entry `findall` reports is the first match of the search that found it. */
  lemma {:induction false} FoundEntry(s: String, from: nat, k: nat)
    requires from <= |s| && k < |FindEntries(s, from)|
    ensures FirstEntryFrom(s, Resume(FindEntries(s, from), from, k), FindEntries(s, from)[k].0, FindEntries(s, from)[k].1)
    decreases |s| - from
  {
    assert SearchEntry(s, from).Some?;
    FindEntriesUnfold(s, from);
    var m := SearchEntry(s, from).value;
    var ms := FindEntries(s, from);
    var rest := FindEntries(s, m.1 + 4);
    if k == 0 {
      assert ms[0] == m;
    } else {
      FoundEntry(s, m.1 + 4, k - 1);
      assert ms[k] == rest[k - 1];
      assert Resume(ms, from, k) == Resume(rest, m.1 + 4, k - 1);
    }
  }

  /** No entry starts after the last one `findall` reports. */
  lemma {:induction false} NoEntryAfter(s: String, from: nat)
    requires from <= |s|
    ensures forall i: nat, p: nat :: Resume(FindEntries(s, from), from, |FindEntries(s, from)|) <= i ==> !EntryMatch(s, i, p)
    decreases |s| - from
  {
    var ms := FindEntries(s, from);
    match SearchEntry(s, from)
    case None =>
    case Some(m) =>
      FindEntriesUnfold(s, from);
      NoEntryAfter(s, m.1 + 4);
      var rest := FindEntries(s, m.1 + 4);
      assert Resume(ms, from, |ms|) == Resume(rest, m.1 + 4, |rest|);
  }

  /** `findall` finds nothing exactly when the pattern matches nowhere. */
  lemma NoEntriesIffNoMatch(s: String)
    ensures |FindEntries(s, 0)| == 0 <==> forall i: nat, p: nat :: !EntryMatch(s, i, p)
  {
    var ms := FindEntries(s, 0);
    if |ms| == 0 {
      NoEntryAfter(s, 0);
    } else {
      FoundEntry(s, 0, 0);
    }
  }

  /** The text of an entry: the whole match. */
  function EntryText(s: String, m: (nat, nat)): String
  {
    if m.0 <= m.1 + 4 <= |s| then s[m.0..m.1 + 4] else []
  }

  lemma EntriesAreWithin(s: String, from: nat)
    requires from <= |s|
    ensures EntriesWithin(s, FindEntries(s, from))
  {
    forall k | 0 <= k < |FindEntries(s, from)|
      ensures FindEntries(s, from)[k].0 <= FindEntries(s, from)[k].1 + 4 <= |s|
    {
      FoundEntry(s, from, k);
    }
  }

  /** Entries do not overlap: each one ends before the next begins. */
  lemma EntriesInOrder(s: String, from: nat, k: nat)
    requires from <= |s|
    requires k + 1 < |FindEntries(s, from)|
    ensures FindEntries(s, from)[k].1 + 4 <= FindEntries(s, from)[k + 1].0
  {
    FoundEntry(s, from, k + 1);
  }

  // ---------------------------------------------------------------------------
  // Reading one entry: a matcher per stage, each the least end of its lazy part.

  /** ` size=(\S*).*? a=([1-9])` with ` size=` at `p2` and ` a=` at `p3`. */
  predicate SizeMatch(a: String, p2: nat, p3: nat) {
    LitAt(a, p2, SizeTag)
    && var e := Run(a, p2 + |SizeTag|, NotSpace);
       e <= p3 <= LineEnd(a, e) && IndexAt(a, p3)
  }

  /** ` type=(\S*).*?` then the size part at `p2`. */
  predicate TypeMatch(a: String, p1: nat, p2: nat, p3: nat) {
    LitAt(a, p1, TypeTag)
    && var e := Run(a, p1 + |TypeTag|, NotSpace);
       e <= p2 <= LineEnd(a, e) && SizeMatch(a, p2, p3)
  }

  /** The whole pattern, `file=` at `i`, then the type part at `p1`. */
  predicate FieldsMatch(a: String, i: nat, p1: nat, p2: nat, p3: nat) {
    LitAt(a, i, FileTag)
    && var e := Run(a, i + |FileTag|, NotSpace);
       e <= p1 <= LineEnd(a, e) && TypeMatch(a, p1, p2, p3)
  }

  /** The match `re.search` reports: leftmost start, then the least end of each lazy
      part in turn. */
  ghost predicate FirstFieldsMatch(a: String, i: nat, p1: nat, p2: nat, p3: nat) {
    && FieldsMatch(a, i, p1, p2, p3)
    && (forall i': nat, q1: nat, q2: nat, q3: nat :: i' < i ==> !FieldsMatch(a, i', q1, q2, q3))
    && (forall q1: nat, q2: nat, q3: nat :: q1 < p1 ==> !FieldsMatch(a, i, q1, q2, q3))
    && (forall q2: nat, q3: nat :: q2 < p2 ==> !FieldsMatch(a, i, p1, q2, q3))
    && (forall q3: nat :: q3 < p3 ==> !FieldsMatch(a, i, p1, p2, q3))
  }

  function SizeStage(a: String, p2: nat): (r: Option<nat>)
    requires LitAt(a, p2, SizeTag)
    ensures r.Some? ==> SizeMatch(a, p2, r.value)
    ensures r.Some? ==> forall q: nat :: q < r.value ==> !SizeMatch(a, p2, q)
    ensures r.None? ==> forall q: nat :: !SizeMatch(a, p2, q)
  {
    var e := Run(a, p2 + |SizeTag|, NotSpace);
    var at := (q: nat) => IndexAt(a, q);
    assert forall q: nat :: at(q) == IndexAt(a, q);
    First(e, LineEnd(a, e), at)
  }

  predicate SizeStarts(a: String, q: nat) {
    LitAt(a, q, SizeTag) && SizeStage(a, q).Some?
  }

  function TypeStage(a: String, p1: nat): (r: Option<(nat, nat)>)
    requires LitAt(a, p1, TypeTag)
    ensures r.Some? ==> TypeMatch(a, p1, r.value.0, r.value.1)
    ensures r.Some? ==> forall q2: nat, q3: nat :: q2 < r.value.0 ==> !TypeMatch(a, p1, q2, q3)
    ensures r.Some? ==> forall q3: nat :: q3 < r.value.1 ==> !TypeMatch(a, p1, r.value.0, q3)
    ensures r.None? ==> forall q2: nat, q3: nat :: !TypeMatch(a, p1, q2, q3)
  {
    var e := Run(a, p1 + |TypeTag|, NotSpace);
    var at := (q: nat) => SizeStarts(a, q);
    assert forall q: nat :: at(q) == SizeStarts(a, q);
    forall q2: nat, q3: nat | TypeMatch(a, p1, q2, q3) ensures SizeStarts(a, q2) {
    }
    match First(e, LineEnd(a, e), at)
    case None => None
    case Some(p2) => Some((p2, SizeStage(a, p2).value))
  }

  predicate TypeStarts(a: String, q: nat) {
    LitAt(a, q, TypeTag) && TypeStage(a, q).Some?
  }

  function FileStage(a: String, i: nat): (r: Option<(nat, nat, nat)>)
    requires LitAt(a, i, FileTag)
    ensures r.Some? ==> FieldsMatch(a, i, r.value.0, r.value.1, r.value.2)
    ensures r.Some? ==> forall q1: nat, q2: nat, q3: nat :: q1 < r.value.0 ==> !FieldsMatch(a, i, q1, q2, q3)
    ensures r.Some? ==> forall q2: nat, q3: nat :: q2 < r.value.1 ==> !FieldsMatch(a, i, r.value.0, q2, q3)
    ensures r.Some? ==> forall q3: nat :: q3 < r.value.2 ==> !FieldsMatch(a, i, r.value.0, r.value.1, q3)
    ensures r.None? ==> forall q1: nat, q2: nat, q3: nat :: !FieldsMatch(a, i, q1, q2, q3)
  {
    var e := Run(a, i + |FileTag|, NotSpace);
    var at := (q: nat) => TypeStarts(a, q);
    assert forall q: nat :: at(q) == TypeStarts(a, q);
    forall q1: nat, q2: nat, q3: nat | FieldsMatch(a, i, q1, q2, q3) ensures TypeStarts(a, q1) {
    }
    match First(e, LineEnd(a, e), at)
    case None => None
    case Some(p1) =>
      var t := TypeStage(a, p1).value;
      Some((p1, t.0, t.1))
  }

  predicate FileStarts(a: String, i: nat) {
    LitAt(a, i, FileTag) && FileStage(a, i).Some?
  }

  function SearchFields(a: String): (m: Option<(nat, nat, nat, nat)>)
    ensures m.Some? ==> FirstFieldsMatch(a, m.value.0, m.value.1, m.value.2, m.value.3)
    ensures m.None? ==> forall i, q1, q2, q3 :: !FieldsMatch(a, i, q1, q2, q3)
  {
    var at := (i: nat) => FileStarts(a, i);
    assert forall i: nat :: at(i) == FileStarts(a, i);
    forall i: nat, q1: nat, q2: nat, q3: nat | FieldsMatch(a, i, q1, q2, q3) ensures FileStarts(a, i) {
    }
    match First(0, |a|, at)
    case None => None
    case Some(i) =>
      var f := FileStage(a, i).value;
      Some((i, f.0, f.1, f.2))
  }

  /** The four groups of a match: three runs of non-space characters and the index,
      a single digit from 1 to 9. */
  function FieldGroups(a: String, i: nat, p1: nat, p2: nat, p3: nat): (t: Attachment)
    requires FieldsMatch(a, i, p1, p2, p3)
    ensures forall k :: 0 <= k < |t.file| ==> NotSpace(t.file[k])
    ensures forall k :: 0 <= k < |t.mimeType| ==> NotSpace(t.mimeType[k])
    ensures forall k :: 0 <= k < |t.size| ==> NotSpace(t.size[k])
    ensures |t.index| == 1 && NonZeroDigit(t.index[0])
  {
    var e1 := Run(a, i + |FileTag|, NotSpace);
    var e2 := Run(a, p1 + |TypeTag|, NotSpace);
    var e3 := Run(a, p2 + |SizeTag|, NotSpace);
    Attachment(a[i + |FileTag|..e1], a[p1 + |TypeTag|..e2], a[p2 + |SizeTag|..e3], a[p3 + 3..p3 + 4])
  }

  /** `attachment_regex.search(a).groups()` on one entry; an entry the pattern does
      not match makes `.groups()` fail on `None`. */
  function ReadAttachment(a: String): (r: Result<Attachment, Field>)
    ensures r.Err? <==> forall i, q1, q2, q3 :: !FieldsMatch(a, i, q1, q2, q3)
    ensures r.Err? ==> r.error == AttachmentField
    ensures r.Ok? ==> exists i, q1, q2, q3 :: FirstFieldsMatch(a, i, q1, q2, q3) && r.value == FieldGroups(a, i, q1, q2, q3)
  {
    match SearchFields(a)
    case None => Err(AttachmentField)
    case Some((i, q1, q2, q3)) => Ok(FieldGroups(a, i, q1, q2, q3))
  }

  /** The entry texts `findall` returns, in order. */
  function EntryTexts(s: String, ms: seq<(nat, nat)>): (ts: seq<String>)
    requires EntriesWithin(s, ms)
    ensures |ts| == |ms| && forall k :: 0 <= k < |ms| ==> ts[k] == EntryText(s, ms[k])
  {
    seq(|ms|, k requires 0 <= k < |ms| => EntryText(s, ms[k]))
  }

  /** The list comprehension of line 49: every entry read in order, failing at the
      first entry that cannot be read. */
  function ReadEntries(s: String, ms: seq<(nat, nat)>): (r: Result<seq<Attachment>, Field>)
    requires EntriesWithin(s, ms)
    ensures r.Err? ==> r.error == AttachmentField
    ensures r.Err? ==> exists k :: 0 <= k < |ms| && ReadAttachment(EntryText(s, ms[k])).Err?
    ensures r.Ok? ==> |r.value| == |ms|
    ensures r.Ok? ==> forall k :: 0 <= k < |ms| ==> ReadAttachment(EntryText(s, ms[k])) == Ok(r.value[k])
  {
    var texts := EntryTexts(s, ms);
    match MapAll(texts, ReadAttachment)
    case Err(f) =>
      assert exists k :: 0 <= k < |ms| && ReadAttachment(EntryText(s, ms[k])).Err? by {
        var k :| 0 <= k < |texts| && ReadAttachment(texts[k]) == Err(f);
        assert texts[k] == EntryText(s, ms[k]);
      }
      Err(f)
    case Ok(ts) =>
      assert forall k :: 0 <= k < |ts| ==> ReadAttachment(EntryText(s, ms[k])) == Ok(ts[k]) by {
        forall k | 0 <= k < |ts| ensures ReadAttachment(EntryText(s, ms[k])) == Ok(ts[k]) {
          assert texts[k] == EntryText(s, ms[k]);
        }
      }
      Ok(ts)
  }

  /** Lines 46 to 49 of `main`: `None` when no entry is found; otherwise every entry
      read in order, failing at the first entry that cannot be read. */
  function FindAttachments(s: String): (r: Result<Option<seq<Attachment>>, Field>)
    ensures r == Ok(None) <==> forall i: nat, p: nat :: !EntryMatch(s, i, p)
    ensures r.Err? ==> r.error == AttachmentField
    ensures r.Err? ==>
      exists k :: 0 <= k < |FindEntries(s, 0)| && ReadAttachment(EntryText(s, FindEntries(s, 0)[k])).Err?
    ensures r.Ok? && r.value.Some? ==> |r.value.value| == |FindEntries(s, 0)|
    ensures r.Ok? && r.value.Some? ==> forall k :: 0 <= k < |r.value.value| ==>
      ReadAttachment(EntryText(s, FindEntries(s, 0)[k])) == Ok(r.value.value[k])
  {
    var ms := FindEntries(s, 0);
    NoEntriesIffNoMatch(s);
    EntriesAreWithin(s, 0);
    if |ms| == 0 then Ok(None)
    else
      match ReadEntries(s, ms)
      case Err(f) => Err(f)
      case Ok(ts) => Ok(Some(ts))
  }
}
