/** The record `main` pulls out of the blob, field by field in the order of lines
    36 to 61; the first extraction that calls `.groups()` or `.group(1)` on a failed
    match ends the run. */
module Extraction {
  import opened Wrappers
  import opened Text
  import opened Failures
  import opened Endpoints
  import opened Timestamps
  import opened Attachments
  import opened Statuses
  import opened SpamDetails

  datatype Record = Record(
    source: Option<Endpoint>,
    destination: Option<Endpoint>,
    timestamp: String,
    attachments: Option<seq<Attachment>>,
    status: Status,
    detail: Detail,
    spamDetails: Option<seq<(String, String)>>)

  const FromKey: String := ": from"
  const ToKey: String := ": to"

  /** Lines 36 to 61 of `main`. */
  function Extract(s: String): (r: Result<Record, Field>)
    ensures !Contains(s, StatTag) ==> r.Err?
    ensures r.Ok? ==> Ok(r.value.source) == SearchClause(s, FromKey, SourceField)
    ensures r.Ok? ==> Ok(r.value.destination) == SearchClause(s, ToKey, DestinationField)
    ensures r.Ok? ==> Ok(r.value.timestamp) == Timestamp(s)
    ensures r.Ok? ==> Ok(r.value.attachments) == FindAttachments(s)
    ensures r.Ok? ==> Ok(r.value.status) == FindStatus(s)
    ensures r.Ok? ==> Ok(r.value.detail) == SplitDetail(r.value.status.detail)
    ensures r.Ok? ==> Ok(r.value.spamDetails) == FindSpamDetails(s)
    ensures r == Err(SourceField) ==> SearchClause(s, FromKey, SourceField).Err?
    ensures r == Err(DestinationField) ==> SearchClause(s, ToKey, DestinationField).Err?
    ensures r.Ok? <==>
      && SearchClause(s, FromKey, SourceField).Ok? && SearchClause(s, ToKey, DestinationField).Ok?
      && Timestamp(s).Ok? && FindAttachments(s).Ok? && FindStatus(s).Ok?
      && SplitDetail(FindStatus(s).value.detail).Ok? && FindSpamDetails(s).Ok?
    ensures r.Err? ==>
      r.error == (if SearchClause(s, FromKey, SourceField).Err? then SourceField
                  else if SearchClause(s, ToKey, DestinationField).Err? then DestinationField
                  else if Timestamp(s).Err? then TimestampField
                  else if FindAttachments(s).Err? then AttachmentField
                  else if FindStatus(s).Err? then StatusField
                  else if SplitDetail(FindStatus(s).value.detail).Err? then StatusDetailField
                  else SpamDetailField)
  {
    assert !Contains(s, StatTag) ==> FindStatus(s).Err? by {
      if !Contains(s, StatTag) {
        NoStatWithoutTag(s);
      }
    }
    var source :- SearchClause(s, FromKey, SourceField);
    var destination :- SearchClause(s, ToKey, DestinationField);
    var timestamp :- Timestamp(s);
    var attachments :- FindAttachments(s);
    var status :- FindStatus(s);
    var detail :- SplitDetail(status.detail);
    var spam :- FindSpamDetails(s);
    Ok(Record(source, destination, timestamp, attachments, status, detail, spam))
  }

  /** A block is absent exactly when its key is; a key whose pattern fails ends the run. */
  lemma ExtractedEndpoints(s: String)
    ensures Extract(s).Ok? ==> (Extract(s).value.source.None? <==> !Contains(s, FromKey))
    ensures Extract(s).Ok? ==> (Extract(s).value.destination.None? <==> !Contains(s, ToKey))
    ensures Extract(s) == Err(SourceField) ==> Contains(s, FromKey)
    ensures Extract(s) == Err(DestinationField) ==> Contains(s, ToKey)
  {
  }

  /** Attachments and spam details are absent exactly when their patterns match nowhere. */
  lemma ExtractedOptionalBlocks(s: String)
    ensures Extract(s).Ok? ==> (Extract(s).value.attachments.None? <==> forall i: nat, p: nat :: !EntryMatch(s, i, p))
    ensures Extract(s).Ok? ==> (Extract(s).value.spamDetails.None? <==> forall i: nat, q: nat :: !SpamMatch(s, i, q))
  {
    var r := Extract(s);
    if r.Ok? {
      assert Ok(r.value.attachments) == FindAttachments(s);
      assert Ok(r.value.spamDetails) == FindSpamDetails(s);
    }
  }

  /** The status detail stops before the first `)` and yields a non-empty message id. */
  lemma ExtractedStatus(s: String)
    ensures Extract(s).Ok? ==> forall k :: 0 <= k < |Extract(s).value.status.detail| ==> Extract(s).value.status.detail[k] != ')'
    ensures Extract(s).Ok? ==> |Extract(s).value.detail.code| > 0
  {
  }
}
