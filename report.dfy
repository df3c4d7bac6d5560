/** One run of `main(qid, date)`: choose the log, filter it into the blob, extract the
    record, and print it block by block. Reading the log file is the parameter
    `read`; a printed line is a `Line`; an exception that ends the run is the
    `failure` returned beside the lines printed before it. */
module Report {
  import opened Wrappers
  import opened Text
  import opened Numbers
  import opened Dates
  import opened Failures
  import opened LogSelection
  import opened LineFilter
  import opened Endpoints
  import opened Attachments
  import opened Extraction
  import opened Display

  /** Lines 70 to 74: the Details block. */
  function DetailsBlock(qid: String, rec: Record): seq<Line>
  {
    [ Heading("Details"),
      FieldLine("QID:", qid),
      FieldLine("MsgID:", rec.detail.code),
      FieldLine("Date:", rec.timestamp),
      FieldLine("Status:", rec.status.primary + ", " + rec.detail.rest) ]
  }

  /** Lines 75 to 80: the Source or Destination block of a present endpoint. */
  function EndpointBlock(title: String, e: Endpoint): seq<Line>
  {
    [Heading(title), FieldLine("Address:", e.address), FieldLine("Relay:", e.relay)]
  }

  /** `if attachments:` and `if spam_details:`: the block is printed for a non-empty list. */
  predicate Shown<T>(xs: Option<seq<T>>) {
    xs.Some? && |xs.value| > 0
  }

  /** Lines 82 to 85: the Attachments block, as printed up to a failure `f`. */
  predicate AttachmentSection(ls: seq<Line>, f: Option<Failure>, atts: Option<seq<Attachment>>) {
    if Shown(atts) then |ls| >= 1 && ls[0] == Heading("Attachments") && AttachmentListing(atts.value, ls[1..], f)
    else ls == [] && f.None?
  }

  /** Lines 86 to 95: the Spam Details block, as printed up to a failure `f`. */
  predicate SpamSection(ls: seq<Line>, f: Option<Failure>, details: Option<seq<(String, String)>>) {
    if Shown(details) then |ls| >= 1 && ls[0] == Heading("Spam Details") && SpamListing(details.value, ls[1..], f)
    else ls == [] && f.None?
  }

  /** Lines 86 to 96 once the attachments are out: the spam block, then a blank line. */
  ghost predicate SpamTail(ls: seq<Line>, failure: Option<Failure>, details: Option<seq<(String, String)>>) {
    exists g: seq<Line>, f: Option<Failure> ::
      && SpamSection(g, f, details)
      && (f.Some? ==> ls == g && failure == f)
      && (f.None? ==> ls == g + [BlankLine] && failure.None?)
  }

  /** Lines 82 to 96: the optional blocks and the blank line, each failure ending the
      printout where it happens. */
  ghost predicate Closing(ls: seq<Line>, failure: Option<Failure>, rec: Record) {
    exists a: seq<Line>, f: Option<Failure> ::
      && AttachmentSection(a, f, rec.attachments)
      && |a| <= |ls| && ls[..|a|] == a
      && (f.Some? ==> ls == a && failure == f)
      && (f.None? ==> SpamTail(ls[|a|..], failure, rec.spamDetails))
  }

  /** Lines 70 to 96 for an extracted record: Details, then Source and Destination,
      where a missing endpoint raises `TypeError` right after its heading, then the
      optional blocks. */
  ghost predicate Printout(out: seq<Line>, failure: Option<Failure>, qid: String, rec: Record) {
    var d := DetailsBlock(qid, rec);
    if rec.source.None? then
      out == d + [Heading("Source")] && failure == Some(MissingEndpoint("Source"))
    else
      var s := d + EndpointBlock("Source", rec.source.value);
      if rec.destination.None? then
        out == s + [Heading("Destination")] && failure == Some(MissingEndpoint("Destination"))
      else
        var h := s + EndpointBlock("Destination", rec.destination.value);
        |h| <= |out| && out[..|h|] == h && Closing(out[|h|..], failure, rec)
  }

  /** `main(qid, date)`: the log chosen for the date (`today` standing for
      `dt_date.today()`, the date already parsed), its lines as `read` returns them,
      the "no entries" line for an empty blob, the record extracted from the blob
      and its printout; every exception ends the run with the lines printed so far. */
  method SearchLog(qid: String, given: Option<Date>, today: Date, live: String, archive: String,
                   read: LogSource -> Option<seq<String>>)
    returns (out: seq<Line>, failure: Option<Failure>)
    requires Valid(today) && (given.Some? ==> Valid(given.value))
    ensures var chosen := ChooseLog(given, today, live, archive);
      && (chosen.Err? ==> out == [] && failure == Some(chosen.error))
      && (chosen.Ok? && read(chosen.value).None? ==>
            out == [] && failure == Some(LogUnavailable(chosen.value.path)))
      && (chosen.Ok? && read(chosen.value).Some? ==>
            var blob := Blob(read(chosen.value).value, qid);
            && (blob == [] ==> out == [NotFound(qid, chosen.value.path)] && failure.None?)
            && (blob != [] && Extract(blob).Err? ==> out == [] && failure == Some(Malformed(Extract(blob).error)))
            && (blob != [] && Extract(blob).Ok? ==> Printout(out, failure, qid, Extract(blob).value)))
  {
    var chosen := ChooseLog(given, today, live, archive);
    if chosen.Err? {
      return [], Some(chosen.error);
    }
    var log := chosen.value;
    var lines := read(log);
    if lines.None? {
      return [], Some(LogUnavailable(log.path));
    }
    var blob := Blob(lines.value, qid);
    if |blob| == 0 {
      return [NotFound(qid, log.path)], None;
    }
    var extracted := Extract(blob);
    if extracted.Err? {
      return [], Some(Malformed(extracted.error));
    }
    out, failure := PrintRecord(qid, extracted.value);
  }

  /** Lines 70 to 96 of `main` for an extracted record. */
  method PrintRecord(qid: String, rec: Record) returns (out: seq<Line>, failure: Option<Failure>)
    ensures Printout(out, failure, qid, rec)
  {
    out := DetailsBlock(qid, rec) + [Heading("Source")];
    if rec.source.None? {
      return out, Some(MissingEndpoint("Source"));
    }
    out := DetailsBlock(qid, rec) + EndpointBlock("Source", rec.source.value) + [Heading("Destination")];
    if rec.destination.None? {
      return out, Some(MissingEndpoint("Destination"));
    }
    var h := DetailsBlock(qid, rec) + EndpointBlock("Source", rec.source.value)
      + EndpointBlock("Destination", rec.destination.value);
    var a, fa := AttachmentBlock(rec.attachments);
    if fa.Some? {
      out := h + a;
      assert out[..|h|] == h && out[|h|..] == a;
      assert a[..|a|] == a;
      assert Closing(out[|h|..], fa, rec);
      return out, fa;
    }
    var g, fs := SpamBlock(rec.spamDetails);
    var t := if fs.Some? then g else g + [BlankLine];
    failure := fs;
    out := h + (a + t);
    assert out[..|h|] == h && out[|h|..] == a + t;
    assert (a + t)[..|a|] == a && (a + t)[|a|..] == t;
    assert SpamTail(t, failure, rec.spamDetails);
    assert Closing(out[|h|..], failure, rec);
  }

  /** Lines 82 to 85 of `main`. */
  method AttachmentBlock(atts: Option<seq<Attachment>>) returns (ls: seq<Line>, f: Option<Failure>)
    ensures AttachmentSection(ls, f, atts)
  {
    if Shown(atts) {
      var rows;
      rows, f := AttachmentRows(atts.value);
      ls := [Heading("Attachments")] + rows;
      assert ls[1..] == rows;
    } else {
      ls, f := [], None;
    }
  }

  /** Lines 86 to 95 of `main`. */
  method SpamBlock(details: Option<seq<(String, String)>>) returns (ls: seq<Line>, f: Option<Failure>)
    ensures SpamSection(ls, f, details)
  {
    if Shown(details) {
      var rows;
      rows, f := SpamGrid(details.value);
      ls := [Heading("Spam Details")] + rows;
      assert ls[1..] == rows;
    } else {
      ls, f := [], None;
    }
  }

  /** Every printout of a record starts with the Details block and the Source heading. */
  lemma PrintoutOpensWithDetails(out: seq<Line>, failure: Option<Failure>, qid: String, rec: Record)
    requires Printout(out, failure, qid, rec)
    ensures |out| >= 6 && out[..5] == DetailsBlock(qid, rec) && out[5] == Heading("Source")
  {
    var d := DetailsBlock(qid, rec);
    if rec.source.Some? {
      var s := d + EndpointBlock("Source", rec.source.value);
      assert s[..5] == d && s[5] == Heading("Source");
      if rec.destination.Some? {
        var h := s + EndpointBlock("Destination", rec.destination.value);
        assert h[..5] == d && h[5] == Heading("Source");
        assert out[..5] == out[..|h|][..5];
      } else {
        assert out[..5] == s[..5];
      }
    } else {
      assert out[..5] == d;
    }
  }

  /** A run that ends without an exception had both endpoints, printed every
      attachment in order right after the Destination block, and ends in the blank
      line. */
  lemma CompletePrintout(out: seq<Line>, failure: Option<Failure>, qid: String, rec: Record)
    requires Printout(out, failure, qid, rec) && failure.None?
    ensures rec.source.Some? && rec.destination.Some?
    ensures |out| >= 12 && out[|out| - 1] == BlankLine
    ensures Shown(rec.attachments) ==>
      && |out| > 12 + |rec.attachments.value| && out[11] == Heading("Attachments")
      && forall j :: 0 <= j < |rec.attachments.value| ==>
           KiloBytes(rec.attachments.value[j].size).Some? && out[12 + j] == AttachmentLineFor(rec.attachments.value[j])
  {
    var h := DetailsBlock(qid, rec) + EndpointBlock("Source", rec.source.value)
      + EndpointBlock("Destination", rec.destination.value);
    var ls := out[|h|..];
    ClosingComplete(ls, rec);
    assert |h| == 11;
    assert forall k :: 0 <= k < |ls| ==> out[11 + k] == ls[k];
  }

  /** The optional blocks of a run without an exception: every attachment listed,
      and the blank line last. */
  lemma ClosingComplete(ls: seq<Line>, rec: Record)
    requires Closing(ls, None, rec)
    ensures |ls| >= 1 && ls[|ls| - 1] == BlankLine
    ensures Shown(rec.attachments) ==>
      && |ls| > 1 + |rec.attachments.value| && ls[0] == Heading("Attachments")
      && forall j :: 0 <= j < |rec.attachments.value| ==>
           KiloBytes(rec.attachments.value[j].size).Some? && ls[1 + j] == AttachmentLineFor(rec.attachments.value[j])
  {
    var a: seq<Line>, f: Option<Failure> :|
      && AttachmentSection(a, f, rec.attachments)
      && |a| <= |ls| && ls[..|a|] == a
      && (f.Some? ==> ls == a && None == f)
      && (f.None? ==> SpamTail(ls[|a|..], None, rec.spamDetails));
    var g: seq<Line>, f': Option<Failure> :|
      && SpamSection(g, f', rec.spamDetails)
      && (f'.Some? ==> ls[|a|..] == g && None == f')
      && (f'.None? ==> ls[|a|..] == g + [BlankLine]);
    assert ls[|ls| - 1] == ls[|a|..][|ls[|a|..]| - 1];
    if Shown(rec.attachments) {
      var atts := rec.attachments.value;
      forall j | 0 <= j < |atts|
        ensures KiloBytes(atts[j].size).Some? && ls[1 + j] == AttachmentLineFor(atts[j])
      {
        assert ls[1 + j] == a[1 + j] == a[1..][j];
      }
    }
  }
}
