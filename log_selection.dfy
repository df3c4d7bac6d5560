/** Which log file the run reads: the live log, or the compressed archive named for
    the day after the requested date (logs rotate at midnight). */
module LogSelection {
  import opened Wrappers
  import opened Text
  import opened Numbers
  import opened Dates
  import opened Failures

  /** `open(path, 'rb')` or `gzip.open(path, 'rb')`. */
  datatype LogSource = Plain(path: String) | Gzip(path: String)

  const Placeholder: String := "DATE"

  lemma DigitsAvoidPlaceholder(r: String)
    requires AllDigits(r)
    ensures forall c :: c in r ==> c !in Placeholder
  {
    forall c | c in r ensures c !in Placeholder {
      var k :| 0 <= k < |r| && r[k] == c;
      assert IsDigit(r[k]);
    }
  }

  /** `re.sub('DATE', day.strftime('%Y%m%d'), template)`. */
  function ArchiveName(template: String, day: Date): (r: String)
    requires Valid(day) && 1900 <= day.year
    ensures r == Join(Split(template, Placeholder), Format8(day))
    ensures !Contains(r, Placeholder)
    ensures !Contains(template, Placeholder) ==> r == template
  {
    SubIsJoinSplit(template, Placeholder, Format8(day));
    DigitsAvoidPlaceholder(Format8(day));
    JoinAvoids(Split(template, Placeholder), Format8(day), Placeholder);
    assert !Contains(template, Placeholder) ==> Find(template, Placeholder, 0).None?;
    Sub(template, Placeholder, Format8(day))
  }

  /** Lines 17 to 26 of `main`: the requested date (today when none is given), the day
      after it, and the log that day selects. */
  function ChooseLog(given: Option<Date>, today: Date, live: String, archive: String): (r: Result<LogSource, Failure>)
    requires Valid(today) && (given.Some? ==> Valid(given.value))
    ensures var d := if given.Some? then given.value else today;
      && (r == Err(DateOverflow) <==> d == Date(9999, 12, 31))
      && (d != Date(9999, 12, 31) ==>
            var adj := NextDay(d).value;
            && (r == Ok(Plain(live)) <== Before(today, adj))
            && (r.Ok? && r.value.Plain? ==> Before(today, adj))
            && (r == Err(YearBefore1900) <==> !Before(today, adj) && adj.year < 1900)
            && (!Before(today, adj) && 1900 <= adj.year ==>
                  r == Ok(Gzip(Join(Split(archive, Placeholder), Format8(adj)))))
            && (r.Ok? && r.value.Gzip? ==>
                  !Before(today, adj) && 1900 <= adj.year
                  && r.value.path == Join(Split(archive, Placeholder), Format8(adj))))
    ensures r.Ok? && r.value.Gzip? ==> !Contains(r.value.path, Placeholder)
  {
    var d := if given.Some? then given.value else today;
    match NextDay(d)
    case None => Err(DateOverflow)
    case Some(adj) =>
      if Before(today, adj) then Ok(Plain(live))
      else if adj.year < 1900 then Err(YearBefore1900)
      else Ok(Gzip(ArchiveName(archive, adj)))
  }

  /** Without a date the run reads the live log: tomorrow is always after today. */
  lemma NoDateReadsLive(today: Date, live: String, archive: String)
    requires Valid(today) && today != Date(9999, 12, 31)
    ensures ChooseLog(None, today, live, archive) == Ok(Plain(live))
  {
    NextDayIsSuccessor(today, today);
  }
}
