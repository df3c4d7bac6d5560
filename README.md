# Proofpoint log parser, modelled in Dafny

`proofpointLogParser.py` looks up one message in a Proofpoint mail log. Its input
is a queue id (QID) and an optional `YYYYMMDD` date. It works in these steps:

1. It chooses a log. This is the live log when the day after the date is later
   than today. Otherwise it is the compressed archive named for that day.
2. It keeps the lines that mention the QID and joins them into one text blob.
3. It pulls fields out of the blob with fixed regular expressions:
   - the source and destination (address and relay);
   - the timestamp;
   - the attachments;
   - the delivery status and its message id;
   - the spam-engine details.
4. It prints the fields in labelled blocks. Each attachment shows its size in
   kilobytes. The spam details are shown flagged and in a two-column grid.

This project models `main` step by step:

| Module | File | Models |
|---|---|---|
| `Dates` | `dates.dfy` | calendar dates, the day after a date, and the `%Y%m%d` rendering |
| `LogSelection` | `log_selection.dfy` | the choice of the log |
| `LineFilter` | `line_filter.dfy` | the blob |
| `Endpoints` | `endpoints.dfy` | source and destination |
| `Timestamps` | `timestamps.dfy` | the timestamp |
| `Attachments` | `attachments.dfy` | the attachments |
| `Statuses` | `statuses.dfy` | the status and its detail split |
| `SpamDetails` | `spam_details.dfy` | the spam details |
| `Extraction` | `extraction.dfy` | the extracted record |
| `Display` | `display.dfy` | the kilobyte column, the flag and the grid |
| `Report` | `report.dfy` | the whole run |

Shared pieces live in four more modules:
- `Text` holds the character classes, literal search, maximal runs, `split`, `join` and `re.sub`.
- `Numbers` holds digits and Python 2's `int()`.
- `Sorting` holds bytewise string order and a sort.
- `Wrappers` holds `Option`, `Result` and a failing list map.

## How the model works

- Every fixed pattern is its own scanner. A positional predicate says where the
  pattern matches. The captured groups are what the predicate fixes:
  - a greedy `\S*` (or `[^\s>,]*`) group is the maximal run;
  - a lazy part stops at the least position that lets the rest match.

  A ghost "first match" predicate describes the match `re.search` returns: the
  leftmost start and, at that start, the least lazy end. Each search function is
  proved to return exactly that match, or `None` when the pattern matches nowhere.
- Every exception that ends a run is a `Failure` value. It is named after the
  exception Python raises:
  - `AttributeError`: a `.groups()` call on a failed match;
  - `TypeError`: a missing source or destination;
  - `ValueError`: from `int()` or `strftime`;
  - `OverflowError`: the day after 9999-12-31;
  - `IOError`: opening the log.

  Methods return the exception beside the lines printed before it.
- The printing steps are imperative in the source, so they are methods with loops:
  - the attachment loop, lines 84-85;
  - building, padding and walking the spam grid, lines 88-95.

  A printed line is a `Line` value that holds the values it shows.

### Behaviour of the code the model keeps

- The lines are read from a file, so each keeps its real line feed.
  `re.sub(r'\\n', '', entry)` removes only the two characters backslash and `n`.
  So the blob still holds the real line feeds. Every `.` in the patterns stops at
  them, and a match never spans two log lines.
- The removal is one left-to-right pass. It can form a new backslash-`n` from the
  characters around the one it removes (`LineFilter.StripLeavesFormedEscape`).
- The blob is empty, the "no entries" signal, in two cases:
  - no line matched;
  - exactly one line matched, and nothing of it is left after stripping.
- The attachment entry pattern ends in `a=[1-9][0-9]*?`. Its lazy tail matches
  nothing, so each isolated entry ends right after the first index digit. Its index
  is one digit from 1 to 9, not any positive integer.
- When `: from` or `: to` is absent in the blob, `src` or `dst` is `None`. Then lines
  76 to 80 raise `TypeError` right after printing the block's heading. The block is
  not left out.
- `if attachments:` and `if spam_details:` test a list, so an empty list prints no
  block.

## Model

| member | source | states |
|---|---|---|
| `Dates.NextDay` | proofpointLogParser.py:20 | the day after a valid date is a valid date; there is none exactly after 9999-12-31 |
| `Dates.NextDayOrdinal` | proofpointLogParser.py:20 | the day after is the one whose day number is one more |
| `Dates.Before` | proofpointLogParser.py:21 | `>` on dates is strict: no date is after itself, and no date is after one of a later year |
| `Dates.BeforeIffOrdinal` | proofpointLogParser.py:21 | comparing dates field by field is comparing their day numbers |
| `Dates.NextDayIsSuccessor` | proofpointLogParser.py:20-21 | the next day is later than the date, and no valid date lies strictly between them |
| `Dates.Format8` | proofpointLogParser.py:25 | `%Y%m%d` of a date with a four-digit year is eight decimal digits |
| `Dates.ReadFormat8` | proofpointLogParser.py:17-25 | reading the eight digits back as year, month and day gives the date again |
| `Text.SubIsJoinSplit` | proofpointLogParser.py:25 | `re.sub` of a literal (`Text.Sub`, one left-to-right pass) is splitting on it and joining with the replacement; line 28 uses it with the escape and the empty replacement |
| `Text.JoinHead` | proofpointLogParser.py:28 | `sep.join` (`Text.Join`) of no pieces is empty; otherwise it starts with the first piece, then the separator when there is a second |
| `LogSelection.ArchiveName` | proofpointLogParser.py:25 | the archive name is the template with every `DATE` replaced by the day's eight digits; no `DATE` is left, and a template without one is kept |
| `LogSelection.ChooseLog` | proofpointLogParser.py:17-26 | the day is the given date or today. `OverflowError` happens exactly for 9999-12-31. The live log is read exactly when the next day is after today. `ValueError` happens exactly for an archive day before 1900. In every other case the result is the gzip archive under the template with each `DATE` replaced by the next day's eight digits |
| `LogSelection.NoDateReadsLive` | proofpointLogParser.py:17-22 | without a date the live log is read |
| `LineFilter.StripEscapes` | proofpointLogParser.py:28 | removing the escape is splitting on it and joining the pieces |
| `LineFilter.StripWithoutEscape` | proofpointLogParser.py:28 | a line without the escape is unchanged |
| `LineFilter.StripLeavesFormedEscape` | proofpointLogParser.py:28 | one pass can leave an escape formed by the removal |
| `LineFilter.Matching` | proofpointLogParser.py:28 | the kept lines are no more than the log's, and each contains the QID |
| `LineFilter.MatchingAppend` | proofpointLogParser.py:28 | filtering distributes over concatenation, so log order is kept |
| `LineFilter.MatchingNone` | proofpointLogParser.py:28 | nothing is kept exactly when no line contains the QID |
| `LineFilter.Blob` | proofpointLogParser.py:28 | no matching line gives the empty blob. Otherwise the blob starts with the first matching line, stripped, followed by the escape when a second line matched |
| `LineFilter.BlobEmpty` | proofpointLogParser.py:28-34 | the blob is empty exactly when no line matched, or one matched and strips to nothing |
| `LineFilter.NoMatchEmptyBlob` | proofpointLogParser.py:28-34 | a log without the QID gives the empty blob |
| `LineFilter.BlobOfTwo` | proofpointLogParser.py:28 | two matching lines give their stripped texts with the escape between them |
| `Endpoints.EndpointGroups` | proofpointLogParser.py:37 | the address has no whitespace, `>` or `,`; the relay is a host, a space and `[digits-and-dots]` |
| `Endpoints.RelayHasShape` | proofpointLogParser.py:37 | the relay the scanner reads has the `\S* \[[\d.]*\]` shape |
| `Endpoints.SearchClause` | proofpointLogParser.py:37-39 | `None` exactly when the key is absent; the key's failure exactly when the key occurs but the full pattern matches nowhere; otherwise the groups of the first match |
| `Timestamps.Timestamp` | proofpointLogParser.py:42-43 | fails exactly when the blob does not start with three non-space tokens separated by single spaces; otherwise it is that prefix, ending at whitespace or the end |
| `Timestamps.TimestampUnique` | proofpointLogParser.py:42-43 | the anchored pattern can match only one prefix of the blob, because every `\S*` is a maximal run |
| `Timestamps.TimestampOfTokens` | proofpointLogParser.py:42-43 | three tokens followed by whitespace or nothing give those three tokens joined by spaces |
| `Attachments.FoundEntry` | proofpointLogParser.py:47-48 | each entry `findall` (`Attachments.FindEntries`) reports is the first match of the search that resumed after the previous one |
| `Attachments.NoEntryAfter` | proofpointLogParser.py:47-48 | no entry starts after the last one found |
| `Attachments.NoEntriesIffNoMatch` | proofpointLogParser.py:47-48 | no entry is found exactly when the entry pattern matches nowhere |
| `Attachments.EntriesAreWithin` | proofpointLogParser.py:47 | every entry lies inside the blob |
| `Attachments.EntriesInOrder` | proofpointLogParser.py:47-48 | entries appear in blob order and do not overlap |
| `Attachments.FieldGroups` | proofpointLogParser.py:46 | file, type and size have no whitespace, and the index is a single digit from 1 to 9 |
| `Attachments.ReadAttachment` | proofpointLogParser.py:46-49 | fails exactly when the field pattern matches nowhere in the entry; otherwise the groups of its first match |
| `Attachments.FindAttachments` | proofpointLogParser.py:46-49 | `None` exactly when no entry matches. A failure means some entry does not parse. Otherwise there is one tuple per entry, in order, each read from its entry |
| `Wrappers.MapAll` | proofpointLogParser.py:49 | a comprehension that may raise gives every result in order, or the failure of the first element that fails |
| `Statuses.StatusGroups` | proofpointLogParser.py:52-53 | primary and detail are the two lazy groups; the detail has no `)` and neither has a line feed |
| `Statuses.FindStatus` | proofpointLogParser.py:52-53 | fails exactly when `stat=X (Y)` matches nowhere; otherwise the groups of the first match |
| `Statuses.NoStatWithoutTag` | proofpointLogParser.py:52-53 | a blob without `stat=` has no status |
| `Statuses.DetailGroups` | proofpointLogParser.py:54-55 | the message id is non-empty and followed by a space; the rest has no line feed, and on one line the detail from the match is id, space, rest |
| `Statuses.SplitDetail` | proofpointLogParser.py:54-55 | fails exactly when the one- or two-token pattern chosen by `InternalId` matches nowhere; otherwise the groups of its first match |
| `Statuses.DetailWithInternalId` | proofpointLogParser.py:54-55 | with `InternalId`, `x y rest` splits into `x y` and `rest` |
| `Statuses.DetailWithoutInternalId` | proofpointLogParser.py:54-55 | without `InternalId`, `x rest` splits into `x` and `rest` |
| `Text.Split` | proofpointLogParser.py:61 | the pieces are at least one, none contains the separator, and they rejoin to the text |
| `Sorting.Sort` | proofpointLogParser.py:61 | the result is in bytewise order and a permutation of the input |
| `Sorting.SortedUnique` | proofpointLogParser.py:61 | two sorted permutations of each other are equal, so the order is `sorted`'s |
| `SpamDetails.SearchSpam` | proofpointLogParser.py:58-60 | the first `Spam-Details: ... engine=` match, or `None` exactly when there is none |
| `SpamDetails.Tokens` | proofpointLogParser.py:61 | the captured text split on single spaces, sorted and with the same tokens; no token holds a line feed |
| `SpamDetails.ReadPair` | proofpointLogParser.py:59-61 | `None` exactly when `(.*)=(.*)` matches nowhere; otherwise the groups of its first match |
| `SpamDetails.ReadPairSplitsAtLastEquals` | proofpointLogParser.py:59-61 | a token is read exactly when it holds `=`; key, `=` and value rebuild it, and the value has no `=` |
| `SpamDetails.FindSpamDetails` | proofpointLogParser.py:58-61 | `None` exactly without a match. A failure means some sorted token lacks `=`. Otherwise each sorted token is split at its last `=` |
| `Extraction.Extract` | proofpointLogParser.py:36-61 | succeeds exactly when all seven extractions succeed, so an absent source, destination, attachment or spam block is no error. A failure names the first failing extraction in the order of lines 38 to 61. Each field of the record is what its extraction returns. A blob without `stat=` fails |
| `Extraction.ExtractedEndpoints` | proofpointLogParser.py:37-39 | an endpoint is absent exactly when its key is; an endpoint failure means the key is present |
| `Extraction.ExtractedOptionalBlocks` | proofpointLogParser.py:46-61 | attachments and spam details are absent exactly when their patterns match nowhere |
| `Extraction.ExtractedStatus` | proofpointLogParser.py:52-55 | the status detail has no `)`, and the message id is non-empty |
| `Numbers.ValueZeroIffZeroDigits` | proofpointLogParser.py:90 | a digit string denotes zero exactly when all its digits are `0` |
| `Numbers.IntValueOfDigits` | proofpointLogParser.py:85 | `int()` of a digit string is the number it denotes |
| `Numbers.IntValue` | proofpointLogParser.py:85 | `int()` accepts only text holding a digit; `Numbers.IntValueOfDigits` and `Display.IntValueOfLead` give the value it reads |
| `Numbers.KiloBytes` | proofpointLogParser.py:85 | defined exactly when `int()` accepts the size; it is the size divided by 1000 and rounded down |
| `Numbers.KiloBytesOf1999` | proofpointLogParser.py:85 | 1999 bytes show as 1 KB |
| `Display.AttachmentLineFor` | proofpointLogParser.py:85 | the line shows index, type and file, and the floor of size / 1000 |
| `Display.AttachmentRows` | proofpointLogParser.py:84-85 | one line per attachment in order; the first size `int()` rejects stops the loop with `ValueError` after the lines before it |
| `Display.Flag` | proofpointLogParser.py:90 | a failure is `ValueError` on the value; a flagged value looks numeric |
| `Display.IntValueOfLead` | proofpointLogParser.py:90 | `int()` accepts one sign or whitespace before digits, with the digits' value, negated after `-`, and rejects any other leading character |
| `Display.FlagOfDigits` | proofpointLogParser.py:90 | a digit string is flagged exactly when a digit is not `0` |
| `Display.FlagOfPrefixed` | proofpointLogParser.py:90 | one non-digit before digits raises exactly when it is not a sign or whitespace, and is flagged exactly when it is one and a digit is not `0` |
| `Display.FlagOfText` | proofpointLogParser.py:90 | a value that does not look numeric is not flagged |
| `Display.FlagExamples` | proofpointLogParser.py:90 | `0` is not flagged, `-3` is, `clean` is not |
| `Display.SpamGrid` | proofpointLogParser.py:88-95 | fails exactly when some flag fails, printing nothing and naming the first. Otherwise there are ceil(n/2) rows, and row `j` holds cells `2j` and `2j+1`, padded with the empty cell |
| `Display.BuildCells` | proofpointLogParser.py:88-91 | one cell per pair, in order, each flagged by its value. It fails exactly when some value's flag cannot be computed, and then with the first such failure |
| `Display.PairUp` | proofpointLogParser.py:94-95 | an even list is printed two cells to a row; the branch for a lone last cell is never taken |
| `Display.GridHoldsEveryCell` | proofpointLogParser.py:92-95 | cell `k` is on row `k/2`, left when `k` is even and right when odd, and an odd grid ends in the padding |
| `Report.AttachmentBlock` | proofpointLogParser.py:82-85 | the Attachments heading and listing when the list is non-empty, else nothing |
| `Report.SpamBlock` | proofpointLogParser.py:86-95 | the Spam Details heading and grid when the list is non-empty, else nothing |
| `Report.PrintRecord` | proofpointLogParser.py:70-96 | the blocks in order; a missing endpoint raises right after its heading; a failure in a block ends the printout there |
| `Report.SearchLog` | proofpointLogParser.py:14-96 | the order of the outcomes. A date failure or an unreadable log prints nothing. An empty blob prints the "no entries" line. A failed extraction prints nothing. Otherwise the record's printout follows |
| `Report.PrintoutOpensWithDetails` | proofpointLogParser.py:70-75 | every printout starts with the five Details lines and the Source heading |
| `Report.CompletePrintout` | proofpointLogParser.py:75-96 | a run without an exception had both endpoints, listed every attachment right after the Destination block, and ends in the blank line |

## Left out

- Opening, decompressing and closing the log (lines 23, 26 and 30) are not modelled.
  - The log's lines come from the parameter `read` of `Report.SearchLog`.
  - `None` from `read` stands for the `IOError`.
- `datetime.strptime` (line 17) is not modelled. The date enters already parsed, so a
  malformed `--date` string is not modelled.
- `dt_date.today()` (lines 17 and 21) is not modelled. Today is the parameter `today`.
  Both calls are that one value. A run that crosses midnight between them, where
  the source may pick an archive that has not been written yet, is not modelled.
  `LogSelection.NoDateReadsLive` depends on this.
- `LOG_ARCHIVE` and `LOG_CURRENT` are empty in the source. They are the parameters
  `archive` and `live`.
- Argument parsing and the command-line entry point (lines 99-109) are left out.
- The ANSI colours and the format widths (lines 6-10 and 65-67) are presentation
  only. A `Line` keeps the values a printed line shows. A `Cell` keeps whether its
  value is shown in red.
- `re.search(qid, entry)` treats the QID as a regular expression. The model treats it
  as a literal substring.
- There is no general regular-expression engine. Each of the fixed patterns is its
  own scanner.
- `Numbers.IntValue` accepts a sign directly before the digits, but not whitespace
  between the sign and the digits, which Python 2's `int()` also accepts. The
  values that reach `int()` here cannot have such whitespace:
  - attachment sizes are `\S*`;
  - flagged values are digits after their first character.
- Python 2 strings are bytes. The model uses `char`, and sorting compares character
  codes, which is the bytewise order of `sorted`.
- Extraction.ExtractedEndpoints: for a present endpoint it states only presence. The
  content of a present endpoint is stated at `Endpoints.SearchClause`, which
  `Extraction.Extract` links to the record.
