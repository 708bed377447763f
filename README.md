# Tweet export pipeline, modelled in Dafny

This project models the export loop of `go-twitter-downloader`. The program
takes a user's timeline and writes it two ways. Every exported tweet goes,
as one JSON record, into a local archive of the form `{ "tweets": [` … `] }`.
When a Google spreadsheet is configured, every exported tweet also becomes
a 15-cell row. Rows are uploaded in batches to the spreadsheet's "Tweets"
sheet.

The modelled core has three parts:

- **The main loop** (`app.go`, `main`). It skips retweets unless they are
  asked for. It writes the archive's opening, separators and closing. It
  encodes each tweet and builds its row, including the "quoted or replied
  to" text. It flushes the row buffer by the program's counting rule, and
  makes a final append at the end.
- **`appendTweets`**. It fails when the service is missing, and empties the
  buffer only when the upload succeeds.
- **Resetting the spreadsheet** (`prepareSpreadsheet`). It builds the
  request list that adds the two new sheets and deletes the old ones. It
  then picks the two new sheet IDs out of the service's replies.

Modules:

- `Options`: the optional value used for fields that may be missing.
- `Tweets`: the scraped tweet, the retweet filter and the exported subsequence.
- `References`: the reference text and a parser that reads it back.
- `Rows`: the header columns and the row built per tweet.
- `Archive`: the archive's framing and a parser that reads it back.
- `Batching`: the counting rule for flushes and the batch sizes it produces.
- `Pipeline`: one loop iteration as a pure function of the loop's variables,
  with the invariant that ties those variables to the tweets exported so far.
- `Export`: the loop's state as a class.
  - `Exporter.Step`, `Download`, `AppendTweets` and `Finish` update it in
    place; `Stream` loops over the tweets, one `StepAt` per tweet.
  - Each one is proved equal to the matching function of `Pipeline`.
  - `Run` drives a whole finite stream.
- `Sheets`: the reset request list and the selection of the sheet IDs.

The model takes four things as parameters:

- The spreadsheet service's answer to each append.
- The JSON encoder, a function that may fail.
- The time formatter.
- The random sheet-title suffixes.

Three behaviours of the code are easy to miss, and the model keeps them:

- **First flush.** The flush test looks at the number of tweets counted
  *before* the current one. So the first upload carries `batchSize + 1` rows
  and every later intermediate upload carries `batchSize` rows.
  `Batching.Capacity` states this, and `Pipeline.StepFlushes` proves it.
- **Per-item errors.** A stream item that carries an error is reported but
  not skipped. It is filtered, archived and tabulated like any other item
  (`Tweets.ErrorOnlyLogged` for the filter, `Pipeline.StepIgnoresError` for
  the whole iteration).
- **Encoding failure.** When a tweet cannot be encoded, the program returns
  at once. The comma written before it stays in the archive, and the
  archive is never closed (`Pipeline.StepFails`, `Export.AbortedIsIncomplete`).

## Model

| member | source | states |
|---|---|---|
| Tweets.Accepts | app.go:529-532 | a tweet that is not a retweet is always exported; a retweet is exported exactly when retweets are included |
| Tweets.Accepted | app.go:522-532 | the exported tweets of a stream, in stream order, are never more than the stream's items |
| Tweets.ErrorOnlyLogged | app.go:523-532 | the per-item error plays no part in whether the item is exported |
| Tweets.AcceptedAppend | app.go:522-532 | the exported tweets of two consecutive stretches of the stream are the concatenation of each stretch's |
| Tweets.AcceptedMembers | app.go:522-532 | a tweet is exported iff it occurs in the stream and passes the filter |
| Tweets.AcceptedRetweets | app.go:529-532 | with retweets included every tweet is exported in order; otherwise no exported tweet is a retweet |
| References.ReferenceTextRoundTrip | app.go:554-568 | the reference text can be parsed back to what it refers to: reply over quote, the resolved status's author and text, or the unresolved status ID link |
| References.ReferenceText | app.go:554-568 | the reference column's text is empty iff the tweet is neither a quote nor a reply |
| References.ReplyTakesPrecedence | app.go:562-568 | for a reply, the reference text depends only on the replied-to status, whatever the quote |
| Rows.RowMatchesColumns | app.go:570-586 | a row has 15 cells, and cell i holds the field that header column i names |
| Rows.Columns | app.go:128-142 | the fifteen header titles, in the order the program writes them |
| Rows.ColumnTitle | app.go:128-142 | the header titles, column by column |
| Rows.MakeRow | app.go:570-586 | a tweet's row has exactly one cell per header column |
| Archive.JoinedAt | app.go:538-546 | records sit at even positions with a comma between consecutive ones |
| Archive.Framed | app.go:506-614 | the complete archive starts with the opening, ends with the closing, and holds one write per record plus one comma between consecutive records |
| Archive.ArchiveRoundTrip | app.go:506-614 | a complete archive reads back as exactly its records |
| Archive.EmptyArchive | app.go:506-614 | with no exported tweet the archive is the opening followed by the closing |
| Archive.ArchiveParseSound | app.go:506-614 | whatever reads back as a list of records is exactly the framed archive of that list |
| Archive.UnclosedArchive | app.go:546-552 | an archive cut short after the records, with or without a trailing comma, does not read back |
| Batching.FlushDue | app.go:588 | the flush test, taken on the number of tweets counted before the current one |
| Batching.PendingStep | app.go:588-594 | the counting rule's effect on the number of buffered rows: a flush leaves none, otherwise one more |
| Batching.PendingBound | app.go:596-603 | the rows left for the final append never exceed the current batch's capacity |
| Pipeline.AppendEffect | app.go:424-439 | an append succeeds iff the service is set up and accepts; on success it sends the buffer and empties it; on failure nothing changes and the failure names the row count |
| Pipeline.StepEffect | app.go:522-595 | one iteration as a function of the loop variables: an excluded retweet changes nothing, any other tweet is downloaded |
| Pipeline.DownloadEffect | app.go:538-552 | the comma unless first, then the record; a tweet that does not encode stops the step |
| Pipeline.TabulateEffect | app.go:553-594 | the row when a spreadsheet is used, the append the flush test calls for, and the counter |
| Pipeline.FinishEffect | app.go:596-614 | the final append when a spreadsheet is used and rows remain, then the closing |
| Pipeline.StartHolds | app.go:506-514 | the loop's initial variables satisfy the invariant |
| Pipeline.DownloadOk | app.go:538-594 | a handled tweet writes a comma unless it is the first, appends its record, is counted, and buffers its row, flushed with the buffer when the counting rule says so |
| Pipeline.StepKeeps | app.go:522-595 | a successful iteration keeps the invariant that ties the archive, counter, buffer and sent batches to the exported tweets |
| Pipeline.StepFlushes | app.go:588-594 | a batch is sent iff a spreadsheet is used and the count before the tweet is a positive multiple of the batch size; the first batch has batchSize+1 rows, later ones batchSize |
| Pipeline.StepFails | app.go:538-593 | only an exported tweet can fail an iteration, and a failed one is not counted; an encoding failure leaves the archive as it was plus the comma unless the tweet is the first, so unclosed; a refused append happens only when the counting rule called for it, and leaves the tweet archived and its row buffered |
| Pipeline.StepIgnoresError | app.go:522-594 | an item's error changes nothing in the iteration: the same filtering, archive, row, append and counter, when the tweet's encoding does not depend on it |
| Pipeline.StepSucceeds | app.go:529-592 | an iteration succeeds iff the item is skipped, or it encodes and any append the counting rule calls for is made by a set-up service that accepts it |
| Pipeline.StepSkips | app.go:529-532 | a filtered-out retweet changes no variable and sends nothing |
| Pipeline.SentPrefix | app.go:588-594 | the rows sent so far are a prefix of the exported tweets' rows, and none are sent without a spreadsheet |
| Pipeline.DocsAt | app.go:546 | the i-th archived record is the encoding of the i-th exported tweet |
| Pipeline.FinishCompletes | app.go:596-614 | the final append happens iff a spreadsheet is used and rows remain; on success the archive is complete, and the batches laid end to end are every exported row once, in order, each within its capacity; on failure nothing changes |
| Export.Exporter.constructor | app.go:506-514 | the archive is opened, the first-tweet flag set, the counter zero, the buffer empty |
| Export.Exporter.AppendTweets | app.go:424-439 | updates the buffer as `Pipeline.AppendEffect` says |
| Export.Exporter.Step | app.go:522-595 | one loop iteration, in place, as `Pipeline.StepEffect` says; keeps the invariant on success |
| Export.Exporter.Download | app.go:533-594 | the body of the loop for an exported tweet, in place, as `Pipeline.DownloadEffect` says |
| Export.Exporter.Finish | app.go:596-614 | the final append and the archive's closing, in place, as `Pipeline.FinishEffect` says |
| Export.Exporter.Stream | app.go:522-595 | the loop over a finite stream: on success the exported tweets are the filtered stream and every append called for was accepted; when every exported tweet encodes and every append called for is accepted it succeeds; a failure is an unencodable exported tweet or a refused append, sends only full intermediate batches since the program returns before the final append, and happens at some tweet k, after every earlier append called for was accepted, leaving exactly the archive, count and sent-row count `StoppedAt` gives for k |
| Export.Exporter.StepAt | app.go:522-595 | one iteration for tweet i: on success the exported tweets are those of the first i+1 items and the append tweet i called for, if any, was accepted; a refused append means it was called for and refused; on failure the outcome, archive and sent batches are final, and are exactly what `StoppedAt` gives for tweet i |
| Export.StepAborts | app.go:546-593 | a failing iteration leaves the archive cut short after the records of a prefix of the stream, with sent rows still a prefix |
| Export.StepStops | app.go:538-593 | a failing iteration for tweet i leaves: on an encoding failure, the records of the tweets exported before i plus the comma unless there are none; on a refused append, those records and tweet i's, with the service's answer no and the counting rule due; the counter at the tweets exported before i; and the rows sent plus those still buffered equal to those tweets' rows in number |
| Export.FinishAborts | app.go:596-603 | only a refused final append fails the end of the run; it leaves exactly every exported tweet's record archived with no closing, the counter at their number, at least one row unsent, and only the full intermediate batches sent |
| Export.AbortedIsIncomplete | app.go:546-552 | the archive of an aborted run never reads back as a complete archive |
| Export.RejectedEncoding | app.go:546-551 | an exported tweet without an encoding means the exported tweets do not all encode |
| Export.StoppedEarly | app.go:522-595 | the rows sent before the run stopped lead the rows of the whole stream's exported tweets |
| Export.Run | app.go:505-614 | a whole run succeeds iff every exported tweet encodes, the service accepts every append the counting rule calls for, and it accepts the final append when rows remain; it fails only on an unencodable exported tweet or a refused append; on success the archive frames exactly the exported tweets' records, the count is theirs, and the uploads are their rows in order, the first batch 201 rows, later ones 200, the last possibly shorter; a failed run makes no final append, and stopped either at some tweet, after every earlier append was accepted, leaving what `StoppedAt` gives, or at a refused final append after every other append was accepted, leaving every record archived without the closing |
| Sheets.ResetRequests | app.go:83-108 | the reset batch is the "Tweets - " and "Information - " sheet additions followed by one deletion per existing sheet, in order |
| Sheets.SheetIds.constructor | app.go:32-33 | both sheet IDs start at -1 |
| Sheets.SheetIds.SelectSheetIds | app.go:117-126 | each ID becomes that of the last reply adding a sheet whose title has its prefix, and is unchanged when no reply does |
| Sheets.LastWithPrefixSome | app.go:117-126 | an ID is selected iff it belongs to the last fully present reply whose title has the prefix |
| Sheets.LastWithPrefix | app.go:117-126 | no ID is found iff no reply adds a sheet whose title has the prefix |
| Sheets.ResetSelectsNewSheets | app.go:83-126 | replies that add the two new sheets first and nothing after select exactly the two new sheets' IDs |

## Left out

- Credentials, the Sheets service client, cookies, login, command-line flags and `usage`: these are setup and I/O. Whether the service is set up is the `serviceReady` flag, and whether a spreadsheet ID was given is `sheetEnabled`.
- `secureRandomHex`: the random sheet-title suffixes are parameters of `Sheets.ResetRequests`.
- The spreadsheet read and the batch update in `prepareSpreadsheet`, with their failures: the existing sheets and the replies are parameters. The header-row and formatting requests are not modelled; only the header titles are, as `Rows.Columns`.
- `polishSpreadsheet`: it formats the sheets and does not write the archive or the rows. Its failure is not modelled, although the program panics when it fails: inside `polishSpreadsheet` at app.go:225 and app.go:418, or at app.go:607 when the service is missing. Either panic comes after the final append and before the closing is written, which leaves the archive unclosed. `Export.Run`'s claim that a run succeeds when no tweet fails to encode and no append is refused assumes that formatting succeeds.
- The scraper's tweet channel: it is a finite sequence given up front.
- The JSON encoder and the time-zone formatting: they are function parameters (`encode`, `formatTime`). An encoding is a string that may be absent.
- The encoder's argument: `encode` is applied to the whole stream item, `error` field included, while the program encodes only the tweet inside the item (app.go:546). An encoder that ignores `error` matches the program; every property holds for any encoder.
- Console and standard-error output, the verbose echo of each tweet, and the logging of per-item errors: these are output only.
- Failed writes of the opening (app.go:506), of a comma (app.go:541) and of the closing (app.go:611), and failed writes to standard error: the program panics on them. The model treats these writes as always succeeding.
- A failed write of a record: the record is written by the JSON encoder itself (app.go:546), and a failure to write it returns at app.go:551 exactly like a failure to encode. `encode` returning `None` stands for either.
- The program's panic on a failed append: the model returns an `AppendFailed` outcome and stops the run, which is what the panic amounts to for the archive and the spreadsheet.
- Closing the output file and the service's HTTP behaviour: not modelled.
- The 64-bit sheet IDs: modelled as unbounded integers, because IDs are only copied.
- The `latestTweetID` argument of `appendTweets`: it only appears in a log line.
