/**
  The body of the export loop as a function of the loop's variables: what
  one tweet, one append to the spreadsheet and the end of the stream do to
  the archive, the first-tweet flag, the download counter and the row
  buffer, and which batches reach the spreadsheet. The invariant `Holds`
  ties those variables to the tweets exported so far; the lemmas show that
  every step keeps it and what a finished run has produced.
 */
module Pipeline {
  import opened Options
  import opened Tweets
  import opened Rows
  import opened Archive
  import opened Batching

  /** How a step, a flush or the whole run ended. */
  datatype Outcome =
    | Ok
    | EncodeFailed
    | ServiceNotInitialized
    | AppendFailed(rows: nat)

  /**
    The configuration of a run: whether retweets are exported, whether a
    spreadsheet ID was given, whether the spreadsheet service was set up,
    the flush batch size, and the two outside computations: the JSON
    encoder of one tweet (`None` when encoding fails) and the formatter of
    an instant in Eastern time.
   */
  datatype Config = Config(
    includeRetweets: bool,
    sheetEnabled: bool,
    serviceReady: bool,
    batchSize: nat,
    encode: Tweet -> Option<string>,
    formatTime: int -> string)

  /**
    The variables of the export loop: the strings written to the archive
    so far, the first-tweet flag, the download counter and the rows
    waiting to be sent.
   */
  datatype LoopState = LoopState(
    archive: seq<string>,
    isFirstTweet: bool,
    downloadedTweets: nat,
    buffer: seq<Row>)

  /** The loop variables once the archive is opened. */
  const Start := LoopState([Opening], true, 0, [])

  /** What a step did: how it ended, the new loop variables, and the batches the spreadsheet accepted. */
  datatype Effect = Effect(outcome: Outcome, state: LoopState, sent: seq<seq<Row>>)

  /**
    One append of the buffered rows to the spreadsheet. The buffer is
    emptied, and its rows sent, only when the service exists and accepts
    the append; otherwise nothing changes and the failure names the number
    of rows that were not sent.
   */
  function AppendEffect(config: Config, s: LoopState, sinkAccepts: bool): (e: Effect)
    ensures e.outcome == Ok <==> config.serviceReady && sinkAccepts
    ensures e.outcome == Ok ==> e.state == s.(buffer := []) && e.sent == [s.buffer]
    ensures e.outcome != Ok ==> e.state == s && e.sent == []
    ensures e.outcome.AppendFailed? ==> e.outcome.rows == |s.buffer|
  {
    if !config.serviceReady then Effect(ServiceNotInitialized, s, [])
    else if !sinkAccepts then Effect(AppendFailed(|s.buffer|), s, [])
    else Effect(Ok, s.(buffer := []), [s.buffer])
  }

  /**
    One tweet that passed the filter: a comma unless it is the first
    record, then its encoding (the step stops when encoding fails), then
    the spreadsheet half.
   */
  function DownloadEffect(config: Config, s: LoopState, t: Tweet, sinkAccepts: bool): Effect
    requires config.batchSize > 0
  {
    var s1 := if s.isFirstTweet then s.(isFirstTweet := false) else s.(archive := s.archive + [Separator]);
    match config.encode(t)
    case None => Effect(EncodeFailed, s1, [])
    case Some(doc) => TabulateEffect(config, s1.(archive := s1.archive + [doc]), t, sinkAccepts)
  }

  /**
    The spreadsheet half of a download: the tweet's row when a spreadsheet
    is in use, an append when the counting rule says so (the step stops
    when it fails), and the counter.
   */
  function TabulateEffect(config: Config, s: LoopState, t: Tweet, sinkAccepts: bool): Effect
    requires config.batchSize > 0
  {
    var s1 := if config.sheetEnabled then s.(buffer := s.buffer + [MakeRow(t, config.formatTime)]) else s;
    if config.sheetEnabled && FlushDue(s1.downloadedTweets, config.batchSize) then
      var e := AppendEffect(config, s1, sinkAccepts);
      if e.outcome != Ok then e
      else e.(state := e.state.(downloadedTweets := e.state.downloadedTweets + 1))
    else Effect(Ok, s1.(downloadedTweets := s1.downloadedTweets + 1), [])
  }

  /** One tweet of the stream: an excluded retweet changes nothing; any other tweet is downloaded. */
  function StepEffect(config: Config, s: LoopState, t: Tweet, sinkAccepts: bool): Effect
    requires config.batchSize > 0
  {
    if !config.includeRetweets && t.isRetweet then Effect(Ok, s, [])
    else DownloadEffect(config, s, t, sinkAccepts)
  }

  /**
    The end of the stream: the remaining rows are sent when a spreadsheet
    is in use and the buffer is not empty (the run stops when that fails),
    then the archive is closed.
   */
  function FinishEffect(config: Config, s: LoopState, sinkAccepts: bool): Effect {
    if config.sheetEnabled && |s.buffer| > 0 then
      var e := AppendEffect(config, s, sinkAccepts);
      if e.outcome != Ok then e
      else e.(state := e.state.(archive := e.state.archive + [Closing]))
    else Effect(Ok, s.(archive := s.archive + [Closing]), [])
  }

  /** Every tweet of `ts` has an encoding. */
  ghost predicate AllEncode(ts: seq<Tweet>, encode: Tweet -> Option<string>) {
    forall i :: 0 <= i < |ts| ==> encode(ts[i]).Some?
  }

  /** The encodings of `ts`, in order. */
  ghost function Docs(ts: seq<Tweet>, encode: Tweet -> Option<string>): (r: seq<string>)
    requires AllEncode(ts, encode)
    ensures |r| == |ts|
  {
    if ts == [] then [] else Docs(ts[..|ts| - 1], encode) + [encode(ts[|ts| - 1]).value]
  }

  /** The `i`-th record is the encoding of the `i`-th tweet. */
  lemma {:induction false} DocsAt(ts: seq<Tweet>, encode: Tweet -> Option<string>, i: nat)
    requires AllEncode(ts, encode) && i < |ts|
    ensures Docs(ts, encode)[i] == encode(ts[i]).value
  {
    var n := |ts| - 1;
    if i < n {
      assert AllEncode(ts[..n], encode);
      DocsAt(ts[..n], encode, i);
    }
  }

  lemma DocsSnoc(ts: seq<Tweet>, t: Tweet, encode: Tweet -> Option<string>)
    requires AllEncode(ts, encode) && encode(t).Some?
    ensures AllEncode(ts + [t], encode)
    ensures Docs(ts + [t], encode) == Docs(ts, encode) + [encode(t).value]
  {
    assert (ts + [t])[..|ts|] == ts;
  }

  lemma JoinedSnoc(docs: seq<string>, d: string)
    ensures Joined(docs + [d]) == Joined(docs) + (if docs == [] then [] else [Separator]) + [d]
  {
    assert (docs + [d])[..|docs|] == docs;
  }

  /** An archive cut short: the opening and the records so far, possibly followed by a comma. */
  ghost predicate Unclosed(archive: seq<string>, docs: seq<string>) {
    || archive == [Opening] + Joined(docs)
    || (docs != [] && archive == [Opening] + Joined(docs) + [Separator])
  }

  /** The archive holds the opening and the encodings of the exported tweets, comma-separated. */
  ghost predicate ArchiveHolds(exported: seq<Tweet>, archive: seq<string>, isFirstTweet: bool,
                               encode: Tweet -> Option<string>)
  {
    && AllEncode(exported, encode)
    && archive == [Opening] + Joined(Docs(exported, encode))
    && isFirstTweet == (exported == [])
  }

  /**
    The sent batches followed by the buffer are the rows of the exported
    tweets, in order, cut by the counting rule; nothing is buffered when
    no spreadsheet is in use.
   */
  ghost predicate BufferHolds(exported: seq<Tweet>, buffer: seq<Row>, flushed: seq<seq<Row>>, config: Config)
    requires config.batchSize > 0
  {
    if config.sheetEnabled then
      && Concat(flushed) + buffer == RowsOf(exported, config.formatTime)
      && |buffer| == Pending(|exported|, config.batchSize)
      && Intermediate(flushed, config.batchSize)
      && (flushed == [] <==> |exported| <= config.batchSize)
    else buffer == [] && flushed == []
  }

  /**
    The invariant of the export loop: `exported` are the tweets that passed
    the filter so far and `flushed` the batches the spreadsheet accepted.
    The counter counts the exported tweets.
   */
  ghost predicate Holds(config: Config, exported: seq<Tweet>, flushed: seq<seq<Row>>, s: LoopState) {
    && config.batchSize > 0
    && ArchiveHolds(exported, s.archive, s.isFirstTweet, config.encode)
    && s.downloadedTweets == |exported|
    && BufferHolds(exported, s.buffer, flushed, config)
  }

  /** Before the first tweet nothing is exported, buffered or sent. */
  lemma StartHolds(config: Config)
    requires config.batchSize > 0
    ensures Holds(config, [], [], Start)
  {
    assert Docs([], config.encode) == [];
  }

  /** Writing one more accepted tweet keeps the archive in step with the exported tweets. */
  lemma ArchiveStep(exported: seq<Tweet>, archive: seq<string>, isFirstTweet: bool, t: Tweet,
                    encode: Tweet -> Option<string>)
    requires ArchiveHolds(exported, archive, isFirstTweet, encode) && encode(t).Some?
    ensures isFirstTweet ==> ArchiveHolds(exported + [t], archive + [encode(t).value], false, encode)
    ensures !isFirstTweet ==> ArchiveHolds(exported + [t], archive + [Separator] + [encode(t).value], false, encode)
  {
    DocsSnoc(exported, t, encode);
    JoinedSnoc(Docs(exported, encode), encode(t).value);
  }

  /** Buffering one more row, and flushing when the counting rule says so, keeps the buffer invariant. */
  lemma BufferStep(exported: seq<Tweet>, buffer: seq<Row>, flushed: seq<seq<Row>>, config: Config, t: Tweet)
    requires config.batchSize > 0 && config.sheetEnabled
    requires BufferHolds(exported, buffer, flushed, config)
    ensures var grown := buffer + [MakeRow(t, config.formatTime)];
      if FlushDue(|exported|, config.batchSize) then BufferHolds(exported + [t], [], flushed + [grown], config)
      else BufferHolds(exported + [t], grown, flushed, config)
  {
    var grown := buffer + [MakeRow(t, config.formatTime)];
    var rows := RowsOf(exported + [t], config.formatTime);
    RowsOfSnoc(exported, t, config.formatTime);
    assert rows == Concat(flushed) + grown;
    PendingStep(|exported|, config.batchSize, |flushed|);
    if FlushDue(|exported|, config.batchSize) {
      ConcatSnoc(flushed, grown);
      assert Concat(flushed + [grown]) + [] == rows;
      assert Intermediate(flushed + [grown], config.batchSize) by {
        forall i | 0 <= i < |flushed + [grown]|
          ensures |(flushed + [grown])[i]| == Capacity(i, config.batchSize)
        {
          if i < |flushed| {
            assert (flushed + [grown])[i] == flushed[i];
          }
        }
      }
    } else {
      assert Concat(flushed) + grown == rows;
    }
  }

  /**
    A download that succeeds has written the record, after a comma unless
    it was the first, counted the tweet, and buffered its row when a
    spreadsheet is in use; the buffer was sent, with the new row, exactly
    when the counting rule said so.
   */
  lemma DownloadOk(config: Config, s: LoopState, t: Tweet, sinkAccepts: bool)
    requires config.batchSize > 0
    ensures var e := DownloadEffect(config, s, t, sinkAccepts);
      var row := MakeRow(t, config.formatTime);
      e.outcome == Ok ==>
        && config.encode(t).Some?
        && e.state.archive == s.archive + (if s.isFirstTweet then [] else [Separator]) + [config.encode(t).value]
        && !e.state.isFirstTweet
        && e.state.downloadedTweets == s.downloadedTweets + 1
        && (!config.sheetEnabled ==> e.state.buffer == s.buffer && e.sent == [])
        && (config.sheetEnabled && FlushDue(s.downloadedTweets, config.batchSize) ==>
              e.state.buffer == [] && e.sent == [s.buffer + [row]])
        && (config.sheetEnabled && !FlushDue(s.downloadedTweets, config.batchSize) ==>
              e.state.buffer == s.buffer + [row] && e.sent == [])
  {
  }

  /**
    A step that succeeds keeps the invariant: the tweet, if it passed the
    filter, is now exported and counted, its record closes the archive's
    list, and the batch sent (if any) extends the sent rows.
   */
  lemma StepKeeps(config: Config, exported: seq<Tweet>, flushed: seq<seq<Row>>, s: LoopState,
                  t: Tweet, sinkAccepts: bool)
    requires Holds(config, exported, flushed, s)
    ensures var e := StepEffect(config, s, t, sinkAccepts);
      e.outcome == Ok ==> Holds(config, exported + Exported(t, config.includeRetweets), flushed + e.sent, e.state)
  {
    var e := StepEffect(config, s, t, sinkAccepts);
    if e.outcome == Ok {
      if Accepts(t, config.includeRetweets) {
        DownloadOk(config, s, t, sinkAccepts);
        DownloadKeeps(config, exported, flushed, s, t, e);
      } else {
        assert exported + Exported(t, config.includeRetweets) == exported;
        assert flushed + e.sent == flushed;
      }
    }
  }

  /** `StepKeeps` for an exported tweet, given the shape `DownloadOk` gives a successful download. */
  lemma DownloadKeeps(config: Config, exported: seq<Tweet>, flushed: seq<seq<Row>>, s: LoopState,
                      t: Tweet, e: Effect)
    requires Holds(config, exported, flushed, s)
    requires config.encode(t).Some?
    requires e.state.archive == s.archive + (if s.isFirstTweet then [] else [Separator]) + [config.encode(t).value]
    requires !e.state.isFirstTweet && e.state.downloadedTweets == s.downloadedTweets + 1
    requires !config.sheetEnabled ==> e.state.buffer == s.buffer && e.sent == []
    requires config.sheetEnabled && FlushDue(s.downloadedTweets, config.batchSize) ==>
      e.state.buffer == [] && e.sent == [s.buffer + [MakeRow(t, config.formatTime)]]
    requires config.sheetEnabled && !FlushDue(s.downloadedTweets, config.batchSize) ==>
      e.state.buffer == s.buffer + [MakeRow(t, config.formatTime)] && e.sent == []
    ensures Holds(config, exported + [t], flushed + e.sent, e.state)
  {
    ArchiveStep(exported, s.archive, s.isFirstTweet, t, config.encode);
    if config.sheetEnabled {
      BufferStep(exported, s.buffer, flushed, config, t);
      var grown := s.buffer + [MakeRow(t, config.formatTime)];
      if FlushDue(|exported|, config.batchSize) {
        assert flushed + e.sent == flushed + [grown];
        assert BufferHolds(exported + [t], e.state.buffer, flushed + e.sent, config);
      } else {
        assert flushed + e.sent == flushed;
        assert BufferHolds(exported + [t], e.state.buffer, flushed + e.sent, config);
      }
    } else {
      assert flushed + e.sent == flushed;
    }
  }

  /**
    The flush rule: a successful step on an exported tweet sends a batch
    exactly when a spreadsheet is in use and the number of tweets exported
    BEFORE it is a positive multiple of the batch size. The batch is the
    buffer with the new row, and the first one carries one row more than
    the batch size.
   */
  lemma StepFlushes(config: Config, exported: seq<Tweet>, flushed: seq<seq<Row>>, s: LoopState,
                    t: Tweet, sinkAccepts: bool)
    requires Holds(config, exported, flushed, s)
    requires Accepts(t, config.includeRetweets)
    ensures var e := StepEffect(config, s, t, sinkAccepts);
      e.outcome == Ok ==>
        && (e.sent != [] <==> config.sheetEnabled && |exported| % config.batchSize == 0 && |exported| > 0)
        && (e.sent != [] ==>
              && e.sent == [s.buffer + [MakeRow(t, config.formatTime)]]
              && |e.sent[0]| == (if flushed == [] then config.batchSize + 1 else config.batchSize))
  {
    var e := StepEffect(config, s, t, sinkAccepts);
    if e.outcome == Ok && e.sent != [] {
      PendingStep(|exported|, config.batchSize, |flushed|);
    }
  }

  /**
    How a step can fail. Only an exported tweet can make it fail, and then
    nothing reaches the spreadsheet. A tweet that cannot be encoded leaves
    the archive cut short after the earlier records and the buffer as it
    was. A refused append leaves the tweet archived and its row buffered.
   */
  lemma StepFails(config: Config, exported: seq<Tweet>, flushed: seq<seq<Row>>, s: LoopState,
                  t: Tweet, sinkAccepts: bool)
    requires Holds(config, exported, flushed, s)
    ensures var e := StepEffect(config, s, t, sinkAccepts);
      && (e.outcome != Ok ==> Accepts(t, config.includeRetweets) && e.sent == [])
      && (e.outcome == EncodeFailed <==> Accepts(t, config.includeRetweets) && config.encode(t).None?)
      && (e.outcome != Ok ==> e.state.downloadedTweets == s.downloadedTweets)
      && (e.outcome == EncodeFailed ==>
            && e.state.buffer == s.buffer
            && e.state.archive == s.archive + (if s.isFirstTweet then [] else [Separator])
            && Unclosed(e.state.archive, Docs(exported, config.encode)))
      && (e.outcome.AppendFailed? ==>
            config.sheetEnabled && config.serviceReady && !sinkAccepts && FlushDue(s.downloadedTweets, config.batchSize))
      && (e.outcome.ServiceNotInitialized? ==> config.sheetEnabled && !config.serviceReady)
      && (e.outcome.AppendFailed? || e.outcome.ServiceNotInitialized? ==>
            && ArchiveHolds(exported + [t], e.state.archive, e.state.isFirstTweet, config.encode)
            && e.state.buffer == s.buffer + [MakeRow(t, config.formatTime)])
  {
    var e := StepEffect(config, s, t, sinkAccepts);
    if (e.outcome.AppendFailed? || e.outcome.ServiceNotInitialized?) {
      ArchiveStep(exported, s.archive, s.isFirstTweet, t, config.encode);
    }
  }

  /**
    When one step succeeds: the tweet is skipped, or it encodes and any
    append the counting rule calls for is made by a service that exists and
    accepts it.
   */
  lemma StepSucceeds(config: Config, s: LoopState, t: Tweet, sinkAccepts: bool)
    requires config.batchSize > 0
    ensures StepEffect(config, s, t, sinkAccepts).outcome == Ok <==>
      (Accepts(t, config.includeRetweets) ==>
         && config.encode(t).Some?
         && (config.sheetEnabled && FlushDue(s.downloadedTweets, config.batchSize) ==>
               config.serviceReady && sinkAccepts))
  {
  }

  /**
    The per-item error is only logged: an item is filtered, archived and
    tabulated the same whatever its error, as long as the encoding of the
    tweet does not depend on it.
   */
  lemma StepIgnoresError(config: Config, s: LoopState, t: Tweet, error: Option<string>, sinkAccepts: bool)
    requires config.batchSize > 0 && config.encode(t.(error := error)) == config.encode(t)
    ensures StepEffect(config, s, t.(error := error), sinkAccepts) == StepEffect(config, s, t, sinkAccepts)
  {
    assert MakeRow(t.(error := error), config.formatTime) == MakeRow(t, config.formatTime);
  }

  /** A skipped retweet changes nothing: no record, no row, no count, no flush. */
  lemma StepSkips(config: Config, s: LoopState, t: Tweet, sinkAccepts: bool)
    requires config.batchSize > 0 && !Accepts(t, config.includeRetweets)
    ensures StepEffect(config, s, t, sinkAccepts) == Effect(Ok, s, [])
  {
  }

  /** The rows sent so far are the first rows of the exported tweets; without a spreadsheet nothing is sent. */
  lemma SentPrefix(config: Config, exported: seq<Tweet>, flushed: seq<seq<Row>>, s: LoopState)
    requires Holds(config, exported, flushed, s)
    ensures Concat(flushed) <= RowsOf(exported, config.formatTime)
    ensures !config.sheetEnabled ==> flushed == []
  {
    if config.sheetEnabled {
      var c := Concat(flushed);
      assert (c + s.buffer)[..|c|] == c;
    }
  }

  lemma {:induction false} RowsPrefix(a: seq<Tweet>, b: seq<Tweet>, formatTime: int -> string)
    ensures RowsOf(a, formatTime) <= RowsOf(a + b, formatTime)
    decreases |b|
  {
    if b != [] {
      var b' := b[..|b| - 1];
      assert a + b == (a + b') + [b[|b| - 1]];
      RowsPrefix(a, b', formatTime);
      RowsOfSnoc(a + b', b[|b| - 1], formatTime);
    } else {
      assert a + b == a;
    }
  }

  /** The intermediate batches, followed by the remainder if there is one, are well batched. */
  lemma FinalBatches<T>(inter: seq<seq<T>>, rest: seq<T>, batches: seq<seq<T>>, batchSize: nat)
    requires batchSize > 0
    requires Intermediate(inter, batchSize) && |rest| <= Capacity(|inter|, batchSize)
    requires batches == inter + (if rest != [] then [rest] else [])
    ensures WellBatched(batches, batchSize)
  {
    forall i | 0 <= i < |batches|
      ensures 1 <= |batches[i]| <= Capacity(i, batchSize)
      ensures i < |batches| - 1 ==> |batches[i]| == Capacity(i, batchSize)
    {
      if i < |inter| {
        assert batches[i] == inter[i];
      }
    }
  }

  /**
    The end of a run. When it succeeds the archive is complete (its records
    are the exported tweets' encodings), the buffer is empty, and the
    batches, laid end to end, are every exported tweet's row exactly once,
    in order, each batch no larger than the counting rule allows. The final
    append is made exactly when a spreadsheet is in use and rows remain.
    When it fails nothing changes.
   */
  lemma FinishCompletes(config: Config, exported: seq<Tweet>, flushed: seq<seq<Row>>, s: LoopState,
                        sinkAccepts: bool)
    requires Holds(config, exported, flushed, s)
    ensures var e := FinishEffect(config, s, sinkAccepts);
      && (e.sent != [] <==> e.outcome == Ok && config.sheetEnabled && s.buffer != [])
      && e.state.downloadedTweets == s.downloadedTweets
      && (e.outcome == Ok || e.outcome.AppendFailed? || e.outcome.ServiceNotInitialized?)
      && (e.outcome != Ok ==> e.state == s && e.sent == [] && config.sheetEnabled && s.buffer != [])
      && (e.outcome == Ok ==>
            && e.state.buffer == []
            && e.state.archive == Framed(Docs(exported, config.encode))
            && (config.sheetEnabled ==>
                  && Concat(flushed + e.sent) == RowsOf(exported, config.formatTime)
                  && WellBatched(flushed + e.sent, config.batchSize))
            && (!config.sheetEnabled ==> flushed + e.sent == []))
  {
    var e := FinishEffect(config, s, sinkAccepts);
    if e.outcome == Ok && config.sheetEnabled {
      PendingBound(|exported|, config.batchSize, |flushed|);
      if s.buffer != [] {
        ConcatSnoc(flushed, s.buffer);
      } else {
        assert flushed + e.sent == flushed;
      }
      FinalBatches(flushed, s.buffer, flushed + e.sent, config.batchSize);
    }
  }
}
