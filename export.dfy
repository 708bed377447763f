/**
  The export loop as the program runs it: an object holding the loop's
  variables, whose methods handle one tweet, append the buffer to the
  spreadsheet and finish the run, each proved to do what the matching
  function of `Pipeline` says; and the driver that runs a whole stream.

  What lies outside the loop is a parameter: the JSON encoder of one tweet,
  the Eastern-time formatter, and the answer of the spreadsheet service to
  each append (`sinkAccepts`).
 */
module Export {
  import opened Options
  import opened Tweets
  import opened Rows
  import opened Archive
  import opened Batching
  import opened Pipeline

  /** Rows per flush, as configured in the program. */
  const BatchSize := 200

  /**
    The state of one run of the export loop. The archive is the list of
    strings written to the output file; `flushed` records the batches the
    spreadsheet service accepted, in order, and `exported` the tweets that
    passed the retweet filter.
   */
  class Exporter {
    const config: Config

    var archive: seq<string>
    var isFirstTweet: bool
    var downloadedTweets: nat
    var buffer: seq<Row>
    ghost var flushed: seq<seq<Row>>
    ghost var exported: seq<Tweet>

    /** The loop variables as a value. */
    function State(): LoopState
      reads this
    {
      LoopState(archive, isFirstTweet, downloadedTweets, buffer)
    }

    /** The invariant of the export loop. */
    ghost predicate Valid()
      reads this
    {
      Holds(config, exported, flushed, State())
    }

    /** A run that has opened the archive and read nothing yet. */
    constructor (config: Config)
      requires config.batchSize > 0
      ensures Valid() && this.config == config
      ensures State() == Start && exported == [] && flushed == []
    {
      this.config := config;
      archive := [Opening];
      isFirstTweet := true;
      downloadedTweets := 0;
      buffer := [];
      flushed := [];
      exported := [];
      new;
      StartHolds(config);
    }

    /**
      Sends the buffer to the spreadsheet as one append; `sinkAccepts` is
      the service's answer. The buffer is emptied only when the append
      succeeds.
     */
    method AppendTweets(sinkAccepts: bool) returns (outcome: Outcome)
      modifies this`buffer, this`flushed
      ensures var e := AppendEffect(config, old(State()), sinkAccepts);
        outcome == e.outcome && State() == e.state && flushed == old(flushed) + e.sent
    {
      if !config.serviceReady {
        return ServiceNotInitialized;
      }
      var tweetsToUpload := |buffer|;
      if !sinkAccepts {
        return AppendFailed(tweetsToUpload);
      }
      flushed := flushed + [buffer];
      buffer := [];
      outcome := Ok;
    }

    /**
      Handles one tweet of the stream: skips an excluded retweet and
      downloads any other tweet, including one whose `error` is set.
     */
    method Step(t: Tweet, sinkAccepts: bool) returns (outcome: Outcome)
      requires Valid()
      modifies this
      ensures var e := StepEffect(config, old(State()), t, sinkAccepts);
        outcome == e.outcome && State() == e.state && flushed == old(flushed) + e.sent
      ensures exported == old(exported) + Exported(t, config.includeRetweets)
      ensures outcome == Ok ==> Valid()
    {
      ghost var exported0, flushed0, s0 := exported, flushed, State();
      if !config.includeRetweets && t.isRetweet {
        return Ok;
      }
      outcome := Download(t, sinkAccepts);
      StepKeeps(config, exported0, flushed0, s0, t, sinkAccepts);
    }

    /**
      Downloads one tweet that passed the filter: writes a comma unless this
      is the first record, writes the tweet's encoding (stopping if it
      cannot be encoded), buffers its row when a spreadsheet is in use,
      appends the buffer when the counting rule says so (stopping if that
      fails), and counts the tweet.
     */
    method Download(t: Tweet, sinkAccepts: bool) returns (outcome: Outcome)
      requires config.batchSize > 0
      modifies this
      ensures var e := DownloadEffect(config, old(State()), t, sinkAccepts);
        outcome == e.outcome && State() == e.state && flushed == old(flushed) + e.sent
      ensures exported == old(exported) + [t]
    {
      ghost var s0 := State();
      exported := exported + [t];
      if isFirstTweet {
        isFirstTweet := false;
      } else {
        archive := archive + [Separator];
      }
      var doc := config.encode(t);
      if doc.None? {
        return EncodeFailed;
      }
      archive := archive + [doc.value];
      assert DownloadEffect(config, s0, t, sinkAccepts) == TabulateEffect(config, State(), t, sinkAccepts);
      if config.sheetEnabled {
        buffer := buffer + [MakeRow(t, config.formatTime)];
      }
      if config.sheetEnabled && downloadedTweets % config.batchSize == 0 && downloadedTweets > 0 {
        outcome := AppendTweets(sinkAccepts);
        if outcome != Ok {
          return;
        }
      }
      downloadedTweets := downloadedTweets + 1;
      outcome := Ok;
    }

    /**
      End of the stream: appends the remaining rows, if any and if the
      spreadsheet is in use, then closes the archive. A failed append ends
      the run with the archive left open.
     */
    method Finish(sinkAccepts: bool) returns (outcome: Outcome)
      modifies this
      ensures var e := FinishEffect(config, old(State()), sinkAccepts);
        outcome == e.outcome && State() == e.state && flushed == old(flushed) + e.sent
      ensures exported == old(exported)
    {
      var tweetsToUpload := |buffer|;
      if config.sheetEnabled && tweetsToUpload > 0 {
        outcome := AppendTweets(sinkAccepts);
        if outcome != Ok {
          return;
        }
      }
      archive := archive + [Closing];
      outcome := Ok;
    }

    /**
      The loop over the scraper's stream: each tweet is handed to `Step` in
      order, and the loop stops at the first failure. `sinkAnswers[i]` is
      the service's answer should tweet `i` trigger an append.
     */
    method Stream(tweets: seq<Tweet>, sinkAnswers: seq<bool>) returns (outcome: Outcome)
      requires Valid() && exported == [] && |sinkAnswers| == |tweets|
      requires config.serviceReady == config.sheetEnabled
      modifies this
      ensures outcome == Ok ==> Valid() && exported == Accepted(tweets, config.includeRetweets)
      ensures outcome == Ok || outcome == EncodeFailed || (config.sheetEnabled && outcome.AppendFailed?)
      ensures outcome == EncodeFailed ==> !AllEncode(Accepted(tweets, config.includeRetweets), config.encode)
      ensures outcome.AppendFailed? ==> false in sinkAnswers
      ensures outcome != Ok ==> Aborted(tweets, config.includeRetweets, config.encode, archive)
      ensures Concat(flushed) <= RowsOf(Accepted(tweets, config.includeRetweets), config.formatTime)
      ensures !config.sheetEnabled ==> flushed == []
      ensures outcome != Ok ==> Intermediate(flushed, config.batchSize)
      ensures outcome == Ok ==> AnsweredUpTo(tweets, sinkAnswers, config, |tweets|)
      ensures (AllEncode(Accepted(tweets, config.includeRetweets), config.encode) &&
               AnsweredUpTo(tweets, sinkAnswers, config, |tweets|)) ==> outcome == Ok
      ensures outcome != Ok ==>
        exists k :: StoppedAt(tweets, sinkAnswers, config, k, outcome, archive, downloadedTweets, flushed) &&
                    AnsweredUpTo(tweets, sinkAnswers, config, k)
    {
      var i := 0;
      while i < |tweets|
        invariant 0 <= i <= |tweets|
        invariant Valid()
        invariant exported == Accepted(tweets[..i], config.includeRetweets)
        invariant AnsweredUpTo(tweets, sinkAnswers, config, i)
      {
        outcome := StepAt(tweets, i, sinkAnswers);
        if outcome != Ok {
          StoppedHere(tweets, sinkAnswers, config, i, outcome, archive, downloadedTweets, flushed);
          return;
        }
        AnsweredNext(tweets, sinkAnswers, config, i);
        i := i + 1;
      }
      assert tweets[..i] == tweets;
      SentPrefix(config, exported, flushed, State());
      outcome := Ok;
    }

    /**
      One iteration of the loop in `Stream`: tweet `i` handled after the
      tweets before it. On failure the run's outcome, archive and sent
      batches are already final, and are stated in terms of the whole stream.
     */
    method StepAt(tweets: seq<Tweet>, i: nat, sinkAnswers: seq<bool>) returns (outcome: Outcome)
      requires i < |tweets| == |sinkAnswers|
      requires Valid() && exported == Accepted(tweets[..i], config.includeRetweets)
      requires config.serviceReady == config.sheetEnabled
      modifies this
      ensures outcome == Ok ==> Valid() && exported == Accepted(tweets[..i + 1], config.includeRetweets)
      ensures outcome == Ok || outcome == EncodeFailed || (config.sheetEnabled && outcome.AppendFailed?)
      ensures outcome == EncodeFailed ==> !AllEncode(Accepted(tweets, config.includeRetweets), config.encode)
      ensures outcome.AppendFailed? ==> !sinkAnswers[i]
      ensures outcome != Ok ==> Aborted(tweets, config.includeRetweets, config.encode, archive)
      ensures outcome != Ok ==> Concat(flushed) <= RowsOf(Accepted(tweets, config.includeRetweets), config.formatTime)
      ensures outcome != Ok ==> Intermediate(flushed, config.batchSize)
      ensures outcome != Ok ==> (!config.sheetEnabled ==> flushed == [])
      ensures outcome != Ok ==> StoppedAt(tweets, sinkAnswers, config, i, outcome, archive, downloadedTweets, flushed)
      ensures outcome == Ok ==> Answered(tweets, sinkAnswers, config, i)
      ensures outcome.AppendFailed? ==> !Answered(tweets, sinkAnswers, config, i)
    {
      AcceptedNext(tweets, i, config.includeRetweets);
      ghost var exported0, flushed0, s0 := exported, flushed, State();
      outcome := Step(tweets[i], sinkAnswers[i]);
      StepSucceeds(config, s0, tweets[i], sinkAnswers[i]);
      if outcome != Ok {
        StepAborts(tweets, i, sinkAnswers, config, exported0, flushed0, s0);
        StepStops(tweets, i, sinkAnswers, config, exported0, flushed0, s0,
                  StepEffect(config, s0, tweets[i], sinkAnswers[i]));
        assert flushed == flushed0 + [] == flushed0;
      }
    }
  }

  /**
    A step that fails while handling tweet `i` of the stream: it was an
    exported tweet that does not encode or whose append the service
    refused; nothing more was sent, so the rows sent lead the rows the whole
    stream would have produced; and the archive is cut short.
   */
  lemma StepAborts(tweets: seq<Tweet>, i: nat, sinkAnswers: seq<bool>, config: Config,
                   exported: seq<Tweet>, flushed: seq<seq<Row>>, s: LoopState)
    requires i < |tweets| == |sinkAnswers|
    requires Holds(config, exported, flushed, s) && config.serviceReady == config.sheetEnabled
    requires exported == Accepted(tweets[..i], config.includeRetweets)
    ensures var e := StepEffect(config, s, tweets[i], sinkAnswers[i]);
      e.outcome != Ok ==>
        && e.sent == []
        && (e.outcome == EncodeFailed || (config.sheetEnabled && e.outcome.AppendFailed?))
        && (e.outcome == EncodeFailed ==> !AllEncode(Accepted(tweets, config.includeRetweets), config.encode))
        && (e.outcome.AppendFailed? ==> !sinkAnswers[i])
        && Aborted(tweets, config.includeRetweets, config.encode, e.state.archive)
        && Concat(flushed) <= RowsOf(Accepted(tweets, config.includeRetweets), config.formatTime)
        && Intermediate(flushed, config.batchSize)
        && (!config.sheetEnabled ==> flushed == [])
  {
    var e := StepEffect(config, s, tweets[i], sinkAnswers[i]);
    if e.outcome != Ok {
      StepFails(config, exported, flushed, s, tweets[i], sinkAnswers[i]);
      SentPrefix(config, exported, flushed, s);
      StoppedEarly(tweets, i, config, exported, flushed);
      if e.outcome == EncodeFailed {
        RejectedEncoding(tweets, i, config.includeRetweets, config.encode);
        AbortedAt(tweets, i, config.includeRetweets, config.encode, e.state.archive);
      } else {
        AppendAborted(tweets, i, config.includeRetweets, config.encode, e.state.archive, e.state.isFirstTweet);
      }
    }
  }

  /** A refused append while handling tweet `i` leaves that tweet's record as the archive's last. */
  lemma AppendAborted(tweets: seq<Tweet>, i: nat, includeRetweets: bool, encode: Tweet -> Option<string>,
                      archive: seq<string>, isFirstTweet: bool)
    requires i < |tweets| && Accepts(tweets[i], includeRetweets)
    requires ArchiveHolds(Accepted(tweets[..i], includeRetweets) + [tweets[i]], archive, isFirstTweet, encode)
    ensures Aborted(tweets, includeRetweets, encode, archive)
  {
    AcceptedNext(tweets, i, includeRetweets);
    AbortedAt(tweets, i + 1, includeRetweets, encode, archive);
  }

  /**
    What a run that stopped while handling tweet `i` leaves behind. Tweet
    `i` passed the filter, and every tweet exported before it (`before`)
    has an encoding. When tweet `i` does not encode, the archive holds the
    records of `before` and, unless there are none, the comma written for
    tweet `i`. When the append that tweet `i` triggered was refused, the
    archive also holds tweet `i`'s record, the service answered no to that
    append, and the counting rule did call for it. Either way tweet `i` is
    not counted, and with a spreadsheet the rows sent and the rows still
    buffered by the counting rule make up exactly the rows of `before`.
   */
  ghost predicate StoppedAt(tweets: seq<Tweet>, sinkAnswers: seq<bool>, config: Config, i: int,
                            outcome: Outcome, archive: seq<string>, count: nat, flushed: seq<seq<Row>>)
  {
    && config.batchSize > 0
    && 0 <= i < |tweets| && i < |sinkAnswers|
    && Accepts(tweets[i], config.includeRetweets)
    && var before := Accepted(tweets[..i], config.includeRetweets);
       && AllEncode(before, config.encode)
       && count == |before|
       && (outcome == EncodeFailed ==>
             && config.encode(tweets[i]).None?
             && archive == [Opening] + Joined(Docs(before, config.encode)) + (if before == [] then [] else [Separator]))
       && (outcome.AppendFailed? ==>
             && config.encode(tweets[i]).Some?
             && archive == [Opening] + Joined(Docs(before, config.encode) + [config.encode(tweets[i]).value])
             && !sinkAnswers[i]
             && FlushDue(|before|, config.batchSize))
       && (config.sheetEnabled ==> |Concat(flushed)| + Pending(|before|, config.batchSize) == |before|)
  }

  /**
    The service's answer for tweet `k` lets the run go on: unless tweet `k`
    passed the filter, a spreadsheet is in use and the counting rule calls
    for an append after the tweets exported before it, the answer is not
    consulted; when it is, it is yes.
   */
  ghost predicate Answered(tweets: seq<Tweet>, sinkAnswers: seq<bool>, config: Config, k: int) {
    && config.batchSize > 0
    && 0 <= k < |tweets| && k < |sinkAnswers|
    && ((Accepts(tweets[k], config.includeRetweets) && config.sheetEnabled &&
         FlushDue(|Accepted(tweets[..k], config.includeRetweets)|, config.batchSize)) ==> sinkAnswers[k])
  }

  /** Every append the first `n` tweets call for is accepted. */
  ghost predicate AnsweredUpTo(tweets: seq<Tweet>, sinkAnswers: seq<bool>, config: Config, n: int) {
    forall k :: 0 <= k < n ==> Answered(tweets, sinkAnswers, config, k)
  }

  /** One more accepted answer extends the accepted ones. */
  lemma AnsweredNext(tweets: seq<Tweet>, sinkAnswers: seq<bool>, config: Config, i: int)
    requires AnsweredUpTo(tweets, sinkAnswers, config, i) && Answered(tweets, sinkAnswers, config, i)
    ensures AnsweredUpTo(tweets, sinkAnswers, config, i + 1)
  {
  }

  /**
    A run stopped at tweet `i`, after every earlier append was accepted,
    stopped for a tweet that does not encode or an append refused at `i`:
    so not every exported tweet encodes, or not every append was accepted.
   */
  lemma StoppedHere(tweets: seq<Tweet>, sinkAnswers: seq<bool>, config: Config, i: int,
                    outcome: Outcome, archive: seq<string>, count: nat, flushed: seq<seq<Row>>)
    requires outcome == EncodeFailed || outcome.AppendFailed?
    requires outcome == EncodeFailed ==> !AllEncode(Accepted(tweets, config.includeRetweets), config.encode)
    requires outcome.AppendFailed? ==> !Answered(tweets, sinkAnswers, config, i)
    requires StoppedAt(tweets, sinkAnswers, config, i, outcome, archive, count, flushed)
    requires AnsweredUpTo(tweets, sinkAnswers, config, i)
    ensures !(AllEncode(Accepted(tweets, config.includeRetweets), config.encode) &&
              AnsweredUpTo(tweets, sinkAnswers, config, |tweets|))
    ensures exists k :: StoppedAt(tweets, sinkAnswers, config, k, outcome, archive, count, flushed) &&
                        AnsweredUpTo(tweets, sinkAnswers, config, k)
  {
  }

  /**
    A run that handled the whole stream and then had its final append
    refused: every exported tweet is archived and counted, the archive is
    not closed, and the rows sent and the rows left over, of which there is
    at least one, make up exactly the exported tweets' rows.
   */
  ghost predicate RefusedAtEnd(tweets: seq<Tweet>, config: Config, archive: seq<string>, count: nat,
                               flushed: seq<seq<Row>>)
  {
    && config.batchSize > 0
    && config.sheetEnabled
    && var exported := Accepted(tweets, config.includeRetweets);
       && AllEncode(exported, config.encode)
       && archive == [Opening] + Joined(Docs(exported, config.encode))
       && count == |exported|
       && 0 < Pending(|exported|, config.batchSize)
       && |Concat(flushed)| + Pending(|exported|, config.batchSize) == |exported|
  }

  /** A step that fails while handling tweet `i` leaves exactly what `StoppedAt` says. */
  lemma StepStops(tweets: seq<Tweet>, i: nat, sinkAnswers: seq<bool>, config: Config,
                  exported: seq<Tweet>, flushed: seq<seq<Row>>, s: LoopState, e: Effect)
    requires i < |tweets| == |sinkAnswers|
    requires Holds(config, exported, flushed, s)
    requires exported == Accepted(tweets[..i], config.includeRetweets)
    requires e == StepEffect(config, s, tweets[i], sinkAnswers[i]) && e.outcome != Ok
    ensures StoppedAt(tweets, sinkAnswers, config, i, e.outcome, e.state.archive, e.state.downloadedTweets, flushed)
  {
    StepFails(config, exported, flushed, s, tweets[i], sinkAnswers[i]);
    StoppedWith(tweets, i, sinkAnswers, config, exported, flushed, s, e.outcome, e.state.archive,
                e.state.isFirstTweet, e.state.downloadedTweets);
  }

  /** The loop variables before tweet `i` and the archive after its failed step make a `StoppedAt` run. */
  lemma StoppedWith(tweets: seq<Tweet>, i: nat, sinkAnswers: seq<bool>, config: Config,
                    exported: seq<Tweet>, flushed: seq<seq<Row>>, s: LoopState,
                    outcome: Outcome, archive: seq<string>, isFirstTweet: bool, count: nat)
    requires i < |tweets| == |sinkAnswers|
    requires Holds(config, exported, flushed, s) && Accepts(tweets[i], config.includeRetweets)
    requires exported == Accepted(tweets[..i], config.includeRetweets)
    requires outcome == EncodeFailed ==>
      config.encode(tweets[i]).None? && archive == s.archive + (if s.isFirstTweet then [] else [Separator])
    requires outcome.AppendFailed? ==>
      && config.encode(tweets[i]).Some?
      && ArchiveHolds(exported + [tweets[i]], archive, isFirstTweet, config.encode)
      && !sinkAnswers[i] && FlushDue(s.downloadedTweets, config.batchSize)
    requires count == s.downloadedTweets
    ensures StoppedAt(tweets, sinkAnswers, config, i, outcome, archive, count, flushed)
  {
    if outcome.AppendFailed? {
      DocsSnoc(exported, tweets[i], config.encode);
    }
    if config.sheetEnabled {
      assert |Concat(flushed) + s.buffer| == |exported|;
    }
  }

  /** The archive an aborted run leaves: cut short after the records of the tweets exported from some prefix of the stream. */
  ghost predicate Aborted(tweets: seq<Tweet>, includeRetweets: bool, encode: Tweet -> Option<string>, archive: seq<string>) {
    exists k :: 0 <= k <= |tweets| && AllEncode(Accepted(tweets[..k], includeRetweets), encode) &&
      Unclosed(archive, Docs(Accepted(tweets[..k], includeRetweets), encode))
  }

  /**
    An aborted run's archive never reads back as a complete archive, as
    long as no tweet encodes to the closing text itself (an encoded tweet is
    a JSON object).
   */
  lemma AbortedIsIncomplete(tweets: seq<Tweet>, includeRetweets: bool, encode: Tweet -> Option<string>,
                            archive: seq<string>)
    requires Aborted(tweets, includeRetweets, encode, archive)
    requires forall t :: encode(t).Some? ==> encode(t).value != Closing
    ensures ParseArchive(archive) == None
  {
    var k :| 0 <= k <= |tweets| && AllEncode(Accepted(tweets[..k], includeRetweets), encode) &&
      Unclosed(archive, Docs(Accepted(tweets[..k], includeRetweets), encode));
    var exported := Accepted(tweets[..k], includeRetweets);
    var docs := Docs(exported, encode);
    forall i | 0 <= i < |docs|
      ensures docs[i] != Closing
    {
      DocsAt(exported, encode, i);
    }
    UnclosedArchive(docs);
  }

  lemma AbortedAt(tweets: seq<Tweet>, k: nat, includeRetweets: bool, encode: Tweet -> Option<string>, archive: seq<string>)
    requires k <= |tweets| && AllEncode(Accepted(tweets[..k], includeRetweets), encode)
    requires Unclosed(archive, Docs(Accepted(tweets[..k], includeRetweets), encode))
    ensures Aborted(tweets, includeRetweets, encode, archive)
  {
  }

  /** An exported tweet without an encoding means not every exported tweet of the stream encodes. */
  lemma RejectedEncoding(tweets: seq<Tweet>, i: nat, includeRetweets: bool, encode: Tweet -> Option<string>)
    requires i < |tweets| && Accepts(tweets[i], includeRetweets) && encode(tweets[i]).None?
    ensures !AllEncode(Accepted(tweets, includeRetweets), encode)
  {
    AcceptedMembers(tweets, includeRetweets, tweets[i]);
  }

  /**
    A run stopped while handling tweet `i`: the rows sent so far, which lead
    the rows of the tweets exported before tweet `i`, also lead the rows of
    all the tweets the stream would have exported.
   */
  lemma StoppedEarly(tweets: seq<Tweet>, i: nat, config: Config, exported: seq<Tweet>, batches: seq<seq<Row>>)
    requires i < |tweets|
    requires exported == Accepted(tweets[..i], config.includeRetweets)
    requires Concat(batches) <= RowsOf(exported, config.formatTime)
    ensures Concat(batches) <= RowsOf(Accepted(tweets, config.includeRetweets), config.formatTime)
  {
    assert tweets == tweets[..i] + tweets[i..];
    AcceptedAppend(tweets[..i], tweets[i..], config.includeRetweets);
    RowsPrefix(exported, Accepted(tweets[i..], config.includeRetweets), config.formatTime);
  }

  /**
    The whole export of a finite stream, as the program runs it: the
    archive is opened, every tweet is handled in order, and the run is
    finished; the run stops at the first failure. `sinkAnswers[i]` is the
    spreadsheet service's answer should tweet `i` trigger an append, and
    `finalAnswer` its answer to the final append. The service is set up
    exactly when a spreadsheet is in use, and the batch size is the
    program's. `batches` are the appends the service accepted, in order.
   */
  method Run(tweets: seq<Tweet>, includeRetweets: bool, sheetEnabled: bool,
             encode: Tweet -> Option<string>, formatTime: int -> string,
             sinkAnswers: seq<bool>, finalAnswer: bool)
    returns (archive: seq<string>, downloadedTweets: nat, outcome: Outcome, ghost batches: seq<seq<Row>>)
    requires |sinkAnswers| == |tweets|
    // A run fails only for a tweet that does not encode or an append the service refuses.
    ensures outcome == EncodeFailed ==> !AllEncode(Accepted(tweets, includeRetweets), encode)
    ensures outcome.AppendFailed? ==> sheetEnabled && (!finalAnswer || false in sinkAnswers)
    ensures outcome == Ok || outcome == EncodeFailed || outcome.AppendFailed?
    ensures (AllEncode(Accepted(tweets, includeRetweets), encode) && finalAnswer &&
             false !in sinkAnswers) ==> outcome == Ok
    // A completed run: every exported tweet is archived and counted, every row sent once, in order.
    ensures outcome == Ok ==>
      var exported := Accepted(tweets, includeRetweets);
      && AllEncode(exported, encode)
      && archive == Framed(Docs(exported, encode))
      && downloadedTweets == |exported|
      && (sheetEnabled ==> Concat(batches) == RowsOf(exported, formatTime) && WellBatched(batches, BatchSize))
    // Whatever happens, the rows sent are the first rows of the exported tweets, in order.
    ensures Concat(batches) <= RowsOf(Accepted(tweets, includeRetweets), formatTime)
    ensures !sheetEnabled ==> batches == []
    // A failed run makes no final append: every batch sent is a full intermediate one.
    ensures outcome != Ok ==> Intermediate(batches, BatchSize)
    // A failed run leaves the archive unclosed after the records of some prefix of the stream.
    ensures outcome != Ok ==> Aborted(tweets, includeRetweets, encode, archive)
    // It stopped at some tweet, or at the final append, which the service refused.
    ensures outcome != Ok ==>
      var config := RunConfig(includeRetweets, sheetEnabled, encode, formatTime);
      || (exists k :: StoppedAt(tweets, sinkAnswers, config, k, outcome, archive, downloadedTweets, batches) &&
                      AnsweredUpTo(tweets, sinkAnswers, config, k))
      || (&& !finalAnswer && RefusedAtEnd(tweets, config, archive, downloadedTweets, batches)
          && AnsweredUpTo(tweets, sinkAnswers, config, |tweets|))
    // Exactly when a run succeeds: every exported tweet encodes, and the service accepts every append made.
    ensures outcome == Ok <==>
      && AllEncode(Accepted(tweets, includeRetweets), encode)
      && AnsweredUpTo(tweets, sinkAnswers, RunConfig(includeRetweets, sheetEnabled, encode, formatTime), |tweets|)
      && (sheetEnabled && Pending(|Accepted(tweets, includeRetweets)|, BatchSize) > 0 ==> finalAnswer)
  {
    var config := RunConfig(includeRetweets, sheetEnabled, encode, formatTime);
    var ex := new Exporter(config);
    outcome := ex.Stream(tweets, sinkAnswers);
    if outcome != Ok {
      archive, downloadedTweets, batches := ex.archive, ex.downloadedTweets, ex.flushed;
      return;
    }
    ghost var flushed0, s0 := ex.flushed, ex.State();
    FinishCompletes(config, ex.exported, flushed0, s0, finalAnswer);
    FinishAborts(tweets, config, flushed0, s0, finalAnswer);
    outcome := ex.Finish(finalAnswer);
    archive, downloadedTweets, batches := ex.archive, ex.downloadedTweets, ex.flushed;
  }

  /** The configuration of a run: the service is set up exactly when a spreadsheet is in use, and batches are the program's size. */
  function RunConfig(includeRetweets: bool, sheetEnabled: bool, encode: Tweet -> Option<string>,
                     formatTime: int -> string): Config
  {
    Config(includeRetweets, sheetEnabled, sheetEnabled, BatchSize, encode, formatTime)
  }

  /**
    The end of a stream that was handled without failure: the final append
    can only fail by the service refusing it, and then the archive is left
    cut short after all the records. Whatever happens, the rows sent lead
    the rows of the exported tweets.
   */
  lemma FinishAborts(tweets: seq<Tweet>, config: Config, flushed: seq<seq<Row>>, s: LoopState, finalAnswer: bool)
    requires Holds(config, Accepted(tweets, config.includeRetweets), flushed, s)
    requires config.serviceReady == config.sheetEnabled
    ensures var e := FinishEffect(config, s, finalAnswer);
      && Concat(flushed + e.sent) <= RowsOf(Accepted(tweets, config.includeRetweets), config.formatTime)
      && (e.outcome != Ok ==>
            && config.sheetEnabled && e.outcome.AppendFailed? && !finalAnswer
            && AllEncode(Accepted(tweets, config.includeRetweets), config.encode)
            && Unclosed(e.state.archive, Docs(Accepted(tweets, config.includeRetweets), config.encode))
            && RefusedAtEnd(tweets, config, e.state.archive, e.state.downloadedTweets, flushed + e.sent)
            && Aborted(tweets, config.includeRetweets, config.encode, e.state.archive)
            && Intermediate(flushed + e.sent, config.batchSize))
  {
    var exported := Accepted(tweets, config.includeRetweets);
    var e := FinishEffect(config, s, finalAnswer);
    FinishCompletes(config, exported, flushed, s, finalAnswer);
    SentPrefix(config, exported, flushed, s);
    if e.outcome != Ok {
      assert flushed + e.sent == flushed;
      assert |Concat(flushed) + s.buffer| == |exported|;
      assert tweets[..|tweets|] == tweets;
      AbortedAt(tweets, |tweets|, config.includeRetweets, config.encode, e.state.archive);
    } else if !config.sheetEnabled {
      assert flushed + e.sent == [];
    }
  }
}
