/**
  Tweet records as the scraper hands them to the export loop, and the
  retweet filter that decides which of them are exported.
 */
module Tweets {
  import opened Options

  /** The two fields the export reads from a quoted or replied-to tweet. */
  datatype Status = Status(username: string, text: string)

  /**
    One item of the scraper's stream. `timeParsed` is the tweet's instant
    (seconds since the epoch); `error` is the per-item error the scraper may
    attach, which the export only logs.
   */
  datatype Tweet = Tweet(
    id: string,
    timeParsed: int,
    permanentURL: string,
    text: string,
    videos: seq<string>,
    photos: seq<string>,
    isQuoted: bool,
    isPin: bool,
    isReply: bool,
    isRetweet: bool,
    isSelfThread: bool,
    views: int,
    likes: int,
    retweets: int,
    replies: int,
    quotedStatus: Option<Status>,
    quotedStatusID: string,
    inReplyToStatus: Option<Status>,
    inReplyToStatusID: string,
    error: Option<string>)

  /** A tweet is exported unless it is a retweet and retweets are excluded. */
  predicate Accepts(t: Tweet, includeRetweets: bool): (b: bool)
    ensures !t.isRetweet ==> b
    ensures t.isRetweet ==> (b <==> includeRetweets)
  {
    includeRetweets || !t.isRetweet
  }

  /** The per-item error is only logged: it plays no part in the filter. */
  lemma ErrorOnlyLogged(t: Tweet, error: Option<string>, includeRetweets: bool)
    ensures Accepts(t.(error := error), includeRetweets) == Accepts(t, includeRetweets)
  {
  }

  /** The tweets one item of the stream adds to the exported ones. */
  function Exported(t: Tweet, includeRetweets: bool): seq<Tweet> {
    if Accepts(t, includeRetweets) then [t] else []
  }

  /** The exported tweets of a stream, in stream order. */
  function Accepted(ts: seq<Tweet>, includeRetweets: bool): (r: seq<Tweet>)
    ensures |r| <= |ts|
  {
    if ts == [] then []
    else
      var init := Accepted(ts[..|ts| - 1], includeRetweets);
      if Accepts(ts[|ts| - 1], includeRetweets) then init + [ts[|ts| - 1]] else init
  }

  /** One more item from the stream: it is appended iff it is accepted. */
  lemma AcceptedSnoc(ts: seq<Tweet>, t: Tweet, includeRetweets: bool)
    ensures Accepted(ts + [t], includeRetweets) == Accepted(ts, includeRetweets) + Exported(t, includeRetweets)
  {
    assert (ts + [t])[..|ts|] == ts;
  }

  /** Handling item `i` of a stream extends the tweets exported from the items before it. */
  lemma AcceptedNext(ts: seq<Tweet>, i: nat, includeRetweets: bool)
    requires i < |ts|
    ensures Accepted(ts[..i + 1], includeRetweets) == Accepted(ts[..i], includeRetweets) + Exported(ts[i], includeRetweets)
  {
    assert ts[..i + 1] == ts[..i] + [ts[i]];
    AcceptedSnoc(ts[..i], ts[i], includeRetweets);
  }

  /** Filtering a concatenation filters each part. */
  lemma {:induction false} AcceptedAppend(a: seq<Tweet>, b: seq<Tweet>, includeRetweets: bool)
    ensures Accepted(a + b, includeRetweets) == Accepted(a, includeRetweets) + Accepted(b, includeRetweets)
    decreases |b|
  {
    if b == [] {
      assert a + b == a;
    } else {
      var b' := b[..|b| - 1];
      var t := b[|b| - 1];
      assert b == b' + [t];
      assert a + b == (a + b') + [t];
      AcceptedAppend(a, b', includeRetweets);
      AcceptedSnoc(a + b', t, includeRetweets);
      AcceptedSnoc(b', t, includeRetweets);
    }
  }

  /**
    Exactly the accepted items survive: a tweet is exported iff it is in the
    stream and is not an excluded retweet. The per-item error plays no part.
   */
  lemma {:induction false} AcceptedMembers(ts: seq<Tweet>, includeRetweets: bool, t: Tweet)
    ensures t in Accepted(ts, includeRetweets) <==> t in ts && Accepts(t, includeRetweets)
  {
    if ts != [] {
      var init := ts[..|ts| - 1];
      assert ts == init + [ts[|ts| - 1]];
      AcceptedMembers(init, includeRetweets, t);
    }
  }

  /** With retweets included nothing is dropped; with them excluded no retweet is exported. */
  lemma {:induction false} AcceptedRetweets(ts: seq<Tweet>, includeRetweets: bool)
    ensures includeRetweets ==> Accepted(ts, includeRetweets) == ts
    ensures !includeRetweets ==> forall i :: 0 <= i < |Accepted(ts, includeRetweets)| ==> !Accepted(ts, includeRetweets)[i].isRetweet
  {
    if ts != [] {
      var init := ts[..|ts| - 1];
      assert ts == init + [ts[|ts| - 1]];
      AcceptedRetweets(init, includeRetweets);
    }
  }
}
