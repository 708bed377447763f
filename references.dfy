/**
  The text of the last spreadsheet column, "Quoted Tweet/Tweet Replied To":
  the quoted or replied-to tweet, or a link to it when the scraper could not
  resolve it. Also a reader for that text, to show that the text determines
  which post it points at.
 */
module References {
  import opened Options
  import opened Tweets

  const ReplyPrefix := "Replying to @"
  const QuotePrefix := "From @"
  const ReplyLinkPrefix := "https://x.com/replying/status/"
  const QuoteLinkPrefix := "https://x.com/quoting/status/"

  /** The text built for a quote, before the reply check may replace it. */
  function QuoteText(t: Tweet): string {
    if !t.isQuoted then ""
    else match t.quotedStatus
      case Some(q) => QuotePrefix + q.username + ":\n" + q.text
      case None => QuoteLinkPrefix + t.quotedStatusID
  }

  /** The reference column's text: the reply text overrides the quote text. */
  function ReferenceText(t: Tweet): (r: string)
    ensures r == "" <==> !t.isQuoted && !t.isReply
  {
    var quoteText := QuoteText(t);
    if t.isReply then
      match t.inReplyToStatus
      case Some(r) => ReplyPrefix + r.username + ":\n" + r.text
      case None => ReplyLinkPrefix + t.inReplyToStatusID
    else quoteText
  }

  /** What the reference column points at. */
  datatype Reference =
    | NoReference
    | ReplyTo(replied: Status)
    | ReplyLink(replyID: string)
    | QuoteOf(quoted: Status)
    | QuoteLink(quoteID: string)

  /** The post a tweet refers to: a reply wins over a quote; unresolved posts give their ID. */
  function ReferenceOf(t: Tweet): Reference {
    if t.isReply then
      if t.inReplyToStatus.Some? then ReplyTo(t.inReplyToStatus.value) else ReplyLink(t.inReplyToStatusID)
    else if t.isQuoted then
      if t.quotedStatus.Some? then QuoteOf(t.quotedStatus.value) else QuoteLink(t.quotedStatusID)
    else NoReference
  }

  /** Position of the first ':' in `s`, or `|s|` when there is none. */
  function ColonIndex(s: string): (k: nat)
    ensures k <= |s|
    ensures forall i :: 0 <= i < k ==> s[i] != ':'
    ensures k < |s| ==> s[k] == ':'
  {
    if s == [] then 0
    else if s[0] == ':' then 0
    else 1 + ColonIndex(s[1..])
  }

  /** Reads `<user>:\n<text>` back, splitting at the first ':'. */
  function SplitStatus(rest: string): Option<Status> {
    var k := ColonIndex(rest);
    if k + 1 < |rest| && rest[k + 1] == '\n' then Some(Status(rest[..k], rest[k + 2..])) else None
  }

  /** Reads a reference column's text back; `None` for text the export never writes. */
  function ParseReference(s: string): Option<Reference> {
    if s == "" then Some(NoReference)
    else if ReplyPrefix <= s then
      match SplitStatus(s[|ReplyPrefix|..])
      case Some(st) => Some(ReplyTo(st))
      case None => None
    else if QuotePrefix <= s then
      match SplitStatus(s[|QuotePrefix|..])
      case Some(st) => Some(QuoteOf(st))
      case None => None
    else if ReplyLinkPrefix <= s then Some(ReplyLink(s[|ReplyLinkPrefix|..]))
    else if QuoteLinkPrefix <= s then Some(QuoteLink(s[|QuoteLinkPrefix|..]))
    else None
  }

  /** Account handles are letters, digits and '_', so they never hold a ':'. */
  predicate HandlesColonFree(t: Tweet) {
    (t.quotedStatus.Some? ==> ':' !in t.quotedStatus.value.username) &&
    (t.inReplyToStatus.Some? ==> ':' !in t.inReplyToStatus.value.username)
  }

  lemma SplitStatusRoundTrip(st: Status)
    requires ':' !in st.username
    ensures SplitStatus(st.username + ":\n" + st.text) == Some(st)
  {
    var rest := st.username + ":\n" + st.text;
    var k := ColonIndex(rest);
    var u := |st.username|;
    assert rest[u] == ':';
    assert k == u;
    assert rest[..k] == st.username;
    assert rest[k + 2..] == st.text;
  }

  /**
    The reference text is a faithful rendering of `ReferenceOf`: reading it
    back gives the post it refers to, which carries the reply-over-quote
    precedence and the link fallbacks.
   */
  lemma ReferenceTextRoundTrip(t: Tweet)
    requires HandlesColonFree(t)
    ensures ParseReference(ReferenceText(t)) == Some(ReferenceOf(t))
  {
    var s := ReferenceText(t);
    match ReferenceOf(t)
    case NoReference =>
    case ReplyTo(st) =>
      assert s == ReplyPrefix + (st.username + ":\n" + st.text);
      assert s[|ReplyPrefix|..] == st.username + ":\n" + st.text;
      SplitStatusRoundTrip(st);
    case QuoteOf(st) =>
      assert s == QuotePrefix + (st.username + ":\n" + st.text);
      assert s[0] == 'F';
      assert s[|QuotePrefix|..] == st.username + ":\n" + st.text;
      SplitStatusRoundTrip(st);
    case ReplyLink(id) =>
      assert s == ReplyLinkPrefix + id;
      assert s[0] == 'h';
      assert s[|ReplyLinkPrefix|..] == id;
    case QuoteLink(id) =>
      assert s == QuoteLinkPrefix + id;
      assert s[0] == 'h' && s[14] == 'q';
      assert s[|QuoteLinkPrefix|..] == id;
  }

  /** For a reply the quote fields are irrelevant: two replies that agree on the reply fields get the same text. */
  lemma ReplyTakesPrecedence(t: Tweet, u: Tweet)
    requires t.isReply && u.isReply
    requires t.inReplyToStatus == u.inReplyToStatus && t.inReplyToStatusID == u.inReplyToStatusID
    ensures ReferenceText(t) == ReferenceText(u)
  {
  }
}
