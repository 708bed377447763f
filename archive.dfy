/**
  The JSON archive file, seen as the sequence of strings written to it: an
  opening, the encoded records separated by commas, and a closing. The
  records themselves are whatever the JSON encoder produced for each tweet.
 */
module Archive {
  import opened Options
  import opened Tweets

  const Opening := "{ \"tweets\": [\n"
  const Separator := ","
  const Closing := "] }"

  /** The records with a comma written before every record except the first. */
  function Joined(docs: seq<string>): seq<string> {
    if |docs| <= 1 then docs
    else Joined(docs[..|docs| - 1]) + [Separator, docs[|docs| - 1]]
  }

  /** The complete archive for the given records. */
  function Framed(docs: seq<string>): (r: seq<string>)
    ensures |r| == if docs == [] then 2 else 2 * |docs| + 1
    ensures r[0] == Opening && r[|r| - 1] == Closing
  {
    JoinedAt(docs);
    [Opening] + Joined(docs) + [Closing]
  }

  /**
    The records sit at the even positions of the joined writes and a
    comma at every odd position, so there is one comma fewer than records.
   */
  lemma {:induction false} JoinedAt(docs: seq<string>)
    ensures |Joined(docs)| == if docs == [] then 0 else 2 * |docs| - 1
    ensures forall i :: 0 <= i < |docs| ==> Joined(docs)[2 * i] == docs[i]
    ensures forall i :: 0 <= i < |docs| - 1 ==> Joined(docs)[2 * i + 1] == Separator
  {
    if |docs| > 1 {
      var init := docs[..|docs| - 1];
      JoinedAt(init);
    }
  }

  /** Splits comma-joined writes back into records; `None` when a comma is missing. */
  function Unjoin(chunks: seq<string>): Option<seq<string>>
    decreases |chunks|
  {
    if |chunks| <= 1 then Some(chunks)
    else if |chunks| == 2 || chunks[|chunks| - 2] != Separator then None
    else
      match Unjoin(chunks[..|chunks| - 2])
      case None => None
      case Some(init) => Some(init + [chunks[|chunks| - 1]])
  }

  /** Reads an archive back into its records; `None` unless the framing is intact. */
  function ParseArchive(chunks: seq<string>): Option<seq<string>> {
    if |chunks| < 2 || chunks[0] != Opening || chunks[|chunks| - 1] != Closing then None
    else Unjoin(chunks[1..|chunks| - 1])
  }

  lemma {:induction false} UnjoinJoined(docs: seq<string>)
    ensures Unjoin(Joined(docs)) == Some(docs)
  {
    if |docs| > 1 {
      var init := docs[..|docs| - 1];
      var j := Joined(docs);
      UnjoinJoined(init);
      JoinedAt(init);
      assert j[..|j| - 2] == Joined(init);
      assert init + [docs[|docs| - 1]] == docs;
    }
  }

  lemma {:induction false} JoinedUnjoin(chunks: seq<string>, docs: seq<string>)
    requires Unjoin(chunks) == Some(docs)
    ensures Joined(docs) == chunks
    decreases |chunks|
  {
    if |chunks| > 1 {
      var init := Unjoin(chunks[..|chunks| - 2]).value;
      JoinedUnjoin(chunks[..|chunks| - 2], init);
      assert init != [];
      assert docs == init + [chunks[|chunks| - 1]];
      assert docs[..|docs| - 1] == init;
      assert chunks == chunks[..|chunks| - 2] + [Separator, chunks[|chunks| - 1]];
    }
  }

  /** Reading the archive back yields exactly the records written, in order. */
  lemma ArchiveRoundTrip(docs: seq<string>)
    ensures ParseArchive(Framed(docs)) == Some(docs)
  {
    var f := Framed(docs);
    assert f[1..|f| - 1] == Joined(docs);
    UnjoinJoined(docs);
  }

  /** With no record the archive is the opening followed by the closing, and reads back as the empty list. */
  lemma EmptyArchive()
    ensures Framed([]) == [Opening, Closing]
    ensures ParseArchive([Opening, Closing]) == Some([])
  {
    ArchiveRoundTrip([]);
  }

  /** Conversely, whatever reads back as a list of records is the framed archive of that list. */
  lemma ArchiveParseSound(chunks: seq<string>, docs: seq<string>)
    requires ParseArchive(chunks) == Some(docs)
    ensures chunks == Framed(docs)
  {
    JoinedUnjoin(chunks[1..|chunks| - 1], docs);
    assert chunks == [chunks[0]] + chunks[1..|chunks| - 1] + [chunks[|chunks| - 1]];
  }

  /**
    An archive cut off after a record or after a comma, as an aborted run
    leaves it, never reads back as a complete archive (records are encoded
    tweets, never the closing text).
   */
  lemma UnclosedArchive(docs: seq<string>)
    requires forall i :: 0 <= i < |docs| ==> docs[i] != Closing
    ensures ParseArchive([Opening] + Joined(docs)) == None
    ensures ParseArchive([Opening] + Joined(docs) + [Separator]) == None
  {
    var a := [Opening] + Joined(docs);
    var b := a + [Separator];
    assert b[|b| - 1] == Separator != Closing;
    if docs != [] {
      JoinedAt(docs);
      assert a[|a| - 1] == Joined(docs)[2 * (|docs| - 1)] == docs[|docs| - 1];
      assert a[|a| - 1] != Closing;
    } else {
      assert |a| == 1;
    }
  }
}
