/**
  Resetting the spreadsheet: the batch of requests that adds a fresh
  "Tweets" sheet and a fresh "Information" sheet and deletes every existing
  sheet, and the selection of the two new sheets' IDs from the service's
  replies to that batch.
 */
module Sheets {
  import opened Options

  const TweetsPrefix := "Tweets - "
  const InfoPrefix := "Information - "

  /** What the service reports about a sheet: its ID and its title. */
  datatype SheetProperties = SheetProperties(sheetId: int, title: string)

  /** One request of the reset batch. */
  datatype Request = AddSheet(title: string) | DeleteSheet(sheetId: int)

  /**
    One reply of the batch update. Each level the program dereferences may
    be missing: the reply itself, its AddSheet part, and that part's
    properties.
   */
  datatype AddSheetReply = AddSheetReply(properties: Option<SheetProperties>)
  datatype Reply = Reply(addSheet: Option<AddSheetReply>)

  /**
    The reset batch: the two new sheets, titled with the given random
    suffixes, followed by one deletion per existing sheet, in order.
   */
  method ResetRequests(tweetsSuffix: string, infoSuffix: string, sheets: seq<SheetProperties>)
    returns (requests: seq<Request>)
    ensures |requests| == 2 + |sheets|
    ensures requests[0] == AddSheet(TweetsPrefix + tweetsSuffix)
    ensures requests[1] == AddSheet(InfoPrefix + infoSuffix)
    ensures forall i :: 0 <= i < |sheets| ==> requests[2 + i] == DeleteSheet(sheets[i].sheetId)
  {
    requests := [AddSheet(TweetsPrefix + tweetsSuffix), AddSheet(InfoPrefix + infoSuffix)];
    var k := 0;
    while k < |sheets|
      invariant 0 <= k <= |sheets|
      invariant |requests| == 2 + k
      invariant requests[0] == AddSheet(TweetsPrefix + tweetsSuffix)
      invariant requests[1] == AddSheet(InfoPrefix + infoSuffix)
      invariant forall i :: 0 <= i < k ==> requests[2 + i] == DeleteSheet(sheets[i].sheetId)
    {
      requests := requests + [DeleteSheet(sheets[k].sheetId)];
      k := k + 1;
    }
  }

  /** The properties of the sheet a reply added, when every level of it is present. */
  function Added(reply: Option<Reply>): Option<SheetProperties> {
    match reply
    case None => None
    case Some(r) =>
      match r.addSheet
      case None => None
      case Some(a) => a.properties
  }

  /** A reply that added a sheet whose title starts with `prefix`. */
  predicate Matches(reply: Option<Reply>, prefix: string) {
    Added(reply).Some? && prefix <= Added(reply).value.title
  }

  /** The ID of the last reply that added a sheet whose title starts with `prefix`. */
  function LastWithPrefix(replies: seq<Option<Reply>>, prefix: string): (r: Option<int>)
    ensures r.None? <==> forall i :: 0 <= i < |replies| ==> !Matches(replies[i], prefix)
  {
    if replies == [] then None
    else if Matches(replies[|replies| - 1], prefix) then Some(Added(replies[|replies| - 1]).value.sheetId)
    else
      var init := replies[..|replies| - 1];
      assert forall i :: 0 <= i < |init| ==> init[i] == replies[i];
      LastWithPrefix(init, prefix)
  }

  /** The selected ID if some reply matched, the value held before otherwise. */
  function OrElse(id: Option<int>, previous: int): int {
    match id
    case Some(v) => v
    case None => previous
  }

  /**
    The IDs of the two new sheets, held by the program in two variables
    that start at -1 and that the reply loop overwrites.
   */
  class SheetIds {
    var tweetsSheetID: int
    var infoSheetID: int

    constructor ()
      ensures tweetsSheetID == -1 && infoSheetID == -1
    {
      tweetsSheetID := -1;
      infoSheetID := -1;
    }

    /**
      Walks the replies in order; each reply that added a sheet titled
      "Tweets - ..." or "Information - ..." overwrites the matching ID, so
      the last such reply wins and an ID no reply matches keeps its value.
     */
    method SelectSheetIds(replies: seq<Option<Reply>>)
      modifies this
      ensures tweetsSheetID == OrElse(LastWithPrefix(replies, TweetsPrefix), old(tweetsSheetID))
      ensures infoSheetID == OrElse(LastWithPrefix(replies, InfoPrefix), old(infoSheetID))
    {
      var k := 0;
      while k < |replies|
        invariant 0 <= k <= |replies|
        invariant tweetsSheetID == OrElse(LastWithPrefix(replies[..k], TweetsPrefix), old(tweetsSheetID))
        invariant infoSheetID == OrElse(LastWithPrefix(replies[..k], InfoPrefix), old(infoSheetID))
      {
        assert replies[..k + 1][..k] == replies[..k];
        var reply := replies[k];
        if reply.Some? && reply.value.addSheet.Some? && reply.value.addSheet.value.properties.Some? {
          var properties := reply.value.addSheet.value.properties.value;
          if TweetsPrefix <= properties.title {
            tweetsSheetID := properties.sheetId;
          }
          if InfoPrefix <= properties.title {
            infoSheetID := properties.sheetId;
          }
        }
        k := k + 1;
      }
      assert replies[..k] == replies;
    }
  }

  /** Reply `i` matches and no later reply does. */
  ghost predicate IsLast(replies: seq<Option<Reply>>, prefix: string, i: int) {
    0 <= i < |replies| && Matches(replies[i], prefix) &&
    forall j :: i < j < |replies| ==> !Matches(replies[j], prefix)
  }

  /** An ID that `LastWithPrefix` finds is that of the last matching reply. */
  lemma {:induction false} LastWithPrefixSound(replies: seq<Option<Reply>>, prefix: string)
    requires LastWithPrefix(replies, prefix).Some?
    ensures exists i ::
      IsLast(replies, prefix, i) && Added(replies[i]).value.sheetId == LastWithPrefix(replies, prefix).value
  {
    var n := |replies| - 1;
    if Matches(replies[n], prefix) {
      assert IsLast(replies, prefix, n);
    } else {
      var init := replies[..n];
      LastWithPrefixSound(init, prefix);
      var i :| IsLast(init, prefix, i) && Added(init[i]).value.sheetId == LastWithPrefix(init, prefix).value;
      assert replies[i] == init[i];
      assert IsLast(replies, prefix, i);
    }
  }

  /** The last matching reply is the one whose ID `LastWithPrefix` finds. */
  lemma {:induction false} LastWithPrefixComplete(replies: seq<Option<Reply>>, prefix: string, i: int)
    requires IsLast(replies, prefix, i)
    ensures LastWithPrefix(replies, prefix) == Some(Added(replies[i]).value.sheetId)
  {
    var n := |replies| - 1;
    if i < n {
      var init := replies[..n];
      assert !Matches(replies[n], prefix);
      assert IsLast(init, prefix, i);
      LastWithPrefixComplete(init, prefix, i);
    }
  }

  /**
    `LastWithPrefix` finds `id` exactly when the last reply that matches
    carries that ID.
   */
  lemma LastWithPrefixSome(replies: seq<Option<Reply>>, prefix: string, id: int)
    ensures LastWithPrefix(replies, prefix) == Some(id) <==>
      exists i :: IsLast(replies, prefix, i) && Added(replies[i]).value.sheetId == id
  {
    if LastWithPrefix(replies, prefix) == Some(id) {
      LastWithPrefixSound(replies, prefix);
    }
    if exists i :: IsLast(replies, prefix, i) && Added(replies[i]).value.sheetId == id {
      var i :| IsLast(replies, prefix, i) && Added(replies[i]).value.sheetId == id;
      LastWithPrefixComplete(replies, prefix, i);
    }
  }

  /** A reply that did not add a sheet, as the service answers a deletion. */
  predicate AddsNothing(reply: Option<Reply>) {
    Added(reply).None?
  }

  /**
    The replies to a reset batch, one per request in order: the first adds
    the "Tweets" sheet, the second the "Information" sheet, and the
    deletions add nothing. Starting from -1, the selection picks the two
    new sheets' IDs, since neither title prefix is a prefix of the other
    title.
   */
  lemma ResetSelectsNewSheets(replies: seq<Option<Reply>>, tweetsSuffix: string, infoSuffix: string,
                              tweetsId: int, infoId: int)
    requires |replies| >= 2
    requires Added(replies[0]) == Some(SheetProperties(tweetsId, TweetsPrefix + tweetsSuffix))
    requires Added(replies[1]) == Some(SheetProperties(infoId, InfoPrefix + infoSuffix))
    requires forall i :: 2 <= i < |replies| ==> AddsNothing(replies[i])
    ensures OrElse(LastWithPrefix(replies, TweetsPrefix), -1) == tweetsId
    ensures OrElse(LastWithPrefix(replies, InfoPrefix), -1) == infoId
  {
    var tweetsTitle, infoTitle := TweetsPrefix + tweetsSuffix, InfoPrefix + infoSuffix;
    assert tweetsTitle[0] == 'T' && infoTitle[0] == 'I';
    assert !(InfoPrefix <= tweetsTitle) && !(TweetsPrefix <= infoTitle);
    assert IsLast(replies, TweetsPrefix, 0);
    assert IsLast(replies, InfoPrefix, 1);
    LastWithPrefixComplete(replies, TweetsPrefix, 0);
    LastWithPrefixComplete(replies, InfoPrefix, 1);
  }
}
