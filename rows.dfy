/**
  The spreadsheet row derived from one exported tweet, and the header row
  whose column order it must follow.
 */
module Rows {
  import opened Tweets
  import References

  /** A spreadsheet cell as the export sends it: a string, a boolean or a number. */
  datatype Cell = Text(s: string) | Flag(b: bool) | Count(n: int)

  type Row = seq<Cell>

  /** The header row written when the spreadsheet is prepared. */
  const Columns: seq<string> := [
    "Date/Time (ET)", "Link", "Text", "HasVideos", "HasPhotos",
    "IsQuoted", "IsPin", "IsReply", "IsRetweet", "IsSelfThread",
    "Views", "Likes", "Retweets", "Replies", "Quoted Tweet/Tweet Replied To"]

  /** The spreadsheet's columns, one per header title. */
  datatype Column =
    | DateTime | Link | Body | HasVideos | HasPhotos
    | IsQuoted | IsPin | IsReply | IsRetweet | IsSelfThread
    | Views | Likes | Retweets | Replies | Reference

  /** The columns in header order. */
  const Layout: seq<Column> := [
    DateTime, Link, Body, HasVideos, HasPhotos,
    IsQuoted, IsPin, IsReply, IsRetweet, IsSelfThread,
    Views, Likes, Retweets, Replies, Reference]

  /** The header title of a column. */
  function Title(c: Column): string {
    match c
    case DateTime => "Date/Time (ET)"
    case Link => "Link"
    case Body => "Text"
    case HasVideos => "HasVideos"
    case HasPhotos => "HasPhotos"
    case IsQuoted => "IsQuoted"
    case IsPin => "IsPin"
    case IsReply => "IsReply"
    case IsRetweet => "IsRetweet"
    case IsSelfThread => "IsSelfThread"
    case Views => "Views"
    case Likes => "Likes"
    case Retweets => "Retweets"
    case Replies => "Replies"
    case Reference => "Quoted Tweet/Tweet Replied To"
  }

  /** What a column holds for a tweet, read off the column's title. */
  function Field(c: Column, t: Tweet, formatTime: int -> string): Cell {
    match c
    case DateTime => Text(formatTime(t.timeParsed))
    case Link => Text(t.permanentURL)
    case Body => Text(t.text)
    case HasVideos => Flag(t.videos != [])
    case HasPhotos => Flag(t.photos != [])
    case IsQuoted => Flag(t.isQuoted)
    case IsPin => Flag(t.isPin)
    case IsReply => Flag(t.isReply)
    case IsRetweet => Flag(t.isRetweet)
    case IsSelfThread => Flag(t.isSelfThread)
    case Views => Count(t.views)
    case Likes => Count(t.likes)
    case Retweets => Count(t.retweets)
    case Replies => Count(t.replies)
    case Reference => Text(References.ReferenceText(t))
  }

  /**
    The row for one tweet. `formatTime` renders an instant in the fixed
    Eastern time zone as "YYYY-MM-DD hh:mm:ss".
   */
  function MakeRow(t: Tweet, formatTime: int -> string): (r: Row)
    ensures |r| == |Columns|
  {
    [ Text(formatTime(t.timeParsed)),
      Text(t.permanentURL),
      Text(t.text),
      Flag(|t.videos| > 0),
      Flag(|t.photos| > 0),
      Flag(t.isQuoted),
      Flag(t.isPin),
      Flag(t.isReply),
      Flag(t.isRetweet),
      Flag(t.isSelfThread),
      Count(t.views),
      Count(t.likes),
      Count(t.retweets),
      Count(t.replies),
      Text(References.ReferenceText(t)) ]
  }

  /**
    Every row has one cell per header column, and the cell under each title
    is the field that title names; the media columns are presence flags.
   */
  lemma RowMatchesColumns(t: Tweet, formatTime: int -> string)
    ensures |MakeRow(t, formatTime)| == |Columns| == |Layout| == 15
    ensures forall i :: 0 <= i < |Columns| ==> Columns[i] == Title(Layout[i])
    ensures forall i :: 0 <= i < |Columns| ==> MakeRow(t, formatTime)[i] == Field(Layout[i], t, formatTime)
  {
    var r := MakeRow(t, formatTime);
    forall i | 0 <= i < |Columns|
      ensures Columns[i] == Title(Layout[i]) && r[i] == Field(Layout[i], t, formatTime)
    {
      ColumnTitle(i);
      if i <= 2 || i == 14 {
        TextColumn(i, t, formatTime);
      } else if i <= 9 {
        FlagColumn(i, t, formatTime);
      } else {
        CountColumn(i, t, formatTime);
      }
    }
  }

  /** The header title at each position is the title of the column laid out there. */
  lemma ColumnTitle(i: nat)
    requires i < |Columns|
    ensures Columns[i] == Title(Layout[i])
  {
    if i == 0 {
      assert Layout[i] == DateTime;
    } else if i == 1 {
      assert Layout[i] == Link;
    } else if i == 2 {
      assert Layout[i] == Body;
    } else if i == 3 {
      assert Layout[i] == HasVideos;
    } else if i == 4 {
      assert Layout[i] == HasPhotos;
    } else if i == 5 {
      assert Layout[i] == IsQuoted;
    } else if i == 6 {
      assert Layout[i] == IsPin;
    } else if i == 7 {
      assert Layout[i] == IsReply;
    } else if i == 8 {
      assert Layout[i] == IsRetweet;
    } else if i == 9 {
      assert Layout[i] == IsSelfThread;
    } else if i == 10 {
      assert Layout[i] == Views;
    } else if i == 11 {
      assert Layout[i] == Likes;
    } else if i == 12 {
      assert Layout[i] == Retweets;
    } else if i == 13 {
      assert Layout[i] == Replies;
    } else {
      assert Layout[i] == Reference;
    }
  }

  /** The text cells: time, link, text and the reference. */
  lemma TextColumn(i: nat, t: Tweet, formatTime: int -> string)
    requires i == 0 || i == 1 || i == 2 || i == 14
    ensures MakeRow(t, formatTime)[i] == Field(Layout[i], t, formatTime)
  {
    if i == 0 {
      assert Layout[i] == DateTime;
    } else if i == 1 {
      assert Layout[i] == Link;
    } else if i == 2 {
      assert Layout[i] == Body;
    } else {
      assert Layout[i] == Reference;
    }
  }

  /** The boolean cells: media presence and the tweet kind flags. */
  lemma FlagColumn(i: nat, t: Tweet, formatTime: int -> string)
    requires i == 3 || i == 4 || i == 5 || i == 6 || i == 7 || i == 8 || i == 9
    ensures MakeRow(t, formatTime)[i] == Field(Layout[i], t, formatTime)
  {
    if i == 3 {
      assert Layout[i] == HasVideos;
    } else if i == 4 {
      assert Layout[i] == HasPhotos;
    } else if i == 5 {
      assert Layout[i] == IsQuoted;
    } else if i == 6 {
      assert Layout[i] == IsPin;
    } else if i == 7 {
      assert Layout[i] == IsReply;
    } else if i == 8 {
      assert Layout[i] == IsRetweet;
    } else {
      assert Layout[i] == IsSelfThread;
    }
  }

  /** The engagement counts. */
  lemma CountColumn(i: nat, t: Tweet, formatTime: int -> string)
    requires i == 10 || i == 11 || i == 12 || i == 13
    ensures MakeRow(t, formatTime)[i] == Field(Layout[i], t, formatTime)
  {
    if i == 10 {
      assert Layout[i] == Views;
    } else if i == 11 {
      assert Layout[i] == Likes;
    } else if i == 12 {
      assert Layout[i] == Retweets;
    } else {
      assert Layout[i] == Replies;
    }
  }

  /** The rows of a sequence of tweets, one per tweet, in order. */
  function RowsOf(ts: seq<Tweet>, formatTime: int -> string): (r: seq<Row>)
    ensures |r| == |ts|
  {
    if ts == [] then [] else RowsOf(ts[..|ts| - 1], formatTime) + [MakeRow(ts[|ts| - 1], formatTime)]
  }

  lemma RowsOfSnoc(ts: seq<Tweet>, t: Tweet, formatTime: int -> string)
    ensures RowsOf(ts + [t], formatTime) == RowsOf(ts, formatTime) + [MakeRow(t, formatTime)]
  {
    assert (ts + [t])[..|ts|] == ts;
  }
}
