/**
 The feed reader of the scrape worker: keep the feed entries published
 strictly after a checkpoint. Fetching and parsing the feed is done by a
 library; the model receives the parsed entries, or `None` when the fetch or
 the parse failed. Times are integers.
 */
module FeedReader {
  import opened Rows

  /** A parsed feed entry. `published` is `None` when the library could not parse a date. */
  datatype Entry = Entry(title: string, description: string, content: string, link: string, published: Option<int>)

  /** An entry the reader keeps. */
  datatype FeedItem = FeedItem(title: string, description: string, content: string, link: string, pubDate: int)

  /** The reader's answer: the kept items and whether the fetch failed, or a
      panic on an entry without a date (the comparison dereferences it). */
  datatype Read = Read(items: seq<FeedItem>, failed: bool) | ReadPanicked

  predicate IsNewerThan(e: Entry, dateLimit: int)
  {
    e.published.Some? && e.published.value > dateLimit
  }

  /** The item built from a dated entry: every field copied unchanged. */
  function Copy(e: Entry): (fi: FeedItem)
    requires e.published.Some?
    ensures fi.title == e.title && fi.description == e.description && fi.content == e.content
    ensures fi.link == e.link && fi.pubDate == e.published.value
  {
    FeedItem(e.title, e.description, e.content, e.link, e.published.value)
  }

  /** The filtering loop over the entries, in feed order; `None` when it reaches
      an entry without a date. */
  function Select(entries: seq<Entry>, dateLimit: int): (r: Option<seq<FeedItem>>)
    ensures r.None? <==> exists i :: 0 <= i < |entries| && entries[i].published.None?
    ensures r.Some? ==> |r.value| <= |entries|
    ensures r.Some? ==> forall k :: 0 <= k < |r.value| ==> r.value[k].pubDate > dateLimit
    ensures r.Some? ==> forall x :: x in r.value <==>
              exists i :: 0 <= i < |entries| && IsNewerThan(entries[i], dateLimit) && x == Copy(entries[i])
  {
    if |entries| == 0 then Some([])
    else
      var e := entries[0];
      var tail := entries[1..];
      assert forall i :: 0 <= i < |tail| ==> tail[i] == entries[i + 1];
      if e.published.None? then None
      else match Select(tail, dateLimit)
        case None => None
        case Some(rest) =>
          if e.published.value > dateLimit then
            var r := [Copy(e)] + rest;
            assert forall x :: x in r <==> x == Copy(e) || x in rest;
            Some(r)
          else Some(rest)
  }

  /** `FeedReader.ReadFrom`: an empty list and the error when the feed could not
      be read, else the entries newer than `dateLimit`. */
  function ReadFrom(feed: Option<seq<Entry>>, dateLimit: int): (r: Read)
    ensures feed.None? ==> r == Read([], true)
    ensures r.Read? && !r.failed ==> feed.Some? && Select(feed.value, dateLimit) == Some(r.items)
    ensures r.ReadPanicked? <==> feed.Some? && Select(feed.value, dateLimit).None?
  {
    match feed
    case None => Read([], true)
    case Some(entries) =>
      match Select(entries, dateLimit)
      case None => ReadPanicked
      case Some(items) => Read(items, false)
  }

  /** The filter keeps feed order: reading two halves of a feed separately and
      concatenating gives what reading the whole feed gives. */
  lemma {:induction false} SelectPreservesOrder(a: seq<Entry>, b: seq<Entry>, dateLimit: int)
    requires Select(a, dateLimit).Some? && Select(b, dateLimit).Some?
    ensures Select(a + b, dateLimit) == Some(Select(a, dateLimit).value + Select(b, dateLimit).value)
  {
    if |a| == 0 {
      assert a + b == b;
      assert Select(a, dateLimit) == Some([]);
      assert [] + Select(b, dateLimit).value == Select(b, dateLimit).value;
    } else {
      var ab := a + b;
      assert ab[1..] == a[1..] + b;
      assert ab[0] == a[0];
      assert a[0].published.Some? && Select(a[1..], dateLimit).Some?;
      SelectPreservesOrder(a[1..], b, dateLimit);
      var sa := Select(a[1..], dateLimit).value;
      var sb := Select(b, dateLimit).value;
      assert Select(ab[1..], dateLimit) == Some(sa + sb);
      if a[0].published.value > dateLimit {
        assert [Copy(a[0])] + (sa + sb) == ([Copy(a[0])] + sa) + sb;
      }
    }
  }

  /** One entry is kept exactly when its date is strictly after the limit: an
      entry published at the checkpoint itself is not new. */
  lemma SingleEntry(e: Entry, dateLimit: int)
    requires e.published.Some?
    ensures Select([e], dateLimit) == if e.published.value > dateLimit then Some([Copy(e)]) else Some([])
  {
    var one := [e];
    assert one[1..] == [];
    assert Select(one[1..], dateLimit) == Some([]);
    assert one[0] == e;
    var empty: seq<FeedItem> := [];
    assert [Copy(e)] + empty == [Copy(e)];
  }

  function GetTitle(fi: FeedItem): (r: string)
    ensures r == fi.title
  {
    fi.title
  }

  /** The body of an item: its content, or its description when the content is empty. */
  function GetContent(fi: FeedItem): (r: string)
    ensures fi.content != "" ==> r == fi.content
    ensures fi.content == "" ==> r == fi.description
  {
    if fi.content == "" then fi.description else fi.content
  }

  function GetLink(fi: FeedItem): (r: string)
    ensures r == fi.link
  {
    fi.link
  }
}
