/**
 The HTML digest of a post: a fixed header holding the title, one block per
 item, a fixed footer.
 */
module Content {
  import opened Rows

  /** What the builder reads of an item: title, body and link. */
  datatype ContentItem = ContentItem(title: string, content: string, link: string)

  /** The result of `Build`: the page, or the empty string and an error. */
  datatype Html = Html(body: string, failed: bool)

  /** The page head; the title appears both in `<title>` and in `<h1>`. */
  function Header(title: string): string
  {
    "<html>\n  <head>\n    <title>" + title + "</title>\n  </head>\n  <body>\n    <h1>" + title + "</h1>\n    <br>\n"
  }

  /** The block of one item: its link, title and body, verbatim. */
  function Block(item: ContentItem): string
  {
    "    <hr>\n    <a href=\"" + item.link + "\">\n      <h3>" + item.title + "</h3>\n    </a>\n    <br>\n    <p>" + item.content + "</p>\n"
  }

  const Footer: string := "    <br><br>\n  </body>\n</html>\n"

  /** The item blocks one after the other, in item order. */
  function Blocks(items: seq<ContentItem>): string
  {
    if |items| == 0 then "" else Block(items[0]) + Blocks(items[1..])
  }

  /** The builder's loop: append each item's block to the page built so far. */
  function AppendBlocks(body: string, items: seq<ContentItem>): (r: string)
    ensures r == body + Blocks(items)
    decreases |items|
  {
    if |items| == 0 then body
    else
      var next := body + Block(items[0]);
      ConcatAssociates(body, Block(items[0]), Blocks(items[1..]));
      AppendBlocks(next, items[1..])
  }

  /** `Content.Build`. */
  function Build(title: string, items: seq<ContentItem>): (r: Html)
    ensures r.failed <==> |items| == 0
    ensures r.failed ==> r.body == ""
    ensures !r.failed ==> r.body == Header(title) + Blocks(items) + Footer
  {
    if |items| == 0 then Html("", true)
    else Html(AppendBlocks(Header(title), items) + Footer, false)
  }

  /** The blocks of a concatenation are the concatenation of the blocks: every item
      contributes its own block and nothing else, in input order. */
  lemma {:induction false} BlocksOfConcat(a: seq<ContentItem>, b: seq<ContentItem>)
    ensures Blocks(a + b) == Blocks(a) + Blocks(b)
  {
    if |a| == 0 {
      assert a + b == b;
    } else {
      assert (a + b)[1..] == a[1..] + b;
      assert (a + b)[0] == a[0];
      BlocksOfConcat(a[1..], b);
    }
  }

  /** One more item adds exactly its block just before the footer. */
  lemma AppendingAnItem(title: string, items: seq<ContentItem>, item: ContentItem)
    requires |items| > 0
    ensures Build(title, items + [item]).body == Header(title) + Blocks(items) + Block(item) + Footer
  {
    var one := [item];
    assert one[1..] == [];
    var b := Block(item);
    assert Blocks(one) == b;
    BlocksOfConcat(items, one);
    var h := Header(title);
    var bs := Blocks(items);
    assert Build(title, items + one).body == h + (bs + b) + Footer;
    ConcatAssociates(h, bs, b);
  }

  /** A built page is a whole HTML document: it opens with the `<html>` line and
      closes with the `</html>` line, whatever the title and items. */
  lemma PageIsADocument(title: string, items: seq<ContentItem>)
    requires |items| > 0
    ensures |Build(title, items).body| >= 15
    ensures Build(title, items).body[..7] == "<html>\n"
    ensures Build(title, items).body[|Build(title, items).body| - 8..] == "</html>\n"
  {
    var h := Header(title);
    var rest := Blocks(items) + Footer;
    assert h[..7] == "<html>\n";
    ConcatAssociates(h, Blocks(items), Footer);
    var body := h + rest;
    assert Build(title, items).body == body;
    assert body[..7] == h[..7];
    var fl := |Footer|;
    assert Footer[fl - 8..] == "</html>\n";
    assert body[|body| - 8..] == Footer[fl - 8..];
  }
}
