/**
 * The document body built in `markdownContent` (index.js:54-72): the title
 * heading, then every paragraph, then a reference for every image that was
 * handled without error, each followed by a blank line.
 */
module Markdown {

  /** `# ${title}` and a blank line. */
  function Heading(title: string): string {
    "# " + title + "\n\n"
  }

  /** Every item followed by a blank line, in order. */
  function Blocks(items: seq<string>): string
    decreases |items|
  {
    if items == [] then []
    else Blocks(items[..|items| - 1]) + items[|items| - 1] + "\n\n"
  }

  /** The reference to a local image: `![Mynd](images/<name>)`. */
  function ImageLine(ref: string): string {
    "![Mynd](" + ref + ")"
  }

  /** The reference line of every image, in order. */
  function ImageLines(refs: seq<string>): seq<string>
    decreases |refs|
  {
    if refs == [] then []
    else ImageLines(refs[..|refs| - 1]) + [ImageLine(refs[|refs| - 1])]
  }

  /** The reference line of every image, each followed by a blank line. */
  function ImageBlocks(refs: seq<string>): string
    decreases |refs|
  {
    if refs == [] then []
    else ImageBlocks(refs[..|refs| - 1]) + ImageLine(refs[|refs| - 1]) + "\n\n"
  }

  /** The document for a page with this title, these paragraphs and these image references. */
  function Body(title: string, paragraphs: seq<string>, refs: seq<string>): string {
    Heading(title) + Blocks(paragraphs) + ImageBlocks(refs)
  }

  /** Appending blocks one list after another is appending the lists. */
  lemma {:induction false} BlocksAppend(a: seq<string>, b: seq<string>)
    ensures Blocks(a + b) == Blocks(a) + Blocks(b)
    decreases |b|
  {
    if b == [] {
      assert a + b == a;
    } else {
      var init := b[..|b| - 1];
      assert (a + b)[..|a + b| - 1] == a + init;
      BlocksAppend(a, init);
    }
  }

  /** The image blocks are the blocks of the image lines. */
  lemma {:induction false} ImageBlocksAreBlocks(refs: seq<string>)
    ensures ImageBlocks(refs) == Blocks(ImageLines(refs))
    decreases |refs|
  {
    if refs != [] {
      var init := refs[..|refs| - 1];
      ImageBlocksAreBlocks(init);
      var lines := ImageLines(refs);
      assert lines[..|lines| - 1] == ImageLines(init);
    }
  }

  /** Appending one more reference's line to a document ending in the image blocks of `refs`. */
  lemma AppendImageBlock(doc: string, refs: seq<string>, ref: string)
    ensures doc + ImageBlocks(refs) + (ImageLine(ref) + "\n\n") == doc + ImageBlocks(refs + [ref])
  {
    assert (refs + [ref])[..|refs|] == refs;
  }

  /**
   * The body is one flat list of blank-line-separated blocks: the heading
   * line, each paragraph in order, then each image reference in order.
   */
  lemma BodyIsBlocks(title: string, paragraphs: seq<string>, refs: seq<string>)
    ensures Body(title, paragraphs, refs) == Blocks(["# " + title] + paragraphs + ImageLines(refs))
  {
    var h: seq<string> := ["# " + title];
    ImageBlocksAreBlocks(refs);
    BlocksAppend(h + paragraphs, ImageLines(refs));
    BlocksAppend(h, paragraphs);
    assert h[..0] == [];
  }

  /** Whatever the paragraphs and images, the body begins with the title heading. */
  lemma BodyStartsWithHeading(title: string, paragraphs: seq<string>, refs: seq<string>)
    ensures |Heading(title)| <= |Body(title, paragraphs, refs)|
    ensures Body(title, paragraphs, refs)[..|Heading(title)|] == Heading(title)
  {
  }
}
