/**
 * The stateful part of `scrapeHelpPages` (index.js:15-20, 40-89): the output
 * directory as an object whose fields the run updates in place, the string
 * `markdownContent` built by appending in two loops, and the loop over the
 * discovered links. Each method is proved against the functions of module
 * Driver and Images, whose properties are proved there.
 */
module Crawler {
  import opened Wrappers
  import opened Sanitiser
  import opened Links
  import opened Extract
  import opened World
  import opened Images
  import opened Markdown
  import opened Driver

  lemma AppendAssoc<T>(x: seq<T>, y: seq<T>, z: seq<T>)
    ensures x + (y + z) == x + y + z
  {
  }

  /** The output directory `./help_pages` and its `images` subdirectory. */
  class HelpPages {
    /** The file names in `help_pages/images`. */
    var images: set<string>
    /** The documents in `help_pages`, by file name. */
    var docs: map<string, string>
    /** The URLs handed to the fetcher so far. */
    ghost var fetched: seq<string>
    /** The links whose processing threw so far (each logged at index.js:87). */
    ghost var failed: seq<string>

    ghost function State(): Dir
      reads this
    {
      Dir(images, docs, fetched, failed)
    }

    /** The directories as found at start-up; index.js:12-13 create them when absent. */
    constructor (existingImages: set<string>, existingDocs: map<string, string>)
      ensures State() == Dir(existingImages, existingDocs, [], [])
    {
      images := existingImages;
      docs := existingDocs;
      fetched := [];
      failed := [];
    }

    /** `downloadImage` (index.js:15-20) saving under `name`: fetch, then write the file. */
    method DownloadImage(url: string, name: string, o: Oracles) returns (ok: bool)
      modifies this
      ensures ok == o.fetch(url)
      ensures images == if ok then old(images) + {name} else old(images)
      ensures fetched == old(fetched) + [url]
      ensures docs == old(docs) && failed == old(failed)
    {
      fetched := fetched + [url];
      ok := o.fetch(url);
      if ok {
        images := images + {name};
      }
    }

    /**
     * The body of the image loop (index.js:62-75) for one image: the
     * reference appended to the document, or None when the `try` throws.
     */
    method MaterializeImage(src: string, o: Oracles) returns (ref: Option<string>)
      modifies this
      ensures var a := MaterializeOne(old(images), src, o);
        images == a.names && fetched == old(fetched) + ToSeq(a.fetched) && ref == a.ref
      ensures docs == old(docs) && failed == old(failed)
    {
      var pathname := o.parse(src);
      if pathname.None? {
        return None;
      }
      var imgName := Basename(pathname.value);
      var localImgPath := LocalPath(imgName);
      if !(imgName == [] || imgName in images) {
        var ok := DownloadImage(src, imgName, o);
        if !ok {
          return None;
        }
      }
      ref := Some(localImgPath);
    }

    /**
     * index.js:54-76: the heading, every paragraph, then a reference for
     * every image handled without error, downloading missing images.
     */
    method ComposeMarkdown(page: Page, o: Oracles) returns (markdownContent: string)
      modifies this
      ensures var b := MaterializeAll(old(images), page.images, o);
        && markdownContent == Body(page.title, page.paragraphs, b.refs)
        && images == b.names && fetched == old(fetched) + b.fetched
      ensures docs == old(docs) && failed == old(failed)
    {
      markdownContent := "# " + page.title + "\n\n";
      var ps := page.paragraphs;
      var i := 0;
      while i < |ps|
        invariant 0 <= i <= |ps|
        invariant markdownContent == Heading(page.title) + Blocks(ps[..i])
      {
        assert ps[..i + 1][..i] == ps[..i];
        markdownContent := markdownContent + ps[i] + "\n\n";
        i := i + 1;
      }
      assert ps[..i] == ps;
      markdownContent := AppendImages(markdownContent, page.images, o);
    }

    /**
     * The image loop of index.js:61-76: `doc` followed by a reference for
     * every image handled without error, downloading missing images.
     */
    method AppendImages(doc: string, srcs: seq<string>, o: Oracles) returns (markdownContent: string)
      modifies this
      ensures var b := MaterializeAll(old(images), srcs, o);
        && markdownContent == doc + ImageBlocks(b.refs)
        && images == b.names && fetched == old(fetched) + b.fetched
      ensures docs == old(docs) && failed == old(failed)
    {
      markdownContent := doc;
      ghost var acc := MaterializeAll(images, [], o);
      var j := 0;
      while j < |srcs|
        invariant 0 <= j <= |srcs|
        invariant acc == MaterializeAll(old(images), srcs[..j], o)
        invariant markdownContent == doc + ImageBlocks(acc.refs)
        invariant images == acc.names && fetched == old(fetched) + acc.fetched
        invariant docs == old(docs) && failed == old(failed)
      {
        ghost var prev := acc;
        ghost var a := MaterializeOne(images, srcs[j], o);
        var ref := MaterializeImage(srcs[j], o);
        MaterializeAllStep(old(images), srcs, j, o);
        acc := Extend(prev, a);
        AppendAssoc(old(fetched), prev.fetched, ToSeq(a.fetched));
        if ref.Some? {
          AppendImageBlock(doc, prev.refs, ref.value);
          markdownContent := markdownContent + (ImageLine(ref.value) + "\n\n");
        } else {
          assert acc.refs == prev.refs;
        }
        j := j + 1;
      }
      assert srcs[..j] == srcs;
    }

    /**
     * One iteration of the link loop: the `try` of index.js:41-85 and its
     * `catch` at 86-88. `written` tells which of the two ran to the end.
     */
    method ProcessLink(link: string, o: Oracles) returns (written: bool)
      modifies this
      ensures State() == AfterLink(old(State()), link, o)
      ensures written <==> Writes(link, o).Some?
    {
      var rendered := o.render(link);
      if rendered.None? {
        failed := failed + [link];
        return false;
      }
      var data := ExtractPage(rendered.value);
      var markdownContent := ComposeMarkdown(data, o);
      var fileName := FileName(data.title);
      if o.writable(fileName) {
        docs := docs[fileName := markdownContent];
        written := true;
      } else {
        failed := failed + [link];
        written := false;
      }
    }

    /** The loop over the discovered links (index.js:40-89), in order. */
    method Crawl(links: seq<string>, o: Oracles)
      modifies this
      ensures State() == AfterLinks(old(State()), links, o)
    {
      var i := 0;
      while i < |links|
        invariant 0 <= i <= |links|
        invariant State() == AfterLinks(old(State()), links[..i], o)
      {
        assert links[..i + 1][..i] == links[..i];
        var _ := ProcessLink(links[i], o);
        i := i + 1;
      }
      assert links[..i] == links;
    }

    /**
     * The run after the browser is up (index.js:29-89): discovery on the
     * entry page, then every link. `entryHrefs` is None when the entry page
     * cannot be rendered; the run then stops without writing anything.
     */
    method Run(entryHrefs: Option<seq<string>>, o: Oracles) returns (ok: bool)
      modifies this
      ensures ok <==> entryHrefs.Some?
      ensures ok ==> Scrape(old(State()), entryHrefs, o) == Some(State())
      ensures !ok ==> State() == old(State())
    {
      if entryHrefs.None? {
        return false;
      }
      var links := Discover(entryHrefs.value);
      Crawl(links, o);
      ok := true;
    }
  }
}
