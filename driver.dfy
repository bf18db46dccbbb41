/**
 * The per-link loop of `scrapeHelpPages` (index.js:40-89) as a function of
 * the output directory: each link either writes one document under its
 * sanitised title or throws, which is caught and logged, and the loop goes
 * on with the next link.
 */
module Driver {
  import opened Wrappers
  import opened Sanitiser
  import opened Links
  import opened Extract
  import opened World
  import opened Images
  import opened Markdown

  /**
   * The output directory `./help_pages`: the file names in `images/` and the
   * documents by file name; with the URLs handed to the fetcher and the
   * links whose processing threw, in order.
   */
  datatype Dir = Dir(images: set<string>, docs: map<string, string>, fetched: seq<string>, failed: seq<string>)

  /**
   * The file name a link's document is written under, or None when
   * processing the link throws (navigation, the in-page script or the
   * document write). It depends on the link alone, not on the directory.
   */
  function Writes(link: string, o: Oracles): Option<string> {
    match o.render(link)
    case None => None
    case Some(raw) =>
      var name := FileName(ExtractPage(raw).title);
      if o.writable(name) then Some(name) else None
  }

  /** The body composed for a rendered page when the images directory holds `images`. */
  function PageBody(images: set<string>, raw: RawPage, o: Oracles): string {
    var page := ExtractPage(raw);
    Body(page.title, page.paragraphs, MaterializeAll(images, page.images, o).refs)
  }

  /** The body of the `try` at index.js:41-85 and its `catch` at 86-88. */
  function AfterLink(d: Dir, link: string, o: Oracles): Dir {
    match o.render(link)
    case None => d.(failed := d.failed + [link])
    case Some(raw) =>
      var page := ExtractPage(raw);
      var b := MaterializeAll(d.images, page.images, o);
      var d1 := d.(images := b.names, fetched := d.fetched + b.fetched);
      var name := FileName(page.title);
      if o.writable(name) then d1.(docs := d.docs[name := Body(page.title, page.paragraphs, b.refs)])
      else d1.(failed := d.failed + [link])
  }

  /** The loop over the links, in order. */
  function AfterLinks(d: Dir, links: seq<string>, o: Oracles): Dir
    decreases |links|
  {
    if links == [] then d
    else AfterLink(AfterLinks(d, links[..|links| - 1], o), links[|links| - 1], o)
  }

  /** The links among `[link]` that throw. */
  function Thrown(link: string, o: Oracles): seq<string> {
    if Writes(link, o).None? then [link] else []
  }

  /** The links whose processing throws, in order. */
  function Failures(links: seq<string>, o: Oracles): seq<string>
    decreases |links|
  {
    if links == [] then []
    else Failures(links[..|links| - 1], o) + Thrown(links[|links| - 1], o)
  }

  /**
   * The whole run after the directories exist: discovery on the entry page,
   * then every discovered link. A failure to render the entry page is fatal
   * (None); nothing is written then.
   */
  function Scrape(d: Dir, entryHrefs: Option<seq<string>>, o: Oracles): (r: Option<Dir>)
    ensures r.Some? <==> entryHrefs.Some?
  {
    match entryHrefs
    case None => None
    case Some(hrefs) => Some(AfterLinks(d, Discover(hrefs), o))
  }

  /**
   * A link that throws writes no document and leaves every existing one as
   * it was, and is logged once; one that throws while rendering also leaves
   * the images directory and the fetch log as they were.
   */
  lemma LinkThrows(d: Dir, link: string, o: Oracles)
    requires Writes(link, o).None?
    ensures AfterLink(d, link, o).docs == d.docs
    ensures AfterLink(d, link, o).failed == d.failed + [link]
    ensures o.render(link).None? ==> AfterLink(d, link, o) == d.(failed := d.failed + [link])
  {
  }

  /**
   * A link that succeeds sets the entry for its sanitised name to the page's
   * body, overwriting any earlier one, and changes no other entry.
   */
  lemma LinkWrites(d: Dir, link: string, o: Oracles)
    requires Writes(link, o).Some?
    ensures var d' := AfterLink(d, link, o);
      var name := Writes(link, o).value;
      && name in d'.docs && d'.docs[name] == PageBody(d.images, o.render(link).value, o)
      && (forall k :: k != name ==> (k in d'.docs <==> k in d.docs))
      && (forall k :: k != name && k in d.docs ==> d'.docs[k] == d.docs[k])
      && d'.failed == d.failed
  {
  }

  /** Processing `xs` then `ys` is processing `xs + ys`. */
  lemma {:induction false} AfterLinksAppend(d: Dir, xs: seq<string>, ys: seq<string>, o: Oracles)
    ensures AfterLinks(d, xs + ys, o) == AfterLinks(AfterLinks(d, xs, o), ys, o)
    decreases |ys|
  {
    if ys == [] {
      assert xs + ys == xs;
    } else {
      var init := ys[..|ys| - 1];
      assert (xs + ys)[..|xs + ys| - 1] == xs + init;
      assert (xs + ys)[|xs + ys| - 1] == ys[|ys| - 1];
      AfterLinksAppend(d, xs, init, o);
    }
  }

  /** One link logs itself exactly when it throws; with another log in place, only the log differs. */
  lemma AfterLinkLog(e: Dir, log: seq<string>, link: string, o: Oracles)
    ensures AfterLink(e, link, o).failed == e.failed + Thrown(link, o)
    ensures AfterLink(e.(failed := log), link, o) == AfterLink(e, link, o).(failed := log + Thrown(link, o))
  {
  }

  /** The failure log grows by exactly the links that throw, in order. */
  lemma {:induction false} CrawlFailures(d: Dir, links: seq<string>, o: Oracles)
    ensures AfterLinks(d, links, o).failed == d.failed + Failures(links, o)
    decreases |links|
  {
    if links != [] {
      var init, link := links[..|links| - 1], links[|links| - 1];
      CrawlFailures(d, init, o);
      var e := AfterLinks(d, init, o);
      AfterLinkLog(e, e.failed, link, o);
    }
  }

  /** Files are only ever added to the images directory. */
  lemma {:induction false} CrawlKeepsImages(d: Dir, links: seq<string>, o: Oracles)
    ensures d.images <= AfterLinks(d, links, o).images
    decreases |links|
  {
    if links != [] {
      var init := links[..|links| - 1];
      CrawlKeepsImages(d, init, o);
      var e := AfterLinks(d, init, o);
      var link := links[|links| - 1];
      if o.render(link).Some? {
        MaterializeAllResolves(e.images, ExtractPage(o.render(link).value).images, o);
      }
    }
  }

  /** Some link among `links` writes the document `name`. */
  predicate SomeLinkWrites(links: seq<string>, name: string, o: Oracles)
    decreases |links|
  {
    links != [] && (SomeLinkWrites(links[..|links| - 1], name, o) || Writes(links[|links| - 1], o) == Some(name))
  }

  /** The documents after one link, in terms of `Writes` alone. */
  lemma DocsAfterLink(e: Dir, link: string, o: Oracles)
    ensures AfterLink(e, link, o).docs ==
      if Writes(link, o).Some? then e.docs[Writes(link, o).value := PageBody(e.images, o.render(link).value, o)]
      else e.docs
  {
  }

  /**
   * After the loop the directory holds exactly the documents it held before
   * and those some link wrote.
   */
  lemma {:induction false} CrawlDocNames(d: Dir, links: seq<string>, o: Oracles)
    ensures forall k :: k in AfterLinks(d, links, o).docs <==> k in d.docs || SomeLinkWrites(links, k, o)
    decreases |links|
  {
    if links != [] {
      var init, link := links[..|links| - 1], links[|links| - 1];
      CrawlDocNames(d, init, o);
      DocsAfterLink(AfterLinks(d, init, o), link, o);
    }
  }

  /** A document that no link writes is unchanged by the loop. */
  lemma {:induction false} CrawlKeepsUnwritten(d: Dir, links: seq<string>, o: Oracles, name: string)
    requires name in d.docs && !SomeLinkWrites(links, name, o)
    ensures name in AfterLinks(d, links, o).docs && AfterLinks(d, links, o).docs[name] == d.docs[name]
    decreases |links|
  {
    if links != [] {
      var init, link := links[..|links| - 1], links[|links| - 1];
      CrawlKeepsUnwritten(d, init, o, name);
      DocsAfterLink(AfterLinks(d, init, o), link, o);
    }
  }

  /**
   * Last write wins: when `l` writes `name` and no later link writes it, the
   * document under `name` at the end is the body `l` composed.
   */
  lemma LastWriteWins(d: Dir, xs: seq<string>, l: string, ys: seq<string>, o: Oracles)
    requires Writes(l, o).Some?
    requires !SomeLinkWrites(ys, Writes(l, o).value, o)
    ensures var name := Writes(l, o).value;
      var f := AfterLinks(d, xs + [l] + ys, o);
      name in f.docs && f.docs[name] == PageBody(AfterLinks(d, xs, o).images, o.render(l).value, o)
  {
    var name := Writes(l, o).value;
    var e := AfterLinks(d, xs + [l], o);
    assert (xs + [l])[..|xs + [l]| - 1] == xs;
    LinkWrites(AfterLinks(d, xs, o), l, o);
    AfterLinksAppend(d, xs + [l], ys, o);
    CrawlKeepsUnwritten(e, ys, o, name);
  }

  /** Logging a failure has no effect on later processing. */
  lemma {:induction false} LogIsInert(d: Dir, log: seq<string>, links: seq<string>, o: Oracles)
    ensures AfterLinks(d.(failed := log), links, o) == AfterLinks(d, links, o).(failed := log + Failures(links, o))
    decreases |links|
  {
    if links != [] {
      var init, link := links[..|links| - 1], links[|links| - 1];
      LogIsInert(d, log, init, o);
      var e := AfterLinks(d, init, o);
      AfterLinkLog(e, log + Failures(init, o), link, o);
    }
  }

  /**
   * Failure isolation: a link whose page cannot be rendered can be removed
   * from the list without changing any document, the images directory or
   * the fetches; only the failure log differs.
   */
  lemma RenderFailureIsolated(d: Dir, xs: seq<string>, l: string, ys: seq<string>, o: Oracles)
    requires o.render(l).None?
    ensures var with := AfterLinks(d, xs + [l] + ys, o);
      var without := AfterLinks(d, xs + ys, o);
      with.docs == without.docs && with.images == without.images && with.fetched == without.fetched
  {
    var a := AfterLinks(d, xs, o);
    assert (xs + [l])[..|xs + [l]| - 1] == xs;
    AfterLinksAppend(d, xs + [l], ys, o);
    AfterLinksAppend(d, xs, ys, o);
    LogIsInert(a, a.failed + [l], ys, o);
  }

  /**
   * The end-to-end case of a site whose entry page links to A, B and A again,
   * where B cannot be rendered and A's document can be written: discovery
   * yields [A, B], A's document exists afterwards, and B is the one failure.
   */
  lemma TwoLinkScenario(d: Dir, a: string, b: string, o: Oracles)
    requires a != b && Contains(a, Host) && Contains(b, Host)
    requires Writes(a, o).Some? && o.render(b).None?
    ensures Discover([a, b, a]) == [a, b]
    ensures var f := Scrape(d, Some([a, b, a]), o).value;
      && Writes(a, o).value in f.docs
      && f.docs[Writes(a, o).value] == PageBody(d.images, o.render(a).value, o)
      && f.failed == d.failed + [b]
  {
    DiscoverRepeated(a, b);
    TwoLinkDocs(d, a, b, o);
    TwoLinkFailures(d, a, b, o);
  }

  /** Processing [A, B] when A writes and B writes nothing else: A's document is the body A composed. */
  lemma TwoLinkDocs(d: Dir, a: string, b: string, o: Oracles)
    requires Writes(a, o).Some? && o.render(b).None?
    ensures var f := AfterLinks(d, [a, b], o);
      && Writes(a, o).value in f.docs
      && f.docs[Writes(a, o).value] == PageBody(d.images, o.render(a).value, o)
  {
    assert !SomeLinkWrites([b], Writes(a, o).value, o) by {
      assert [b][..0] == [];
    }
    assert [a, b] == [] + [a] + [b];
    LastWriteWins(d, [], a, [b], o);
  }

  /** Processing [A, B] when A writes and B cannot be rendered logs B alone. */
  lemma TwoLinkFailures(d: Dir, a: string, b: string, o: Oracles)
    requires Writes(a, o).Some? && o.render(b).None?
    ensures AfterLinks(d, [a, b], o).failed == d.failed + [b]
  {
    assert Thrown(a, o) == [] && Thrown(b, o) == [b];
    assert Failures([a], o) == [] by {
      assert [a][..0] == [];
    }
    assert Failures([a, b], o) == [b] by {
      assert [a, b][..1] == [a];
    }
    CrawlFailures(d, [a, b], o);
  }
}
