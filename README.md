# skrapari in Dafny

A model of `scrapeHelpPages` in `index.js`, the crawler that copies the help
site `hjalp.unak.is` into a local directory. The run has five parts:

1. It renders the entry page and collects every anchor target that contains
   the host name, keeping the first occurrence of each.
2. For each link it renders the page and reads a title, the trimmed text of
   every paragraph and list item, and the source URL of every image.
3. It composes a Markdown body: a heading, the text blocks, then one
   reference per image that was materialised without error.
4. An image is materialised by taking the basename of its URL's pathname as
   its local name. It is downloaded only when no file of that name exists yet
   in `help_pages/images`.
5. The body is written to `help_pages/<sanitised title>.md`. A failure while
   handling a link is caught, logged, and the loop goes on with the next link.
   A failure while handling an image drops only that image's reference.

The project has one module per part of the program:

- `Sanitiser`: the file-name expression. Each regular-expression replacement
  is a function. There is also an independent reference definition: the
  letter-and-digit runs of the title, joined by single hyphens.
- `Links`: the host filter and the first-occurrence deduplication.
- `Extract`: the page data the in-page script returns. This includes the
  ECMAScript `trim` and the title fallback chain.
- `Images`: POSIX basename, the existence check, the download and the image
  loop, as functions of the images directory.
- `Markdown`: the document body.
- `Driver`: the loop over the links, as a function of the output directory.
- `Crawler`: the imperative form. It is a class `HelpPages` whose fields are
  the two directories. Its methods run the same loops with `while`
  statements, and each method is proved equal to the corresponding
  `Driver`/`Images` function.
- `World` and `Wrappers`: the collaborators the program calls but whose code
  is not modelled, and the option type.

Collaborators outside the program are parameters, in `World.Oracles`:

- the browser: what the in-page script returns for a link, or nothing when
  navigating or evaluating throws;
- WHATWG URL parsing: the pathname, or nothing when `new URL` throws;
- the image download: whether it completes and writes the file;
- the document write: whether `writeFileSync` succeeds for a file name.

The entry page's anchor targets are an input of `Driver.Scrape` and
`Crawler.HelpPages.Run`.

Three behaviours of the code worth noting:

- An image's local name is POSIX `path.basename` of the pathname. Trailing
  slashes are ignored, so `/a/b/` names `b`, not an empty last segment.
- The pathname `/` gives the empty name. `path.join` then yields the images
  directory itself. It exists, so nothing is fetched, and the document refers
  to `images` (`Images.BasenameOfRoot`, `Images.RootImage`).
- A title with no letter or digit is written as `.md`
  (`Sanitiser.NoAlnumTitle`).

## Model

| member | source | states |
|---|---|---|
| Sanitiser.Collapse | index.js:81 | the result has no two adjacent hyphens, keeps every non-hyphen character in order, adds no character and starts like its input |
| Sanitiser.StemShape | index.js:78-82 | the sanitised stem uses only `[a-z0-9-]`, has no `--` and no hyphen at either end |
| Sanitiser.FileNameShape | index.js:78-82 | the file name is such a stem followed by `.md` |
| Sanitiser.StripKeepsStemShape | index.js:82 | removing the edge hyphens from a collapsed `[a-z0-9-]` string leaves a well-shaped stem |
| Sanitiser.UnhyphenatedDash | index.js:80 | after the first replacement, the characters other than hyphens are exactly the letters and digits of the input, in order |
| Sanitiser.UnhyphenatedStrip | index.js:82 | removing the edge hyphens removes nothing but hyphens |
| Sanitiser.StemKeepsAlnums | index.js:78-82 | with its hyphens removed, the stem is exactly the letters and digits of the lowercased title, in order |
| Sanitiser.CollapseFixpoint | index.js:81 | collapsing leaves a string without `--` unchanged |
| Sanitiser.StemFixpoint | index.js:78-82 | a title already shaped like a stem is its own stem |
| Sanitiser.StemIdempotent | index.js:78-82 | sanitising a stem again changes nothing, so its file name is the original title's |
| Sanitiser.NoAlnumTitle | index.js:78-82 | a title with no letter or digit still gets a name, the bare `.md` |
| Sanitiser.WordsShape | index.js:80 | the reference words are non-empty runs of letters and digits, and there are none exactly when the title has no letter or digit |
| Sanitiser.JoinEdges | index.js:82 | joined words begin and end with a letter or digit |
| Sanitiser.CollapseDash | index.js:80-81 | the first two replacements give the words joined by single hyphens, plus a hyphen in front when the title starts with a separator and one at the end when it ends with a separator after some word |
| Sanitiser.StripJoined | index.js:82 | the third replacement then removes exactly those edge hyphens |
| Sanitiser.StemIsJoinedWords | index.js:78-82 | the stem equals the reference: the maximal letter-and-digit runs of the lowercased title, joined by single hyphens |
| Sanitiser.FileNameExample | index.js:78-82 | the title "Um reikninginn minn" is written as `um-reikninginn-minn.md` |
| Links.IndexOf | index.js:35 | `indexOf` is -1 exactly when the value is absent, and otherwise the first index holding it |
| Links.OnSite | index.js:34 | an href is kept exactly when it contains the host name |
| Links.OnSiteOrder | index.js:34 | the host filter keeps the relative order of first occurrences |
| Links.FirstsFromMembers | index.js:35 | the filter keeps exactly the values whose first occurrence is at or after the start index |
| Links.FirstsFromOrder | index.js:35 | the values it keeps are ordered by first occurrence |
| Links.DistinctIndexOf | index.js:35 | in a list without repeats, every element first occurs at its own index |
| Links.FirstsFromDistinct | index.js:35 | the deduplication keeps a list without repeats unchanged |
| Links.OnSiteOfOnSite | index.js:34 | the host filter keeps a list of on-site links unchanged |
| Links.DiscoverSpec | index.js:31-35 | a link is discovered exactly when some anchor target equals it and it contains the host; no link twice; links in the order of their first anchor |
| Links.DiscoverIdempotent | index.js:31-35 | discovery applied to its own result changes nothing |
| Links.DiscoverRepeated | index.js:31-35 | anchors A, B, A yield the links A, B |
| Extract.Trim | index.js:47 | the result has no ECMAScript white space at either end |
| Extract.TrimShape | index.js:47 | the result is the slice of the input between two all-white-space parts |
| Extract.TrimIdempotent | index.js:47 | trimming twice is trimming once |
| Extract.Title | index.js:45 | the title is never empty; it is the `h1` text when non-empty, else the document title when non-empty, else "Enginn titill" |
| Extract.Paragraphs | index.js:46-48 | there are at most as many paragraphs as elements, each non-empty and trimmed |
| Extract.KeptFromSource | index.js:48 | the k-th non-empty string is the string at its source index |
| Extract.ParagraphsFromSources | index.js:46-48 | paragraph k is the trimmed text of a particular source element |
| Extract.SourcesIncrease | index.js:46-48 | those source elements are in document order |
| Extract.SourcesComplete | index.js:46-48 | every element whose trimmed text is non-empty yields a paragraph |
| Extract.BlankTextDropped | index.js:47-48 | an element whose text is all white space yields no paragraph |
| Extract.ExtractPage | index.js:44-52 | the page data has a non-empty title and non-empty, trimmed paragraphs, and lists the image sources unchanged |
| Images.Basename | index.js:63 | the local name contains no `/` |
| Images.BasenameOfFile | index.js:63 | the basename of `dir/name` is `name` |
| Images.BasenameIgnoresTrailingSlash | index.js:63 | a trailing `/` does not change the basename |
| Images.BasenameOfName | index.js:63 | a non-empty pathname without `/` is its own basename |
| Images.AfterLastSlashOfName | index.js:63 | a name without `/` is its own last segment |
| Images.BasenameOfRoot | index.js:63-64 | the empty pathname and `/` have the empty basename, whose local path is `images` |
| Images.MaterializeOneFetches | index.js:63-67 | a download is attempted exactly when the URL parses and no file has its basename, and it is given the image's URL |
| Images.MaterializeOneSaves | index.js:15-20 | a name is saved exactly when the download succeeds; it is the basename, was absent, and is the only name added |
| Images.RootImage | index.js:62-75 | an image whose URL has the pathname `/` is not fetched and is referred to as `images` |
| Images.MaterializeOneRefers | index.js:62-75 | an image gets a reference exactly when its URL parses and its file is present afterwards; the reference is the file's local path and resolves |
| Images.MaterializeAllStep | index.js:61-76 | the loop one image further is the loop so far followed by that image, handled against the directory the loop left |
| Images.MaterializeAllSaves | index.js:61-76 | across the image loop, each name is saved at most once and never over an existing file; the directory ends as the old names plus the saved ones |
| Images.MaterializeAllResolves | index.js:61-76 | the directory only grows, every reference resolves in it, and there are at most as many references and downloads as images |
| Images.SharedBasename | index.js:63-70 | of two images whose URLs share a basename, the second is not downloaded once the first is present, and both references are to the one file |
| Images.RerunIsCached | index.js:66 | rerunning the loop after every image produced a reference downloads nothing and yields the same references |
| Images.AllImagesFail | index.js:73-75 | when every image fails, there are no references and the directory is unchanged |
| Markdown.BlocksAppend | index.js:57-59 | the blocks of two lists in sequence are the blocks of the concatenated list |
| Markdown.ImageBlocksAreBlocks | index.js:70-72 | the image lines are blocks like the paragraphs: each reference's line followed by a blank line, in order |
| Markdown.AppendImageBlock | index.js:70-72 | appending one image line extends the image blocks by that reference |
| Markdown.BodyIsBlocks | index.js:54-72 | the body is the heading, each paragraph and each image line, in order, each followed by a blank line |
| Markdown.BodyStartsWithHeading | index.js:54-56 | every body begins with the title heading |
| Driver.Scrape | index.js:29-89 | the run completes exactly when the entry page renders |
| Driver.LinkThrows | index.js:86-88 | a link that throws writes no document, changes no existing one and is logged once; if rendering threw, nothing else changes |
| Driver.LinkWrites | index.js:78-85 | a link that succeeds sets its sanitised name to the page's body, overwriting any earlier document, and changes no other document |
| Driver.DocsAfterLink | index.js:41-88 | the documents after one link are given by whether and where that link writes |
| Driver.AfterLinksAppend | index.js:40-89 | processing two lists of links in turn is processing their concatenation |
| Driver.AfterLinkLog | index.js:86-88 | one link logs itself exactly when it throws, and an earlier log changes nothing else it does |
| Driver.CrawlFailures | index.js:40-89 | the failure log grows by exactly the links that throw, in order |
| Driver.CrawlKeepsImages | index.js:40-89 | image files are only ever added |
| Driver.CrawlDocNames | index.js:40-89 | the documents at the end are exactly the earlier ones and those some link wrote |
| Driver.CrawlKeepsUnwritten | index.js:40-89 | a document that no link writes is left as it was |
| Driver.LastWriteWins | index.js:83-84 | when several links write the same name, the last one's body remains |
| Driver.LogIsInert | index.js:86-88 | logging a failure does not affect the rest of the run |
| Driver.RenderFailureIsolated | index.js:40-89 | a link whose page does not render changes no document, image or download of the links around it |
| Driver.TwoLinkScenario | index.js:29-89 | for an entry page with anchors A, B, A where B fails to render, A's document exists afterwards and B is the one failure |
| Crawler.HelpPages.constructor | index.js:9-13 | the output directories as found at start-up, with empty logs |
| Crawler.HelpPages.DownloadImage | index.js:15-20 | the download succeeds as the fetcher says; on success exactly the new name is added, and the URL is logged |
| Crawler.HelpPages.MaterializeImage | index.js:62-75 | one pass of the image loop updates the directory and returns the reference as `Images.MaterializeOne` describes |
| Crawler.HelpPages.ComposeMarkdown | index.js:54-76 | the composed text is `Markdown.Body` of the title, the paragraphs and the references of the image loop, and the directory ends as that loop leaves it |
| Crawler.HelpPages.AppendImages | index.js:61-76 | the image loop appends one block per reference of `Images.MaterializeAll` and leaves the directory and the fetch log as it does |
| Crawler.HelpPages.ProcessLink | index.js:41-88 | one link takes the directory to `Driver.AfterLink` of it, and reports whether the document was written |
| Crawler.HelpPages.Crawl | index.js:40-89 | the loop over the links takes the directory to `Driver.AfterLinks` of it |
| Crawler.HelpPages.Run | index.js:29-89 | the run succeeds exactly when the entry page renders; it then leaves the directory as `Driver.Scrape` says, and otherwise changes nothing |

## Left out

- Browser launch, stealth plugin, `newPage`, `browser.close` and the waits for a settled network: the browser is the `render` function of `World.Oracles`. A failing launch ends the process before any state changes.
- The DOM: `querySelectorAll`, `innerText` and the resolution of `href` and `src` are not modelled. The raw page (first `h1` text, document title, texts of `p`/`li`, image sources) is the browser's output.
- WHATWG URL parsing is the `parse` function. The pathnames it returns are assumed to have no `.` or `..` segments, which holds for the hierarchical paths of http(s) URLs; the normalisation `path.join` would apply to such segments (for example in the opaque path of a `data:` URL) is not modelled.
- The network and file contents: a download is one boolean per URL, the same each time the URL is fetched. Transient failures that differ between two fetches of the same URL are not modelled. The bytes of images are not modelled, only the names of the files.
- The file system is a set of image names and a map from document names to bodies. Creating the directories (index.js:12-13) is the constructor's input.
- Sanitiser.LowerChar: lowercases ASCII letters only. The Unicode mappings of `toLowerCase` are not modelled. They could only matter through characters that lowercase into `[a-z]`, such as KELVIN SIGN and LATIN CAPITAL LETTER I WITH DOT ABOVE.
- The console output (index.js:38, 68, 74, 85, 87, 92) is not modelled. Two ghost logs take its place: the URLs handed to the fetcher, and the links that failed.
- `async`/`await`: the program is sequential, and so is the model.
- Images.Basename: its own contract states only that the result has no `/`. Its value on every pathname follows from `Images.BasenameOfRoot` (the empty pathname and `/`), `Images.BasenameOfName` (no `/`), `Images.BasenameOfFile` (a last segment after a `/`) and `Images.BasenameIgnoresTrailingSlash` (a trailing `/`).
- World.Oracles: `render` and `writable` are functions of the link and of the file name alone. A navigation's result and a write's success are assumed not to depend on earlier steps of the run, although the source reuses one browser tab for every link (index.js:27, 42), so a crashed tab would make every later navigation fail, and a write can fail because of the state of the disk. `Driver.RenderFailureIsolated` and `Driver.TwoLinkScenario` hold under this assumption.
- Crawler.HelpPages.AppendImages: the image loop is verified as its own method, called by `ComposeMarkdown`. In the source it is inline.
