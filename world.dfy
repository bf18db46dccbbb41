/**
 * The foreign collaborators of `scrapeHelpPages`, each as a function of its
 * argument: the browser (`page.goto` followed by the in-page script), WHATWG
 * URL parsing, `downloadImage`'s network fetch and file write, and the
 * document write.
 */
module World {
  import opened Wrappers
  import opened Extract

  datatype Oracles = Oracles(
    /** What the in-page script returns for a link, or None when navigating or evaluating throws. */
    render: string -> Option<RawPage>,
    /** `new URL(src).pathname`, or None when the constructor throws. */
    parse: string -> Option<string>,
    /** Whether `downloadImage(src, ...)` completes: a successful response whose bytes were written. */
    fetch: string -> bool,
    /** Whether `fs.writeFileSync` of a document with this file name succeeds. */
    writable: string -> bool)
}
