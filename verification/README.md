# Article scraper model

A Dafny model of a small command-line scraper for the article site `m.qqaiqin.com`.
Given an article's path segment (for example `87537.html`) it does the following:

- fetches the article page;
- extracts its body text by a positional rule: every paragraph except the last two, each followed by a newline;
- appends that text to an output file;
- reads the continuation links from the article page's pager widgets, dropping the last one;
- fetches, extracts and appends each linked page, in link order.

The model has one module per concern:

- `Wrappers` (`wrappers.dfy`): `Option`, `Result`, and the two panics the program can hit.
- `Strings` (`strings.dfy`): `ends_with` and concatenation.
- `Links` (`links.dfy`): the `Link` record, `Link::new`, and the request URL built by `get_page_source`. It also gives the inverse, which recovers the path segment from a URL.
- `Content` (`content.dfy`): `extract_content`. A document is the sequence of its `<p>` texts. `Extract` is the case-by-case reference. `ExtractContent` is the loop as written, with the `usize` subtraction `len - 2` evaluated in each iteration, and it is proved equal to the reference.
- `Pagination` (`pagination.dfy`): `get_other_urls`. A document is its `div.m_pages` containers in document order. Each container holds its list items, and each item shows what its first `<a>` gives: no anchor, an anchor without `href`, or an `href`. `GetOtherUrls` is the reference. `CollectOtherUrls` is the nested loop followed by `pop`, proved equal to it.
- `Scraper` (`scraper.dfy`): `main` and `append_to_file`.
  - The network, decoding and parsing become a `Web`: a map from request URL to the decoded, parsed page. A URL outside the map fails to fetch.
  - The file system's answers become `appendOk`: the k-th append of a run succeeds iff `appendOk(k)`.
  - A run returns an `Outcome` with three parts: the output file, how the run ended (completed, fetch error, append error, or panic), and the URLs whose text was appended, in order.
  - `Run` takes the extraction rule as a parameter (`Extractor`), so its properties hold for any rule. `Main` is `Run` with `Content.Extract` for a given build `Profile`, which is what the program does.

Edge cases the model follows from the code:

- **A page with exactly one paragraph.** `len - 2` underflows on `usize`. A debug build panics (`Failure(SubtractOverflow)`, which ends the run). A release build wraps to `usize::MAX`, so the single paragraph is emitted. The build is a `Profile` parameter. With zero paragraphs the subtraction is never evaluated, and the text is empty.
- **Several pager containers.** Every `div.m_pages` container is walked, in document order.
- **A list item with no `<a>`.** It makes `unwrap` panic (`Failure(UnwrapOnNone)`). The panic happens after the article page's text has already been appended. `Pagination.GetOtherUrlsAnchored` gives the precondition reading: if every item has an anchor, there is no panic.
- **An empty extract is still appended.** `extract_content` always returns `Some`, so every processed page opens the file, even when its text is empty. Such an append can fail too.

## Model

| member | source | states |
|---|---|---|
| Links.NewUrl | src/main.rs:16-24 | The request URL of `Link::new(name)` is exactly the fixed prefix `https://m.qqaiqin.com/article/` followed by `name`, with nothing added or dropped |
| Links.PathSegmentOfUrl | src/main.rs:86-87 | The path segment can be read back from the URL built for it, so the URL formation loses nothing |
| Links.UrlOfPathSegment | src/main.rs:86-87 | Every URL that starts with the site prefix is the URL of the link built from the rest of it |
| Links.UrlInjective | src/main.rs:86-87 | Two links built by `Link::new` request the same URL iff their path segments are equal |
| Links.ExampleUrl | src/main.rs:17-20 | The identifier `87537.html` requests `https://m.qqaiqin.com/article/87537.html` |
| Content.UsizeSub | src/main.rs:98 | `usize` subtraction fails exactly when it goes below zero in a debug build, and otherwise gives the difference modulo 2^64 |
| Content.ExtractContent | src/main.rs:94-104 | The loop as written panics iff the page has exactly one paragraph and the build is a debug one. No paragraphs give `""`. Two or more give the first n−2 paragraphs, each followed by a newline, in order. One paragraph in a release build gives that paragraph and a newline |
| Content.ExtractDropsLastTwo | src/main.rs:95-102 | With n ≥ 2 paragraphs the text is the join of the first n−2. Each kept paragraph i sits, followed by a newline, right after the join of the paragraphs before it |
| Content.ExtractIgnoresLastTwo | src/main.rs:98 | The last two paragraphs never contribute: pages that differ only in them give the same text |
| Content.ExtractShortPages | src/main.rs:96-103 | Zero paragraphs give the empty text. One paragraph panics in a debug build and is emitted in a release build |
| Content.ExtractLength | src/main.rs:99-100 | The text's length is the sum over the kept paragraphs of their length plus one. A non-empty text ends with a newline. The text is empty iff no paragraph is kept |
| Content.ExtractSplitsBack | src/main.rs:99-100 | If no paragraph holds a newline, splitting the text at newlines gives back exactly the kept paragraphs |
| Content.JoinedAppend | src/main.rs:99-100 | Joining paragraphs distributes over concatenation of the paragraph lists |
| Content.JoinedLength | src/main.rs:99-100 | The joined text's length is the sum of the paragraph lengths plus one newline each |
| Content.SplitJoined | src/main.rs:99-100 | Splitting at newlines undoes joining when no line contains a newline |
| Pagination.CollectOtherUrls | src/main.rs:106-124 | The nested loop with `pop` panics iff some list item has no anchor. Otherwise it returns the links of the collected hrefs without the last one: max(k−1, 0) links for k qualifying hrefs. It equals the reference `GetOtherUrls` |
| Pagination.DropLast | src/main.rs:121 | `pop` shortens a non-empty list by one and leaves `[]` alone. What remains is a prefix of the input |
| Pagination.ItemHrefsMembership | src/main.rs:110-117 | An href is collected from a container iff some item's first anchor has that href and it ends in `.html` |
| Pagination.HrefsAppend | src/main.rs:109-119 | The hrefs of the pager are those of its containers, in container order |
| Pagination.HrefsMembership | src/main.rs:109-119 | An href is collected from the pager iff some item of some container has a first anchor with that href ending in `.html`. A missing href or another suffix never appears |
| Pagination.LinksOfAt | src/main.rs:116 | The links built from the hrefs correspond position by position: link i is `Link::new(href i)` |
| Pagination.GetOtherUrlsInOrder | src/main.rs:107-123 | On success the links follow the collected hrefs in order: link i is `Link::new` of the i-th href, and k qualifying hrefs give max(k−1, 0) links |
| Pagination.GetOtherUrlsFromAnchors | src/main.rs:110-117 | On success every link has the fixed prefix and a segment ending in `.html` that some item's first anchor carries as its href |
| Pagination.GetOtherUrlsAnchored | src/main.rs:111 | When every list item has an anchor, `unwrap` never panics and the result is a success |
| Pagination.GetOtherUrlsNone | src/main.rs:109-123 | No pager container, or no qualifying href, gives an empty list rather than an error |
| Pagination.ExampleDropLast | src/main.rs:109-123 | Qualifying links A, B, C, mixed with an href-less item and a non-`.html` item and split over two containers, give A and B |
| Scraper.AppendToFile | src/main.rs:76-84 | A successful append keeps the old contents as a prefix and adds exactly the text after them. A failed one reports failure |
| Scraper.ExitCode | src/main.rs:53-56 | The exit status is 0 exactly when the run completed, and 1 after a failed append |
| Scraper.ProcessPage | src/main.rs:47-51 | Processing a page succeeds only if the page was fetched and extracted, and then the file grows by exactly that page's extracted text. A failure names its cause: the URL that failed to fetch, the extraction's panic, or the refused append |
| Scraper.FileMatchesSnoc | src/main.rs:76-84 | Appending a readable page's text keeps the file equal to the prior contents followed by the appended pages' texts |
| Scraper.VisitLinksPrefix | src/main.rs:58-71 | Visiting the links appends a prefix of their URLs, in link order. The visit completes iff every link was appended |
| Scraper.VisitLinksStop | src/main.rs:59-70 | When a visit does not complete, the link right after the appended ones is the one whose fetch, extraction or append failed |
| Scraper.VisitLinksFile | src/main.rs:59-70 | After visiting links, the file is the prior contents followed by the texts of all pages appended so far |
| Scraper.RunAppendsInOrder | src/main.rs:47-72 | Whatever the ending, the prior contents are a prefix of the file. The file is the prior contents followed by each appended page's extracted text, in append order, and every appended page was fetched and extracted |
| Scraper.RunFollowsPlan | src/main.rs:47-72 | The appended pages are a prefix of the plan: the article page, then the links read from the article page's pager, in order. A completed run appended the whole plan. A run that does not complete either panicked in `unwrap` on the article page's pager right after appending the article page, or stopped at the first planned page it could not fetch, extract or append, and appended nothing after it |
| Scraper.RunIgnoresLinkedPagers | src/main.rs:58-61 | Pagination is read from the article page only: sites that differ only in the other pages' pagers give the same run |
| Scraper.MainStopsAtFirstFailure | src/main.rs:47-72 | With the program's own extraction, a run that does not complete stopped at the next planned page for one of three reasons, or panicked in `unwrap` on the article page's pager. The three reasons are: the page is missing from the site, it has exactly one paragraph in a debug build, or its append was refused |

## Left out

- HTTP fetching with `reqwest`, the User-Agent header and the `tokio` runtime are out: they are network I/O. They are replaced by the `Web` map. A URL outside the map is a fetch error. The map is a snapshot, so two fetches of one URL in a run give the same page.
- The response status is not checked by the program. A URL in the map is whatever page the server returned, including error pages.
- GBK decoding through `encoding_rs` is out: it is a foreign library with lossy replacement. Decoded text is given.
- HTML parsing and the `select` predicates are out: they are a foreign library. A document is its paragraph texts plus its pager containers. Descendant matching, nested `m_pages` containers and how `text()` gathers a paragraph's text are not modelled.
- Command-line parsing with `clap` (the `--id` and `--output` options and their default) is out: it is library plumbing.
- Real file opening and writing are out: they are OS I/O. An append either succeeds whole or changes nothing. A partial `write_all` before an error, and the printed `Error:` message, are not modelled.
- Content.ExtractContent: assumes a 64-bit `usize` and requires fewer than 2^64 paragraphs, which a `Vec` always has. 32-bit targets are not modelled.
- Scraper.ExitCode: the code 101 for a panic and 1 for a fetch error returned from `main` are the Rust runtime's conventions, not something the program states.
