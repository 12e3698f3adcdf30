/**
 * The run of the program: fetch the article page, extract and append its text, read the
 * continuation links from its pager, then fetch, extract and append each linked page in order.
 *
 * Network, decoding and parsing are abstracted into a `Web`: the pages whose fetch succeeds,
 * already decoded and parsed, by request URL. The file system's answers to the run's appends
 * are abstracted into `appendOk`: the k-th append of the run (counting from 0) succeeds iff
 * `appendOk(k)`.
 */
module Scraper {
  import opened Wrappers
  import opened Strings
  import opened Links
  import opened Content
  import opened Pagination

  /** How the text of a page is extracted from its paragraphs: `extract_content`, for one build profile. */
  type Extractor = seq<string> -> Result<string, Panic>

  /** A fetched page once decoded and parsed: its paragraph texts and its pager containers. */
  datatype Page = Page(paragraphs: seq<string>, pager: Pager)

  /** The pages whose fetch succeeds, by request URL; a fetch of any other URL fails. */
  type Web = map<string, Page>

  /**
   * How a run ends. While a visit is under way its outcome carries `Completed` to mean that
   * nothing has failed yet; in the outcome a run returns it means every planned page was appended.
   */
  datatype Status =
    | Completed                  // nothing failed
    | FetchFailed(url: string)   // `get_page_source` failed and `main` returned its error
    | AppendFailed               // `append_to_file` failed: a message and `exit(1)`
    | Panicked(panic: Panic)     // the usize subtraction or `unwrap` panicked

  /**
   * What a run leaves behind: the output file, how the run ended, and the request URLs whose
   * text was appended to the file, in the order of the appends.
   */
  datatype Outcome = Outcome(file: string, status: Status, appended: seq<string>)

  /**
   * `append_to_file`: open for append, creating the file if needed, and write the text; `ok`
   * is the file system's answer. A failed append leaves the file as it was.
   */
  function AppendToFile(contents: string, text: string, ok: bool): (r: Option<string>)
    ensures r.Some? <==> ok
    ensures r.Some? ==> contents <= r.value && r.value[|contents|..] == text
    ensures r.Some? ==> |r.value| == |contents| + |text|
  {
    if ok then Some(contents + text) else None
  }

  /**
   * The process exit status of each ending: 0 on completion, 1 from `exit(1)` after a failed
   * append and from `main` returning a fetch error, 101 for a panic.
   */
  function ExitCode(status: Status): (code: int)
    ensures code == 0 <==> status == Completed
    ensures status == AppendFailed ==> code == 1
  {
    match status
    case Completed => 0
    case FetchFailed(_) => 1
    case AppendFailed => 1
    case Panicked(_) => 101
  }

  /**
   * Fetch, extract and append one page as the run's k-th append; on success, the new file and
   * the page's document.
   */
  function ProcessPage(web: Web, link: Link, file: string, k: nat, appendOk: nat -> bool, extract: Extractor)
    : (r: Result<(string, Page), Status>)
    ensures r.Success? ==>
      && Readable(web, Url(link), extract)
      && r.value.0 == file + TextOf(web, Url(link), extract)
      && r.value.1 == web[Url(link)]
    ensures r.Failure? ==> StoppedBy(web, Url(link), k, r.error, appendOk, extract)
  {
    var url := Url(link);
    if url !in web then Failure(FetchFailed(url))
    else
      var page := web[url];
      match extract(page.paragraphs)
      case Failure(p) => Failure(Panicked(p))
      case Success(text) =>
        match AppendToFile(file, text, appendOk(k))
        case None => Failure(AppendFailed)
        case Some(file') => Success((file', page))
  }

  /** The linked pages, in order, after the pages already in `done`; the first failure ends the run. */
  function VisitLinks(web: Web, links: seq<Link>, done: Outcome, appendOk: nat -> bool, extract: Extractor)
    : Outcome
    decreases |links|
  {
    if |links| == 0 then done
    else
      match ProcessPage(web, links[0], done.file, |done.appended|, appendOk, extract)
      case Failure(status) => done.(status := status)
      case Success((file, _)) =>
        VisitLinks(web, links[1..], Outcome(file, Completed, done.appended + [Url(links[0])]), appendOk, extract)
  }

  /**
   * The sequencing of `main` for the identifier `id`, an output file holding `prior`, and the
   * extraction rule `extract`: the article page first, then the links read from the article
   * page's document only.
   */
  function Run(web: Web, id: string, prior: string, appendOk: nat -> bool, extract: Extractor): Outcome {
    var main := New(id);
    match ProcessPage(web, main, prior, 0, appendOk, extract)
    case Failure(status) => Outcome(prior, status, [])
    case Success((file, page)) =>
      match GetOtherUrls(page.pager)
      case Failure(p) => Outcome(file, Panicked(p), [Url(main)])
      case Success(links) => VisitLinks(web, links, Outcome(file, Completed, [Url(main)]), appendOk, extract)
  }

  /** `main` itself: the run with the program's `extract_content` for the build `profile`. */
  function Main(web: Web, id: string, prior: string, appendOk: nat -> bool, profile: Profile): Outcome {
    Run(web, id, prior, appendOk, paragraphs => Extract(paragraphs, profile))
  }

  // ---------------------------------------------------------------------------------------------
  // What a run is expected to do, stated independently of the functions above.

  /** The request URLs of some links, in order. */
  function LinkUrls(links: seq<Link>): seq<string> {
    seq(|links|, i requires 0 <= i < |links| => Url(links[i]))
  }

  /** The page at `url` can be fetched and its paragraphs extracted. */
  predicate Readable(web: Web, url: string, extract: Extractor) {
    url in web && extract(web[url].paragraphs).Success?
  }

  /** The text extracted from the page at `url` (empty when it cannot be read). */
  function TextOf(web: Web, url: string, extract: Extractor): string {
    if Readable(web, url, extract) then extract(web[url].paragraphs).value else ""
  }

  /** The texts of the pages at `urls`, in order. */
  function Texts(web: Web, urls: seq<string>, extract: Extractor): seq<string> {
    seq(|urls|, i requires 0 <= i < |urls| => TextOf(web, urls[i], extract))
  }

  /** The URLs a run appends when nothing fails: the article page, then each linked page. */
  function Planned(web: Web, id: string): seq<string> {
    var mainUrl := Url(New(id));
    if mainUrl in web && GetOtherUrls(web[mainUrl].pager).Success? then
      [mainUrl] + LinkUrls(GetOtherUrls(web[mainUrl].pager).value)
    else [mainUrl]
  }

  /** The file is the prior contents followed by the texts of the appended pages, in order. */
  predicate FileMatches(web: Web, prior: string, o: Outcome, extract: Extractor) {
    && (forall u :: u in o.appended ==> Readable(web, u, extract))
    && o.file == prior + Concat(Texts(web, o.appended, extract))
  }

  /** Why the page at `url`, as the run's k-th append, ended the run with `status`. */
  predicate StoppedBy(web: Web, url: string, k: nat, status: Status, appendOk: nat -> bool, extract: Extractor) {
    match status
    case Completed => false
    case FetchFailed(u) => u == url && url !in web
    case AppendFailed => Readable(web, url, extract) && !appendOk(k)
    case Panicked(p) => url in web && extract(web[url].paragraphs) == Failure(p)
  }

  // ---------------------------------------------------------------------------------------------
  // A run meets those expectations.

  lemma TextsSnoc(web: Web, urls: seq<string>, url: string, extract: Extractor)
    ensures Texts(web, urls + [url], extract) == Texts(web, urls, extract) + [TextOf(web, url, extract)]
  {
  }

  /** Appending the text of a readable page keeps the file matching the appended pages. */
  lemma FileMatchesSnoc(web: Web, prior: string, done: Outcome, url: string, file: string, extract: Extractor)
    requires FileMatches(web, prior, done, extract)
    requires Readable(web, url, extract)
    requires file == done.file + TextOf(web, url, extract)
    ensures FileMatches(web, prior, Outcome(file, Completed, done.appended + [url]), extract)
  {
    var texts := Texts(web, done.appended, extract);
    var text := TextOf(web, url, extract);
    TextsSnoc(web, done.appended, url, extract);
    ConcatAppend(texts, [text]);
    assert Concat([text]) == text by {
      assert [text][..0] == [];
    }
    calc {
      Concat(Texts(web, done.appended + [url], extract));
      Concat(texts + [text]);
      Concat(texts) + text;
    }
    assert done.file == prior + Concat(texts);
    assert file == prior + Concat(texts) + text;
  }

  /** One step of the visit: the first link is processed, then the rest are visited or the run ends. */
  lemma VisitLinksStep(web: Web, links: seq<Link>, done: Outcome, appendOk: nat -> bool, extract: Extractor)
    requires |links| != 0
    ensures var step := ProcessPage(web, links[0], done.file, |done.appended|, appendOk, extract);
      VisitLinks(web, links, done, appendOk, extract) ==
        if step.Failure? then done.(status := step.error)
        else VisitLinks(web, links[1..], Outcome(step.value.0, Completed, done.appended + [Url(links[0])]),
                        appendOk, extract)
  {
  }

  /** The file of a visit is the file before it followed by the texts of the pages it appended. */
  lemma {:induction false} VisitLinksFile(web: Web, links: seq<Link>, done: Outcome, appendOk: nat -> bool,
                                          extract: Extractor, prior: string)
    requires FileMatches(web, prior, done, extract)
    ensures FileMatches(web, prior, VisitLinks(web, links, done, appendOk, extract), extract)
    decreases |links|
  {
    if |links| != 0 {
      VisitLinksStep(web, links, done, appendOk, extract);
      var step := ProcessPage(web, links[0], done.file, |done.appended|, appendOk, extract);
      if step.Success? {
        var next := Outcome(step.value.0, Completed, done.appended + [Url(links[0])]);
        FileMatchesSnoc(web, prior, done, Url(links[0]), step.value.0, extract);
        VisitLinksFile(web, links[1..], next, appendOk, extract, prior);
      }
    }
  }

  /** The linked pages are appended in link order: the visit appends a prefix of the links' URLs. */
  lemma {:induction false} VisitLinksPrefix(web: Web, links: seq<Link>, done: Outcome, appendOk: nat -> bool,
                                            extract: Extractor)
    requires done.status == Completed
    ensures var r := VisitLinks(web, links, done, appendOk, extract);
      && |done.appended| <= |r.appended| <= |done.appended| + |links|
      && r.appended == done.appended + LinkUrls(links)[..|r.appended| - |done.appended|]
      && (r.status == Completed <==> |r.appended| == |done.appended| + |links|)
    decreases |links|
  {
    if |links| != 0 {
      var n := |done.appended|;
      VisitLinksStep(web, links, done, appendOk, extract);
      var step := ProcessPage(web, links[0], done.file, n, appendOk, extract);
      if step.Failure? {
        VisitLinksFailsFirst(web, links, done, appendOk, extract);
        assert LinkUrls(links)[..0] == [];
      } else {
        var url := Url(links[0]);
        var next := Outcome(step.value.0, Completed, done.appended + [url]);
        var r := VisitLinks(web, links[1..], next, appendOk, extract);
        assert VisitLinks(web, links, done, appendOk, extract) == r;
        VisitLinksPrefix(web, links[1..], next, appendOk, extract);
        var k := |r.appended| - (n + 1);
        LinkUrlsPrefix(links, k);
        assert r.appended == done.appended + ([url] + LinkUrls(links[1..])[..k]);
        assert |links[1..]| == |links| - 1;
      }
    } else {
      assert LinkUrls(links)[..0] == [];
    }
  }


  /** A visit whose first page fails ends there, for the reason that page gives. */
  lemma VisitLinksFailsFirst(web: Web, links: seq<Link>, done: Outcome, appendOk: nat -> bool, extract: Extractor)
    requires |links| != 0
    requires ProcessPage(web, links[0], done.file, |done.appended|, appendOk, extract).Failure?
    ensures var r := VisitLinks(web, links, done, appendOk, extract);
      && r.appended == done.appended
      && StoppedBy(web, Url(links[0]), |done.appended|, r.status, appendOk, extract)
  {
    VisitLinksStep(web, links, done, appendOk, extract);
  }

  /** The first failure ends the visit: the link after the appended ones is the one that failed. */
  lemma {:induction false} VisitLinksStop(web: Web, links: seq<Link>, done: Outcome, appendOk: nat -> bool,
                                          extract: Extractor)
    requires done.status == Completed
    ensures var r := VisitLinks(web, links, done, appendOk, extract);
      r.status != Completed ==>
        && |done.appended| <= |r.appended| < |done.appended| + |links|
        && StoppedBy(web, Url(links[|r.appended| - |done.appended|]), |r.appended|, r.status, appendOk, extract)
    decreases |links|
  {
    if |links| != 0 {
      var n := |done.appended|;
      var step := ProcessPage(web, links[0], done.file, n, appendOk, extract);
      if step.Failure? {
        VisitLinksFailsFirst(web, links, done, appendOk, extract);
      } else {
        VisitLinksStep(web, links, done, appendOk, extract);
        var next := Outcome(step.value.0, Completed, done.appended + [Url(links[0])]);
        var r := VisitLinks(web, links[1..], next, appendOk, extract);
        assert VisitLinks(web, links, done, appendOk, extract) == r;
        VisitLinksStop(web, links[1..], next, appendOk, extract);
        if r.status != Completed {
          var i := |r.appended| - (n + 1);
          assert |r.appended| - n == i + 1;
          assert links[1..][i] == links[i + 1];
        }
      }
    }
  }

  /** The run as the article page's step followed by the visit of its links. */
  lemma RunSteps(web: Web, id: string, prior: string, appendOk: nat -> bool, extract: Extractor)
    ensures var main := New(id);
      var step := ProcessPage(web, main, prior, 0, appendOk, extract);
      Run(web, id, prior, appendOk, extract) ==
        if step.Failure? then Outcome(prior, step.error, [])
        else
          var first := Outcome(step.value.0, Completed, [Url(main)]);
          var links := GetOtherUrls(step.value.1.pager);
          if links.Failure? then first.(status := Panicked(links.error))
          else VisitLinks(web, links.value, first, appendOk, extract)
  {
  }

  /** The file facts of a run. */
  lemma RunFile(web: Web, id: string, prior: string, appendOk: nat -> bool, extract: Extractor)
    ensures FileMatches(web, prior, Run(web, id, prior, appendOk, extract), extract)
  {
    var main := New(id);
    var mainUrl := Url(main);
    RunSteps(web, id, prior, appendOk, extract);
    var step := ProcessPage(web, main, prior, 0, appendOk, extract);
    if step.Failure? {
      assert Texts(web, [], extract) == [];
    } else {
      var first := Outcome(step.value.0, Completed, [mainUrl]);
      assert Texts(web, [], extract) == [];
      FileMatchesSnoc(web, prior, Outcome(prior, Completed, []), mainUrl, step.value.0, extract);
      assert [] + [mainUrl] == [mainUrl];
      var links := GetOtherUrls(step.value.1.pager);
      if links.Success? {
        VisitLinksFile(web, links.value, first, appendOk, extract, prior);
      }
    }
  }

  /** Dropping the first link's URL from a prefix of the links' URLs. */
  lemma LinkUrlsPrefix(links: seq<Link>, k: nat)
    requires k < |links|
    ensures LinkUrls(links)[..k + 1] == [Url(links[0])] + LinkUrls(links[1..])[..k]
  {
  }

  /** A visit follows a plan made of the URLs already appended and then the links' URLs. */
  lemma VisitLinksPlan(web: Web, links: seq<Link>, done: Outcome, appendOk: nat -> bool, extract: Extractor,
                       plan: seq<string>)
    requires done.status == Completed
    requires plan == done.appended + LinkUrls(links)
    ensures var r := VisitLinks(web, links, done, appendOk, extract);
      && |r.appended| <= |plan| && r.appended == plan[..|r.appended|]
      && (r.status == Completed ==> r.appended == plan)
      && (r.status != Completed ==>
            |r.appended| < |plan| && StoppedBy(web, plan[|r.appended|], |r.appended|, r.status, appendOk, extract))
  {
    VisitLinksPrefix(web, links, done, appendOk, extract);
    VisitLinksStop(web, links, done, appendOk, extract);
    var r := VisitLinks(web, links, done, appendOk, extract);
    var n, k := |done.appended|, |r.appended| - |done.appended|;
    assert plan[..|r.appended|] == done.appended + LinkUrls(links)[..k];
    if r.status != Completed {
      assert plan[|r.appended|] == Url(links[k]);
    }
  }

  /**
   * Appends never truncate: whatever the ending, the file is its prior contents followed by the
   * extracted text of each appended page, in the order of the appends, and each appended page
   * was fetched and extracted.
   */
  lemma RunAppendsInOrder(web: Web, id: string, prior: string, appendOk: nat -> bool, extract: Extractor)
    ensures var r := Run(web, id, prior, appendOk, extract);
      && prior <= r.file
      && r.file == prior + Concat(Texts(web, r.appended, extract))
      && (forall u :: u in r.appended ==> Readable(web, u, extract))
  {
    RunFile(web, id, prior, appendOk, extract);
  }

  /**
   * The pages are appended in plan order: the article page first, then the links read from the
   * article page's pager, in link order; a completed run appended every planned page. A run
   * that does not complete stopped at the first planned page it could not process, or panicked
   * in `unwrap` while reading the article page's pager; nothing after it was appended.
   */
  lemma RunFollowsPlan(web: Web, id: string, prior: string, appendOk: nat -> bool, extract: Extractor)
    ensures var r, plan := Run(web, id, prior, appendOk, extract), Planned(web, id);
      && |r.appended| <= |plan| && r.appended == plan[..|r.appended|]
      && (r.status == Completed ==> r.appended == plan)
      && (r.status != Completed ==>
            || (r.status == Panicked(UnwrapOnNone) && r.appended == [Url(New(id))] &&
                AnchorMissing(web[Url(New(id))].pager))
            || (|r.appended| < |plan| &&
                StoppedBy(web, plan[|r.appended|], |r.appended|, r.status, appendOk, extract)))
  {
    var main := New(id);
    var mainUrl := Url(main);
    RunSteps(web, id, prior, appendOk, extract);
    var step := ProcessPage(web, main, prior, 0, appendOk, extract);
    if step.Success? {
      assert step.value.1 == web[mainUrl];
      var links := GetOtherUrls(step.value.1.pager);
      if links.Success? {
        var plan := Planned(web, id);
        assert plan == [mainUrl] + LinkUrls(links.value);
        VisitLinksPlan(web, links.value, Outcome(step.value.0, Completed, [mainUrl]), appendOk, extract, plan);
      }
    }
  }

  /** The linked pages' pagers are never read: changing them does not change the run. */
  lemma {:induction false} VisitLinksIgnoresPagers(web: Web, web': Web, links: seq<Link>, done: Outcome,
                                                   appendOk: nat -> bool, extract: Extractor)
    requires web.Keys == web'.Keys
    requires forall u :: u in web ==> web[u].paragraphs == web'[u].paragraphs
    ensures VisitLinks(web, links, done, appendOk, extract) == VisitLinks(web', links, done, appendOk, extract)
    decreases |links|
  {
    if |links| != 0 {
      var k := |done.appended|;
      var a := ProcessPage(web, links[0], done.file, k, appendOk, extract);
      var b := ProcessPage(web', links[0], done.file, k, appendOk, extract);
      assert a.Success? == b.Success?;
      if a.Success? {
        assert a.value.0 == b.value.0;
        VisitLinksIgnoresPagers(web, web', links[1..], Outcome(a.value.0, Completed, done.appended + [Url(links[0])]),
                                appendOk, extract);
      }
    }
  }

  /**
   * Pagination is read from the article page only: two sites that differ only in the pagers of
   * the other pages give the same run.
   */
  lemma RunIgnoresLinkedPagers(web: Web, web': Web, id: string, prior: string, appendOk: nat -> bool,
                               extract: Extractor)
    requires web.Keys == web'.Keys
    requires forall u :: u in web ==> web[u].paragraphs == web'[u].paragraphs
    requires Url(New(id)) in web ==> web[Url(New(id))] == web'[Url(New(id))]
    ensures Run(web, id, prior, appendOk, extract) == Run(web', id, prior, appendOk, extract)
  {
    var main := New(id);
    var a := ProcessPage(web, main, prior, 0, appendOk, extract);
    if a.Success? {
      match GetOtherUrls(a.value.1.pager)
      case Failure(_) =>
      case Success(links) =>
        VisitLinksIgnoresPagers(web, web', links, Outcome(a.value.0, Completed, [Url(main)]), appendOk, extract);
    }
  }

  /**
   * With the program's extraction, a run that does not complete stopped for one of four reasons:
   * the next planned page failed to fetch, it has exactly one paragraph in a debug build, the
   * append of its text failed, or `unwrap` panicked on the article page's pager.
   */
  lemma MainStopsAtFirstFailure(web: Web, id: string, prior: string, appendOk: nat -> bool, profile: Profile)
    ensures var r, plan := Main(web, id, prior, appendOk, profile), Planned(web, id);
      r.status != Completed ==>
        || (r.status == Panicked(UnwrapOnNone) && r.appended == [Url(New(id))] &&
            AnchorMissing(web[Url(New(id))].pager))
        || (&& |r.appended| < |plan| && var url := plan[|r.appended|];
            match r.status
            case FetchFailed(u) => u == url && url !in web
            case AppendFailed =>
              url in web && !(|web[url].paragraphs| == 1 && profile == Debug) && !appendOk(|r.appended|)
            case Panicked(p) =>
              url in web && |web[url].paragraphs| == 1 && profile == Debug && p == SubtractOverflow
            case Completed => false)
  {
    var extract: Extractor := paragraphs => Extract(paragraphs, profile);
    RunFollowsPlan(web, id, prior, appendOk, extract);
  }
}
