/** A page of the article site: the `Link` record and the request URL built from it. */
module Links {
  import opened Wrappers

  /** The fixed prefix every request URL starts with. */
  const Base: string := "https://m.qqaiqin.com/article/"

  /** A page reference: the site prefix and a path segment such as `87537.html`. */
  datatype Link = Link(base: string, htmlName: string)

  /** `Link::new`: no check is made on the path segment. */
  function New(htmlName: string): Link {
    Link(Base, htmlName)
  }

  /** The request URL of `get_page_source`: the prefix followed by the path segment. */
  function Url(link: Link): string {
    link.base + link.htmlName
  }

  /** The inverse of building a URL: the path segment of a URL on the site, if it is one. */
  function PathSegment(url: string): (r: Option<string>)
    ensures r.Some? <==> |Base| <= |url| && url[..|Base|] == Base
    ensures r.Some? ==> |r.value| == |url| - |Base|
  {
    if |Base| <= |url| && url[..|Base|] == Base then Some(url[|Base|..]) else None
  }

  /** The URL of a new link is the fixed prefix followed by exactly the given segment. */
  lemma NewUrl(htmlName: string)
    ensures Url(New(htmlName)) == Base + htmlName
    ensures |Url(New(htmlName))| == |Base| + |htmlName|
    ensures Url(New(htmlName))[..|Base|] == Base
    ensures Url(New(htmlName))[|Base|..] == htmlName
  {
  }

  /** The segment can be recovered from the URL of a new link ... */
  lemma PathSegmentOfUrl(htmlName: string)
    ensures PathSegment(Url(New(htmlName))) == Some(htmlName)
  {
    NewUrl(htmlName);
  }

  /** ... and every URL on the site is the URL of the link built from its segment. */
  lemma UrlOfPathSegment(url: string)
    requires PathSegment(url).Some?
    ensures Url(New(PathSegment(url).value)) == url
  {
    assert url == url[..|Base|] + url[|Base|..];
  }

  /** Distinct segments give distinct request URLs. */
  lemma UrlInjective(a: string, b: string)
    ensures Url(New(a)) == Url(New(b)) <==> a == b
  {
    if Url(New(a)) == Url(New(b)) {
      PathSegmentOfUrl(a);
      PathSegmentOfUrl(b);
    }
  }

  /** The identifier of the command-line example. */
  lemma ExampleUrl()
    ensures Url(New("87537.html")) == "https://m.qqaiqin.com/article/87537.html"
  {
  }
}
