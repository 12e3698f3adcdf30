/**
 * `get_other_urls`: the continuation pages of an article, read from its pager widgets.
 *
 * A parsed document is represented by its `div.m_pages` containers in document order, each
 * holding its list items in order, each item showing what its first `<a>` gives.
 */
module Pagination {
  import opened Wrappers
  import opened Strings
  import opened Links

  /** A pager list item: it has no anchor at all, or its first anchor has this `href`, if any. */
  datatype ListItem = NoAnchor | FirstAnchor(href: Option<string>)

  /** The list items of one `div.m_pages` container, in document order. */
  type Container = seq<ListItem>

  /** Every `div.m_pages` container of a page, in document order. */
  type Pager = seq<Container>

  /** The suffix a continuation page's `href` must have. */
  const HtmlSuffix: string := ".html"

  /** The item's first anchor has an `href` and it ends with `.html`. */
  predicate Qualifies(item: ListItem) {
    item.FirstAnchor? && item.href.Some? && EndsWith(item.href.value, HtmlSuffix)
  }

  /** The qualifying `href`s of a container's items, in order. */
  function ItemHrefs(items: Container): seq<string> {
    if |items| == 0 then []
    else
      var last := items[|items| - 1];
      ItemHrefs(items[..|items| - 1]) + (if Qualifies(last) then [last.href.value] else [])
  }

  /** The qualifying `href`s of all containers, in document order. */
  function Hrefs(pager: Pager): seq<string> {
    if |pager| == 0 then [] else Hrefs(pager[..|pager| - 1]) + ItemHrefs(pager[|pager| - 1])
  }

  /** Some list item has no anchor, so `unwrap` on its first anchor panics. */
  predicate AnchorMissing(pager: Pager) {
    exists c, i :: 0 <= c < |pager| && 0 <= i < |pager[c]| && pager[c][i] == NoAnchor
  }

  /** `Vec::pop` with its result discarded: the last element goes, and nothing happens to `[]`. */
  function DropLast<T>(xs: seq<T>): (r: seq<T>)
    ensures |r| == if |xs| == 0 then 0 else |xs| - 1
    ensures r <= xs
  {
    if |xs| == 0 then [] else xs[..|xs| - 1]
  }

  /** A link for every `href`, in order. */
  function LinksOf(hrefs: seq<string>): seq<Link> {
    if |hrefs| == 0 then [] else LinksOf(hrefs[..|hrefs| - 1]) + [New(hrefs[|hrefs| - 1])]
  }

  /** The reference definition of `get_other_urls`, case by case. */
  function GetOtherUrls(pager: Pager): Result<seq<Link>, Panic> {
    if AnchorMissing(pager) then Failure(UnwrapOnNone) else Success(LinksOf(DropLast(Hrefs(pager))))
  }

  /**
   * `get_other_urls` as written: the `href`s are collected over every container and item,
   * then the last one collected is popped.
   */
  method CollectOtherUrls(pager: Pager) returns (r: Result<seq<Link>, Panic>)
    ensures r.Failure? <==> AnchorMissing(pager)
    ensures r.Failure? ==> r.error == UnwrapOnNone
    ensures r.Success? ==> |r.value| == if |Hrefs(pager)| == 0 then 0 else |Hrefs(pager)| - 1
    ensures r == GetOtherUrls(pager)
  {
    var urls: seq<Link> := [];
    ghost var collected: seq<string> := [];
    var c := 0;
    while c < |pager|
      invariant 0 <= c <= |pager|
      invariant collected == Hrefs(pager[..c]) && urls == LinksOf(collected)
      invariant forall c', i :: 0 <= c' < c && 0 <= i < |pager[c']| ==> pager[c'][i] != NoAnchor
    {
      var items := pager[c];
      var i := 0;
      assert items[..0] == [];
      while i < |items|
        invariant 0 <= i <= |items|
        invariant collected == Hrefs(pager[..c]) + ItemHrefs(items[..i]) && urls == LinksOf(collected)
        invariant forall j :: 0 <= j < i ==> items[j] != NoAnchor
      {
        ItemHrefsSnoc(items, i);
        match items[i]
        case NoAnchor =>
          assert pager[c][i] == NoAnchor;
          return Failure(UnwrapOnNone);
        case FirstAnchor(href) =>
          if href.Some? && EndsWith(href.value, HtmlSuffix) {
            LinksOfSnoc(collected, href.value);
            urls := urls + [New(href.value)];
            collected := collected + [href.value];
          }
        i := i + 1;
      }
      assert items[..i] == items;
      HrefsSnoc(pager, c);
      c := c + 1;
    }
    assert pager[..c] == pager;
    LinksOfDropLast(collected);
    LinksOfAt(DropLast(collected));
    return Success(DropLast(urls));
  }

  /** One more item adds its `href` when it qualifies and nothing otherwise. */
  lemma ItemHrefsSnoc(items: Container, i: nat)
    requires i < |items|
    ensures ItemHrefs(items[..i + 1]) ==
      ItemHrefs(items[..i]) + if Qualifies(items[i]) then [items[i].href.value] else []
  {
    assert items[..i + 1][..i] == items[..i];
  }

  /** One more container adds its items' `href`s. */
  lemma HrefsSnoc(pager: Pager, c: nat)
    requires c < |pager|
    ensures Hrefs(pager[..c + 1]) == Hrefs(pager[..c]) + ItemHrefs(pager[c])
  {
    assert pager[..c + 1][..c] == pager[..c];
  }

  /** One more `href` adds its link. */
  lemma LinksOfSnoc(hrefs: seq<string>, h: string)
    ensures LinksOf(hrefs + [h]) == LinksOf(hrefs) + [New(h)]
  {
    assert (hrefs + [h])[..|hrefs|] == hrefs;
  }

  /** Building links distributes over sequence append. */
  lemma {:induction false} LinksOfAppend(a: seq<string>, b: seq<string>)
    ensures LinksOf(a + b) == LinksOf(a) + LinksOf(b)
    decreases |b|
  {
    if |b| == 0 {
      assert a + b == a;
    } else {
      var b', ab := b[..|b| - 1], a + b;
      assert ab[..|ab| - 1] == a + b';
      assert ab[|ab| - 1] == b[|b| - 1];
      LinksOfAppend(a, b');
      assert LinksOf(ab) == LinksOf(a + b') + [New(b[|b| - 1])];
      assert LinksOf(b) == LinksOf(b') + [New(b[|b| - 1])];
    }
  }


  /** Building links commutes with dropping the last element. */
  lemma LinksOfDropLast(hrefs: seq<string>)
    ensures DropLast(LinksOf(hrefs)) == LinksOf(DropLast(hrefs))
  {
  }

  /** The links built from some `href`s are, position by position, the links of those `href`s. */
  lemma {:induction false} LinksOfAt(hrefs: seq<string>)
    ensures |LinksOf(hrefs)| == |hrefs|
    ensures forall i :: 0 <= i < |hrefs| ==> LinksOf(hrefs)[i] == New(hrefs[i])
    decreases |hrefs|
  {
    if |hrefs| != 0 {
      LinksOfAt(hrefs[..|hrefs| - 1]);
    }
  }

  /** An item's `href` is collected exactly when the item qualifies. */
  lemma {:induction false} ItemHrefsMembership(items: Container, h: string)
    ensures h in ItemHrefs(items) <==>
      exists i :: 0 <= i < |items| && items[i] == FirstAnchor(Some(h)) && EndsWith(h, HtmlSuffix)
    decreases |items|
  {
    if |items| != 0 {
      var init, last := items[..|items| - 1], items[|items| - 1];
      ItemHrefsMembership(init, h);
      if h in ItemHrefs(items) && h !in ItemHrefs(init) {
        assert items[|items| - 1] == FirstAnchor(Some(h));
      }
      if exists i :: 0 <= i < |items| && items[i] == FirstAnchor(Some(h)) && EndsWith(h, HtmlSuffix) {
        var i :| 0 <= i < |items| && items[i] == FirstAnchor(Some(h)) && EndsWith(h, HtmlSuffix);
        if i < |init| {
          assert init[i] == items[i];
        }
      }
    }
  }

  /** The pager's `href`s are those of its containers, in container order. */
  lemma {:induction false} HrefsAppend(a: Pager, b: Pager)
    ensures Hrefs(a + b) == Hrefs(a) + Hrefs(b)
    decreases |b|
  {
    if |b| == 0 {
      assert a + b == a;
    } else {
      var b', ab := b[..|b| - 1], a + b;
      assert ab[..|ab| - 1] == a + b';
      assert ab[|ab| - 1] == b[|b| - 1];
      HrefsAppend(a, b');
      assert Hrefs(ab) == Hrefs(a + b') + ItemHrefs(b[|b| - 1]);
      assert Hrefs(b) == Hrefs(b') + ItemHrefs(b[|b| - 1]);
    }
  }


  /**
   * An `href` is collected from the pager exactly when some item of some container has a first
   * anchor with that `href` and it ends with `.html`: a missing `href` or another suffix is never
   * collected.
   */
  lemma {:induction false} HrefsMembership(pager: Pager, h: string)
    ensures h in Hrefs(pager) <==>
      exists c, i :: 0 <= c < |pager| && 0 <= i < |pager[c]| &&
        pager[c][i] == FirstAnchor(Some(h)) && EndsWith(h, HtmlSuffix)
    decreases |pager|
  {
    if |pager| != 0 {
      var init, last := pager[..|pager| - 1], pager[|pager| - 1];
      HrefsMembership(init, h);
      ItemHrefsMembership(last, h);
      if exists c, i :: 0 <= c < |pager| && 0 <= i < |pager[c]| &&
          pager[c][i] == FirstAnchor(Some(h)) && EndsWith(h, HtmlSuffix) {
        var c, i :| 0 <= c < |pager| && 0 <= i < |pager[c]| &&
          pager[c][i] == FirstAnchor(Some(h)) && EndsWith(h, HtmlSuffix);
        if c < |init| {
          assert init[c][i] == pager[c][i];
        } else {
          assert last[i] == pager[c][i];
        }
      }
      if h in ItemHrefs(last) {
        var i :| 0 <= i < |last| && last[i] == FirstAnchor(Some(h)) && EndsWith(h, HtmlSuffix);
        assert pager[|pager| - 1][i] == FirstAnchor(Some(h));
      }
    }
  }

  /**
   * On success the links are, in order, the collected `href`s without the last one: k qualifying
   * `href`s give max(k - 1, 0) links, and link i is built from the i-th `href`.
   */
  lemma GetOtherUrlsInOrder(pager: Pager)
    requires !AnchorMissing(pager)
    ensures var links, hrefs := GetOtherUrls(pager).value, Hrefs(pager);
      && |links| == (if |hrefs| == 0 then 0 else |hrefs| - 1)
      && (forall i :: 0 <= i < |links| ==> links[i] == New(hrefs[i]))
  {
    LinksOfAt(DropLast(Hrefs(pager)));
  }

  /**
   * On success every link has the site prefix and a segment ending in `.html` that was read from
   * some item's first anchor.
   */
  lemma GetOtherUrlsFromAnchors(pager: Pager)
    requires !AnchorMissing(pager)
    ensures forall l :: l in GetOtherUrls(pager).value ==>
      && l.base == Base && EndsWith(l.htmlName, HtmlSuffix)
      && (exists c, i :: 0 <= c < |pager| && 0 <= i < |pager[c]| &&
                         pager[c][i] == FirstAnchor(Some(l.htmlName)))
  {
    var links, hrefs := GetOtherUrls(pager).value, Hrefs(pager);
    LinksOfAt(DropLast(hrefs));
    forall l | l in links
      ensures l.base == Base && EndsWith(l.htmlName, HtmlSuffix)
      ensures (exists c, i :: 0 <= c < |pager| && 0 <= i < |pager[c]| &&
                              pager[c][i] == FirstAnchor(Some(l.htmlName)))
    {
      var k :| 0 <= k < |links| && links[k] == l;
      assert hrefs[k] in hrefs;
      HrefsMembership(pager, hrefs[k]);
    }
  }

  /** Read as a precondition of `unwrap`: when every item has an anchor, nothing panics. */
  lemma GetOtherUrlsAnchored(pager: Pager)
    requires forall c, i :: 0 <= c < |pager| && 0 <= i < |pager[c]| ==> pager[c][i].FirstAnchor?
    ensures GetOtherUrls(pager).Success?
  {
  }

  /** No pager container, or no qualifying `href`, is the normal single-page case: no links. */
  lemma GetOtherUrlsNone(pager: Pager)
    requires !AnchorMissing(pager)
    requires forall c, i :: 0 <= c < |pager| && 0 <= i < |pager[c]| ==> !Qualifies(pager[c][i])
    ensures GetOtherUrls(pager) == Success([])
  {
    if Hrefs(pager) != [] {
      HrefsMembership(pager, Hrefs(pager)[0]);
    }
  }

  /** Qualifying links A, B, C, around a `href`-less item and a non-`.html` one, give A and B. */
  lemma ExampleDropLast()
    ensures GetOtherUrls([[FirstAnchor(Some("1.html")), FirstAnchor(None)],
                          [FirstAnchor(Some("2.html")), FirstAnchor(Some("#top")),
                           FirstAnchor(Some("3.html"))]])
      == Success([New("1.html"), New("2.html")])
  {
    var first: Container := [FirstAnchor(Some("1.html")), FirstAnchor(None)];
    var second: Container := [FirstAnchor(Some("2.html")), FirstAnchor(Some("#top")), FirstAnchor(Some("3.html"))];
    var pager := [first, second];
    assert !Qualifies(FirstAnchor(Some("#top")));
    assert ItemHrefs(first) == ["1.html"] by {
      assert first[..1] == [FirstAnchor(Some("1.html"))];
      assert first[..1][..0] == [];
    }
    assert ItemHrefs(second) == ["2.html", "3.html"] by {
      assert second[..2] == [FirstAnchor(Some("2.html")), FirstAnchor(Some("#top"))];
      assert second[..2][..1] == [FirstAnchor(Some("2.html"))];
      assert second[..2][..1][..0] == [];
    }
    assert Hrefs(pager) == ["1.html", "2.html", "3.html"] by {
      assert pager[..1] == [first];
      assert pager[..1][..0] == [];
      assert Hrefs(pager[..1]) == ItemHrefs(first);
    }
    assert !AnchorMissing(pager);
    assert DropLast(["1.html", "2.html", "3.html"]) == ["1.html", "2.html"];
    assert LinksOf(["1.html", "2.html"]) == [New("1.html"), New("2.html")] by {
      assert ["1.html", "2.html"][..1] == ["1.html"];
      assert ["1.html"][..0] == [];
    }
  }
}
