/** Whole collections, said by their documents alone: pages that report the position
    they are at, and pages that link to the next. */
module Collections {
  import opened Outcomes
  import opened Paging
  import opened PagingLaws

  function All(docs: seq<Document>): seq<Record> {
    if docs == [] then [] else docs[0].records + All(docs[1..])
  }

  function Size(docs: seq<Document>): nat {
    |All(docs)|
  }

  /** No page is empty, or the one before it again. */
  predicate EachIsNew(docs: seq<Document>) {
    && (forall i :: 0 <= i < |docs| ==> docs[i].records != [])
    && (forall i :: 0 < i < |docs| ==> docs[i].records != docs[i - 1].records)
  }

  ghost predicate NothingMisshapenAt(serve: Url -> Answer, url: Url, name: string) {
    forall v :: !serve(WithNumber(url, name, v)).Misshapen?
  }

  /** The pages from this position on, each reporting its own; behind the last the
      server answers an empty page, or the last one over again. */
  ghost predicate Positioned(serve: Url -> Answer, c: Config, url: Url, docs: seq<Document>, name: string, step: int,
                             position: int, before: seq<Record>)
    decreases |docs|
  {
    var answer := serve(WithNumber(url, name, position));
    if docs == [] then answer.Page? && (answer.document.records == [] || answer.document.records == before)
    else answer == Page(docs[0]) && ReportsAt(c, docs[0], position)
         && Positioned(serve, c, url, docs[1..], name, step, position + step, docs[0].records)
  }

  /** A page that offers no link the source reads, and says where it is. */
  predicate ReportsAt(c: Config, d: Document, position: int) {
    d.position == Some(position) && (c.nextKey ==> d.link.None?)
  }

  /** A server paged by position: the first page at the source's own address, the
      others under the parameter, one step apart. */
  ghost predicate PagedByPosition(serve: Url -> Answer, c: Config, url: Url, docs: seq<Document>, name: string,
                                  step: int, first: int) {
    && c.paging == Some(Stride(name, step)) && step > 0 && docs != [] && EachIsNew(docs)
    && ReportsAt(c, docs[0], first)
    && Positioned(serve, c, url, docs[1..], name, step, first + step, docs[0].records)
  }

  /** A server paged by links: each page links to the next and the last neither
      links on nor reports a position the source reads. Positions of the others, if
      any, may be whatever they are. */
  predicate PagedByLinks(serve: Url -> Answer, c: Config, docs: seq<Document>, urls: seq<Url>) {
    && c.nextKey && docs != [] && |urls| == |docs| && EachIsNew(docs)
    && (forall i :: 0 < i < |docs| ==> serve(urls[i]) == Page(docs[i]))
    && (forall i :: 0 <= i < |docs| - 1 ==> docs[i].link == Some(urls[i + 1]))
    && docs[|docs| - 1].link.None? && (c.paging.Some? ==> docs[|docs| - 1].position.None?)
  }

  lemma {:induction false} AllIsJoined(docs: seq<Document>)
    ensures All(docs) == Joined(docs) && |All(docs)| == Rows(docs)
  {
    if docs != [] {
      AllIsJoined(docs[1..]);
    }
  }

  lemma TheRestIsNew(docs: seq<Document>)
    requires docs != [] && EachIsNew(docs)
    ensures EachIsNew(docs[1..])
    ensures |docs| > 1 ==> docs[1].records != [] && docs[1].records != docs[0].records
  {
  }

  /** The number under a parameter, written over. */
  lemma NumberOverNumber(url: Url, name: string, a: int, b: int)
    ensures WithNumber(WithNumber(url, name, a), name, b) == WithNumber(url, name, b)
  {
  }

  // ---- by position, one page after another ---------------------------------

  /** Where a read has got to: these pages are still ahead, at this position. */
  ghost predicate AwaitsPosition(serve: Url -> Answer, c: Config, url: Url, at: Cursor, docs: seq<Document>,
                                 name: string, step: int, position: int) {
    && c.paging == Some(Stride(name, step)) && EachIsNew(docs)
    && at.following == Some(WithNumber(url, name, position)) && (docs != [] ==> docs[0].records != at.seen)
    && Positioned(serve, c, url, docs, name, step, position, at.seen)
  }

  lemma PositionFollows(serve: Url -> Answer, c: Config, url: Url, at: Cursor, docs: seq<Document>, name: string,
                        step: int, position: int)
    requires AwaitsPosition(serve, c, url, at, docs, name, step, position) && docs != []
    ensures var next := Onward(at, docs[0], Follow(c, docs[0], WithNumber(url, name, position)));
            && serve(WithNumber(url, name, position)) == Page(docs[0]) && !Ends(at, docs[0])
            && next.following == Some(WithNumber(url, name, position + step))
            && AwaitsPosition(serve, c, url, next, docs[1..], name, step, position + step)
  {
    TheRestIsNew(docs);
    NumberOverNumber(url, name, position, position + step);
  }

  /** Following positions reads every page, and says there is more only where the
      bounds are reached just there. */
  lemma {:induction false} PositionsAreRead(serve: Url -> Answer, c: Config, url: Url, at: Cursor, docs: seq<Document>,
                                            name: string, step: int, position: int)
    requires AwaitsPosition(serve, c, url, at, docs, name, step, position)
    requires at.pages + |docs| <= c.maxPages && |at.records| + Size(docs) <= c.maxRows
    ensures ByLinks(serve, c, at)
         == Read(at.records + All(docs), at.pages + |docs|,
                 at.pages + |docs| == c.maxPages || |at.records| + Size(docs) == c.maxRows)
    decreases |docs|
  {
    assert at.records + [] == at.records;
    if docs != [] {
      PositionFollows(serve, c, url, at, docs, name, step, position);
      var next := Onward(at, docs[0], Follow(c, docs[0], WithNumber(url, name, position)));
      PositionsAreRead(serve, c, url, next, docs[1..], name, step, position + step);
      assert (at.records + docs[0].records) + All(docs[1..]) == at.records + All(docs);
    }
  }

  /** What is said of positions is what the read ahead is asked of. */
  lemma {:induction false} PositionsServe(serve: Url -> Answer, c: Config, url: Url, at: Cursor, docs: seq<Document>,
                                          name: string, step: int, position: int)
    requires AwaitsPosition(serve, c, url, at, docs, name, step, position)
    ensures Serves(serve, c, at, docs, Stride(name, step))
    decreases |docs|
  {
    if docs != [] {
      PositionFollows(serve, c, url, at, docs, name, step, position);
      PositionsServe(serve, c, url, After(c, at, docs[0]), docs[1..], name, step, position + step);
      NumberOverNumber(url, name, position, position + step);
    }
  }

  /** A collection paged by position, within its bounds, is read whole by following
      it. */
  lemma PositionsReadWhole(serve: Url -> Answer, c: Config, url: Url, docs: seq<Document>, name: string, step: int,
                           first: int)
    requires PagedByPosition(serve, c, url, docs, name, step, first)
    requires |docs| < c.maxPages && Size(docs) < c.maxRows
    ensures ByLinks(serve, c, Start(c, url, docs[0])) == Read(All(docs), |docs|, false)
  {
    StartsAtPosition(serve, c, url, docs, name, step, first);
    PositionsAreRead(serve, c, url, Start(c, url, docs[0]), docs[1..], name, step, first + step);
  }

  lemma StartsAtPosition(serve: Url -> Answer, c: Config, url: Url, docs: seq<Document>, name: string, step: int,
                         first: int)
    requires PagedByPosition(serve, c, url, docs, name, step, first)
    ensures AwaitsPosition(serve, c, url, Start(c, url, docs[0]), docs[1..], name, step, first + step)
  {
    TheRestIsNew(docs);
  }

  /** And so it is by the whole read, the later pages asked for ahead, where nothing
      under the parameter is misshapen and the totals declared are right. */
  lemma PositionsReadWholeAhead(serve: Url -> Answer, c: Config, url: Url, docs: seq<Document>, name: string, step: int,
                                first: int)
    requires PagedByPosition(serve, c, url, docs, name, step, first)
    requires |docs| < c.maxPages && Size(docs) < c.maxRows
    requires c.pageWorkers > 0 && TotalsRight(Size(docs), docs) && NothingMisshapenAt(serve, url, name)
    ensures ReadPages(serve, c, url, docs[0]).reading == Read(All(docs), |docs|, false)
  {
    hide All, Serves, ByLinks, ReadPages, Positioned, TotalsRight, AnyMisshapen, NothingMisshapenAt, Start, EachIsNew;
    var at, stride := Start(c, url, docs[0]), Stride(name, step);
    StartsAtPosition(serve, c, url, docs, name, step, first);
    PositionsServe(serve, c, url, at, docs[1..], name, step, first + step);
    PositionsReadWhole(serve, c, url, docs, name, step, first);
    NothingMisshapenAhead(serve, url, name, step, first + step, ReadPages(serve, c, url, docs[0]).asked);
    WholeAhead(serve, c, url, docs, stride);
  }

  lemma {:induction false} NthPosition(url: Url, name: string, step: int, position: int, n: nat) returns (v: int)
    ensures Nth(WithNumber(url, name, position), Stride(name, step), n) == WithNumber(url, name, v)
  {
    if n == 0 {
      v := position;
    } else {
      var before := NthPosition(url, name, step, position, n - 1);
      NumberOverNumber(url, name, before, before + step);
      v := before + step;
    }
  }

  lemma NothingMisshapenAhead(serve: Url -> Answer, url: Url, name: string, step: int, position: int, n: nat)
    requires NothingMisshapenAt(serve, url, name)
    ensures !AnyMisshapen(serve, WithNumber(url, name, position), Stride(name, step), n)
  {
    forall i | 0 <= i < n ensures !serve(Nth(WithNumber(url, name, position), Stride(name, step), i)).Misshapen? {
      var v := NthPosition(url, name, step, position, i);
    }
  }

  /** What the links read whole the whole read does. */
  lemma WholeAhead(serve: Url -> Answer, c: Config, url: Url, docs: seq<Document>, stride: Stride)
    requires docs != [] && stride.step > 0 && c.pageWorkers > 0 && Size(docs) < c.maxRows
    requires Serves(serve, c, Start(c, url, docs[0]), docs[1..], stride) && TotalsRight(Size(docs), docs)
    requires ByLinks(serve, c, Start(c, url, docs[0])).Read?
    requires !AsksForMisshapen(serve, Start(c, url, docs[0]), stride, ReadPages(serve, c, url, docs[0]).asked)
    ensures ReadPages(serve, c, url, docs[0]).reading == ByLinks(serve, c, Start(c, url, docs[0]))
  {
    var at := Start(c, url, docs[0]);
    AllIsJoined(docs[1..]);
    assert forall d <- docs[1..] :: d in docs;
    assert |at.records| + Rows(docs[1..]) == Size(docs);
    hide Serves, ByLinks, ReadPages, AsksForMisshapen, LinksFail, ReadsTheSameFrom, Start, PagesToTurn, All, Rows;
    LinksReadThisFar(serve, c, at, docs[1..], stride);
    FittingCollectionsReadAlike(serve, c, at, docs[1..], stride, PagesToTurn(at, stride), |docs[0].records|);
    ReadingAheadIsFollowingLinks(serve, c, url, docs[0], docs[1..], stride);
  }

  // ---- by links ------------------------------------------------------------

  /** Pages still ahead, linked to one from another; the last ends it. */
  predicate AwaitsLinks(serve: Url -> Answer, c: Config, at: Cursor, docs: seq<Document>, urls: seq<Url>) {
    && c.nextKey && |urls| == |docs| && EachIsNew(docs)
    && at.following == (if urls == [] then None else Some(urls[0])) && (docs != [] ==> docs[0].records != at.seen)
    && (forall i :: 0 <= i < |docs| ==> serve(urls[i]) == Page(docs[i]))
    && (forall i :: 0 <= i < |docs| - 1 ==> docs[i].link == Some(urls[i + 1]))
    && (docs != [] ==>
          docs[|docs| - 1].link.None? && (c.paging.Some? ==> docs[|docs| - 1].position.None?))
  }

  lemma LinkFollows(serve: Url -> Answer, c: Config, at: Cursor, docs: seq<Document>, urls: seq<Url>)
    requires AwaitsLinks(serve, c, at, docs, urls) && docs != []
    ensures var next := Onward(at, docs[0], Follow(c, docs[0], urls[0]));
            && serve(urls[0]) == Page(docs[0]) && !Ends(at, docs[0])
            && next.following == (if |docs| == 1 then None else Some(urls[1]))
            && AwaitsLinks(serve, c, next, docs[1..], urls[1..])
  {
    TheRestIsNew(docs);
  }

  lemma {:induction false} LinksAreRead(serve: Url -> Answer, c: Config, at: Cursor, docs: seq<Document>,
                                        urls: seq<Url>)
    requires AwaitsLinks(serve, c, at, docs, urls)
    requires at.pages + |docs| <= c.maxPages && |at.records| + Size(docs) <= c.maxRows
    ensures ByLinks(serve, c, at) == Read(at.records + All(docs), at.pages + |docs|, false)
    decreases |docs|
  {
    assert at.records + [] == at.records;
    if docs != [] {
      LinkFollows(serve, c, at, docs, urls);
      var next := Onward(at, docs[0], Follow(c, docs[0], urls[0]));
      LinksAreRead(serve, c, next, docs[1..], urls[1..]);
      assert (at.records + docs[0].records) + All(docs[1..]) == at.records + All(docs);
      assert docs[0].records != [];
    }
  }

  /** Each address is the one before it moved on by the stride. */
  predicate Strides(urls: seq<Url>, stride: Stride) {
    forall i :: 0 < i < |urls| - 1 ==> urls[i + 1] == Advance(urls[i], stride)
  }

  lemma {:induction false} LinksServe(serve: Url -> Answer, c: Config, at: Cursor, docs: seq<Document>, urls: seq<Url>,
                                      stride: Stride)
    requires AwaitsLinks(serve, c, at, docs, urls)
    requires forall i :: 0 <= i < |urls| - 1 ==> urls[i + 1] == Advance(urls[i], stride)
    ensures Serves(serve, c, at, docs, stride)
    decreases |docs|
  {
    if docs != [] {
      LinkFollows(serve, c, at, docs, urls);
      LinksServe(serve, c, After(c, at, docs[0]), docs[1..], urls[1..], stride);
    }
  }

  lemma StartsAtLinks(serve: Url -> Answer, c: Config, docs: seq<Document>, urls: seq<Url>)
    requires PagedByLinks(serve, c, docs, urls)
    ensures AwaitsLinks(serve, c, Start(c, urls[0], docs[0]), docs[1..], urls[1..])
  {
    TheRestIsNew(docs);
  }

  /** A collection paged by links, within its bounds, is read whole by following
      them, wherever they lead and whatever positions its pages report besides: of a
      link and a position the link wins. */
  lemma LinksReadWhole(serve: Url -> Answer, c: Config, docs: seq<Document>, urls: seq<Url>)
    requires PagedByLinks(serve, c, docs, urls) && |docs| <= c.maxPages && Size(docs) <= c.maxRows
    ensures ByLinks(serve, c, Start(c, urls[0], docs[0])) == Read(All(docs), |docs|, false)
  {
    StartsAtLinks(serve, c, docs, urls);
    LinksAreRead(serve, c, Start(c, urls[0], docs[0]), docs[1..], urls[1..]);
  }

  /** And so it is by the whole read where the links from the second page on move
      one parameter by a fixed step. */
  lemma LinksReadWholeAhead(serve: Url -> Answer, c: Config, docs: seq<Document>, urls: seq<Url>, stride: Stride)
    requires PagedByLinks(serve, c, docs, urls) && |docs| <= c.maxPages && Size(docs) < c.maxRows
    requires stride.step > 0 && Strides(urls, stride) && c.pageWorkers > 0 && TotalsRight(Size(docs), docs)
    requires |urls| > 1 ==> forall n: nat :: !serve(Nth(urls[1], stride, n)).Misshapen?
    ensures ReadPages(serve, c, urls[0], docs[0]).reading == Read(All(docs), |docs|, false)
  {
    hide All, Serves, ByLinks, ReadPages, TotalsRight, Start, EachIsNew;
    var at := Start(c, urls[0], docs[0]);
    StartsAtLinks(serve, c, docs, urls);
    assert forall i :: 0 <= i < |urls[1..]| - 1 ==> urls[1..][i + 1] == Advance(urls[1..][i], stride);
    LinksServe(serve, c, at, docs[1..], urls[1..], stride);
    LinksReadWhole(serve, c, docs, urls);
    WholeAhead(serve, c, urls[0], docs, stride);
  }
}
