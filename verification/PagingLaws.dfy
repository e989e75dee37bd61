/** What reading ahead promises: the collection that following every link would
    read, never more requests than pages allowed, never a gap. */
module PagingLaws {
  import opened Outcomes
  import opened Paging

  // ---- a collection --------------------------------------------------------

  function Rows(docs: seq<Document>): nat {
    if docs == [] then 0 else |docs[0].records| + Rows(docs[1..])
  }

  function Joined(docs: seq<Document>): seq<Record> {
    if docs == [] then [] else docs[0].records + Joined(docs[1..])
  }

  function After(c: Config, at: Cursor, d: Document): Cursor {
    Onward(at, d, if at.following.Some? then Follow(c, d, at.following.value) else None)
  }

  /** From here on the server has these pages and then no more: none is empty or
      the one before it again, each link moves one query parameter on by the
      stride, and a link after the last leads to a page that ends the
      collection. A request for any of them may fail. */
  ghost predicate Serves(serve: Url -> Answer, c: Config, at: Cursor, rest: seq<Document>, stride: Stride)
    decreases |rest|
  {
    if rest == [] then
      at.following.Some? ==>
        var answer := serve(at.following.value); answer.Fails? || (answer.Page? && Ends(at, answer.document))
    else
      && at.following.Some? && !Ends(at, rest[0])
      && (serve(at.following.value).Fails? || serve(at.following.value) == Page(rest[0]))
      && After(c, at, rest[0]).following in {None, Some(Advance(at.following.value, stride))}
      && Serves(serve, c, After(c, at, rest[0]), rest[1..], stride)
  }

  /** A request fails that following every link would make. */
  predicate FailsInReach(serve: Url -> Answer, c: Config, at: Cursor, rest: seq<Document>)
    decreases |rest|
  {
    && at.following.Some? && at.pages < c.maxPages
    && (serve(at.following.value).Fails? || (rest != [] && FailsInReach(serve, c, After(c, at, rest[0]), rest[1..])))
  }

  /** The last page still links on. */
  predicate LinkedOn(c: Config, at: Cursor, rest: seq<Document>)
    decreases |rest|
  {
    if rest == [] then at.following.Some? else LinkedOn(c, After(c, at, rest[0]), rest[1..])
  }

  /** A declared total is right. */
  predicate TotalRight(total: Option<nat>, at: Cursor, rest: seq<Document>) {
    total.Some? ==> total.value == |at.records| + Rows(rest)
  }

  lemma {:induction false} RowsFrom(docs: seq<Document>, k: nat)
    requires k <= |docs|
    ensures Rows(docs) == Rows(docs[..k]) + Rows(docs[k..])
  {
    if k > 0 {
      RowsFrom(docs[1..], k - 1);
      assert docs[..k][1..] == docs[1..][..k - 1];
      assert docs[1..][k - 1..] == docs[k..];
    } else {
      assert docs[k..] == docs;
    }
  }

  // ---- how far the links read ----------------------------------------------

  /** How many pages are read one by one before a bound, a failure or the end. */
  function LinksRead(serve: Url -> Answer, c: Config, at: Cursor, rest: seq<Document>): (k: nat)
    ensures k <= |rest|
    decreases |rest|
  {
    if rest == [] || at.following.None? || Bounded(c, at) || serve(at.following.value).Fails? then 0
    else 1 + LinksRead(serve, c, After(c, at, rest[0]), rest[1..])
  }

  /** The cursor once so many pages are read. */
  function Reached(c: Config, at: Cursor, rest: seq<Document>, k: nat): Cursor
    requires k <= |rest|
    decreases k
  {
    if k == 0 then at else Reached(c, After(c, at, rest[0]), rest[1..], k - 1)
  }

  /** Where following the links stops. */
  function LinksStop(serve: Url -> Answer, c: Config, at: Cursor, rest: seq<Document>): Cursor {
    Reached(c, at, rest, LinksRead(serve, c, at, rest))
  }

  /** The links meet a request that fails. */
  predicate LinksFail(serve: Url -> Answer, c: Config, at: Cursor, rest: seq<Document>) {
    var stop := LinksStop(serve, c, at, rest);
    stop.following.Some? && !Bounded(c, stop) && serve(stop.following.value).Fails?
  }

  /** The links stop with a page still linked to, at the bound on rows and short
      of the bound on pages. */
  predicate StopsAtRows(serve: Url -> Answer, c: Config, at: Cursor, rest: seq<Document>) {
    var stop := LinksStop(serve, c, at, rest);
    stop.following.Some? && stop.pages < c.maxPages && |stop.records| >= c.maxRows
  }

  /** Where the links stop says what they read: a failure raises, and there is more
      exactly where a bound stops them with a page still linked to. */
  function LinksReading(serve: Url -> Answer, c: Config, at: Cursor, rest: seq<Document>): Reading {
    var stop := LinksStop(serve, c, at, rest);
    if LinksFail(serve, c, at, rest) then Raised
    else Read(stop.records, stop.pages, stop.following.Some? && Bounded(c, stop))
  }

  lemma OneMoreRead(serve: Url -> Answer, c: Config, at: Cursor, rest: seq<Document>)
    requires rest != [] && at.following.Some? && !Bounded(c, at) && !serve(at.following.value).Fails?
    ensures var next := After(c, at, rest[0]);
            && LinksRead(serve, c, at, rest) == 1 + LinksRead(serve, c, next, rest[1..])
            && LinksStop(serve, c, at, rest) == LinksStop(serve, c, next, rest[1..])
  {
  }

  /** Following the links reads pages until a bound, the end or a failure. */
  lemma {:induction false} LinksReadThisFar(serve: Url -> Answer, c: Config, at: Cursor, rest: seq<Document>,
                                            stride: Stride)
    requires Serves(serve, c, at, rest, stride)
    ensures ByLinks(serve, c, at) == LinksReading(serve, c, at, rest)
    ensures ByLinks(serve, c, at).Raised? <==> LinksFail(serve, c, at, rest)
    decreases |rest|
  {
    if rest != [] && !Bounded(c, at) && !serve(at.following.value).Fails? {
      OneMoreRead(serve, c, at, rest);
      LinksReadThisFar(serve, c, After(c, at, rest[0]), rest[1..], stride);
    }
  }

  lemma {:induction false} ReachedIsThere(c: Config, at: Cursor, rest: seq<Document>, k: nat)
    requires k <= |rest|
    ensures var there := Reached(c, at, rest, k);
            && there.pages == at.pages + k && there.records == at.records + Joined(rest[..k])
            && LinkedOn(c, there, rest[k..]) == LinkedOn(c, at, rest)
            && |there.records| + Rows(rest[k..]) == |at.records| + Rows(rest)
    decreases k
  {
    assert rest[0..] == rest && rest[..0] == [] && at.records + Joined([]) == at.records;
    if k > 0 {
      var next := After(c, at, rest[0]);
      ReachedIsThere(c, next, rest[1..], k - 1);
      assert rest[..k][1..] == rest[1..][..k - 1] && rest[1..][k - 1..] == rest[k..];
      var more := Joined(rest[1..][..k - 1]);
      assert (at.records + rest[0].records) + more == at.records + (rest[0].records + more);
    }
  }

  // ---- how far the batches read --------------------------------------------

  /** How many pages come before one whose request fails, or the end. */
  function Answered(serve: Url -> Answer, c: Config, at: Cursor, rest: seq<Document>): (k: nat)
    ensures LinksRead(serve, c, at, rest) <= k <= |rest|
    decreases |rest|
  {
    if rest == [] || at.following.None? || serve(at.following.value).Fails? then 0
    else 1 + Answered(serve, c, After(c, at, rest[0]), rest[1..])
  }

  /** Batches of predicted pages, one after another, come out at so many pages. */
  predicate BatchEndsAt(c: Config, at: Cursor, rest: seq<Document>, k: nat, perPage: nat, total: Option<nat>)
    requires k <= |rest|
    decreases k
  {
    k == 0 ||
    var n := BatchSize(c, at, perPage, total);
    0 < n <= k && BatchEndsAt(c, Reached(c, at, rest, n), rest[n..], k - n, perPage, total)
  }

  lemma {:induction false} ReachedFrom(c: Config, at: Cursor, rest: seq<Document>, n: nat, k: nat)
    requires n + k <= |rest|
    ensures Reached(c, Reached(c, at, rest, n), rest[n..], k) == Reached(c, at, rest, n + k)
    decreases n
  {
    assert rest[0..] == rest;
    if n > 0 {
      ReachedFrom(c, After(c, at, rest[0]), rest[1..], n - 1, k);
      assert rest[1..][n - 1..] == rest[n..];
    }
  }

  /** A later cursor of the same collection, reached without a failure. */
  ghost predicate Continues(serve: Url -> Answer, c: Config, at: Cursor, rest: seq<Document>, stride: Stride, n: nat,
                            later: Cursor) {
    && n <= |rest| && later == Reached(c, at, rest, n) && later.following.Some?
    && Serves(serve, c, later, rest[n..], stride)
    && Answered(serve, c, at, rest) == n + Answered(serve, c, later, rest[n..])
  }

  /** The links go past so many pages, or were stopped before by their rows. */
  predicate LinksGoPast(serve: Url -> Answer, c: Config, at: Cursor, rest: seq<Document>, n: nat)
    requires n <= |rest|
  {
    var k, later := LinksRead(serve, c, at, rest), Reached(c, at, rest, n);
    if k < n then |later.records| >= c.maxRows
    else k == n + LinksRead(serve, c, later, rest[n..])
  }

  lemma {:induction false} GoesPast(serve: Url -> Answer, c: Config, at: Cursor, rest: seq<Document>, n: nat)
    requires n <= Answered(serve, c, at, rest) && at.pages + n <= c.maxPages
    ensures LinksGoPast(serve, c, at, rest, n)
    decreases n
  {
    assert rest[0..] == rest;
    if n > 0 {
      if Bounded(c, at) {
        ReachedIsThere(c, at, rest, n);
      } else {
        GoesPast(serve, c, After(c, at, rest[0]), rest[1..], n - 1);
        assert rest[1..][n - 1..] == rest[n..];
      }
    }
  }

  /** A batch reads on to its end, or to a failure or the end of the collection,
      which it takes for the same. */
  ghost predicate BatchReads(serve: Url -> Answer, c: Config, at: Cursor, rest: seq<Document>, stride: Stride, n: nat,
                             took: Took) {
    var all := Answered(serve, c, at, rest);
    if n <= all && Reached(c, at, rest, n).following.Some? then
      !took.stopped && Continues(serve, c, at, rest, stride, n, took.at)
    else
      && took.stopped && all <= n && took.at.records == Reached(c, at, rest, all).records
      && took.at.pages == at.pages + all
      && (all == n ==> Reached(c, at, rest, all).following.None?)
  }

  lemma {:induction false} BatchReadsThisFar(serve: Url -> Answer, c: Config, at: Cursor, rest: seq<Document>,
                                             stride: Stride, n: nat)
    requires Serves(serve, c, at, rest, stride) && at.following.Some?
    ensures BatchReads(serve, c, at, rest, stride, n, Taken(serve, c, stride, at, n))
    decreases n
  {
    assert rest[0..] == rest;
    if n > 0 && rest != [] && !serve(at.following.value).Fails? {
      var next := After(c, at, rest[0]);
      if next.following.Some? {
        BatchReadsThisFar(serve, c, next, rest[1..], stride, n - 1);
        assert n - 1 <= |rest[1..]| ==> rest[1..][n - 1..] == rest[n..];
      }
    }
  }

  /** Where a read by batches stops: at the first end of a batch at or past where
      the links stop, or before that at a failure or the end. */
  ghost predicate BatchesStop(serve: Url -> Answer, c: Config, at: Cursor, rest: seq<Document>, perPage: nat,
                              total: Option<nat>, m: int) {
    var k, all := LinksRead(serve, c, at, rest), Answered(serve, c, at, rest);
    && k <= m <= all && m < k + c.pageWorkers && (m == k || at.pages + m <= c.maxPages)
    && (m == all || (Bounded(c, Reached(c, at, rest, m)) && BatchEndsAt(c, at, rest, m, perPage, total)))
    && forall j :: k <= j < m ==> !BatchEndsAt(c, at, rest, j, perPage, total)
  }

  /** Stopping there says that there is more: at a bound, with a page still linked
      to; and the bound on rows only counts at the end of a batch. */
  predicate SaysMore(c: Config, at: Cursor, rest: seq<Document>, perPage: nat, total: Option<nat>, m: nat)
    requires m <= |rest|
  {
    var stop := Reached(c, at, rest, m);
    && stop.following.Some?
    && (stop.pages >= c.maxPages || (|stop.records| >= c.maxRows && BatchEndsAt(c, at, rest, m, perPage, total)))
  }

  ghost predicate ReadsBatches(reading: Reading, serve: Url -> Answer, c: Config, at: Cursor, rest: seq<Document>,
                               perPage: nat, total: Option<nat>) {
    reading.Read? ==>
      var m := reading.pages - at.pages;
      && BatchesStop(serve, c, at, rest, perPage, total, m)
      && reading.records == Reached(c, at, rest, m).records && reading.more == SaysMore(c, at, rest, perPage, total, m)
  }

  /** Reading ahead reads whole batches. */
  lemma {:induction false} AheadReadsWholeBatches(serve: Url -> Answer, c: Config, at: Cursor, rest: seq<Document>,
                                                  stride: Stride, perPage: nat, total: Option<nat>, asked: nat)
    requires Faces(serve, c, at, rest, stride, total)
    ensures ReadsBatches(Ahead(serve, c, at, stride, perPage, total, asked).reading, serve, c, at, rest, perPage, total)
    decreases |rest|
  {
    hide *;
    FacesIt(serve, c, at, rest, stride, total);
    AheadByOneBatch(serve, c, at, stride, perPage, total, asked);
    ReadsNone(serve, c, at, rest, stride, perPage, total);
    if at.pages < c.maxPages && |at.records| < c.maxRows {
      var n := BatchSize(c, at, perPage, total);
      var took := Taken(serve, c, stride, at, n);
      BatchReadsThisFar(serve, c, at, rest, stride, n);
      if n > 0 && !AnyMisshapen(serve, at.following.value, stride, n) {
        if took.stopped {
          StopsInABatch(serve, c, at, rest, stride, perPage, total, took);
        } else {
          FacesTheRest(serve, c, at, rest, stride, total, n, took);
          AheadReadsWholeBatches(serve, c, took.at, rest[n..], stride, perPage, total, asked + n);
          BatchesContinue(Ahead(serve, c, took.at, stride, perPage, total, asked + n).reading, serve, c, at, rest,
                          stride, perPage, total, n);
        }
      }
    }
  }

  /** A cursor with the rest of a collection ahead of it. */
  ghost predicate Faces(serve: Url -> Answer, c: Config, at: Cursor, rest: seq<Document>, stride: Stride,
                         total: Option<nat>) {
    Serves(serve, c, at, rest, stride) && TotalRight(total, at, rest) && c.pageWorkers > 0 && at.following.Some?
  }

  lemma FacesIt(serve: Url -> Answer, c: Config, at: Cursor, rest: seq<Document>, stride: Stride,
                    total: Option<nat>)
    requires Faces(serve, c, at, rest, stride, total)
    ensures Serves(serve, c, at, rest, stride) && at.following.Some?
  {
  }

  lemma FacesTheRest(serve: Url -> Answer, c: Config, at: Cursor, rest: seq<Document>, stride: Stride,
                    total: Option<nat>, n: nat, took: Took)
    requires Faces(serve, c, at, rest, stride, total) && n > 0
    requires BatchReads(serve, c, at, rest, stride, n, took) && !took.stopped
    ensures 0 < n <= |rest| && Faces(serve, c, took.at, rest[n..], stride, total)
    ensures Continues(serve, c, at, rest, stride, n, took.at) && took.at == Reached(c, at, rest, n)
  {
    hide Serves, Answered, Reached;
    ReachedIsThere(c, at, rest, n);
  }

  lemma ReadsNone(serve: Url -> Answer, c: Config, at: Cursor, rest: seq<Document>, stride: Stride, perPage: nat,
                  total: Option<nat>)
    requires Faces(serve, c, at, rest, stride, total)
    ensures ReadsBatches(Raised, serve, c, at, rest, perPage, total)
    ensures at.pages >= c.maxPages || |at.records| >= c.maxRows ==>
              ReadsBatches(Read(at.records, at.pages, true), serve, c, at, rest, perPage, total)
    ensures at.pages < c.maxPages && |at.records| < c.maxRows && BatchSize(c, at, perPage, total) == 0 ==>
              ReadsBatches(Read(at.records, at.pages, false), serve, c, at, rest, perPage, total)
  {
    hide Serves;
    if at.pages < c.maxPages && |at.records| < c.maxRows && BatchSize(c, at, perPage, total) == 0 {
      NothingLeft(c, at, rest, perPage, total);
      NoRowsNoPages(serve, c, at, rest, stride);
    }
  }

  lemma StopsInABatch(serve: Url -> Answer, c: Config, at: Cursor, rest: seq<Document>, stride: Stride, perPage: nat,
                      total: Option<nat>, took: Took)
    requires Faces(serve, c, at, rest, stride, total) && at.pages < c.maxPages && |at.records| < c.maxRows
    requires var n := BatchSize(c, at, perPage, total); n > 0 && BatchReads(serve, c, at, rest, stride, n, took)
    requires took.stopped
    ensures ReadsBatches(Read(took.at.records, took.at.pages, false), serve, c, at, rest, perPage, total)
  {
    hide Serves, Continues, TotalRight;
    var n, all := BatchSize(c, at, perPage, total), Answered(serve, c, at, rest);
    forall j | 0 < j < all ensures !BatchEndsAt(c, at, rest, j, perPage, total) {
    }
    ReachedIsThere(c, at, rest, all);
    assert n <= c.pageWorkers;
  }

  /** What is read after a whole batch is read after it. */
  lemma BatchesContinue(reading: Reading, serve: Url -> Answer, c: Config, at: Cursor, rest: seq<Document>,
                        stride: Stride, perPage: nat, total: Option<nat>, n: nat)
    requires at.pages < c.maxPages && |at.records| < c.maxRows && n == BatchSize(c, at, perPage, total) && n > 0
    requires n <= |rest| && Continues(serve, c, at, rest, stride, n, Reached(c, at, rest, n))
    requires ReadsBatches(reading, serve, c, Reached(c, at, rest, n), rest[n..], perPage, total)
    ensures ReadsBatches(reading, serve, c, at, rest, perPage, total)
  {
    hide Serves, Answered, Reached, BatchEndsAt, LinksRead, BatchesStop, SaysMore, BatchSize, Continues, Joined, Rows,
         LinkedOn, Bounded;
    if reading.Read? {
      var later := Reached(c, at, rest, n);
      var m := reading.pages - later.pages;
      ReachedIsThere(c, at, rest, n);
      StopsPast(serve, c, at, rest, stride, perPage, total, n, m);
      assert reading.pages - at.pages == n + m;
    }
  }

  lemma StopsPast(serve: Url -> Answer, c: Config, at: Cursor, rest: seq<Document>, stride: Stride, perPage: nat,
                  total: Option<nat>, n: nat, m: int)
    requires at.pages < c.maxPages && |at.records| < c.maxRows && n == BatchSize(c, at, perPage, total) && n > 0
    requires n <= |rest| && Continues(serve, c, at, rest, stride, n, Reached(c, at, rest, n))
    requires BatchesStop(serve, c, Reached(c, at, rest, n), rest[n..], perPage, total, m)
    ensures 0 <= m <= |rest| - n && BatchesStop(serve, c, at, rest, perPage, total, n + m)
    ensures Reached(c, at, rest, n + m) == Reached(c, Reached(c, at, rest, n), rest[n..], m)
    ensures SaysMore(c, at, rest, perPage, total, n + m)
         == SaysMore(c, Reached(c, at, rest, n), rest[n..], perPage, total, m)
  {
    hide Serves, Answered, Reached, BatchEndsAt, LinksRead, BatchSize;
    assert n <= c.pageWorkers && at.pages + n <= c.maxPages;
    var later := Reached(c, at, rest, n);
    ReachedIsThere(c, at, rest, n);
    GoesPast(serve, c, at, rest, n);
    ReachedFrom(c, at, rest, n, m);
    BatchEndsLater(c, at, rest, perPage, total, n);
    OneIsRead(serve, c, at, rest);
    if LinksRead(serve, c, at, rest) < n {
      StopsWhereBounded(serve, c, later, rest[n..], perPage, total);
    }
  }

  lemma StopsWhereBounded(serve: Url -> Answer, c: Config, at: Cursor, rest: seq<Document>, perPage: nat,
                          total: Option<nat>)
    requires |at.records| >= c.maxRows
    ensures LinksRead(serve, c, at, rest) == 0 && BatchEndsAt(c, at, rest, 0, perPage, total)
  {
  }

  lemma BatchEndsLater(c: Config, at: Cursor, rest: seq<Document>, perPage: nat, total: Option<nat>, n: nat)
    requires n == BatchSize(c, at, perPage, total) && 0 < n <= |rest|
    ensures forall j :: 0 < j < n ==> !BatchEndsAt(c, at, rest, j, perPage, total)
    ensures var later, left := Reached(c, at, rest, n), rest[n..];
            forall j :: n <= j <= |rest| ==> (BatchEndsAt(c, at, rest, j, perPage, total)
                                              <==> BatchEndsAt(c, later, left, j - n, perPage, total))
  {
  }

  lemma OneIsRead(serve: Url -> Answer, c: Config, at: Cursor, rest: seq<Document>)
    requires !Bounded(c, at) && Answered(serve, c, at, rest) > 0
    ensures LinksRead(serve, c, at, rest) > 0
  {
  }

  lemma {:induction false} NoRowsNoPages(serve: Url -> Answer, c: Config, at: Cursor, rest: seq<Document>,
                                         stride: Stride)
    requires Serves(serve, c, at, rest, stride) && Rows(rest) == 0
    ensures rest == []
  {
  }

  lemma NothingLeft(c: Config, at: Cursor, rest: seq<Document>, perPage: nat, total: Option<nat>)
    requires at.pages < c.maxPages && c.pageWorkers > 0 && TotalRight(total, at, rest)
    requires BatchSize(c, at, perPage, total) == 0
    ensures Rows(rest) == 0
  {
    if perPage > 0 {
      AtLeastOnePage(Rows(rest), perPage);
    }
  }

  lemma AtLeastOnePage(rows: nat, perPage: nat)
    requires perPage > 0
    ensures rows > 0 ==> (rows + perPage - 1) / perPage >= 1
  {
  }

  // ---- reading ahead against the links -------------------------------------

  /** Asking for the predicted pages reads what following their links reads,
      exactly where no request the links make fails (a failure is taken for the
      end, where following the link raises it) and the links are not stopped by
      their rows inside a batch, the last page's link counting as a page to come. */
  lemma AheadIsFollowingTheLinks(serve: Url -> Answer, c: Config, at: Cursor, rest: seq<Document>, stride: Stride,
                                 perPage: nat, total: Option<nat>, asked: nat)
    requires Faces(serve, c, at, rest, stride, total)
    ensures var reading := Ahead(serve, c, at, stride, perPage, total, asked).reading;
            reading.Read? ==> (reading == ByLinks(serve, c, at) <==> ReadsTheSame(serve, c, at, rest, perPage, total))
    ensures var reading := Ahead(serve, c, at, stride, perPage, total, asked).reading;
            reading.Read? && LinksFail(serve, c, at, rest) ==> ByLinks(serve, c, at).Raised? && !reading.more
  {
    hide *;
    FacesIt(serve, c, at, rest, stride, total);
    AheadReadsWholeBatches(serve, c, at, rest, stride, perPage, total, asked);
    LinksReadThisFar(serve, c, at, rest, stride);
    BatchesAgainstLinks(Ahead(serve, c, at, stride, perPage, total, asked).reading, serve, c, at, rest, stride,
                        perPage, total);
  }

  /** Nothing fails where the links go, and they are not stopped by their rows
      inside a batch. */
  predicate ReadsTheSame(serve: Url -> Answer, c: Config, at: Cursor, rest: seq<Document>, perPage: nat,
                       total: Option<nat>) {
    && !LinksFail(serve, c, at, rest)
    && (StopsAtRows(serve, c, at, rest) ==> BatchEndsAt(c, at, rest, LinksRead(serve, c, at, rest), perPage, total))
  }

  lemma BatchesAgainstLinks(reading: Reading, serve: Url -> Answer, c: Config, at: Cursor, rest: seq<Document>,
                            stride: Stride, perPage: nat, total: Option<nat>)
    requires Serves(serve, c, at, rest, stride) && ReadsBatches(reading, serve, c, at, rest, perPage, total)
    ensures reading.Read? ==>
              (reading == LinksReading(serve, c, at, rest) <==> ReadsTheSame(serve, c, at, rest, perPage, total))
    ensures reading.Read? && LinksFail(serve, c, at, rest) ==> !reading.more
    ensures reading.Read? && StopsAtRows(serve, c, at, rest) && !ReadsTheSame(serve, c, at, rest, perPage, total) ==>
              var stop := LinksStop(serve, c, at, rest);
              reading.pages > stop.pages
              || (reading.pages == stop.pages && reading.records == stop.records && !reading.more)
  {
    hide Serves, Answered, Reached, BatchEndsAt, LinksRead;
    if reading.Read? {
      LinksStopThere(serve, c, at, rest, stride);
      ReachedIsThere(c, at, rest, LinksRead(serve, c, at, rest));
      ReachedIsThere(c, at, rest, reading.pages - at.pages);
    }
  }

  /** What stops the links: the end, a bound or a failure. */
  lemma {:induction false} LinksStopThere(serve: Url -> Answer, c: Config, at: Cursor, rest: seq<Document>,
                                          stride: Stride)
    requires Serves(serve, c, at, rest, stride)
    ensures var stop, k := LinksStop(serve, c, at, rest), LinksRead(serve, c, at, rest);
            && (k < |rest| ==> stop.following.Some?)
            && (LinksFail(serve, c, at, rest) ==> k == Answered(serve, c, at, rest))
            && (!LinksFail(serve, c, at, rest) ==> k == |rest| || Bounded(c, stop))
    decreases |rest|
  {
    if rest != [] && !Bounded(c, at) && !serve(at.following.value).Fails? {
      OneMoreRead(serve, c, at, rest);
      LinksStopThere(serve, c, After(c, at, rest[0]), rest[1..], stride);
    }
  }

  // ---- what is asked for ---------------------------------------------------

  lemma {:induction false} NthOfNth(url: Url, stride: Stride, n: nat, i: nat)
    ensures Nth(Nth(url, stride, n), stride, i) == Nth(url, stride, n + i)
  {
    if i > 0 {
      NthOfNth(url, stride, n, i - 1);
    }
  }

  lemma MisshapenInEither(serve: Url -> Answer, url: Url, stride: Stride, n: nat, m: nat)
    ensures AnyMisshapen(serve, url, stride, n + m)
       <==> AnyMisshapen(serve, url, stride, n) || AnyMisshapen(serve, Nth(url, stride, n), stride, m)
  {
    forall i | 0 <= i < m ensures Nth(Nth(url, stride, n), stride, i) == Nth(url, stride, n + i) {
      NthOfNth(url, stride, n, i);
    }
    if i :| 0 <= i < n + m && serve(Nth(url, stride, i)).Misshapen? {
      if i >= n {
        assert serve(Nth(Nth(url, stride, n), stride, i - n)).Misshapen?;
      }
    }
    if i :| 0 <= i < m && serve(Nth(Nth(url, stride, n), stride, i)).Misshapen? {
      assert serve(Nth(url, stride, n + i)).Misshapen?;
    }
  }

  /** Whatever the server answers, reading ahead raises exactly where a page it
      asked for has no records where they should be, past the end or not, and
      it never asks for more pages than are allowed. */
  lemma {:induction false} AheadAsks(serve: Url -> Answer, c: Config, at: Cursor, stride: Stride, perPage: nat,
                                     total: Option<nat>, asked: nat)
    requires at.following.Some?
    ensures var run := Ahead(serve, c, at, stride, perPage, total, asked);
            && asked <= run.asked
            && run.asked - asked <= (if at.pages < c.maxPages then c.maxPages - at.pages else 0)
            && (run.reading.Raised? <==> AnyMisshapen(serve, at.following.value, stride, run.asked - asked))
    decreases if at.pages < c.maxPages then c.maxPages - at.pages else 0
  {
    hide *;
    AheadByOneBatch(serve, c, at, stride, perPage, total, asked);
    NothingMisshapen(serve, at.following.value, stride);
    if at.pages < c.maxPages && |at.records| < c.maxRows {
      var n := BatchSize(c, at, perPage, total);
      var took := Taken(serve, c, stride, at, n);
      var run := Ahead(serve, c, at, stride, perPage, total, asked);
      if n > 0 && !AnyMisshapen(serve, at.following.value, stride, n) && !took.stopped {
        AheadAsks(serve, c, took.at, stride, perPage, total, asked + n);
        MisshapenInEither(serve, at.following.value, stride, n, run.asked - asked - n);
      }
    }
  }

  lemma NothingMisshapen(serve: Url -> Answer, url: Url, stride: Stride)
    ensures !AnyMisshapen(serve, url, stride, 0)
  {
  }

  /** The serial part asks for a page for each it reads, and one that ends it. */
  lemma {:induction false} OpeningAsks(serve: Url -> Answer, c: Config, at: Cursor, asked: nat)
    ensures match Opening(serve, c, at, asked)
            case Finished(run) =>
              asked <= run.asked <= asked + (if at.pages < c.maxPages then c.maxPages - at.pages else 0)
            case Turned(next, _, _, now) =>
              && next.following.Some? && asked < now && now - asked == next.pages - at.pages && next.pages <= c.maxPages
    decreases if at.pages < c.maxPages then c.maxPages - at.pages else 0
  {
    if at.following.Some? && !Bounded(c, at) && serve(at.following.value).Page? {
      var d := serve(at.following.value).document;
      if !Ends(at, d) {
        OpeningAsks(serve, c, After(c, at, d), asked + 1);
      }
    }
  }

  /** Against any server, a whole read makes at most max(1, max_pages) requests,
      its first and those past the end counted. */
  lemma RequestsAreBounded(serve: Url -> Answer, c: Config, url: Url, first: Document)
    ensures 1 + ReadPages(serve, c, url, first).asked <= if c.maxPages > 1 then c.maxPages else 1
  {
    var at := Start(c, url, first);
    OpeningAsks(serve, c, at, 0);
    match Opening(serve, c, at, 0)
    case Finished(run) =>
    case Turned(next, stride, total, asked) =>
      AheadAsks(serve, c, next, stride, |first.records|, total, asked);
  }

  // ---- the whole read ------------------------------------------------------

  /** Every total a page declares is the collection's. */
  predicate TotalsRight(size: nat, rest: seq<Document>) {
    forall d <- rest :: d.total.Some? ==> d.total.value == size
  }

  /** How many pages the serial part reads before it turns to reading ahead: the
      first link shows the stride where it carries the parameter as a number, and
      otherwise the second does. */
  function PagesToTurn(at: Cursor, stride: Stride): (t: nat)
    ensures t > 0
  {
    if at.following.Some? && stride.name in at.following.value.query && at.following.value.query[stride.name].Number?
    then 1 else 2
  }

  /** The serial part is following the links, and where it turns to reading ahead
      it has found the stride they advance by. */
  ghost predicate TurnsWell(serve: Url -> Answer, c: Config, at: Cursor, rest: seq<Document>, stride: Stride,
                            whole: Opened, asked: nat, t: nat) {
    match whole
    case Finished(run) =>
      run.reading == ByLinks(serve, c, at)
      && (LinksRead(serve, c, at, rest) < t || LinksStop(serve, c, at, rest).following.None?)
    case Turned(next, found, total, now) =>
      && 0 < t <= LinksRead(serve, c, at, rest) && next == Reached(c, at, rest, t) && found == stride
      && now == asked + t
      && at.following.Some? && next.following == Some(Nth(at.following.value, stride, t))
      && total == rest[t - 1].total && Faces(serve, c, next, rest[t..], stride, total)
  }

  /** Collections whose declared totals are right. */
  ghost predicate Regular(serve: Url -> Answer, c: Config, at: Cursor, rest: seq<Document>, stride: Stride) {
    && stride.step > 0 && c.pageWorkers > 0
    && Serves(serve, c, at, rest, stride) && TotalsRight(|at.records| + Rows(rest), rest)
  }

  lemma RegularMovesOn(serve: Url -> Answer, c: Config, at: Cursor, rest: seq<Document>, stride: Stride)
    requires Regular(serve, c, at, rest, stride) && rest != [] && at.following.Some?
    ensures var next := After(c, at, rest[0]);
            && Regular(serve, c, next, rest[1..], stride)
            && (next.following.Some? ==>
                  next.following == Some(Advance(at.following.value, stride))
                  && Faces(serve, c, next, rest[1..], stride, rest[0].total))
  {
    var next := After(c, at, rest[0]);
    assert |next.records| + Rows(rest[1..]) == |at.records| + Rows(rest);
    assert rest[0] in rest;
  }

  lemma OpeningFollowsTheLinks(serve: Url -> Answer, c: Config, at: Cursor, rest: seq<Document>, stride: Stride,
                               asked: nat)
    requires Regular(serve, c, at, rest, stride)
    ensures TurnsWell(serve, c, at, rest, stride, Opening(serve, c, at, asked), asked, PagesToTurn(at, stride))
    decreases |rest|
  {
    if rest == [] || at.following.None? || Bounded(c, at) || serve(at.following.value).Fails? {
      FinishesHere(serve, c, at, rest, stride, asked);
    } else {
      RegularMovesOn(serve, c, at, rest, stride);
      StrideIsFoundAgain(at.following.value, stride);
      var next := After(c, at, rest[0]);
      if PagesToTurn(at, stride) == 2 && next.following.Some? {
        assert PagesToTurn(next, stride) == 1;
        OpeningFollowsTheLinks(serve, c, next, rest[1..], stride, asked + 1);
        TurnsWellBefore(serve, c, at, rest, stride, Opening(serve, c, next, asked + 1), asked);
      } else {
        TurnsAtOnce(serve, c, at, rest, stride, asked);
      }
    }
  }

  lemma FinishesHere(serve: Url -> Answer, c: Config, at: Cursor, rest: seq<Document>, stride: Stride, asked: nat)
    requires Serves(serve, c, at, rest, stride)
    requires rest == [] || at.following.None? || Bounded(c, at) || serve(at.following.value).Fails?
    ensures var whole := Opening(serve, c, at, asked);
            whole.Finished? && whole.run.reading == ByLinks(serve, c, at) && LinksRead(serve, c, at, rest) == 0
  {
  }

  lemma TurnsAtOnce(serve: Url -> Answer, c: Config, at: Cursor, rest: seq<Document>, stride: Stride, asked: nat)
    requires Regular(serve, c, at, rest, stride) && rest != [] && !Bounded(c, at)
    requires at.following.Some? && !serve(at.following.value).Fails?
    requires After(c, at, rest[0]).following.Some? ==> PagesToTurn(at, stride) == 1
    ensures TurnsWell(serve, c, at, rest, stride, Opening(serve, c, at, asked), asked, PagesToTurn(at, stride))
  {
    hide Serves, TotalsRight;
    ServesItsPage(serve, c, at, rest, stride);
    RegularMovesOn(serve, c, at, rest, stride);
    OneMoreRead(serve, c, at, rest);
    var next := After(c, at, rest[0]);
    assert Reached(c, at, rest, 1) == Reached(c, next, rest[1..], 0) == next;
    if next.following.Some? {
      StrideIsFoundAgain(at.following.value, stride);
      assert Nth(at.following.value, stride, 1) == Advance(Nth(at.following.value, stride, 0), stride);
    } else {
      assert LinksRead(serve, c, next, rest[1..]) == 0;
      assert ByLinks(serve, c, next) == Read(next.records, next.pages, false);
    }
  }

  lemma ServesItsPage(serve: Url -> Answer, c: Config, at: Cursor, rest: seq<Document>, stride: Stride)
    requires Serves(serve, c, at, rest, stride) && rest != [] && at.following.Some?
    requires !serve(at.following.value).Fails?
    ensures serve(at.following.value) == Page(rest[0]) && !Ends(at, rest[0])
  {
  }

  lemma TurnsWellBefore(serve: Url -> Answer, c: Config, at: Cursor, rest: seq<Document>, stride: Stride,
                        whole: Opened, asked: nat)
    requires Serves(serve, c, at, rest, stride) && rest != [] && !Bounded(c, at)
    requires at.following.Some? && !serve(at.following.value).Fails?
    requires After(c, at, rest[0]).following == Some(Advance(at.following.value, stride))
    requires TurnsWell(serve, c, After(c, at, rest[0]), rest[1..], stride, whole, asked + 1, 1)
    ensures TurnsWell(serve, c, at, rest, stride, whole, asked, 2)
  {
    hide Serves, Faces;
    ServesItsPage(serve, c, at, rest, stride);
    OneMoreRead(serve, c, at, rest);
    var next := After(c, at, rest[0]);
    if whole.Turned? {
      assert Reached(c, at, rest, 2) == Reached(c, next, rest[1..], 1);
      assert rest[1..][1..] == rest[2..];
      NthOfTheNext(at.following.value, stride, 1);
    }
  }

  /** Past some pages the links stop where they would have. */
  lemma SameStop(serve: Url -> Answer, c: Config, at: Cursor, rest: seq<Document>, stride: Stride, t: nat)
    requires Serves(serve, c, at, rest, stride) && t <= LinksRead(serve, c, at, rest)
    ensures var next, left := Reached(c, at, rest, t), rest[t..];
            && LinksRead(serve, c, at, rest) == t + LinksRead(serve, c, next, left)
            && LinksStop(serve, c, at, rest) == LinksStop(serve, c, next, left)
            && LinksReading(serve, c, at, rest) == LinksReading(serve, c, next, left)
            && (FailsInReach(serve, c, next, left) ==> FailsInReach(serve, c, at, rest))
    decreases t
  {
    assert rest[0..] == rest;
    if t > 0 {
      OneMoreRead(serve, c, at, rest);
      SameStop(serve, c, After(c, at, rest[0]), rest[1..], stride, t - 1);
      assert rest[1..][t - 1..] == rest[t..];
    }
  }

  /** Past the pages read one by one, nothing fails where the links go, and they
      are not stopped by their rows inside a batch. */
  predicate ReadsTheSameFrom(serve: Url -> Answer, c: Config, at: Cursor, rest: seq<Document>, t: nat, perPage: nat)
    requires t > 0
  {
    LinksRead(serve, c, at, rest) < t
    || ReadsTheSame(serve, c, Reached(c, at, rest, t), rest[t..], perPage, rest[t - 1].total)
  }

  predicate AsksForMisshapen(serve: Url -> Answer, at: Cursor, stride: Stride, asked: nat) {
    at.following.Some? && AnyMisshapen(serve, at.following.value, stride, asked)
  }

  /** Batched read-ahead gives what following every link one by one gives (the
      same records, page count and "more") for a collection whose links advance
      one parameter by a fixed step and whose declared totals are right, exactly
      where ReadsTheSameFrom says so. The one exception is a page it asked for,
      which may lie past the end, that answers with a document holding no records
      where they should be: then it raises, as the links do only where a request
      of theirs fails. */
  lemma ReadingAheadIsFollowingLinks(serve: Url -> Answer, c: Config, url: Url, first: Document, rest: seq<Document>,
                                     stride: Stride)
    requires Regular(serve, c, Start(c, url, first), rest, stride)
    ensures var run, at := ReadPages(serve, c, url, first), Start(c, url, first);
            if AsksForMisshapen(serve, at, stride, run.asked) then
              run.reading.Raised? && (ByLinks(serve, c, at).Raised? <==> LinksFail(serve, c, at, rest))
            else
              run.reading == ByLinks(serve, c, at)
              <==> ReadsTheSameFrom(serve, c, at, rest, PagesToTurn(at, stride), |first.records|)
  {
    hide TurnsWell, Serves, ByLinks, Ahead, LinksRead, Reached, ReadsTheSame, AnyMisshapen, LinksReading, PagesToTurn,
         Start, Opening, Follow, Advance, TotalsRight;
    var at := Start(c, url, first);
    var t := PagesToTurn(at, stride);
    OpeningFollowsTheLinks(serve, c, at, rest, stride, 0);
    OpeningAsksForPages(serve, c, at, rest, stride, 0);
    LinksReadThisFar(serve, c, at, rest, stride);
    match Opening(serve, c, at, 0)
    case Finished(run) =>
      FinishedReadsAlike(serve, c, at, rest, stride, run, t, |first.records|);
    case Turned(next, found, total, asked) =>
      TurnedReadsAlike(serve, c, at, rest, stride, Turned(next, found, total, asked), t, |first.records|);
  }

  lemma FinishedReadsAlike(serve: Url -> Answer, c: Config, at: Cursor, rest: seq<Document>, stride: Stride, run: Run,
                           t: nat, perPage: nat)
    requires t > 0 && Serves(serve, c, at, rest, stride) && TurnsWell(serve, c, at, rest, stride, Finished(run), 0, t)
    ensures run.reading == ByLinks(serve, c, at) && ReadsTheSameFrom(serve, c, at, rest, t, perPage)
  {
    var k := LinksRead(serve, c, at, rest);
    if k >= t {
      SameStop(serve, c, at, rest, stride, t);
    }
    hide Serves, LinksRead, ByLinks, Reached;
  }

  lemma TurnedReadsAlike(serve: Url -> Answer, c: Config, at: Cursor, rest: seq<Document>, stride: Stride,
                         whole: Opened, t: nat, perPage: nat)
    requires whole.Turned? && Serves(serve, c, at, rest, stride) && t > 0
    requires TurnsWell(serve, c, at, rest, stride, whole, 0, t) && !AsksForMisshapen(serve, at, stride, whole.asked)
    ensures var run := Ahead(serve, c, whole.at, whole.stride, perPage, whole.total, whole.asked);
            if AsksForMisshapen(serve, at, stride, run.asked) then run.reading.Raised?
            else run.reading == ByLinks(serve, c, at) <==> ReadsTheSameFrom(serve, c, at, rest, t, perPage)
  {
    hide Serves, ByLinks, LinksRead, Reached, Ahead, Nth, AnyMisshapen, ReadsTheSame;
    var next := whole.at;
    var run := Ahead(serve, c, next, stride, perPage, whole.total, whole.asked);
    SameStop(serve, c, at, rest, stride, t);
    LinksReadThisFar(serve, c, at, rest, stride);
    LinksReadThisFar(serve, c, next, rest[t..], stride);
    AheadIsFollowingTheLinks(serve, c, next, rest[t..], stride, perPage, whole.total, whole.asked);
    AheadAsks(serve, c, next, stride, perPage, whole.total, whole.asked);
    MisshapenInEither(serve, at.following.value, stride, whole.asked, run.asked - whole.asked);
  }

  /** The serial part asks for nothing past the end of a collection. */
  lemma {:induction false} OpeningAsksForPages(serve: Url -> Answer, c: Config, at: Cursor, rest: seq<Document>,
                                               stride: Stride, asked: nat)
    requires Serves(serve, c, at, rest, stride)
    ensures var whole := Opening(serve, c, at, asked);
            var now := if whole.Finished? then whole.run.asked else whole.asked;
            && asked <= now && !AsksForMisshapen(serve, at, stride, now - asked)
    decreases |rest|
  {
    if at.following.Some? {
      var u := at.following.value;
      assert Nth(u, stride, 0) == u;
      if !Bounded(c, at) && rest != [] && !serve(u).Fails? {
        var next := After(c, at, rest[0]);
        OpeningAsksForPages(serve, c, next, rest[1..], stride, asked + 1);
        if next.following.Some? && StrideBetween(u, next.following.value).None? {
          var whole := Opening(serve, c, at, asked);
          var now := if whole.Finished? then whole.run.asked else whole.asked;
          assert Nth(u, stride, 1) == Advance(Nth(u, stride, 0), stride);
          MisshapenInEither(serve, u, stride, 1, now - asked - 1);
        }
      }
    }
  }

  // ---- a gap-free prefix ---------------------------------------------------

  /** What was read are the first so many pages, one after another. */
  predicate IsPrefix(at: Cursor, rest: seq<Document>, records: seq<Record>, pages: nat) {
    at.pages <= pages <= at.pages + |rest| && records == at.records + Joined(rest[..pages - at.pages])
  }

  predicate ReadsAPrefix(reading: Reading, serve: Url -> Answer, c: Config, at: Cursor, rest: seq<Document>) {
    reading.Read? ==>
      && IsPrefix(at, rest, reading.records, reading.pages)
      && (reading.more ==> reading.pages >= c.maxPages || |reading.records| >= c.maxRows)
      && (reading.more && !LinkedOn(c, at, rest) ==> reading.pages - at.pages < |rest|)
      && (!reading.more && !FailsInReach(serve, c, at, rest) ==> reading.pages - at.pages == |rest|)
  }

  lemma PrefixOfTheRest(at: Cursor, rest: seq<Document>, later: Cursor, records: seq<Record>, pages: nat)
    requires IsPrefix(at, rest, later.records, later.pages)
    requires IsPrefix(later, rest[later.pages - at.pages..], records, pages)
    ensures IsPrefix(at, rest, records, pages)
  {
    hide Joined;
    var k, j := later.pages - at.pages, pages - later.pages;
    JoinedFrom(rest[..k + j], k);
    assert rest[..k + j][..k] == rest[..k] && rest[..k + j][k..] == rest[k..][..j];
    assert at.records + Joined(rest[..k]) + Joined(rest[k..][..j])
           == at.records + (Joined(rest[..k]) + Joined(rest[k..][..j]));
  }

  lemma {:induction false} JoinedFrom(docs: seq<Document>, k: nat)
    requires k <= |docs|
    ensures Joined(docs) == Joined(docs[..k]) + Joined(docs[k..])
  {
    if k > 0 {
      JoinedFrom(docs[1..], k - 1);
      assert docs[..k][1..] == docs[1..][..k - 1];
      assert docs[1..][k - 1..] == docs[k..];
    } else {
      assert docs[k..] == docs;
    }
  }

  /** Having read so many pages is having read a prefix. */
  lemma ReadSoMany(c: Config, at: Cursor, rest: seq<Document>, m: nat)
    requires m <= |rest|
    ensures var there := Reached(c, at, rest, m);
            && IsPrefix(at, rest, there.records, there.pages) && there.pages == at.pages + m
            && (m == |rest| ==> LinkedOn(c, at, rest) == there.following.Some?)
  {
    ReachedIsThere(c, at, rest, m);
  }

  /** Where the answers stop short of the end a request fails, and pages are left
      to link to wherever not all are read. */
  lemma {:induction false} AnswersStopAtAFailure(serve: Url -> Answer, c: Config, at: Cursor, rest: seq<Document>,
                                                 stride: Stride)
    requires Serves(serve, c, at, rest, stride)
    ensures var all := Answered(serve, c, at, rest);
            && (all < |rest| && at.pages + all < c.maxPages ==> FailsInReach(serve, c, at, rest))
            && forall m :: 0 <= m < |rest| ==> Reached(c, at, rest, m).following.Some?
    decreases |rest|
  {
    if rest != [] {
      AnswersStopAtAFailure(serve, c, After(c, at, rest[0]), rest[1..], stride);
      forall m | 0 <= m < |rest| ensures Reached(c, at, rest, m).following.Some? {
        if m > 0 {
          assert Reached(c, at, rest, m) == Reached(c, After(c, at, rest[0]), rest[1..], m - 1);
        }
      }
    }
  }

  lemma BatchesReadAPrefix(reading: Reading, serve: Url -> Answer, c: Config, at: Cursor, rest: seq<Document>,
                           stride: Stride, perPage: nat, total: Option<nat>)
    requires Serves(serve, c, at, rest, stride) && ReadsBatches(reading, serve, c, at, rest, perPage, total)
    ensures ReadsAPrefix(reading, serve, c, at, rest)
  {
    hide Serves, Answered, Reached, BatchEndsAt, LinksRead, IsPrefix, LinkedOn, FailsInReach;
    if reading.Read? {
      ReadSoMany(c, at, rest, reading.pages - at.pages);
      AnswersStopAtAFailure(serve, c, at, rest, stride);
    }
  }

  lemma LinksReadAPrefix(serve: Url -> Answer, c: Config, at: Cursor, rest: seq<Document>, stride: Stride)
    requires Serves(serve, c, at, rest, stride)
    ensures ReadsAPrefix(ByLinks(serve, c, at), serve, c, at, rest)
  {
    hide Serves, Answered, Reached, LinksRead, ByLinks, IsPrefix, LinkedOn, FailsInReach;
    LinksReadThisFar(serve, c, at, rest, stride);
    ReadSoMany(c, at, rest, LinksRead(serve, c, at, rest));
    LinksStopThere(serve, c, at, rest, stride);
  }

  /** However the bounds fall and whichever pages fail, what reading ahead gives
      is a gap-free prefix of the collection: with more to come only where a
      bound was reached and, where the last page links no further, pages are
      left; without, the whole collection where no request failed. */
  lemma AheadReadsAPrefix(serve: Url -> Answer, c: Config, at: Cursor, rest: seq<Document>, stride: Stride,
                          perPage: nat, total: Option<nat>, asked: nat)
    requires Faces(serve, c, at, rest, stride, total)
    ensures ReadsAPrefix(Ahead(serve, c, at, stride, perPage, total, asked).reading, serve, c, at, rest)
  {
    hide *;
    FacesIt(serve, c, at, rest, stride, total);
    AheadReadsWholeBatches(serve, c, at, rest, stride, perPage, total, asked);
    BatchesReadAPrefix(Ahead(serve, c, at, stride, perPage, total, asked).reading, serve, c, at, rest, stride,
                       perPage, total);
  }

  /** The same of the whole read, from its first page on. */
  lemma ReadPagesReadsAPrefix(serve: Url -> Answer, c: Config, url: Url, first: Document, rest: seq<Document>,
                              stride: Stride)
    requires Regular(serve, c, Start(c, url, first), rest, stride)
    ensures ReadsAPrefix(ReadPages(serve, c, url, first).reading, serve, c, Start(c, url, first), rest)
  {
    hide Serves, ByLinks, Ahead, LinksRead, Reached, ReadsAPrefix, PagesToTurn, Start, Opening, TotalsRight;
    var at := Start(c, url, first);
    OpeningFollowsTheLinks(serve, c, at, rest, stride, 0);
    LinksReadAPrefix(serve, c, at, rest, stride);
    match Opening(serve, c, at, 0)
    case Finished(run) =>
    case Turned(next, found, total, asked) =>
      var t := PagesToTurn(at, stride);
      AheadReadsAPrefix(serve, c, next, rest[t..], stride, |first.records|, total, asked);
      PrefixContinues(serve, c, at, rest, stride, t,
                      Ahead(serve, c, next, stride, |first.records|, total, asked).reading);
  }

  lemma PrefixContinues(serve: Url -> Answer, c: Config, at: Cursor, rest: seq<Document>, stride: Stride, t: nat,
                        reading: Reading)
    requires Serves(serve, c, at, rest, stride) && t <= LinksRead(serve, c, at, rest)
    requires ReadsAPrefix(reading, serve, c, Reached(c, at, rest, t), rest[t..])
    ensures ReadsAPrefix(reading, serve, c, at, rest)
  {
    hide Serves, LinksRead, Reached, Joined, LinkedOn, FailsInReach;
    SameStop(serve, c, at, rest, stride, t);
    ReachedIsThere(c, at, rest, t);
    if reading.Read? {
      PrefixOfTheRest(at, rest, Reached(c, at, rest, t), reading.records, reading.pages);
    }
  }

  // ---- the bound on rows ---------------------------------------------------

  /** A collection within max_rows stops the links by its rows only where it fills
      them exactly, and only past its last page, which links on. */
  lemma {:induction false} OnlyAFullCollectionStopsTheLinks(serve: Url -> Answer, c: Config, at: Cursor,
                                                            rest: seq<Document>, stride: Stride)
    requires Serves(serve, c, at, rest, stride) && |at.records| + Rows(rest) <= c.maxRows
    ensures StopsAtRows(serve, c, at, rest) ==>
              && |at.records| + Rows(rest) == c.maxRows && LinkedOn(c, at, rest)
              && LinksRead(serve, c, at, rest) == |rest|
    decreases |rest|
  {
    if rest != [] && !Bounded(c, at) && !serve(at.following.value).Fails? {
      OneMoreRead(serve, c, at, rest);
      OnlyAFullCollectionStopsTheLinks(serve, c, After(c, at, rest[0]), rest[1..], stride);
    }
  }

  /** So a collection within max_rows reads alike wherever nothing fails and it
      does not fill them exactly, or its last page links no further. */
  lemma FittingCollectionsReadAlike(serve: Url -> Answer, c: Config, at: Cursor, rest: seq<Document>, stride: Stride,
                                    t: nat, perPage: nat)
    requires Serves(serve, c, at, rest, stride) && t > 0 && !LinksFail(serve, c, at, rest)
    requires var size := |at.records| + Rows(rest); size < c.maxRows || (size == c.maxRows && !LinkedOn(c, at, rest))
    ensures ReadsTheSameFrom(serve, c, at, rest, t, perPage)
  {
    hide Serves, LinksRead, Reached, LinkedOn, Rows;
    OnlyAFullCollectionStopsTheLinks(serve, c, at, rest, stride);
    if LinksRead(serve, c, at, rest) >= t {
      SameStop(serve, c, at, rest, stride, t);
    }
  }

  /** Where no total is declared the batches end after each page_workers pages, and
      at the bound on pages. */
  lemma {:induction false} BatchesEndInWorkers(c: Config, at: Cursor, rest: seq<Document>, k: nat, perPage: nat)
    requires k <= |rest| && c.pageWorkers > 0 && at.pages + k <= c.maxPages
    ensures BatchEndsAt(c, at, rest, k, perPage, None) <==> k % c.pageWorkers == 0 || at.pages + k == c.maxPages
    decreases k
  {
    var n := BatchSize(c, at, perPage, None);
    if k > 0 && n <= k {
      ReachedIsThere(c, at, rest, n);
      BatchesEndInWorkers(c, Reached(c, at, rest, n), rest[n..], k - n, perPage);
      LessItself(k, c.pageWorkers);
    }
  }

  lemma LessItself(k: nat, n: nat)
    requires 0 < n
    ensures k >= n ==> (k - n) % n == k % n
  {
    if k >= n {
      OneTimeMore((k - n) / n, n);
      Divided((k - n) / n + 1, (k - n) % n, n);
    }
  }

  lemma Divided(q: int, r: nat, n: nat)
    requires r < n
    ensures (q * n + r) / n == q && (q * n + r) % n == r
  {
    var a := q * n + r;
    var over := a / n - q;
    assert over * n == r - a % n;
    AtLeastItself(over, n);
  }

  lemma AtLeastItself(k: int, n: nat)
    ensures k >= 1 ==> k * n >= n
    ensures k <= -1 ==> k * n + n <= 0
  {
  }

  /** All pages but the last have so many rows. */
  predicate FullPages(rest: seq<Document>, perPage: nat) {
    && perPage > 0 && (forall d <- rest :: 0 < |d.records| <= perPage)
    && forall i :: 0 <= i < |rest| - 1 ==> |rest[i].records| == perPage
  }

  /** Where the total is declared, rightly, and the pages are full, they also end
      at the end of the collection. */
  lemma {:induction false} BatchesEndWithTheTotal(c: Config, at: Cursor, rest: seq<Document>, k: nat, perPage: nat,
                                                  total: Option<nat>)
    requires k <= |rest| && c.pageWorkers > 0 && at.pages + k <= c.maxPages
    requires total.Some? && TotalRight(total, at, rest) && FullPages(rest, perPage)
    ensures BatchEndsAt(c, at, rest, k, perPage, total)
            <==> k % c.pageWorkers == 0 || at.pages + k == c.maxPages || k == |rest|
    decreases k
  {
    hide *;
    if k == 0 {
      NoneIsABatchEnd(c, at, rest, perPage, total);
    } else {
      SizeByTheTotal(c, at, rest, perPage, total);
      var n := BatchSize(c, at, perPage, total);
      EndsPastTheFirst(c, at, rest, k, perPage, total);
      if 0 < n <= k {
        ReachedIsThere(c, at, rest, n);
        FullPagesLeft(at, Reached(c, at, rest, n), rest, perPage, total, n);
        BatchesEndWithTheTotal(c, Reached(c, at, rest, n), rest[n..], k - n, perPage, total);
        LessItself(k, c.pageWorkers);
      }
      LeastOfThree(c.pageWorkers, c.maxPages - at.pages, |rest|, k, n);
    }
  }

  lemma NoneIsABatchEnd(c: Config, at: Cursor, rest: seq<Document>, perPage: nat, total: Option<nat>)
    requires c.pageWorkers > 0
    ensures BatchEndsAt(c, at, rest, 0, perPage, total) && 0 % c.pageWorkers == 0
  {
  }

  lemma EndsPastTheFirst(c: Config, at: Cursor, rest: seq<Document>, k: nat, perPage: nat, total: Option<nat>)
    requires 0 < k <= |rest|
    ensures var n := BatchSize(c, at, perPage, total);
            BatchEndsAt(c, at, rest, k, perPage, total)
            <==> 0 < n <= k && BatchEndsAt(c, Reached(c, at, rest, n), rest[n..], k - n, perPage, total)
  {
  }

  lemma LeastOfThree(workers: nat, room: nat, left: nat, k: nat, n: nat)
    requires workers > 0 && 0 < k <= left && k <= room && n == Fewer(workers, Fewer(room, left))
    ensures 0 < n
    ensures n < workers && n <= k ==> k == n && (k == room || k == left)
    ensures k < n ==> k % workers != 0 && k != room && k != left
  {
  }

  lemma SizeByTheTotal(c: Config, at: Cursor, rest: seq<Document>, perPage: nat, total: Option<nat>)
    requires total.Some? && TotalRight(total, at, rest) && FullPages(rest, perPage) && at.pages <= c.maxPages
    ensures BatchSize(c, at, perPage, total) == Fewer(c.pageWorkers, Fewer(c.maxPages - at.pages, |rest|))
  {
    PagesLeft(rest, perPage);
  }

  lemma FullPagesLeft(at: Cursor, later: Cursor, rest: seq<Document>, perPage: nat, total: Option<nat>, n: nat)
    requires TotalRight(total, at, rest) && FullPages(rest, perPage) && n <= |rest|
    requires |later.records| + Rows(rest[n..]) == |at.records| + Rows(rest)
    ensures TotalRight(total, later, rest[n..]) && FullPages(rest[n..], perPage)
  {
  }

  lemma {:induction false} PagesLeft(rest: seq<Document>, perPage: nat)
    requires FullPages(rest, perPage)
    ensures (Rows(rest) + perPage - 1) / perPage == |rest|
  {
    if |rest| > 1 {
      PagesLeft(rest[1..], perPage);
      OnePageMore(Rows(rest[1..]), perPage);
    } else if |rest| == 1 {
      assert Rows(rest) == |rest[0].records|;
      JustOnePage(|rest[0].records|, perPage);
    }
  }

  lemma OnePageMore(rows: nat, perPage: nat)
    requires perPage > 0
    ensures (perPage + rows + perPage - 1) / perPage == 1 + (rows + perPage - 1) / perPage
  {
    var a := rows + perPage - 1;
    var times, over := a / perPage, a % perPage;
    OneTimeMore(times, perPage);
    assert perPage + a == (times + 1) * perPage + over;
    Divided(times + 1, over, perPage);
  }

  lemma OneTimeMore(k: nat, n: nat)
    ensures (k + 1) * n == k * n + n
  {
  }

  lemma JustOnePage(rows: nat, perPage: nat)
    requires 0 < rows <= perPage
    ensures (rows + perPage - 1) / perPage == 1
  {
  }

  /** What a table is served from a reading: more rows than allowed refuse it. */
  datatype Fetched = Served(records: seq<Record>, more: bool) | Refusal

  function Fetch(c: Config, reading: Reading): Fetched {
    if reading.Raised? || |reading.records| > c.maxRows then Refusal else Served(reading.records, reading.more)
  }

  /** The bound on rows is looked at between batches, not between pages, and more
      rows than allowed refuse the table. What is served is what the links would
      serve, exactly where nothing fails and they are not stopped inside a batch
      with just as many rows as allowed. */
  lemma RowsAreBoundedBetweenBatches(serve: Url -> Answer, c: Config, at: Cursor, rest: seq<Document>, stride: Stride,
                                     perPage: nat, total: Option<nat>, asked: nat)
    requires Faces(serve, c, at, rest, stride, total)
    requires Ahead(serve, c, at, stride, perPage, total, asked).reading.Read?
    ensures var ahead, links := Ahead(serve, c, at, stride, perPage, total, asked).reading, ByLinks(serve, c, at);
            Fetch(c, ahead) == Fetch(c, links)
            <==> && !LinksFail(serve, c, at, rest)
                 && (StopsAtRows(serve, c, at, rest) && |LinksStop(serve, c, at, rest).records| == c.maxRows ==>
                       BatchEndsAt(c, at, rest, LinksRead(serve, c, at, rest), perPage, total))
  {
    hide Faces, Serves, Ahead, Answered, Reached, BatchEndsAt, LinksRead, ByLinks;
    FacesIt(serve, c, at, rest, stride, total);
    AheadReadsWholeBatches(serve, c, at, rest, stride, perPage, total, asked);
    LinksReadThisFar(serve, c, at, rest, stride);
    LinksStopThere(serve, c, at, rest, stride);
    var ahead := Ahead(serve, c, at, stride, perPage, total, asked).reading;
    BatchesAgainstLinks(ahead, serve, c, at, rest, stride, perPage, total);
    MorePagesMoreRows(serve, c, at, rest, stride, LinksRead(serve, c, at, rest), ahead.pages - at.pages);
  }

  lemma MorePagesMoreRows(serve: Url -> Answer, c: Config, at: Cursor, rest: seq<Document>, stride: Stride, k: nat,
                          m: nat)
    requires Serves(serve, c, at, rest, stride) && k <= m <= |rest|
    ensures k < m ==> |Reached(c, at, rest, k).records| < |Reached(c, at, rest, m).records|
  {
    hide Serves, Reached;
    ReachedIsThere(c, at, rest, k);
    ReachedIsThere(c, at, rest, m);
    RowsAreRecords(rest[..k]);
    RowsAreRecords(rest[..m]);
    if k < m {
      RowsGrow(serve, c, at, rest, stride, k, m);
    }
  }

  /** Each page of a collection adds rows. */
  lemma {:induction false} RowsGrow(serve: Url -> Answer, c: Config, at: Cursor, rest: seq<Document>, stride: Stride,
                                    k: nat, j: nat)
    requires Serves(serve, c, at, rest, stride) && k < j <= |rest|
    ensures Rows(rest[..k]) < Rows(rest[..j])
    decreases |rest|
  {
    assert rest[..j][1..] == rest[1..][..j - 1];
    if k > 0 {
      RowsGrow(serve, c, After(c, at, rest[0]), rest[1..], stride, k - 1, j - 1);
      assert rest[..k][1..] == rest[1..][..k - 1];
    }
  }

  lemma {:induction false} RowsAreRecords(docs: seq<Document>)
    ensures |Joined(docs)| == Rows(docs)
  {
    if docs != [] {
      RowsAreRecords(docs[1..]);
    }
  }

  // ---- servers the two read apart ------------------------------------------

  /** The address of a page by its number. */
  function PageAt(i: int): Url {
    Url("s", "/rows", map["p" := Number(i)])
  }

  const BY_ONE := Stride("p", 1)

  /** A server of one record a page, numbered from nought, each page linking to
      the next; what is past the end is empty. */
  function Numbered(rows: seq<Record>): Url -> Answer {
    (url: Url) =>
      if "p" in url.query && url.query["p"].Number? && 0 <= url.query["p"].value < |rows| then
        PageNumbered(rows, url.query["p"].value)
      else Page(Document([], None, None, None))
  }

  function PageNumbered(rows: seq<Record>, i: nat): Answer
    requires i < |rows|
  {
    Page(Document([rows[i]], Some(PageAt(i + 1)), None, None))
  }

  /** The same server, answering so from one page on. */
  function Otherwise(serve: Url -> Answer, i: int, answer: Answer): Url -> Answer {
    (url: Url) => if url == PageAt(i) then answer else serve(url)
  }

  function Reads(maxRows: nat): Config {
    Config(true, None, 100, maxRows, 8)
  }

  const FIRST := Document(["a"], Some(PageAt(1)), None, None)

  /** Two pages read, the third linked to. */
  const TWO_READ := Cursor(Some(PageAt(2)), ["a", "b"], ["b"], 2)

  lemma NextNumber(i: int)
    ensures Advance(PageAt(i), BY_ONE) == PageAt(i + 1)
  {
  }

  lemma OneTaken(serve: Url -> Answer, c: Config, at: Cursor, i: int, n: nat)
    requires n > 0 && at.following == Some(PageAt(i))
    ensures match serve(PageAt(i))
            case Page(d) =>
              if d.records == [] || d.records == at.seen then Taken(serve, c, BY_ONE, at, n) == Took(at, true)
              else Follow(c, d, PageAt(i)).Some? ==>
                     Taken(serve, c, BY_ONE, at, n)
                     == Taken(serve, c, BY_ONE,
                              Cursor(Some(PageAt(i + 1)), at.records + d.records, d.records, at.pages + 1), n - 1)
            case _ => Taken(serve, c, BY_ONE, at, n) == Took(at, true)
  {
    NextNumber(i);
  }

  lemma OneFollowed(serve: Url -> Answer, c: Config, at: Cursor, i: int)
    requires at.following == Some(PageAt(i)) && !Bounded(c, at)
    ensures match serve(PageAt(i))
            case Page(d) =>
              if d.records == [] || d.records == at.seen then ByLinks(serve, c, at) == Read(at.records, at.pages, false)
              else ByLinks(serve, c, at)
                   == ByLinks(serve, c,
                              Cursor(Follow(c, d, PageAt(i)), at.records + d.records, d.records, at.pages + 1))
            case _ => ByLinks(serve, c, at).Raised?
  {
  }

  lemma NumbersAsked(i: int, n: nat)
    ensures Nth(PageAt(i), BY_ONE, n) == PageAt(i + n)
  {
    if n > 0 {
      NumbersAsked(i, n - 1);
      NextNumber(i + n - 1);
    }
  }

  lemma StopsBounded(serve: Url -> Answer, c: Config, at: Cursor)
    requires Bounded(c, at)
    ensures ByLinks(serve, c, at) == Read(at.records, at.pages, at.following.Some?)
  {
  }

  /** The second page shows the stride, and the third is asked for ahead. */
  lemma TurnsAtTheSecond(serve: Url -> Answer, maxRows: nat)
    requires maxRows > 1 && serve(PageAt(1)) == PageNumbered(["a", "b"], 1)
    ensures var c := Reads(maxRows);
            && ReadPages(serve, c, PageAt(0), FIRST) == Ahead(serve, c, TWO_READ, BY_ONE, 1, None, 1)
            && ByLinks(serve, c, Start(c, PageAt(0), FIRST)) == ByLinks(serve, c, TWO_READ)
  {
    hide ByLinks, Ahead, Advance;
    var c, at := Reads(maxRows), Start(Reads(maxRows), PageAt(0), FIRST);
    assert at.records + ["b"] == ["a", "b"];
    OneFollowed(serve, c, at, 1);
    NextNumber(1);
    StrideIsFoundAgain(PageAt(1), BY_ONE);
    hide StrideBetween;
    assert at.following == Some(PageAt(1)) && !Bounded(c, at);
    assert Opening(serve, c, at, 0) == Turned(TWO_READ, BY_ONE, None, 1);
  }

  /** A collection that fills max_rows exactly, its last page linking on. The links
      stop there and say that there is more; the batch reads on to the empty page
      behind, and says that there is not. */
  lemma FullCollectionReadsApart()
    ensures var serve, c := Numbered(["a", "b", "c"]), Reads(3);
            && ByLinks(serve, c, Start(c, PageAt(0), FIRST)) == Read(["a", "b", "c"], 3, true)
            && ReadPages(serve, c, PageAt(0), FIRST).reading == Read(["a", "b", "c"], 3, false)
  {
    hide Taken, ByLinks, Nth, Advance, ReadPages, Start;
    var serve, c := Numbered(["a", "b", "c"]), Reads(3);
    var next := Cursor(Some(PageAt(3)), ["a", "b", "c"], ["c"], 3);
    assert TWO_READ.records + ["c"] == next.records;
    TurnsAtTheSecond(serve, 3);
    OneFollowed(serve, c, TWO_READ, 2);
    StopsBounded(serve, c, next);
    OneTaken(serve, c, TWO_READ, 2, 8);
    OneTaken(serve, c, next, 3, 7);
    NoneMisshapen(serve, 2, 8);
    AheadByOneBatch(serve, c, TWO_READ, BY_ONE, 1, None, 1);
  }

  /** A page fails that the links would read: following them raises, and reading
      ahead takes it for the end. */
  lemma FailureIsReadAsTheEnd()
    ensures var serve, c := Otherwise(Numbered(["a", "b", "c"]), 2, Fails), Reads(100);
            && ByLinks(serve, c, Start(c, PageAt(0), FIRST)).Raised?
            && ReadPages(serve, c, PageAt(0), FIRST).reading == Read(["a", "b"], 2, false)
  {
    hide Taken, ByLinks, Nth, Advance, ReadPages, Start;
    var serve, c := Otherwise(Numbered(["a", "b", "c"]), 2, Fails), Reads(100);
    TurnsAtTheSecond(serve, 100);
    OneFollowed(serve, c, TWO_READ, 2);
    OneTaken(serve, c, TWO_READ, 2, 8);
    NoneMisshapen(serve, 2, 8);
    AheadByOneBatch(serve, c, TWO_READ, BY_ONE, 1, None, 1);
  }

  /** A misshapen document past the end, which the links never ask for. */
  lemma MisshapenPastTheEndRaises()
    ensures var serve, c := Otherwise(Numbered(["a", "b"]), 4, Misshapen), Reads(100);
            && ByLinks(serve, c, Start(c, PageAt(0), FIRST)) == Read(["a", "b"], 2, false)
            && ReadPages(serve, c, PageAt(0), FIRST).reading.Raised?
  {
    hide Taken, ByLinks, Nth, Advance, ReadPages, Start;
    var serve, c := Otherwise(Numbered(["a", "b"]), 4, Misshapen), Reads(100);
    TurnsAtTheSecond(serve, 100);
    OneFollowed(serve, c, TWO_READ, 2);
    NumbersAsked(2, 2);
    assert serve(Nth(PageAt(2), BY_ONE, 2)).Misshapen?;
    AheadByOneBatch(serve, c, TWO_READ, BY_ONE, 1, None, 1);
  }

  /** More rows than allowed: the links stop at the bound and serve them, and the
      batch passes it, which refuses the table. */
  lemma ServedByTheLinksAndRefused()
    ensures var serve, c := Numbered(["a", "b", "c", "d"]), Reads(3);
            && Fetch(c, ByLinks(serve, c, Start(c, PageAt(0), FIRST))) == Served(["a", "b", "c"], true)
            && Fetch(c, ReadPages(serve, c, PageAt(0), FIRST).reading).Refusal?
  {
    hide Taken, ByLinks, Nth, Advance, ReadPages, Start;
    var serve, c := Numbered(["a", "b", "c", "d"]), Reads(3);
    var third := Cursor(Some(PageAt(3)), ["a", "b", "c"], ["c"], 3);
    var fourth := Cursor(Some(PageAt(4)), ["a", "b", "c", "d"], ["d"], 4);
    assert TWO_READ.records + ["c"] == third.records && third.records + ["d"] == fourth.records;
    TurnsAtTheSecond(serve, 3);
    OneFollowed(serve, c, TWO_READ, 2);
    StopsBounded(serve, c, third);
    OneTaken(serve, c, TWO_READ, 2, 8);
    OneTaken(serve, c, third, 3, 7);
    OneTaken(serve, c, fourth, 4, 6);
    NoneMisshapen(serve, 2, 8);
    AheadByOneBatch(serve, c, TWO_READ, BY_ONE, 1, None, 1);
  }

  lemma NoneMisshapen(serve: Url -> Answer, i: int, n: nat)
    requires forall j :: !serve(PageAt(j)).Misshapen?
    ensures !AnyMisshapen(serve, PageAt(i), BY_ONE, n)
  {
    forall j | 0 <= j < n ensures !serve(Nth(PageAt(i), BY_ONE, j)).Misshapen? {
      NumbersAsked(i, j);
    }
  }
}
