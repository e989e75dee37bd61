/** Reading a collection page by page: by following each page's link to the
    next, until two links show how they advance, and then by asking for the
    predicted pages in batches. */
module Paging {
  import opened Outcomes

  // ---- addresses -----------------------------------------------------------

  datatype Parameter = Number(value: int) | Words(text: string)

  datatype Url = Url(server: string, path: string, query: map<string, Parameter>)

  /** The query parameter that carries the position, and how far one page moves
      it. */
  datatype Stride = Stride(name: string, step: int)

  function WithNumber(url: Url, name: string, value: int): Url {
    url.(query := url.query[name := Number(value)])
  }

  /** The same address with its parameter moved on by one page; one that is
      missing or not a number counts as nought. */
  function Advance(url: Url, stride: Stride): Url {
    var current :=
      if stride.name in url.query && url.query[stride.name].Number? then url.query[stride.name].value else 0;
    WithNumber(url, stride.name, current + stride.step)
  }

  /** How far the parameter went up from one address to the other, if it did. */
  function Moved(here: Url, there: Url, name: string): Option<int> {
    if name in here.query && name in there.query && here.query[name].Number? && there.query[name].Number?
       && here.query[name].value < there.query[name].value
    then Some(there.query[name].value - here.query[name].value)
    else None
  }

  function MovedNames(here: Url, there: Url): set<string> {
    set name | name in here.query && Moved(here, there, name).Some?
  }

  /** How two consecutive addresses advance, where exactly one parameter does. */
  ghost function StrideBetween(here: Url, there: Url): Option<Stride> {
    if here.path == there.path && exists name :: MovedNames(here, there) == {name} then
      var name :| MovedNames(here, there) == {name};
      Some(Stride(name, Moved(here, there, name).value))
    else None
  }

  /** What was predicted from two links is what made them: the stride between an
      address and the next one is the one it was advanced by, found exactly
      where the first carries the parameter as a number. */
  lemma StrideIsFoundAgain(url: Url, stride: Stride)
    requires stride.step > 0
    ensures StrideBetween(url, Advance(url, stride))
         == if stride.name in url.query && url.query[stride.name].Number? then Some(stride) else None
  {
    var there := Advance(url, stride);
    if stride.name in url.query && url.query[stride.name].Number? {
      assert MovedNames(url, there) == {stride.name};
      assert forall name :: MovedNames(url, there) == {name} ==> name in {stride.name};
    } else {
      assert forall name :: Moved(url, there, name).None?;
      assert MovedNames(url, there) == {};
      forall name ensures MovedNames(url, there) != {name} {
        assert name !in MovedNames(url, there);
      }
    }
  }

  predicate NumberUnder(url: Url, name: string, value: int) {
    name in url.query && url.query[name] == Number(value)
  }

  ghost predicate OnlyOneGrew(here: Url, there: Url, only: string) {
    forall name, v, u :: NumberUnder(here, name, v) && NumberUnder(there, name, u) && v < u ==> name == only
  }

  /** The stride is a parameter that is a number in both addresses of one path, and
      greater in the second by the step; and no other such parameter grew. */
  lemma StrideIsTheOneThatGrew(here: Url, there: Url, stride: Stride)
    ensures StrideBetween(here, there) == Some(stride)
       <==> && here.path == there.path && stride.step > 0
            && (exists v :: NumberUnder(here, stride.name, v) && NumberUnder(there, stride.name, v + stride.step))
            && OnlyOneGrew(here, there, stride.name)
  {
    var names := MovedNames(here, there);
    if StrideBetween(here, there) == Some(stride) {
      assert names == {stride.name};
      assert NumberUnder(here, stride.name, here.query[stride.name].value);
      assert NumberUnder(there, stride.name, here.query[stride.name].value + stride.step);
      forall name, v, u | NumberUnder(here, name, v) && NumberUnder(there, name, u) && v < u
        ensures name == stride.name
      {
        assert name in names;
      }
    }
    if && here.path == there.path && stride.step > 0
       && (exists v :: NumberUnder(here, stride.name, v) && NumberUnder(there, stride.name, v + stride.step))
       && OnlyOneGrew(here, there, stride.name) {
      forall name ensures name in names <==> name == stride.name {
        if name in names {
          assert NumberUnder(here, name, here.query[name].value) && NumberUnder(there, name, there.query[name].value);
        }
      }
      assert names == {stride.name};
      assert forall name :: names == {name} ==> name in {stride.name};
    }
  }

  /** Looks at each parameter of the first address in turn. */
  method FindStride(here: Url, there: Url) returns (stride: Option<Stride>)
    ensures stride == StrideBetween(here, there)
  {
    var names := here.query.Keys;
    var moved: seq<Stride> := [];
    TalliedNone(here, there);
    hide *;
    while names != {}
      invariant Tallied(here, there, names, moved)
      decreases |names|
    {
      var name :| name in names;
      ghost var before := moved;
      var step := Moved(here, there, name);
      if step.Some? {
        moved := moved + [Stride(name, step.value)];
      }
      TalliedOneMore(here, there, names, before, name);
      names := names - {name};
    }
    TalliedAll(here, there, moved);
    if here.path == there.path && |moved| == 1 {
      stride := Some(moved[0]);
    } else {
      stride := None;
    }
  }

  /** Every parameter looked at that moved is in the list, once. */
  ghost predicate Tallied(here: Url, there: Url, names: set<string>, moved: seq<Stride>) {
    && names <= here.query.Keys
    && |moved| == |MovedNames(here, there) - names|
    && forall m <- moved :: m.name in MovedNames(here, there) && Some(m.step) == Moved(here, there, m.name)
  }

  lemma TalliedNone(here: Url, there: Url)
    ensures Tallied(here, there, here.query.Keys, [])
  {
    assert MovedNames(here, there) - here.query.Keys == {};
  }

  lemma TalliedOneMore(here: Url, there: Url, names: set<string>, moved: seq<Stride>, name: string)
    requires Tallied(here, there, names, moved) && name in names
    ensures var step := Moved(here, there, name);
            Tallied(here, there, names - {name}, if step.Some? then moved + [Stride(name, step.value)] else moved)
  {
    if Moved(here, there, name).Some? {
      assert MovedNames(here, there) - (names - {name}) == MovedNames(here, there) - names + {name};
    } else {
      assert MovedNames(here, there) - (names - {name}) == MovedNames(here, there) - names;
    }
  }

  lemma TalliedAll(here: Url, there: Url, moved: seq<Stride>)
    requires Tallied(here, there, {}, moved)
    ensures StrideBetween(here, there) == if here.path == there.path && |moved| == 1 then Some(moved[0]) else None
  {
    var names := MovedNames(here, there);
    assert names - {} == names;
    if |moved| == 1 {
      assert |names - {moved[0].name}| == 0;
      assert names == {moved[0].name};
      assert forall name :: names == {name} ==> name in {moved[0].name};
    } else {
      forall name ensures names != {name} {
        assert |{name}| == 1;
      }
    }
  }

  // ---- pages ---------------------------------------------------------------

  type Record = string

  /** One page as read: its records, the link it offers, the position it says it
      is at, and how many records it says exist. */
  datatype Document = Document(records: seq<Record>, link: Option<Url>, position: Option<int>, total: Option<nat>)

  /** What asking for an address comes to: the request or its reading fails, the
      document has no records where the first page had them, or a page. */
  datatype Answer = Fails | Misshapen | Page(document: Document)

  /** nextKey: the source names where the link is. paging: it names the position
      instead, or as well. */
  datatype Config = Config(nextKey: bool, paging: Option<Stride>, maxPages: nat, maxRows: nat, pageWorkers: nat)

  /** The next page's address: the link, or failing that the reported position
      moved on by one page. */
  function Follow(c: Config, d: Document, url: Url): Option<Url> {
    if c.nextKey && d.link.Some? then d.link
    else if c.paging.Some? && d.position.Some? then
      Some(WithNumber(url, c.paging.value.name, d.position.value + c.paging.value.step))
    else None
  }

  /** Where a read has got to. */
  datatype Cursor = Cursor(following: Option<Url>, records: seq<Record>, seen: seq<Record>, pages: nat)

  datatype Reading = Read(records: seq<Record>, pages: nat, more: bool) | Raised

  /** A reading, and how many requests it made after the first page's. */
  datatype Run = Run(reading: Reading, asked: nat)

  /** A page that ends the collection: empty, or the one before it again. */
  predicate Ends(at: Cursor, d: Document) {
    d.records == [] || d.records == at.seen
  }

  predicate Bounded(c: Config, at: Cursor) {
    at.pages >= c.maxPages || |at.records| >= c.maxRows
  }

  function Onward(at: Cursor, d: Document, following: Option<Url>): Cursor {
    Cursor(following, at.records + d.records, d.records, at.pages + 1)
  }

  function Start(c: Config, url: Url, first: Document): Cursor {
    Cursor(Follow(c, first, url), first.records, first.records, 1)
  }

  // ---- following every link, one by one ------------------------------------

  function ByLinks(serve: Url -> Answer, c: Config, at: Cursor): Reading
    decreases if at.pages < c.maxPages then c.maxPages - at.pages else 0
  {
    if at.following.None? || Bounded(c, at) then Read(at.records, at.pages, at.following.Some?)
    else
      match serve(at.following.value)
      case Page(d) =>
        if Ends(at, d) then Read(at.records, at.pages, false)
        else ByLinks(serve, c, Onward(at, d, Follow(c, d, at.following.value)))
      case _ => Raised
  }

  // ---- reading as it is done -----------------------------------------------

  /** The serial part: it finishes, or two links in a row show the stride. */
  datatype Opened = Finished(run: Run) | Turned(at: Cursor, stride: Stride, total: Option<nat>, asked: nat)

  ghost function Opening(serve: Url -> Answer, c: Config, at: Cursor, asked: nat): Opened
    decreases if at.pages < c.maxPages then c.maxPages - at.pages else 0
  {
    if at.following.None? || Bounded(c, at) then Finished(Run(Read(at.records, at.pages, at.following.Some?), asked))
    else
      match serve(at.following.value)
      case Page(d) =>
        if Ends(at, d) then Finished(Run(Read(at.records, at.pages, false), asked + 1))
        else
          var next := Onward(at, d, Follow(c, d, at.following.value));
          if next.following.None? then Finished(Run(Read(next.records, next.pages, false), asked + 1))
          else
            var stride := StrideBetween(at.following.value, next.following.value);
            if stride.Some? then Turned(next, stride.value, d.total, asked + 1)
            else Opening(serve, c, next, asked + 1)
      case _ => Finished(Run(Raised, asked + 1))
  }

  function Nth(url: Url, stride: Stride, i: nat): Url {
    if i == 0 then url else Advance(Nth(url, stride, i - 1), stride)
  }

  /** How many pages the next batch asks for. */
  function BatchSize(c: Config, at: Cursor, perPage: nat, total: Option<nat>): (n: nat)
    ensures n <= c.pageWorkers && (at.pages <= c.maxPages ==> at.pages + n <= c.maxPages)
  {
    var room := if at.pages < c.maxPages then c.maxPages - at.pages else 0;
    var left := if total.Some? && total.value > |at.records| then total.value - |at.records| else 0;
    Fewer(c.pageWorkers, if total.Some? && perPage > 0 then Fewer(room, (left + perPage - 1) / perPage) else room)
  }

  function Fewer(a: nat, b: nat): nat {
    if a < b then a else b
  }

  /** What a batch comes to, its answers taken in the order they were asked. */
  datatype Took = Took(at: Cursor, stopped: bool)

  function Taken(serve: Url -> Answer, c: Config, stride: Stride, at: Cursor, n: nat): (took: Took)
    ensures at.pages <= took.at.pages <= at.pages + n
    ensures !took.stopped ==> took.at.pages == at.pages + n
    decreases n
  {
    if n == 0 then Took(at, false)
    else if at.following.None? then Took(at, true)
    else
      match serve(at.following.value)
      case Page(d) =>
        if Ends(at, d) then Took(at, true)
        else
          var next := Onward(at, d, Some(Advance(at.following.value, stride)));
          if Follow(c, d, at.following.value).None? then Took(next, true)
          else Taken(serve, c, stride, next, n - 1)
      case _ => Took(at, true)
  }

  predicate AnyMisshapen(serve: Url -> Answer, url: Url, stride: Stride, n: nat) {
    exists i :: 0 <= i < n && serve(Nth(url, stride, i)).Misshapen?
  }

  lemma {:induction false} BatchMovesOn(serve: Url -> Answer, c: Config, stride: Stride, at: Cursor, n: nat)
    requires at.following.Some?
    ensures var took := Taken(serve, c, stride, at, n);
            !took.stopped ==> took.at.following == Some(Nth(at.following.value, stride, n))
    decreases n
  {
    if n > 0 && serve(at.following.value).Page? {
      var d := serve(at.following.value).document;
      var url := at.following.value;
      if !Ends(at, d) && Follow(c, d, url).Some? {
        BatchMovesOn(serve, c, stride, Onward(at, d, Some(Advance(url, stride))), n - 1);
        NthOfTheNext(url, stride, n - 1);
      }
    }
  }

  lemma {:induction false} NthOfTheNext(url: Url, stride: Stride, i: nat)
    ensures Nth(Advance(url, stride), stride, i) == Nth(url, stride, i + 1)
    decreases i
  {
    if i > 0 {
      NthOfTheNext(url, stride, i - 1);
    }
  }

  /** One answer of a batch. */
  lemma TakenOneMore(serve: Url -> Answer, c: Config, stride: Stride, start: Url, k: nat,
                     records: seq<Record>, seen: seq<Record>, pages: nat, n: nat)
    requires n > 0
    ensures var url := Nth(start, stride, k);
            var got := Gotten(serve(url), true);
            var took := Taken(serve, c, stride, Cursor(Some(url), records, seen, pages), n);
            !got.refused ==>
              if got.page == [] || got.page == seen then LeftAs(took, records, seen, pages, true)
              else if got.document.Some? && Follow(c, got.document.value, url).None? then
                LeftAs(took, records + got.page, got.page, pages + 1, true)
              else
                took == Taken(serve, c, stride,
                              Cursor(Some(Nth(start, stride, k + 1)), records + got.page, got.page, pages + 1), n - 1)
  {
  }

  lemma TakenNone(serve: Url -> Answer, c: Config, stride: Stride, url: Url, records: seq<Record>, seen: seq<Record>,
                  pages: nat)
    ensures LeftAs(Taken(serve, c, stride, Cursor(Some(url), records, seen, pages), 0), records, seen, pages, false)
  {
  }

  ghost function Ahead(serve: Url -> Answer, c: Config, at: Cursor, stride: Stride, perPage: nat, total: Option<nat>,
                       asked: nat): Run
    decreases if at.pages < c.maxPages then c.maxPages - at.pages else 0
  {
    if at.following.None? || Bounded(c, at) then Run(Read(at.records, at.pages, at.following.Some?), asked)
    else
      var n := BatchSize(c, at, perPage, total);
      if n == 0 then Run(Read(at.records, at.pages, false), asked)
      else if AnyMisshapen(serve, at.following.value, stride, n) then Run(Raised, asked + n)
      else
        var took := Taken(serve, c, stride, at, n);
        if took.stopped then Run(Read(took.at.records, took.at.pages, false), asked + n)
        else Ahead(serve, c, took.at, stride, perPage, total, asked + n)
  }

  /** One turn of the read ahead. */
  lemma AheadByOneBatch(serve: Url -> Answer, c: Config, at: Cursor, stride: Stride, perPage: nat, total: Option<nat>,
                        asked: nat)
    requires at.following.Some?
    ensures var run := Ahead(serve, c, at, stride, perPage, total, asked);
            if at.pages >= c.maxPages || |at.records| >= c.maxRows then
              run == Run(Read(at.records, at.pages, true), asked)
            else
              var n := BatchSize(c, at, perPage, total);
              var took := Taken(serve, c, stride, at, n);
              if n == 0 then run == Run(Read(at.records, at.pages, false), asked)
              else if AnyMisshapen(serve, at.following.value, stride, n) then run == Run(Raised, asked + n)
              else if took.stopped then run == Run(Read(took.at.records, took.at.pages, false), asked + n)
              else
                && took.at.pages == at.pages + n && took.at.following == Some(Nth(at.following.value, stride, n))
                && run == Ahead(serve, c, took.at, stride, perPage, total, asked + n)
  {
    if !Bounded(c, at) {
      BatchMovesOn(serve, c, stride, at, BatchSize(c, at, perPage, total));
    }
  }

  /** The whole read, from the first page. */
  ghost function ReadPages(serve: Url -> Answer, c: Config, url: Url, first: Document): Run {
    match Opening(serve, c, Start(c, url, first), 0)
    case Finished(run) => run
    case Turned(at, stride, total, asked) => Ahead(serve, c, at, stride, |first.records|, total, asked)
  }

  // ---- the reader, extending its records in place --------------------------

  /** What asking for a page gives: its records and document, or a refusal.
      Quietly, a failure is an empty page instead. */
  datatype Got = Got(page: seq<Record>, document: Option<Document>, refused: bool)

  function Gotten(answer: Answer, quiet: bool): Got {
    match answer
    case Page(d) => Got(d.records, Some(d), false)
    case Fails => Got([], None, !quiet)
    case Misshapen => Got([], None, true)
  }

  predicate LeftAs(took: Took, records: seq<Record>, seen: seq<Record>, pages: nat, stopped: bool) {
    stopped == took.stopped && records == took.at.records && seen == took.at.seen && pages == took.at.pages
  }

  class Reader {
    const serve: Url -> Answer
    const c: Config
    var records: seq<Record>
    var asked: nat

    constructor (serve: Url -> Answer, c: Config)
      ensures this.serve == serve && this.c == c
    {
      this.serve, this.c := serve, c;
      records, asked := [], 0;
    }

    method GetPage(url: Url, quiet: bool) returns (got: Got)
      modifies this`asked
      ensures asked == old(asked) + 1 && got == Gotten(serve(url), quiet)
    {
      asked := asked + 1;
      got := Gotten(serve(url), quiet);
    }

    /** The rest of the collection after its first page. */
    method ReadOn(url: Url, first: Document) returns (reading: Reading)
      modifies this
      ensures Run(reading, asked) == ReadPages(serve, c, url, first)
      ensures reading.Read? ==> records == reading.records
    {
      records, asked := first.records, 0;
      var pages, seen, following := 1, records, Follow(c, first, url);
      var stride: Option<Stride>, total: Option<nat> := None, None;
      ghost var whole := Opening(serve, c, Start(c, url, first), 0);
      while following.Some? && pages < c.maxPages && |records| < c.maxRows && stride.None?
        invariant stride.None? ==> whole == Opening(serve, c, Cursor(following, records, seen, pages), asked)
        invariant stride.Some? ==>
                  && following.Some?
                  && whole == Turned(Cursor(following, records, seen, pages), stride.value, total, asked)
        decreases stride.None?, if pages < c.maxPages then c.maxPages - pages else 0
      {
        var got := GetPage(following.value, false);
        if got.refused {
          return Raised;
        }
        if got.page == [] || got.page == seen {
          return Read(records, pages, false);
        }
        records := records + got.page;
        seen, pages := got.page, pages + 1;
        var onward := Follow(c, got.document.value, following.value);
        if onward.None? {
          return Read(records, pages, false);
        }
        stride := FindStride(following.value, onward.value);
        total := got.document.value.total;
        following := onward;
      }
      if stride.None? {
        return Read(records, pages, following.Some?);
      }
      reading := ReadAhead(following.value, stride.value, seen, pages, |first.records|, total);
    }

    method ReadAhead(start: Url, stride: Stride, seen0: seq<Record>, pages0: nat, perPage: nat, total: Option<nat>)
      returns (reading: Reading)
      modifies this
      ensures Run(reading, asked)
              == Ahead(serve, c, Cursor(Some(start), old(records), seen0, pages0), stride, perPage, total, old(asked))
      ensures reading.Read? ==> records == reading.records
    {
      ghost var run := Ahead(serve, c, Cursor(Some(start), records, seen0, pages0), stride, perPage, total, asked);
      var following, seen := start, seen0;
      var pages: nat := pages0;
      hide Ahead, Taken, Nth, BatchSize, Advance, Follow, AnyMisshapen;
      while pages < c.maxPages && |records| < c.maxRows
        invariant run == Ahead(serve, c, Cursor(Some(following), records, seen, pages), stride, perPage, total, asked)
        decreases if pages < c.maxPages then c.maxPages - pages else 0
      {
        AheadByOneBatch(serve, c, Cursor(Some(following), records, seen, pages), stride, perPage, total, asked);
        var n := BatchSize(c, Cursor(Some(following), records, seen, pages), perPage, total);
        if n == 0 {
          return Read(records, pages, false);
        }
        var refused, stopped, cursor;
        seen, pages, cursor, refused, stopped := ReadBatch(following, stride, n, seen, pages);
        if refused {
          return Raised;
        }
        if stopped {
          return Read(records, pages, false);
        }
        following := cursor;
      }
      AheadByOneBatch(serve, c, Cursor(Some(following), records, seen, pages), stride, perPage, total, asked);
      reading := Read(records, pages, true);
    }

    /** Asks for a batch of predicted pages and takes their answers. */
    method ReadBatch(following: Url, stride: Stride, n: nat, seen0: seq<Record>, pages0: nat)
      returns (seen: seq<Record>, pages: nat, cursor: Url, refused: bool, stopped: bool)
      requires n > 0
      modifies this
      ensures asked == old(asked) + n && refused == AnyMisshapen(serve, following, stride, n)
      ensures cursor == Nth(following, stride, n)
      ensures var took := Taken(serve, c, stride, Cursor(Some(following), old(records), seen0, pages0), n);
              !refused ==> LeftAs(took, records, seen, pages, stopped)
    {
      var batch, answers;
      batch, cursor := Predict(following, stride, n);
      answers, refused := AskAll(batch);
      seen, pages, stopped := seen0, pages0, true;
      if !refused {
        seen, pages, stopped := TakeEach(batch, answers, stride, seen, pages);
      }
    }

    /** The next pages' addresses, and the one after them. */
    method Predict(following: Url, stride: Stride, n: nat) returns (batch: seq<Url>, cursor: Url)
      ensures |batch| == n && forall i :: 0 <= i < n ==> batch[i] == Nth(following, stride, i)
      ensures cursor == Nth(following, stride, n)
      ensures n > 0 ==> batch[0] == following
    {
      batch, cursor := [], following;
      for k := 0 to n
        invariant |batch| == k && forall i :: 0 <= i < k ==> batch[i] == Nth(following, stride, i)
        invariant cursor == Nth(following, stride, k)
      {
        batch := batch + [cursor];
        cursor := Advance(cursor, stride);
      }
    }

    method AskAll(batch: seq<Url>) returns (answers: seq<Got>, refused: bool)
      modifies this`asked
      ensures asked == old(asked) + |batch|
      ensures refused <==> exists i :: 0 <= i < |batch| && serve(batch[i]).Misshapen?
      ensures |answers| == |batch| && forall i :: 0 <= i < |batch| ==> answers[i] == Gotten(serve(batch[i]), true)
    {
      answers, refused := [], false;
      for k := 0 to |batch|
        invariant asked == old(asked) + k
        invariant refused <==> exists i :: 0 <= i < k && serve(batch[i]).Misshapen?
        invariant |answers| == k && forall i :: 0 <= i < k ==> answers[i] == Gotten(serve(batch[i]), true)
      {
        var got := GetPage(batch[k], true);
        answers, refused := answers + [got], refused || got.refused;
      }
    }

    /** One answer, in the order it was asked for. */
    method TakeOne(url: Url, got: Got, seen0: seq<Record>, pages0: nat) returns (seen: seq<Record>, pages: nat,
                   stopped: bool)
      modifies this`records
      ensures if got.page == [] || got.page == seen0 then
                stopped && records == old(records) && seen == seen0 && pages == pages0
              else
                && records == old(records) + got.page && seen == got.page && pages == pages0 + 1
                && stopped == (got.document.Some? && Follow(c, got.document.value, url).None?)
    {
      if got.page == [] || got.page == seen0 {
        return seen0, pages0, true;
      }
      records := records + got.page;
      return got.page, pages0 + 1, got.document.Some? && Follow(c, got.document.value, url).None?;
    }

    /** Every answer of a batch, until one ends the collection. */
    method TakeEach(batch: seq<Url>, answers: seq<Got>, stride: Stride, seen0: seq<Record>, pages0: nat)
      returns (seen: seq<Record>, pages: nat, stopped: bool)
      requires batch != [] && |answers| == |batch|
      requires forall i :: 0 <= i < |batch| ==> batch[i] == Nth(batch[0], stride, i)
      requires forall i :: 0 <= i < |batch| ==> answers[i] == Gotten(serve(batch[i]), true) && !answers[i].refused
      modifies this`records
      ensures var took := Taken(serve, c, stride, Cursor(Some(batch[0]), old(records), seen0, pages0), |batch|);
              LeftAs(took, records, seen, pages, stopped)
    {
      ghost var took := Taken(serve, c, stride, Cursor(Some(batch[0]), records, seen0, pages0), |batch|);
      seen, pages := seen0, pages0;
      hide *;
      for k := 0 to |batch|
        invariant took == Taken(serve, c, stride, Cursor(Some(Nth(batch[0], stride, k)), records, seen, pages),
                                |batch| - k)
      {
        TakenOneMore(serve, c, stride, batch[0], k, records, seen, pages, |batch| - k);
        seen, pages, stopped := TakeOne(batch[k], answers[k], seen, pages);
        if stopped {
          return;
        }
      }
      stopped := false;
      TakenNone(serve, c, stride, Nth(batch[0], stride, |batch|), records, seen, pages);
    }
  }
}
