/** What a walk asks for and in what order, said without the walk: the links that
    stand in a document, the resources two addresses share, and the paths that lead
    from the base. */
module CrawlLaws {
  import opened Outcomes
  import Values
  import opened StableSorting
  import opened Crawl

  // ---- resources -----------------------------------------------------------

  function Slashes(n: nat): string {
    if n == 0 then "" else Slashes(n - 1) + "/"
  }

  lemma {:induction false} TrimmedOfSlashes(s: string, n: nat)
    ensures TrimSlashes(s + Slashes(n)) == TrimSlashes(s)
  {
    assert s + "" == s;
    if n > 0 {
      TrimmedOfSlashes(s, n - 1);
      assert s + Slashes(n) == (s + Slashes(n - 1)) + "/";
      TrimmedOfOne(s + Slashes(n - 1));
    }
  }

  lemma TrimmedOfOne(s: string)
    ensures TrimSlashes(s + "/") == TrimSlashes(s)
  {
    assert (s + "/")[..|s + "/"| - 1] == s;
  }

  lemma {:induction false} OnlySlashesAreTrimmed(s: string) returns (n: nat)
    ensures s == TrimSlashes(s) + Slashes(n)
    ensures TrimSlashes(s) != "" ==> TrimSlashes(s)[|TrimSlashes(s)| - 1] != '/'
  {
    n := 0;
    assert s + "" == s;
    if s != "" && s[|s| - 1] == '/' {
      var m := OnlySlashesAreTrimmed(s[..|s| - 1]);
      n := m + 1;
      assert s == s[..|s| - 1] + "/";
    }
  }

  /** Two paths are one but for the slashes they end in. */
  ghost predicate OnePath(a: string, b: string) {
    exists stem, m: nat, n: nat :: a == stem + Slashes(m) && b == stem + Slashes(n)
  }

  lemma OnePathIsTrimmedAlike(a: string, b: string)
    ensures OnePath(a, b) <==> TrimSlashes(a) == TrimSlashes(b)
  {
    if OnePath(a, b) {
      var stem, m: nat, n: nat :| a == stem + Slashes(m) && b == stem + Slashes(n);
      TrimmedOfSlashes(stem, m);
      TrimmedOfSlashes(stem, n);
    }
    if TrimSlashes(a) == TrimSlashes(b) {
      var m := OnlySlashesAreTrimmed(a);
      var n := OnlySlashesAreTrimmed(b);
      assert a == TrimSlashes(a) + Slashes(m) && b == TrimSlashes(a) + Slashes(n);
    }
  }

  /** Two addresses are one resource exactly where scheme and host are the same
      however they are cased, the paths but for the slashes they end in, and the
      queries to the letter; what stands after # never matters. */
  lemma OneResource(u: Url, v: Url)
    ensures Normalise(u) == Normalise(v)
       <==> && Values.Fold(u.scheme) == Values.Fold(v.scheme) && Values.Fold(u.netloc) == Values.Fold(v.netloc)
            && OnePath(u.path, v.path) && u.query == v.query
  {
    OnePathIsTrimmedAlike(u.path, v.path);
    var m := OnlySlashesAreTrimmed(u.path);
    var n := OnlySlashesAreTrimmed(v.path);
    hide TrimSlashes, OnePath;
  }

  // ---- the links that stand in a document ----------------------------------

  /** The link that a way into a document leads to: through an object inside, for each
      place but the last. */
  function LinkAt(node: Node, way: seq<nat>): Option<Url>
    decreases |way|
  {
    if way == [] || way[0] >= |node.fields| then None
    else
      match node.fields[way[0]]
      case Link(url) => if |way| == 1 then Some(url) else None
      case Inner(inner) => LinkAt(inner, way[1..])
  }

  ghost predicate StandsIn(node: Node, depth: nat, u: Url) {
    exists way :: |way| + depth <= MAX_NESTING + 1 && LinkAt(node, way) == Some(u)
  }

  lemma {:induction false} LinksStandIn(node: Node, depth: nat, u: Url)
    ensures u in AllLinks(node, depth) <==> StandsIn(node, depth, u)
    decreases Deeper(depth), 1, 0
  {
    if depth <= MAX_NESTING {
      FieldsStandIn(node, 0, depth, u);
      assert node.fields[0..] == node.fields;
      if StandsIn(node, depth, u) {
        var way :| |way| + depth <= MAX_NESTING + 1 && LinkAt(node, way) == Some(u);
        assert FieldLeads(node.fields[way[0]], way[1..], depth, u);
      }
      if k: nat, way :| k < |node.fields| && FieldLeads(node.fields[k], way, depth, u) {
        assert ([k] + way)[1..] == way;
        assert LinkAt(node, [k] + way) == Some(u);
      }
    }
  }

  /** The same of a field and the rest of the way. */
  predicate FieldLeads(field: Field, way: seq<nat>, depth: nat, u: Url) {
    && |way| + depth <= MAX_NESTING
    && match field
       case Link(url) => way == [] && url == u
       case Inner(inner) => LinkAt(inner, way) == Some(u)
  }

  lemma {:induction false} FieldsStandIn(node: Node, start: nat, depth: nat, u: Url)
    requires depth <= MAX_NESTING && start <= |node.fields|
    ensures u in LinksIn(node.fields[start..], depth)
       <==> exists k: nat, way :: start <= k < |node.fields| && FieldLeads(node.fields[k], way, depth, u)
    decreases Deeper(depth), 0, |node.fields| - start, 1
  {
    if start < |node.fields| {
      assert node.fields[start..][1..] == node.fields[start + 1..];
      FieldsStandIn(node, start + 1, depth, u);
      FieldStandsIn(node.fields[start], depth, u);
      if k: nat, way :| start <= k < |node.fields| && FieldLeads(node.fields[k], way, depth, u) {
        assert k > start || FieldLeads(node.fields[start], way, depth, u);
      }
    }
  }

  lemma {:induction false} FieldStandsIn(field: Field, depth: nat, u: Url)
    requires depth <= MAX_NESTING
    ensures u in FirstLinks(field, depth) <==> exists way :: FieldLeads(field, way, depth, u)
    decreases Deeper(depth), 0, 1, 0
  {
    match field
    case Link(url) =>
      assert url == u ==> FieldLeads(field, [], depth, u);
    case Inner(inner) =>
      LinksStandIn(inner, depth + 1, u);
      if StandsIn(inner, depth + 1, u) {
        var way :| |way| + (depth + 1) <= MAX_NESTING + 1 && LinkAt(inner, way) == Some(u);
        assert FieldLeads(field, way, depth, u);
      }
      if way :| FieldLeads(field, way, depth, u) {
        assert |way| + (depth + 1) <= MAX_NESTING + 1;
      }
  }

  /** A document links to an address exactly where it stands in it, at most five
      objects deep. */
  lemma LinksAreThose(w: World, u: Url, v: Url)
    ensures v in Links(w, u) <==> w.read(u).Some? && StandsIn(w.read(u).value, 0, v)
  {
    if w.read(u).Some? {
      LinksStandIn(w.read(u).value, 0, v);
    }
  }

  // ---- what is harvested is linked -----------------------------------------

  lemma {:induction false} HarvestedIsLinked(node: Node, taken: seq<Url>, depth: nat)
    ensures forall u <- Harvest(node, taken, depth) :: u in taken || u in AllLinks(node, depth)
    decreases Deeper(depth), 1, 0
  {
    if depth <= MAX_NESTING && |taken| <= HARVEST_CAP {
      FieldsAreLinked(node.fields, taken, depth);
    }
  }

  lemma {:induction false} FieldsAreLinked(fields: seq<Field>, taken: seq<Url>, depth: nat)
    requires depth <= MAX_NESTING
    ensures forall u <- HarvestIn(fields, taken, depth) :: u in taken || u in LinksIn(fields, depth)
    decreases Deeper(depth), 0, |fields|, 1
  {
    if fields != [] {
      if fields[0].Inner? {
        HarvestedIsLinked(fields[0].node, taken, depth + 1);
      }
      FieldsAreLinked(fields[1..], FirstTaken(fields[0], taken, depth), depth);
    }
  }

  ghost predicate LinkedFrom(w: World, urls: seq<Url>, v: Url) {
    exists u :: u in urls && v in Links(w, u)
  }

  lemma {:induction false} EachIsLinked(w: World, urls: seq<Url>, taken: seq<Url>)
    ensures forall v <- HarvestEach(w, urls, taken) :: v in taken || LinkedFrom(w, urls, v)
    decreases |urls|
  {
    if urls != [] {
      var document := w.read(urls[0]);
      var next := if document.Some? then Harvest(document.value, taken, 0) else taken;
      if document.Some? {
        HarvestedIsLinked(document.value, taken, 0);
      }
      EachIsLinked(w, urls[1..], next);
      hide Harvest, AllLinks;
      forall v <- HarvestEach(w, urls, taken) ensures v in taken || LinkedFrom(w, urls, v) {
        if v in next && v !in taken {
          assert urls[0] in urls && v in Links(w, urls[0]);
        } else if LinkedFrom(w, urls[1..], v) {
          var u :| u in urls[1..] && v in Links(w, u);
          assert u in urls;
        }
      }
    }
  }

  // ---- the next level ------------------------------------------------------

  /** What is fresh was asked for, and is the first of its resource. */
  lemma {:induction false} FreshAreFirsts(seen: set<Url>, urls: seq<Url>, v: Url)
    requires v in Fresh(seen, urls)
    ensures exists i :: 0 <= i < |urls| && urls[i] == v && forall h :: 0 <= h < i ==> Normalise(urls[h]) != Normalise(v)
    ensures Normalise(v) !in seen
    decreases |urls|
  {
    var key := Normalise(urls[0]);
    if v in Fresh(if key in seen then seen else seen + {key}, urls[1..]) && !(key !in seen && v == urls[0]) {
      FreshAreFirsts(if key in seen then seen else seen + {key}, urls[1..], v);
      var i :| 0 <= i < |urls| - 1 && urls[1..][i] == v
               && forall h :: 0 <= h < i ==> Normalise(urls[1..][h]) != Normalise(v);
      assert urls[i + 1] == v;
      forall h | 0 <= h < i + 1 ensures Normalise(urls[h]) != Normalise(v) {
        assert h > 0 ==> urls[h] == urls[1..][h - 1];
      }
    }
  }

  lemma BeforeIsTotal(w: World)
    ensures TotalPreorder(Before(w))
  {
  }

  /** The next level: the first address of each resource not claimed yet, collections
      before records and among either the shorter before the longer. */
  lemma UnvisitedInOrder(w: World, seen: set<Url>, urls: seq<Url>)
    ensures var next := Unvisited(w, seen, urls);
            && (forall v <- next ::
                  Normalise(v) !in seen && exists i :: 0 <= i < |urls| && urls[i] == v
                                                       && forall h :: 0 <= h < i ==> Normalise(urls[h]) != Normalise(v))
            && forall i, k :: 0 <= i < k < |next| ==>
                 (w.isRecord(next[i]) ==> w.isRecord(next[k]))
                 && (w.isRecord(next[i]) == w.isRecord(next[k]) ==> w.length(next[i]) <= w.length(next[k]))
  {
    var firsts, next := Fresh(seen, urls), Unvisited(w, seen, urls);
    BeforeIsTotal(w);
    SortIsAStableSort(firsts, Before(w));
    SortPermutes(firsts, Before(w));
    forall v <- next
      ensures Normalise(v) !in seen && exists i :: 0 <= i < |urls| && urls[i] == v
                                                   && forall h :: 0 <= h < i ==> Normalise(urls[h]) != Normalise(v)
    {
      assert v in multiset(next);
      FreshAreFirsts(seen, urls, v);
    }
    forall i, k | 0 <= i < k < |next|
      ensures (w.isRecord(next[i]) ==> w.isRecord(next[k]))
              && (w.isRecord(next[i]) == w.isRecord(next[k]) ==> w.length(next[i]) <= w.length(next[k]))
    {
      assert Before(w)(next[i], next[k]);
    }
  }

  // ---- a walk claims nothing else ------------------------------------------

  /** A path of so many links leads here from the base. */
  ghost predicate Leads(w: World, base: Url, links: nat, u: Url) {
    exists path :: Path(w, path) && |path| == links + 1 && path[0] == base && path[links] == u
  }

  lemma LeadsOn(w: World, base: Url, links: nat, u: Url, v: Url)
    requires Leads(w, base, links, u) && v in Links(w, u)
    ensures Leads(w, base, links + 1, v)
  {
    var path :| Path(w, path) && |path| == links + 1 && path[0] == base && path[links] == u;
    var longer := path + [v];
    assert Path(w, longer) && longer[links + 1] == v && longer[0] == base;
  }

  ghost predicate ClaimedOnAPath(w: World, b: Bounds, base: Url, key: Url) {
    exists u, links: nat :: links <= b.maxDepth && Normalise(u) == key && Leads(w, base, links, u)
  }

  lemma {:induction false} GrantedAreAsked(b: Bounds, st: Claims, urls: seq<Url>)
    ensures forall u <- Granted(b, st, urls) :: u in urls
    ensures forall key <- ClaimEach(b, st, urls).seen :: key in st.seen || exists u :: u in urls && Normalise(u) == key
    decreases |urls|
  {
    if urls != [] {
      GrantedAreAsked(b, Claim(b, st, urls[0]), urls[1..]);
      forall key <- ClaimEach(b, st, urls).seen
        ensures key in st.seen || exists u :: u in urls && Normalise(u) == key
      {
        if key !in Claim(b, st, urls[0]).seen {
          var u :| u in urls[1..] && Normalise(u) == key;
          assert u in urls;
        } else if key !in st.seen {
          assert urls[0] in urls && Normalise(urls[0]) == key;
        }
      }
    }
  }

  lemma NextIsLed(w: World, b: Bounds, st: Claims, frontier: seq<Url>, base: Url, depth: nat)
    requires forall u <- frontier :: Leads(w, base, depth, u)
    ensures forall v <- NextFrontier(w, b, st, frontier) :: Leads(w, base, depth + 1, v)
  {
    var granted := Granted(b, st, frontier);
    var seen, harvested := ClaimEach(b, st, frontier).seen, HarvestEach(w, granted, []);
    GrantedAreAsked(b, st, frontier);
    EachIsLinked(w, granted, []);
    hide Leads, Links, HarvestEach, Granted, ClaimEach;
    forall v <- NextFrontier(w, b, st, frontier) ensures Leads(w, base, depth + 1, v) {
      UnvisitedWasHarvested(w, seen, harvested, v);
      var u :| u in granted && v in Links(w, u);
      LeadsOn(w, base, depth, u, v);
    }
  }

  lemma UnvisitedWasHarvested(w: World, seen: set<Url>, urls: seq<Url>, v: Url)
    requires v in Unvisited(w, seen, urls)
    ensures v in urls
  {
    SortPermutes(Fresh(seen, urls), Before(w));
    assert v in multiset(Unvisited(w, seen, urls));
    FreshAreFirsts(seen, urls, v);
  }

  /** A walk claims nothing but what at most max_depth links lead to from the base. */
  lemma {:induction false} WalkClaimsTheReachable(w: World, b: Bounds, st: Claims, frontier: seq<Url>, depth: nat,
                                                  base: Url)
    requires forall u <- frontier :: Leads(w, base, depth, u)
    ensures forall key <- Walk(w, b, st, frontier, depth).seen :: key in st.seen || ClaimedOnAPath(w, b, base, key)
    decreases Crawl.Left(b, depth)
  {
    hide Leads, Walk, ClaimEach, NextFrontier;
    NoLevel(w, b, st, frontier, depth);
    if frontier != [] && depth <= b.maxDepth {
      OneLevel(w, b, st, frontier, depth);
      GrantedAreAsked(b, st, frontier);
      var next, later := ClaimEach(b, st, frontier), NextFrontier(w, b, st, frontier);
      NextIsLed(w, b, st, frontier, base, depth);
      WalkClaimsTheReachable(w, b, next, later, depth + 1, base);
    }
  }

  lemma FromTheBase(w: World, b: Bounds, st: Claims, base: Url)
    ensures forall key <- Walk(w, b, st, [base], 0).seen :: key in st.seen || ClaimedOnAPath(w, b, base, key)
  {
    var path := [base];
    assert Path(w, path) && path[0] == base;
    assert Leads(w, base, 0, base);
    WalkClaimsTheReachable(w, b, st, [base], 0, base);
  }
}
