/** A bounded walk of one API surface: claims under a budget, a level of pages at
    a time. */
module Crawl {
  import opened Outcomes
  import opened Values
  import opened StableSorting

  /** How many links one level's harvest takes before it stops reading further
      objects. */
  const HARVEST_CAP: nat := 200
  const MAX_NESTING: nat := 4

  datatype Url = Url(scheme: string, netloc: string, path: string, query: string, fragment: string)

  function TrimSlashes(s: string): string {
    if s != [] && s[|s| - 1] == '/' then TrimSlashes(s[..|s| - 1]) else s
  }

  /** What makes an address a distinct resource: its fragment never reaches the
      server, and a trailing slash is the same resource. */
  function Normalise(u: Url): Url {
    var path := TrimSlashes(u.path);
    Url(Fold(u.scheme), Fold(u.netloc), if path == "" then "/" else path, u.query, "")
  }

  /** A document, as the objects its links stand in: the links worth following,
      and the objects inside, in the order they are written. */
  datatype Node = Node(fields: seq<Field>)
  datatype Field = Link(url: Url) | Inner(node: Node)

  /** The API: what a request for an address reads as a document, if it can be
      read, and the order in which addresses are asked for. */
  datatype World = World(read: Url -> Option<Node>, isRecord: Url -> bool, length: Url -> nat)

  datatype Bounds = Bounds(maxRequests: nat, maxDepth: nat)

  // ---- claiming ------------------------------------------------------------

  datatype Claims = Claims(seen: set<Url>, requests: nat)

  predicate Counted(b: Bounds, st: Claims) {
    st.requests == |st.seen| && st.requests <= b.maxRequests
  }

  predicate Grants(b: Bounds, st: Claims, url: Url) {
    Normalise(url) !in st.seen && st.requests < b.maxRequests
  }

  function Claim(b: Bounds, st: Claims, url: Url): Claims {
    if Grants(b, st, url) then Claims(st.seen + {Normalise(url)}, st.requests + 1) else st
  }

  /** Claims one after another, in whatever order the threads get the lock. */
  function ClaimEach(b: Bounds, st: Claims, urls: seq<Url>): Claims
    decreases |urls|
  {
    if urls == [] then st else ClaimEach(b, Claim(b, st, urls[0]), urls[1..])
  }

  /** The addresses whose claims are granted. */
  function Granted(b: Bounds, st: Claims, urls: seq<Url>): seq<Url>
    decreases |urls|
  {
    if urls == [] then []
    else (if Grants(b, st, urls[0]) then [urls[0]] else []) + Granted(b, Claim(b, st, urls[0]), urls[1..])
  }

  /** Under any interleaving of claims, as many requests are made as addresses are
      claimed, never more than the budget, and never two for one resource. */
  lemma {:induction false} RequestsAreClaims(b: Bounds, st: Claims, urls: seq<Url>)
    requires Counted(b, st)
    ensures var end, granted := ClaimEach(b, st, urls), Granted(b, st, urls);
            && Counted(b, end) && end.requests == st.requests + |granted|
            && (forall u <- granted :: Normalise(u) in end.seen && Normalise(u) !in st.seen)
            && (forall i, j :: 0 <= i < j < |granted| ==> Normalise(granted[i]) != Normalise(granted[j]))
            && st.seen <= end.seen
    decreases |urls|
  {
    if urls != [] {
      RequestsAreClaims(b, Claim(b, st, urls[0]), urls[1..]);
    }
  }

  /** Where the budget is not spent, every address asked for is claimed, and what
      is newly claimed was granted. */
  lemma {:induction false} UnspentClaimsAll(b: Bounds, st: Claims, urls: seq<Url>)
    requires ClaimEach(b, st, urls).requests < b.maxRequests
    ensures st.requests < b.maxRequests
    ensures var end := ClaimEach(b, st, urls);
            && st.seen <= end.seen
            && (forall u <- urls :: Normalise(u) in end.seen)
            && (forall key <- end.seen :: key !in st.seen ==>
                exists u :: u in Granted(b, st, urls) && Normalise(u) == key)
    decreases |urls|
  {
    if urls != [] {
      var next := Claim(b, st, urls[0]);
      UnspentClaimsAll(b, next, urls[1..]);
      var end := ClaimEach(b, st, urls);
      forall key <- end.seen | key !in st.seen
        ensures exists u :: u in Granted(b, st, urls) && Normalise(u) == key
      {
        if key in next.seen {
          assert Granted(b, st, urls)[0] == urls[0];
        } else {
          var u :| u in Granted(b, next, urls[1..]) && Normalise(u) == key;
          assert u in Granted(b, st, urls);
        }
      }
    }
  }

  // ---- the links of a document ---------------------------------------------

  /** Every link an object holds, however many were harvested before. */
  function AllLinks(node: Node, depth: nat): seq<Url>
    decreases Deeper(depth), 1, 0
  {
    if depth > MAX_NESTING then [] else LinksIn(node.fields, depth)
  }

  function LinksIn(fields: seq<Field>, depth: nat): seq<Url>
    requires depth <= MAX_NESTING
    decreases Deeper(depth), 0, |fields|, 1
  {
    if fields == [] then [] else FirstLinks(fields[0], depth) + LinksIn(fields[1..], depth)
  }

  function FirstLinks(field: Field, depth: nat): seq<Url>
    requires depth <= MAX_NESTING
    decreases Deeper(depth), 0, 1, 0
  {
    match field
    case Link(url) => [url]
    case Inner(node) => AllLinks(node, depth + 1)
  }

  function Deeper(depth: nat): nat {
    if depth <= MAX_NESTING then MAX_NESTING + 1 - depth else 0
  }

  /** The links taken from an object, onto those already taken: none once there
      are more than the cap when its turn comes. */
  function Harvest(node: Node, taken: seq<Url>, depth: nat): (more: seq<Url>)
    ensures |taken| <= |more|
    decreases Deeper(depth), 1, 0
  {
    if depth > MAX_NESTING || |taken| > HARVEST_CAP then taken else HarvestIn(node.fields, taken, depth)
  }

  function HarvestIn(fields: seq<Field>, taken: seq<Url>, depth: nat): (more: seq<Url>)
    requires depth <= MAX_NESTING
    ensures |taken| <= |more|
    decreases Deeper(depth), 0, |fields|, 1
  {
    if fields == [] then taken else HarvestIn(fields[1..], FirstTaken(fields[0], taken, depth), depth)
  }

  function FirstTaken(field: Field, taken: seq<Url>, depth: nat): (more: seq<Url>)
    requires depth <= MAX_NESTING
    ensures |taken| <= |more|
    decreases Deeper(depth), 0, 1, 0
  {
    match field
    case Link(url) => taken + [url]
    case Inner(node) => Harvest(node, taken, depth + 1)
  }

  /** No object that holds links is entered with more than the cap taken. */
  predicate InReach(node: Node, taken: nat, depth: nat)
    decreases Deeper(depth), 1, 0
  {
    AllLinks(node, depth) == [] || (taken <= HARVEST_CAP && FieldsInReach(node.fields, taken, depth))
  }

  predicate FieldsInReach(fields: seq<Field>, taken: nat, depth: nat)
    requires depth <= MAX_NESTING
    decreases Deeper(depth), 0, |fields|, 1
  {
    fields == [] ||
    (FirstInReach(fields[0], taken, depth) && FieldsInReach(fields[1..], taken + |FirstLinks(fields[0], depth)|, depth))
  }

  predicate FirstInReach(field: Field, taken: nat, depth: nat)
    requires depth <= MAX_NESTING
    decreases Deeper(depth), 0, 1, 0
  {
    field.Inner? ==> InReach(field.node, taken, depth + 1)
  }

  /** A harvest takes every link of a document exactly where none of its objects
      that hold links is entered past the cap, and otherwise fewer. */
  lemma {:induction false} WithinTheCapTakesAll(node: Node, taken: seq<Url>, depth: nat)
    ensures taken <= Harvest(node, taken, depth)
    ensures if InReach(node, |taken|, depth) then Harvest(node, taken, depth) == taken + AllLinks(node, depth)
            else |Harvest(node, taken, depth)| < |taken| + |AllLinks(node, depth)|
    decreases Deeper(depth), 1, 0
  {
    if depth <= MAX_NESTING && |taken| <= HARVEST_CAP {
      FieldsWithinTheCap(node.fields, taken, depth);
      if AllLinks(node, depth) == [] {
        assert Harvest(node, taken, depth) == taken + [];
      }
    }
  }

  lemma {:induction false} FieldsWithinTheCap(fields: seq<Field>, taken: seq<Url>, depth: nat)
    requires depth <= MAX_NESTING
    ensures taken <= HarvestIn(fields, taken, depth)
    ensures |HarvestIn(fields, taken, depth)| <= |taken| + |LinksIn(fields, depth)|
    ensures if FieldsInReach(fields, |taken|, depth) then
              HarvestIn(fields, taken, depth) == taken + LinksIn(fields, depth)
            else |HarvestIn(fields, taken, depth)| < |taken| + |LinksIn(fields, depth)|
    decreases Deeper(depth), 0, |fields|, 1
  {
    if fields != [] {
      FirstWithinTheCap(fields[0], taken, depth);
      var first, next := FirstLinks(fields[0], depth), FirstTaken(fields[0], taken, depth);
      FieldsWithinTheCap(fields[1..], next, depth);
      hide FirstLinks, FirstTaken, FirstInReach;
      var rest := LinksIn(fields[1..], depth);
      assert (taken + first) + rest == taken + (first + rest);
    }
  }

  lemma {:induction false} FirstWithinTheCap(field: Field, taken: seq<Url>, depth: nat)
    requires depth <= MAX_NESTING
    ensures taken <= FirstTaken(field, taken, depth)
    ensures if FirstInReach(field, |taken|, depth) then
              FirstTaken(field, taken, depth) == taken + FirstLinks(field, depth)
            else |FirstTaken(field, taken, depth)| < |taken| + |FirstLinks(field, depth)|
    decreases Deeper(depth), 0, 1, 0
  {
    if field.Inner? {
      WithinTheCapTakesAll(field.node, taken, depth + 1);
    }
  }

  // ---- one level -----------------------------------------------------------

  /** The links of every page of a level that could be read, in order. */
  function HarvestEach(w: World, urls: seq<Url>, taken: seq<Url>): (more: seq<Url>)
    ensures |taken| <= |more|
    decreases |urls|
  {
    if urls == [] then taken
    else
      var document := w.read(urls[0]);
      HarvestEach(w, urls[1..], if document.Some? then Harvest(document.value, taken, 0) else taken)
  }

  function Links(w: World, u: Url): seq<Url> {
    if w.read(u).Some? then AllLinks(w.read(u).value, 0) else []
  }

  /** The same of a whole level, however much its pages hold. */
  predicate EachInReach(w: World, urls: seq<Url>, taken: nat)
    decreases |urls|
  {
    urls == [] ||
    ((w.read(urls[0]).Some? ==> InReach(w.read(urls[0]).value, taken, 0))
     && EachInReach(w, urls[1..], taken + |Links(w, urls[0])|))
  }

  function LinksOfAll(w: World, urls: seq<Url>): seq<Url> {
    if urls == [] then [] else Links(w, urls[0]) + LinksOfAll(w, urls[1..])
  }

  /** A level's harvest holds every link of its pages exactly where no object of
      theirs that holds links is entered past the cap. */
  lemma {:induction false} EachLinkIsHarvested(w: World, urls: seq<Url>, taken: seq<Url>)
    ensures |HarvestEach(w, urls, taken)| <= |taken| + |LinksOfAll(w, urls)|
    ensures if EachInReach(w, urls, |taken|) then HarvestEach(w, urls, taken) == taken + LinksOfAll(w, urls)
            else |HarvestEach(w, urls, taken)| < |taken| + |LinksOfAll(w, urls)|
    decreases |urls|
  {
    hide Harvest, InReach, AllLinks;
    if urls != [] {
      var document := w.read(urls[0]);
      var next := if document.Some? then Harvest(document.value, taken, 0) else taken;
      if document.Some? {
        WithinTheCapTakesAll(document.value, taken, 0);
      }
      EachLinkIsHarvested(w, urls[1..], next);
      var first, rest := Links(w, urls[0]), LinksOfAll(w, urls[1..]);
      assert (taken + first) + rest == taken + (first + rest);
    }
  }

  lemma {:induction false} LinksAreAmongAll(w: World, urls: seq<Url>)
    ensures forall u <- urls, v <- Links(w, u) :: v in LinksOfAll(w, urls)
    decreases |urls|
  {
    if urls != [] {
      LinksAreAmongAll(w, urls[1..]);
    }
  }

  /** The first address of each resource not claimed yet. */
  function Fresh(seen: set<Url>, urls: seq<Url>): seq<Url>
    decreases |urls|
  {
    if urls == [] then []
    else if Normalise(urls[0]) in seen then Fresh(seen, urls[1..])
    else [urls[0]] + Fresh(seen + {Normalise(urls[0])}, urls[1..])
  }

  lemma {:induction false} FreshCoversAll(seen: set<Url>, urls: seq<Url>)
    ensures forall u <- urls ::
              Normalise(u) in seen || exists v :: v in Fresh(seen, urls) && Normalise(v) == Normalise(u)
    ensures forall v <- Fresh(seen, urls) :: Normalise(v) !in seen
    decreases |urls|
  {
    if urls != [] {
      var key := Normalise(urls[0]);
      if key in seen {
        FreshCoversAll(seen, urls[1..]);
      } else {
        FreshCoversAll(seen + {key}, urls[1..]);
        assert urls[0] in Fresh(seen, urls);
        forall u <- urls
          ensures Normalise(u) in seen || exists v :: v in Fresh(seen, urls) && Normalise(v) == Normalise(u)
        {
          if Normalise(u) !in seen && Normalise(u) != key {
            var v :| v in Fresh(seen + {key}, urls[1..]) && Normalise(v) == Normalise(u);
            assert v in Fresh(seen, urls);
          }
        }
      }
    }
  }

  /** Collections before single records, shorter addresses first. */
  function Before(w: World): Order<Url> {
    (u, v) => if w.isRecord(u) == w.isRecord(v) then w.length(u) <= w.length(v) else w.isRecord(v)
  }

  function Unvisited(w: World, seen: set<Url>, urls: seq<Url>): seq<Url> {
    StableSort(Fresh(seen, urls), Before(w))
  }

  lemma UnvisitedCoversAll(w: World, seen: set<Url>, urls: seq<Url>)
    ensures forall u <- urls ::
              Normalise(u) in seen || exists v :: v in Unvisited(w, seen, urls) && Normalise(v) == Normalise(u)
  {
    FreshCoversAll(seen, urls);
    SortPermutes(Fresh(seen, urls), Before(w));
    forall v <- Fresh(seen, urls)
      ensures v in Unvisited(w, seen, urls)
    {
      assert v in multiset(Unvisited(w, seen, urls));
    }
  }

  // ---- the walk ------------------------------------------------------------

  /** The levels of a walk from a frontier: each claims what it can, reads what it
      claimed, and goes on to what that links to. */
  function Walk(w: World, b: Bounds, st: Claims, frontier: seq<Url>, depth: nat): Claims
    decreases Left(b, depth)
  {
    if frontier == [] || depth > b.maxDepth then st
    else
      var next := ClaimEach(b, st, frontier);
      Walk(w, b, next, Unvisited(w, next.seen, HarvestEach(w, Granted(b, st, frontier), [])), depth + 1)
  }

  /** No level but the last, whose links are followed no further, loses a link to
      the cap. */
  predicate LosesNone(w: World, b: Bounds, st: Claims, frontier: seq<Url>, depth: nat)
    decreases Left(b, depth)
  {
    if frontier == [] || depth > b.maxDepth then true
    else
      var next, granted := ClaimEach(b, st, frontier), Granted(b, st, frontier);
      && (depth < b.maxDepth ==> EachInReach(w, granted, 0))
      && LosesNone(w, b, next, Unvisited(w, next.seen, HarvestEach(w, granted, [])), depth + 1)
  }

  /** The level at which each resource was claimed. */
  ghost function Levels(w: World, b: Bounds, st: Claims, frontier: seq<Url>, depth: nat): map<Url, nat>
    decreases Left(b, depth)
  {
    if frontier == [] || depth > b.maxDepth then map[]
    else
      var next := ClaimEach(b, st, frontier);
      (map key <- next.seen - st.seen :: depth)
      + Levels(w, b, next, Unvisited(w, next.seen, HarvestEach(w, Granted(b, st, frontier), [])), depth + 1)
  }

  /** The walk never spends more than its budget, and claims as many as it asks. */
  lemma {:induction false} WalkIsBudgeted(w: World, b: Bounds, st: Claims, frontier: seq<Url>, depth: nat)
    requires Counted(b, st)
    ensures Counted(b, Walk(w, b, st, frontier, depth)) && st.seen <= Walk(w, b, st, frontier, depth).seen
    decreases Left(b, depth)
  {
    if frontier != [] && depth <= b.maxDepth {
      RequestsAreClaims(b, st, frontier);
      var next := ClaimEach(b, st, frontier);
      WalkIsBudgeted(w, b, next, Unvisited(w, next.seen, HarvestEach(w, Granted(b, st, frontier), [])), depth + 1);
    }
  }

  /** Addresses of one resource lead to the same places. */
  ghost predicate OneResourceOneDocument(w: World) {
    forall u, v :: Normalise(u) == Normalise(v) ==> Links(w, u) == Links(w, v)
  }

  function Left(b: Bounds, depth: nat): nat {
    if depth <= b.maxDepth then b.maxDepth + 1 - depth else 0
  }

  function NextFrontier(w: World, b: Bounds, st: Claims, frontier: seq<Url>): seq<Url> {
    Unvisited(w, ClaimEach(b, st, frontier).seen, HarvestEach(w, Granted(b, st, frontier), []))
  }

  /** A walk by its first level. */
  lemma OneLevel(w: World, b: Bounds, st: Claims, frontier: seq<Url>, depth: nat)
    requires frontier != [] && depth <= b.maxDepth
    ensures var next, later := ClaimEach(b, st, frontier), NextFrontier(w, b, st, frontier);
            && Walk(w, b, st, frontier, depth) == Walk(w, b, next, later, depth + 1)
            && Levels(w, b, st, frontier, depth)
               == (map key <- next.seen - st.seen :: depth) + Levels(w, b, next, later, depth + 1)
  {
  }

  lemma OneLevelLosesNone(w: World, b: Bounds, st: Claims, frontier: seq<Url>, depth: nat)
    requires frontier != [] && depth <= b.maxDepth
    ensures LosesNone(w, b, st, frontier, depth)
       <==> (depth < b.maxDepth ==> EachInReach(w, Granted(b, st, frontier), 0))
            && LosesNone(w, b, ClaimEach(b, st, frontier), NextFrontier(w, b, st, frontier), depth + 1)
  {
  }

  lemma NoLevel(w: World, b: Bounds, st: Claims, frontier: seq<Url>, depth: nat)
    ensures frontier == [] || depth > b.maxDepth ==>
              Levels(w, b, st, frontier, depth) == map[] && Walk(w, b, st, frontier, depth) == st
  {
  }

  lemma {:induction false} LevelsAreClaims(w: World, b: Bounds, st: Claims, frontier: seq<Url>, depth: nat)
    requires Counted(b, st)
    ensures var levels := Levels(w, b, st, frontier, depth);
            && levels.Keys == Walk(w, b, st, frontier, depth).seen - st.seen
            && forall key <- levels :: levels[key] >= depth
    decreases Left(b, depth)
  {
    hide Walk, Levels, ClaimEach, Granted, NextFrontier, Counted, Normalise;
    NoLevel(w, b, st, frontier, depth);
    if frontier != [] && depth <= b.maxDepth {
      OneLevel(w, b, st, frontier, depth);
      RequestsAreClaims(b, st, frontier);
      var next := ClaimEach(b, st, frontier);
      WalkIsBudgeted(w, b, next, NextFrontier(w, b, st, frontier), depth + 1);
      LevelsAreClaims(w, b, next, NextFrontier(w, b, st, frontier), depth + 1);
    }
  }

  /** Claimed before the walk, or in it no later than this level. */
  ghost predicate ClaimedBy(w: World, b: Bounds, st: Claims, frontier: seq<Url>, depth: nat, v: Url, level: nat) {
    var levels := Levels(w, b, st, frontier, depth);
    Normalise(v) in st.seen || (Normalise(v) in levels && levels[Normalise(v)] <= level)
  }

  /** In a walk that ends under its budget and loses no link to the cap, what
      a claimed page links to is claimed by the level after its own. */
  lemma {:induction false} LinksAreClaimed(w: World, b: Bounds, st: Claims, frontier: seq<Url>, depth: nat, u: Url,
                                           v: Url)
    requires Counted(b, st) && OneResourceOneDocument(w) && LosesNone(w, b, st, frontier, depth)
    requires Walk(w, b, st, frontier, depth).requests < b.maxRequests
    requires var levels := Levels(w, b, st, frontier, depth);
             Normalise(u) in levels && levels[Normalise(u)] < b.maxDepth
    requires v in Links(w, u)
    ensures ClaimedBy(w, b, st, frontier, depth, v, Levels(w, b, st, frontier, depth)[Normalise(u)] + 1)
    decreases Left(b, depth)
  {
    NoLevel(w, b, st, frontier, depth);
    hide Walk, LosesNone, Levels, ClaimEach, Granted, NextFrontier, HarvestEach, Links, Normalise;
    OneLevel(w, b, st, frontier, depth);
    OneLevelLosesNone(w, b, st, frontier, depth);
    var next, later := ClaimEach(b, st, frontier), NextFrontier(w, b, st, frontier);
    RequestsAreClaims(b, st, frontier);
    LevelsAreClaims(w, b, next, later, depth + 1);
    if Normalise(u) in Levels(w, b, next, later, depth + 1) {
      LinksAreClaimed(w, b, next, later, depth + 1, u, v);
    } else {
      LinksOfThisLevel(w, b, st, frontier, depth, u, v);
    }
  }

  lemma LinksOfThisLevel(w: World, b: Bounds, st: Claims, frontier: seq<Url>, depth: nat, u: Url, v: Url)
    requires Counted(b, st) && OneResourceOneDocument(w) && LosesNone(w, b, st, frontier, depth)
    requires Walk(w, b, st, frontier, depth).requests < b.maxRequests
    requires frontier != [] && depth < b.maxDepth && v in Links(w, u)
    requires Normalise(u) in ClaimEach(b, st, frontier).seen && Normalise(u) !in st.seen
    ensures ClaimedBy(w, b, st, frontier, depth, v, depth + 1)
  {
    hide Walk, LosesNone, Levels, ClaimEach, Granted, HarvestEach, Links, Unvisited;
    OneLevel(w, b, st, frontier, depth);
    OneLevelLosesNone(w, b, st, frontier, depth);
    var next, later := ClaimEach(b, st, frontier), NextFrontier(w, b, st, frontier);
    var harvested := HarvestEach(w, Granted(b, st, frontier), []);
    RequestsAreClaims(b, st, frontier);
    SeenGrows(w, b, next, later, depth + 1);
    UnspentClaimsAll(b, st, frontier);
    var granted :| granted in Granted(b, st, frontier) && Normalise(granted) == Normalise(u);
    assert Links(w, granted) == Links(w, u);
    EachLinkIsHarvested(w, Granted(b, st, frontier), []);
    LinksAreAmongAll(w, Granted(b, st, frontier));
    assert [] + LinksOfAll(w, Granted(b, st, frontier)) == harvested;
    UnvisitedCoversAll(w, next.seen, harvested);
    if Normalise(v) !in next.seen {
      var found :| found in later && Normalise(found) == Normalise(v);
      NextLevelClaims(w, b, next, later, depth + 1, found);
    } else {
      LevelsAreClaims(w, b, next, later, depth + 1);
    }
  }

  lemma SeenGrows(w: World, b: Bounds, st: Claims, frontier: seq<Url>, depth: nat)
    requires Counted(b, st)
    ensures st.requests <= Walk(w, b, st, frontier, depth).requests
  {
    WalkIsBudgeted(w, b, st, frontier, depth);
    Subsets(st.seen, Walk(w, b, st, frontier, depth).seen);
  }

  lemma NextLevelClaims(w: World, b: Bounds, st: Claims, frontier: seq<Url>, depth: nat, u: Url)
    requires Counted(b, st) && Walk(w, b, st, frontier, depth).requests < b.maxRequests
    requires u in frontier && depth <= b.maxDepth && Normalise(u) !in st.seen
    ensures var levels := Levels(w, b, st, frontier, depth); Normalise(u) in levels && levels[Normalise(u)] == depth
  {
    hide Walk, LosesNone, Levels, ClaimEach, Granted, NextFrontier, Normalise, Counted;
    OneLevel(w, b, st, frontier, depth);
    var next, later := ClaimEach(b, st, frontier), NextFrontier(w, b, st, frontier);
    RequestsAreClaims(b, st, frontier);
    SeenGrows(w, b, next, later, depth + 1);
    UnspentClaimsAll(b, st, frontier);
    LevelsAreClaims(w, b, next, later, depth + 1);
  }

  /** A path of links through pages that can be read. */
  predicate Path(w: World, path: seq<Url>) {
    path != [] && forall i :: 0 <= i < |path| - 1 ==> path[i + 1] in Links(w, path[i])
  }

  /** A walk that ends under its budget and loses no link to the cap has
      claimed every address reachable from the base by at most maxDepth links
      through readable documents, on a path avoiding what was claimed before. */
  lemma {:induction false} ReachableIsClaimed(w: World, b: Bounds, st: Claims, base: Url, path: seq<Url>)
    requires Counted(b, st) && OneResourceOneDocument(w) && LosesNone(w, b, st, [base], 0)
    requires Walk(w, b, st, [base], 0).requests < b.maxRequests
    requires Path(w, path) && path[0] == base && |path| - 1 <= b.maxDepth
    requires forall i :: 0 <= i < |path| - 1 ==> Normalise(path[i]) !in st.seen
    ensures ClaimedBy(w, b, st, [base], 0, path[|path| - 1], |path| - 1)
    ensures Normalise(path[|path| - 1]) in Walk(w, b, st, [base], 0).seen
    decreases |path|
  {
    WalkIsBudgeted(w, b, st, [base], 0);
    LevelsAreClaims(w, b, st, [base], 0);
    if |path| == 1 {
      if Normalise(base) !in st.seen {
        NextLevelClaims(w, b, st, [base], 0, base);
      }
    } else {
      var shorter := path[..|path| - 1];
      assert Path(w, shorter);
      ReachableIsClaimed(w, b, st, base, shorter);
      LinksAreClaimed(w, b, st, [base], 0, path[|path| - 2], path[|path| - 1]);
    }
  }

  /** Beyond the cap links are lost: a level that has harvested more of them than
      it takes reads nothing more of the pages after, however far the budget. */
  lemma BeyondTheCapLinksAreLost(w: World, urls: seq<Url>, rest: seq<Url>, taken: seq<Url>)
    requires |HarvestEach(w, urls, taken)| > HARVEST_CAP
    ensures HarvestEach(w, urls + rest, taken) == HarvestEach(w, urls, taken)
  {
    HarvestOfBoth(w, urls, rest, taken);
    FullTakesNothing(w, rest, HarvestEach(w, urls, taken));
  }

  lemma {:induction false} HarvestOfBoth(w: World, urls: seq<Url>, rest: seq<Url>, taken: seq<Url>)
    ensures HarvestEach(w, urls + rest, taken) == HarvestEach(w, rest, HarvestEach(w, urls, taken))
    decreases |urls|
  {
    if urls == [] {
      assert urls + rest == rest;
    } else {
      assert (urls + rest)[1..] == urls[1..] + rest;
      var document := w.read(urls[0]);
      HarvestOfBoth(w, urls[1..], rest, if document.Some? then Harvest(document.value, taken, 0) else taken);
    }
  }

  lemma {:induction false} FullTakesNothing(w: World, urls: seq<Url>, taken: seq<Url>)
    requires |taken| > HARVEST_CAP
    ensures HarvestEach(w, urls, taken) == taken
    decreases |urls|
  {
    if urls != [] {
      FullTakesNothing(w, urls[1..], taken);
    }
  }

  // ---- a walk that misses a page -------------------------------------------

  // The base links to p and to q; p links 201 times to x and q once to v.
  function Page(path: string): Url {
    Url("http", "h", path, "", "")
  }

  const BASE: Url := Page("/")
  const P: Url := Page("/p")
  const Q: Url := Page("/qq")
  const X: Url := Page("/x")
  const V: Url := Page("/v")

  function Repeated(u: Url, n: nat): seq<Field> {
    if n == 0 then [] else [Link(u)] + Repeated(u, n - 1)
  }

  function Copies(u: Url, n: nat): seq<Url> {
    if n == 0 then [] else [u] + Copies(u, n - 1)
  }

  function Read(u: Url): Option<Node> {
    var key := Normalise(u).path;
    if key == "/" then Some(Node([Link(P), Link(Q)]))
    else if key == "/p" then Some(Node(Repeated(X, 201)))
    else if key == "/qq" then Some(Node([Link(V)]))
    else None
  }

  const SITE: World := World.World(Read, (u: Url) => false, (u: Url) => |u.path|)
  const BOUNDS: Bounds := Bounds(120, 3)

  lemma PathsStay()
    ensures forall u <- {BASE, P, Q, X, V} :: Normalise(u).path == u.path
    ensures Normalise(BASE) != Normalise(P) && Normalise(BASE) != Normalise(Q) && Normalise(BASE) != Normalise(X)
    ensures Normalise(P) != Normalise(Q) && Normalise(P) != Normalise(X) && Normalise(Q) != Normalise(X)
    ensures forall u <- {BASE, P, Q, X} :: Normalise(u) != Normalise(V)
  {
    assert TrimSlashes("/") == TrimSlashes("") == "" by { assert "/"[..0] == ""; }
    assert "/p"[1] == 'p' && "/qq"[2] == 'q' && "/x"[1] == 'x' && "/v"[1] == 'v';
    assert TrimSlashes("/p") == "/p" && TrimSlashes("/qq") == "/qq" && TrimSlashes("/x") == "/x"
           && TrimSlashes("/v") == "/v";
    assert |"/"| == 1 && |"/p"| == 2 && |"/qq"| == 3;
  }

  lemma SiteReads()
    ensures Read(BASE) == Some(Node([Link(P), Link(Q)])) && Read(P) == Some(Node(Repeated(X, 201)))
    ensures Read(Q) == Some(Node([Link(V)])) && Read(X).None?
  {
    PathsStay();
    assert |"/"| == 1 && |"/p"| == 2 && |"/qq"| == 3;
    assert "/x"[1] == 'x' && "/p"[1] == 'p';
    hide Normalise;
  }

  lemma {:induction false} CopiesAreHarvested(u: Url, n: nat, taken: seq<Url>)
    ensures HarvestIn(Repeated(u, n), taken, 0) == taken + Copies(u, n) && |Copies(u, n)| == n
    decreases n
  {
    if n > 0 {
      CopiesAreHarvested(u, n - 1, taken + [u]);
      assert Repeated(u, n)[1..] == Repeated(u, n - 1);
    }
  }

  lemma {:induction false} OneOfTheCopies(seen: set<Url>, u: Url, n: nat)
    ensures Fresh(seen, Copies(u, n)) == if n == 0 || Normalise(u) in seen then [] else [u]
    decreases n
  {
    if n > 0 {
      assert Copies(u, n)[1..] == Copies(u, n - 1);
      OneOfTheCopies(seen, u, n - 1);
      OneOfTheCopies(seen + {Normalise(u)}, u, n - 1);
    }
  }

  lemma BaseHarvests()
    ensures HarvestEach(SITE, [BASE], []) == [P, Q]
  {
    SiteReads();
    hide Read;
    var fields := [Link(P), Link(Q)];
    assert fields[1..] == [Link(Q)] && [Link(Q)][1..] == [];
    assert HarvestIn([Link(Q)], [P], 0) == [P] + [Q];
    assert FirstTaken(fields[0], [], 0) == [] + [P] == [P] && [P] + [Q] == [P, Q];
    assert HarvestIn(fields, [], 0) == [P, Q];
    assert [BASE][1..] == [];
  }

  /** What p links to passes the cap, and q's turn takes nothing. */
  lemma FirstPageTakesAll()
    ensures HarvestEach(SITE, [P, Q], []) == Copies(X, 201)
  {
    SiteReads();
    CopiesAreHarvested(X, 201, []);
    hide Read, Repeated, Copies, HarvestIn;
    var copies := Copies(X, 201);
    assert [] + copies == copies;
    assert [P, Q][1..] == [Q] && [Q][1..] == [];
    assert HarvestEach(SITE, [Q], copies) == copies;
  }

  lemma OneClaimed(st: Claims, u: Url)
    requires Normalise(u) !in st.seen && st.requests < BOUNDS.maxRequests
    ensures ClaimEach(BOUNDS, st, [u]) == Claims(st.seen + {Normalise(u)}, st.requests + 1)
    ensures Granted(BOUNDS, st, [u]) == [u]
  {
    assert [u][1..] == [];
  }

  lemma BothClaimed(st: Claims, u: Url, v: Url)
    requires Normalise(u) !in st.seen && Normalise(v) !in st.seen && Normalise(u) != Normalise(v)
    requires st.requests + 1 < BOUNDS.maxRequests
    ensures ClaimEach(BOUNDS, st, [u, v]) == Claims(st.seen + {Normalise(u)} + {Normalise(v)}, st.requests + 2)
    ensures Granted(BOUNDS, st, [u, v]) == [u, v]
  {
    assert [u, v][1..] == [v];
    OneClaimed(Claim(BOUNDS, st, u), v);
  }

  const NONE_YET: Claims := Claims({}, 0)

  function AfterTheBase(): Claims {
    Claims({Normalise(BASE)}, 1)
  }

  function AfterTheIndex(): Claims {
    Claims({Normalise(BASE)} + {Normalise(P)} + {Normalise(Q)}, 3)
  }

  function AfterX(): Claims {
    Claims({Normalise(BASE)} + {Normalise(P)} + {Normalise(Q)} + {Normalise(X)}, 4)
  }

  lemma IndexIsUnvisited(seen: set<Url>)
    requires Normalise(P) !in seen && Normalise(Q) !in seen
    ensures Unvisited(SITE, seen, [P, Q]) == [P, Q]
  {
    PathsStay();
    hide Normalise;
    assert [P, Q][1..] == [Q] && [Q][1..] == [];
    assert Fresh(seen + {Normalise(P)}, [Q]) == [Q];
    assert Fresh(seen, [P, Q]) == [P] + [Q] == [P, Q];
    assert StableSort([Q], Before(SITE)) == [Q];
    assert Before(SITE)(P, Q);
    assert StableSort([P, Q], Before(SITE)) == [P] + [Q];
  }

  lemma CopiesAreVisitedOnce(seen: set<Url>)
    requires Normalise(X) !in seen
    ensures Unvisited(SITE, seen, Copies(X, 201)) == [X]
  {
    OneOfTheCopies(seen, X, 201);
    hide Normalise, Copies, Fresh;
    assert [X][1..] == [];
    assert StableSort([X], Before(SITE)) == [X];
  }

  lemma FirstLevel()
    ensures Walk(SITE, BOUNDS, NONE_YET, [BASE], 0) == Walk(SITE, BOUNDS, AfterTheBase(), [P, Q], 1)
  {
    hide Normalise, HarvestEach, ClaimEach, Granted, Read, Walk, Unvisited;
    PathsStay();
    OneClaimed(NONE_YET, BASE);
    BaseHarvests();
    assert NONE_YET.seen + {Normalise(BASE)} == AfterTheBase().seen;
    IndexIsUnvisited(AfterTheBase().seen);
    OneLevel(SITE, BOUNDS, NONE_YET, [BASE], 0);
  }

  lemma SecondLevel()
    ensures Walk(SITE, BOUNDS, AfterTheBase(), [P, Q], 1) == Walk(SITE, BOUNDS, AfterTheIndex(), [X], 2)
  {
    hide Normalise, HarvestEach, ClaimEach, Granted, Read, Walk, Unvisited, Copies;
    PathsStay();
    BothClaimed(AfterTheBase(), P, Q);
    FirstPageTakesAll();
    CopiesAreVisitedOnce(AfterTheIndex().seen);
    OneLevel(SITE, BOUNDS, AfterTheBase(), [P, Q], 1);
  }

  lemma XLeadsNowhere()
    ensures HarvestEach(SITE, [X], []) == [] && Unvisited(SITE, AfterX().seen, []) == []
  {
    SiteReads();
    hide Read, Normalise;
    assert [X][1..] == [];
  }

  lemma ThirdLevel()
    ensures Walk(SITE, BOUNDS, AfterTheIndex(), [X], 2) == AfterX()
  {
    hide Normalise, HarvestEach, ClaimEach, Granted, Read, Walk, Unvisited;
    PathsStay();
    OneClaimed(AfterTheIndex(), X);
    XLeadsNowhere();
    OneLevel(SITE, BOUNDS, AfterTheIndex(), [X], 2);
    NoLevel(SITE, BOUNDS, AfterX(), [], 3);
  }

  /** A walk that ends under its budget and misses a page within its depth: q is
      read, and v, which it links to, is never claimed, because p's links came
      first and passed the cap. */
  lemma WalkMissesAPage()
    ensures Counted(BOUNDS, NONE_YET) && OneResourceOneDocument(SITE)
    ensures Path(SITE, [BASE, Q, V]) && |[BASE, Q, V]| - 1 <= BOUNDS.maxDepth
    ensures var end := Walk(SITE, BOUNDS, NONE_YET, [BASE], 0);
            end.requests < BOUNDS.maxRequests && Normalise(Q) in end.seen && Normalise(V) !in end.seen
  {
    hide Normalise, Walk, Links, OneResourceOneDocument;
    FirstLevel();
    SecondLevel();
    ThirdLevel();
    PathsStay();
    SiteLinks();
    SiteHasOneDocumentEach();
  }

  lemma SiteLinks()
    ensures Q in Links(SITE, BASE) && V in Links(SITE, Q)
  {
    SiteReads();
    hide Read;
    var fields := [Link(P), Link(Q)];
    assert fields[1..] == [Link(Q)] && [Link(Q)][1..] == [] && [Link(V)][1..] == [];
    assert LinksIn([Link(Q)], 0) == [Q] && LinksIn([Link(V)], 0) == [V];
    assert LinksIn(fields, 0) == [P] + [Q];
    assert ([P] + [Q])[1] == Q;
  }

  lemma SiteHasOneDocumentEach()
    ensures OneResourceOneDocument(SITE)
  {
  }

  // ---- the crawler, claiming in place --------------------------------------

  class Crawler {
    const w: World
    const b: Bounds
    var seen: set<Url>
    var requests: nat

    function Now(): Claims
      reads this
    {
      Claims(seen, requests)
    }

    ghost predicate Valid()
      reads this
    {
      Counted(b, Now())
    }

    constructor (w: World, b: Bounds)
      ensures Valid() && this.w == w && this.b == b && seen == {}
    {
      this.w, this.b := w, b;
      seen, requests := {}, 0;
    }

    method ClaimOne(url: Url) returns (granted: bool)
      requires Valid()
      modifies this
      ensures Valid() && Now() == Claim(b, old(Now()), url) && granted == Grants(b, old(Now()), url)
    {
      var key := Normalise(url);
      if key in seen || requests >= b.maxRequests {
        return false;
      }
      seen := seen + {key};
      requests := requests + 1;
      granted := true;
    }

    method ClaimWanted(urls: seq<Url>) returns (wanted: seq<Url>)
      requires Valid()
      modifies this
      ensures Valid() && Now() == ClaimEach(b, old(Now()), urls) && wanted == Granted(b, old(Now()), urls)
    {
      ghost var start := Now();
      wanted := [];
      hide Normalise, Claim, Grants;
      assert urls[0..] == urls;
      for k := 0 to |urls|
        invariant Valid()
        invariant ClaimEach(b, Now(), urls[k..]) == ClaimEach(b, start, urls)
        invariant wanted + Granted(b, Now(), urls[k..]) == Granted(b, start, urls)
      {
        assert urls[k..][1..] == urls[k + 1..];
        var granted := ClaimOne(urls[k]);
        if granted {
          wanted := wanted + [urls[k]];
        }
      }
    }

    /** The links of every page of this level that could be read. */
    method HarvestPages(urls: seq<Url>) returns (harvested: seq<Url>)
      ensures harvested == HarvestEach(w, urls, [])
    {
      harvested := [];
      assert urls[0..] == urls;
      for k := 0 to |urls|
        invariant HarvestEach(w, urls[k..], harvested) == HarvestEach(w, urls, [])
      {
        assert urls[k..][1..] == urls[k + 1..];
        var document := w.read(urls[k]);
        if document.Some? {
          harvested := Harvest(document.value, harvested, 0);
        }
      }
    }

    method FindUnvisited(urls: seq<Url>) returns (frontier: seq<Url>)
      ensures frontier == Unvisited(w, seen, urls)
    {
      var met: set<Url>, unmet: seq<Url> := {}, [];
      assert urls[0..] == urls && seen + {} == seen;
      for k := 0 to |urls|
        invariant unmet + Fresh(seen + met, urls[k..]) == Fresh(seen, urls)
      {
        assert urls[k..][1..] == urls[k + 1..];
        var key := Normalise(urls[k]);
        if key !in seen && key !in met {
          assert seen + (met + {key}) == seen + met + {key};
          met := met + {key};
          unmet := unmet + [urls[k]];
        }
      }
      assert urls[|urls|..] == [] && unmet + [] == unmet;
      frontier := StableSort(unmet, Before(w));
    }

    /** The walk from the base, after whatever was claimed before it. */
    method Run(base: Url)
      requires Valid()
      modifies this
      ensures Valid() && Now() == Walk(w, b, old(Now()), [base], 0)
    {
      var frontier, depth := [base], 0;
      while frontier != [] && depth <= b.maxDepth
        invariant Valid()
        invariant Walk(w, b, Now(), frontier, depth) == Walk(w, b, old(Now()), [base], 0)
        decreases if depth <= b.maxDepth then b.maxDepth + 1 - depth else 0
      {
        var wanted := ClaimWanted(frontier);
        var harvested := HarvestPages(wanted);
        frontier := FindUnvisited(harvested);
        depth := depth + 1;
      }
    }
  }
}
