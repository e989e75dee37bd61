/** Finding the words that close a TRY and its CATCH: the openers in between
    are counted, so that a TRY inside a TRY closes at its own END TRY. */
module TryMatcher {
  import opened Outcomes

  /** What a statement's text is here: the four pairs of words that open and close,
      and everything else, quoted text and names included. */
  datatype Word = BeginTry | EndTry | BeginCatch | EndCatch | Other(text: string)

  // ---- what a matching closer is -------------------------------------------

  /** How many of the blocks opened in this stretch it leaves open; below nought
      where it closes more than it opens. */
  function Depth(words: seq<Word>, ending: Word, opening: Option<Word>): int {
    if words == [] then 0
    else
      Depth(words[..|words| - 1], ending, opening) + Weight(words[|words| - 1], ending, opening)
  }

  function Weight(word: Word, ending: Word, opening: Option<Word>): int {
    if word == ending then -1 else if opening == Some(word) then 1 else 0
  }

  /** The stretch never closes what it did not open. */
  predicate NeverBelow(words: seq<Word>, ending: Word, opening: Option<Word>) {
    forall k :: 0 <= k <= |words| ==> Depth(words[..k], ending, opening) >= 0
  }

  /** This closer ends a stretch from here that closes all it opens and nothing
      else. */
  predicate Closes(words: seq<Word>, at: nat, k: nat, ending: Word, opening: Option<Word>) {
    && at <= k < |words| && words[k] == ending
    && Depth(words[at..k], ending, opening) == 0
    && NeverBelow(words[at..k], ending, opening)
  }

  lemma DepthOfOneMore(words: seq<Word>, at: nat, k: nat, ending: Word, opening: Option<Word>)
    requires at <= k < |words|
    ensures Depth(words[at..k + 1], ending, opening)
         == Depth(words[at..k], ending, opening) + Weight(words[k], ending, opening)
  {
    assert words[at..k + 1][..k + 1 - at - 1] == words[at..k];
  }

  lemma {:induction false} DepthOfBoth(a: seq<Word>, b: seq<Word>, ending: Word, opening: Option<Word>)
    ensures Depth(a + b, ending, opening) == Depth(a, ending, opening) + Depth(b, ending, opening)
  {
    if b == [] {
      assert a + b == a;
    } else {
      assert (a + b)[..|a + b| - 1] == a + b[..|b| - 1];
      DepthOfBoth(a, b[..|b| - 1], ending, opening);
    }
  }

  /** Only one closer does: a later one would stand past where the depth went
      below nought. */
  lemma OneCloser(words: seq<Word>, at: nat, k: nat, j: nat, ending: Word, opening: Option<Word>)
    requires Closes(words, at, k, ending, opening) && k < j <= |words|
    ensures !NeverBelow(words[at..j], ending, opening)
  {
    DepthOfOneMore(words, at, k, ending, opening);
    assert words[at..j][..k + 1 - at] == words[at..k + 1];
  }

  // ---- finding it ----------------------------------------------------------

  method FirstFrom(words: seq<Word>, at: nat, wanted: Word) returns (found: Option<nat>)
    requires at <= |words|
    ensures found.Some? ==>
            at <= found.value < |words| && words[found.value] == wanted && wanted !in words[at..found.value]
    ensures found.None? ==> wanted !in words[at..]
  {
    for k := at to |words|
      invariant wanted !in words[at..k]
    {
      if words[k] == wanted {
        return Some(k);
      }
      assert words[at..k + 1] == words[at..k] + [words[k]];
    }
    assert words[at..|words|] == words[at..];
    return None;
  }

  /** The next closer, or the opener that stands before it. */
  method Nearest(words: seq<Word>, cursor: nat, ending: Word, opening: Option<Word>) returns (next: Option<nat>,
                 opens: bool)
    requires cursor <= |words|
    ensures next.None? ==> ending !in words[cursor..]
    ensures next.Some? ==> cursor <= next.value < |words|
    ensures next.Some? ==> ending !in words[cursor..next.value]
    ensures next.Some? && opening.Some? ==> opening.value !in words[cursor..next.value]
    ensures next.Some? ==> if opens then opening == Some(words[next.value]) else words[next.value] == ending
  {
    next := FirstFrom(words, cursor, ending);
    opens := false;
    if next.Some? && opening.Some? {
      var opener := FirstFrom(words, cursor, opening.value);
      if opener.Some? && opener.value < next.value {
        assert words[cursor..opener.value] == words[cursor..next.value][..opener.value - cursor];
        return opener, true;
      }
      ghost var clear := if opener.Some? then words[cursor..opener.value] else words[cursor..];
      assert words[cursor..next.value] == clear[..next.value - cursor];
    }
  }

  /** A stretch with neither word in it leaves the depth as it was. */
  lemma {:induction false} QuietStretch(words: seq<Word>, at: nat, since: nat, until: nat, ending: Word,
                                        opening: Option<Word>)
    requires at <= since <= until <= |words|
    requires ending !in words[since..until] && (opening.Some? ==> opening.value !in words[since..until])
    requires NeverBelow(words[at..since], ending, opening)
    ensures Depth(words[at..until], ending, opening) == Depth(words[at..since], ending, opening)
    ensures NeverBelow(words[at..until], ending, opening)
    decreases until
  {
    if since < until {
      var last := until - 1;
      assert words[since..until][last - since] == words[last];
      assert words[since..last] <= words[since..until];
      QuietStretch(words, at, since, last, ending, opening);
      DepthOfOneMore(words, at, last, ending, opening);
      assert words[at..last][..last - at] == words[at..last];
      NeverBelowByOne(words, at, last, ending, opening);
    }
  }

  lemma NeverBelowByOne(words: seq<Word>, at: nat, k: nat, ending: Word, opening: Option<Word>)
    requires at <= k < |words|
    requires NeverBelow(words[at..k], ending, opening) && Depth(words[at..k + 1], ending, opening) >= 0
    ensures NeverBelow(words[at..k + 1], ending, opening)
  {
    var longer, shorter := words[at..k + 1], words[at..k];
    forall j | 0 <= j <= |longer| ensures Depth(longer[..j], ending, opening) >= 0 {
      if j < |longer| {
        assert longer[..j] == shorter[..j];
      } else {
        assert longer[..j] == longer;
      }
    }
  }

  /** The text before the closing word that matches, and where that word ended;
      all the rest where none does. */
  ghost predicate IsUpTo(words: seq<Word>, at: nat, ending: Word, opening: Option<Word>, body: seq<Word>, after: nat) {
    if exists k: nat :: Closes(words, at, k, ending, opening)
    then at < after <= |words| && Closes(words, at, after - 1, ending, opening) && body == words[at..after - 1]
    else at <= after == |words| && body == words[at..]
  }

  method UpTo(words: seq<Word>, at: nat, ending: Word, opening: Option<Word>) returns (body: seq<Word>, after: nat)
    requires at <= |words| && opening != Some(ending)
    ensures IsUpTo(words, at, ending, opening, body, after)
  {
    var depth, cursor := 0, at;
    assert words[at..at] == [];
    assert NeverBelow(words[at..at], ending, opening);
    hide Depth, NeverBelow, Closes, IsUpTo, Weight;
    while true
      invariant at <= cursor <= |words|
      invariant Depth(words[at..cursor], ending, opening) == depth >= 0
      invariant NeverBelow(words[at..cursor], ending, opening)
      invariant NoneBefore(words, at, cursor, ending, opening)
      decreases |words| - cursor
    {
      var next, opens := Nearest(words, cursor, ending, opening);
      if next.None? {
        NothingCloses(words, at, cursor, ending, opening);
        return words[at..], |words|;
      }
      if opens {
        PastAnOpener(words, at, cursor, next.value, ending, opening);
        depth := depth + 1;
      } else {
        AtACloser(words, at, cursor, next.value, ending, opening);
        if depth == 0 {
          return words[at..next.value], next.value + 1;
        }
        depth := depth - 1;
      }
      cursor := next.value + 1;
    }
  }

  ghost predicate NoneBefore(words: seq<Word>, at: nat, cursor: nat, ending: Word, opening: Option<Word>) {
    forall k: nat :: at <= k < cursor ==> !Closes(words, at, k, ending, opening)
  }

  lemma PastAnOpener(words: seq<Word>, at: nat, cursor: nat, next: nat, ending: Word, opening: Option<Word>)
    requires at <= cursor <= next < |words| && opening == Some(words[next]) && words[next] != ending
    requires ending !in words[cursor..next] && opening.value !in words[cursor..next]
    requires NeverBelow(words[at..cursor], ending, opening) && NoneBefore(words, at, cursor, ending, opening)
    ensures Depth(words[at..next + 1], ending, opening) == Depth(words[at..cursor], ending, opening) + 1
    ensures NeverBelow(words[at..next + 1], ending, opening) && NoneBefore(words, at, next + 1, ending, opening)
  {
    QuietStretch(words, at, cursor, next, ending, opening);
    DepthOfOneMore(words, at, next, ending, opening);
    assert words[at..cursor][..cursor - at] == words[at..cursor];
    NeverBelowByOne(words, at, next, ending, opening);
    NotBefore(words, at, cursor, next, ending, opening);
  }

  lemma AtACloser(words: seq<Word>, at: nat, cursor: nat, next: nat, ending: Word, opening: Option<Word>)
    requires at <= cursor <= next < |words| && words[next] == ending && opening != Some(ending)
    requires ending !in words[cursor..next] && (opening.Some? ==> opening.value !in words[cursor..next])
    requires NeverBelow(words[at..cursor], ending, opening) && NoneBefore(words, at, cursor, ending, opening)
    ensures var depth := Depth(words[at..cursor], ending, opening);
            if depth == 0 then IsUpTo(words, at, ending, opening, words[at..next], next + 1)
            else
              && Depth(words[at..next + 1], ending, opening) == depth - 1 >= 0
              && NeverBelow(words[at..next + 1], ending, opening) && NoneBefore(words, at, next + 1, ending, opening)
  {
    QuietStretch(words, at, cursor, next, ending, opening);
    DepthOfOneMore(words, at, next, ending, opening);
    assert words[at..cursor][..cursor - at] == words[at..cursor];
    if Depth(words[at..cursor], ending, opening) == 0 {
      assert Closes(words, at, next, ending, opening);
    } else {
      NeverBelowByOne(words, at, next, ending, opening);
      NotBefore(words, at, cursor, next, ending, opening);
    }
  }

  lemma NothingCloses(words: seq<Word>, at: nat, cursor: nat, ending: Word, opening: Option<Word>)
    requires at <= cursor <= |words| && ending !in words[cursor..]
    requires NoneBefore(words, at, cursor, ending, opening)
    ensures IsUpTo(words, at, ending, opening, words[at..], |words|)
  {
    forall k: nat
      ensures !Closes(words, at, k, ending, opening)
    {
      if cursor <= k < |words| {
        assert words[cursor..][k - cursor] == words[k];
      }
    }
  }

  lemma NotBefore(words: seq<Word>, at: nat, cursor: nat, next: nat, ending: Word, opening: Option<Word>)
    requires at <= cursor <= next < |words| && ending !in words[cursor..next]
    requires NoneBefore(words, at, cursor, ending, opening)
    requires words[next] == ending ==> Depth(words[at..next], ending, opening) > 0
    ensures NoneBefore(words, at, next + 1, ending, opening)
  {
    forall k: nat | at <= k < next + 1
      ensures !Closes(words, at, k, ending, opening)
    {
      if cursor <= k < next {
        assert words[cursor..next][k - cursor] == words[k];
      }
    }
  }

  // ---- a TRY read back from its text ---------------------------------------

  /** What a TRY holds and what its CATCH does, from just past BEGIN TRY. */
  method ReadTry(words: seq<Word>, at: nat) returns (body: seq<Word>, caught: seq<Word>)
    requires at <= |words|
    ensures ReadAs(words, at, body, caught)
  {
    var after;
    body, after := UpTo(words, at, EndTry, Some(BeginTry));
    caught := [];
    if after < |words| && words[after] == BeginCatch {
      var past;
      caught, past := UpTo(words, after + 1, EndCatch, Some(BeginCatch));
    }
  }

  ghost predicate ReadAs(words: seq<Word>, at: nat, body: seq<Word>, caught: seq<Word>) {
    exists after: nat :: IsUpTo(words, at, EndTry, Some(BeginTry), body, after) && CatchReadAs(words, after, caught)
  }

  ghost predicate CatchReadAs(words: seq<Word>, at: nat, caught: seq<Word>) {
    if at < |words| && words[at] == BeginCatch
    then exists start: nat, past: nat ::
           start == at + 1 && IsUpTo(words, start, EndCatch, Some(BeginCatch), caught, past)
    else caught == []
  }

  /** Statements as written: text, and TRYs with their CATCHes among them. */
  datatype Piece = Plain(text: string) | Try(body: seq<Piece>, catch: seq<Piece>)

  function Written(pieces: seq<Piece>): seq<Word>
    decreases pieces
  {
    if pieces == [] then [] else WrittenOne(pieces[0]) + Written(pieces[1..])
  }

  function WrittenOne(piece: Piece): seq<Word>
    decreases piece
  {
    match piece
    case Plain(text) => [Other(text)]
    case Try(body, catch) =>
      [BeginTry] + Written(body) + [EndTry] + [BeginCatch] + Written(catch) + [EndCatch]
  }

  /** Closes all it opens and nothing else. */
  predicate Balanced(words: seq<Word>, ending: Word, opening: Option<Word>) {
    Depth(words, ending, opening) == 0 && NeverBelow(words, ending, opening)
  }

  lemma BothAreBalanced(a: seq<Word>, b: seq<Word>, ending: Word, opening: Option<Word>)
    requires Balanced(a, ending, opening) && Balanced(b, ending, opening)
    ensures Balanced(a + b, ending, opening)
  {
    DepthOfBoth(a, b, ending, opening);
    forall k | 0 <= k <= |a + b|
      ensures Depth((a + b)[..k], ending, opening) >= 0
    {
      if k <= |a| {
        assert (a + b)[..k] == a[..k];
      } else {
        assert (a + b)[..k] == a + b[..k - |a|];
        DepthOfBoth(a, b[..k - |a|], ending, opening);
      }
    }
  }

  lemma OneIsBalanced(word: Word, ending: Word, opening: Option<Word>)
    requires word != ending && opening != Some(word)
    ensures Balanced([word], ending, opening)
  {
    assert [word][..0] == [] && [word][..1] == [word];
  }

  lemma EnclosedIsBalanced(inner: seq<Word>, ending: Word, opening: Word)
    requires Balanced(inner, ending, Some(opening)) && opening != ending
    ensures Balanced([opening] + inner + [ending], ending, Some(opening))
  {
    var all := [opening] + inner + [ending];
    assert Depth([opening], ending, Some(opening)) == 1 by { assert [opening][..0] == []; }
    forall k | 0 <= k < |all|
      ensures Depth(all[..k], ending, Some(opening))
           == if k == 0 then 0 else 1 + Depth(inner[..k - 1], ending, Some(opening))
    {
      if k > 0 {
        assert all[..k] == [opening] + inner[..k - 1];
        DepthOfBoth([opening], inner[..k - 1], ending, Some(opening));
      }
    }
    assert inner[..|inner|] == inner;
    assert all[..|all|] == all;
  }

  lemma {:induction false} WrittenIsBalanced(pieces: seq<Piece>)
    ensures Balanced(Written(pieces), EndTry, Some(BeginTry)) && Balanced(Written(pieces), EndCatch, Some(BeginCatch))
    decreases pieces, 0
  {
    if pieces != [] {
      OneWrittenIsBalanced(pieces[0]);
      WrittenIsBalanced(pieces[1..]);
      BothAreBalanced(WrittenOne(pieces[0]), Written(pieces[1..]), EndTry, Some(BeginTry));
      BothAreBalanced(WrittenOne(pieces[0]), Written(pieces[1..]), EndCatch, Some(BeginCatch));
    }
  }

  lemma {:induction false} OneWrittenIsBalanced(piece: Piece)
    ensures Balanced(WrittenOne(piece), EndTry, Some(BeginTry))
            && Balanced(WrittenOne(piece), EndCatch, Some(BeginCatch))
    decreases piece, 0
  {
    match piece
    case Plain(text) =>
      OneIsBalanced(Other(text), EndTry, Some(BeginTry));
      OneIsBalanced(Other(text), EndCatch, Some(BeginCatch));
    case Try(body, catch) =>
      WrittenIsBalanced(body);
      WrittenIsBalanced(catch);
      TryIsBalanced(Written(body), Written(catch));
  }

  lemma TryIsBalanced(body: seq<Word>, catch: seq<Word>)
    requires Balanced(body, EndTry, Some(BeginTry)) && Balanced(catch, EndTry, Some(BeginTry))
    requires Balanced(body, EndCatch, Some(BeginCatch)) && Balanced(catch, EndCatch, Some(BeginCatch))
    ensures var all := [BeginTry] + body + [EndTry] + [BeginCatch] + catch + [EndCatch];
            Balanced(all, EndTry, Some(BeginTry)) && Balanced(all, EndCatch, Some(BeginCatch))
  {
    var first, second := [BeginTry] + body + [EndTry], [BeginCatch] + catch + [EndCatch];
    EnclosedIsBalanced(body, EndTry, BeginTry);
    EnclosedIsBalanced(catch, EndCatch, BeginCatch);
    BetweenOthersIsBalanced(body, BeginTry, EndTry, EndCatch, BeginCatch);
    BetweenOthersIsBalanced(catch, BeginCatch, EndCatch, EndTry, BeginTry);
    BothAreBalanced(first, second, EndTry, Some(BeginTry));
    BothAreBalanced(first, second, EndCatch, Some(BeginCatch));
    assert [BeginTry] + body + [EndTry] + [BeginCatch] + catch + [EndCatch] == first + second;
  }

  lemma BetweenOthersIsBalanced(inner: seq<Word>, before: Word, past: Word, ending: Word, opening: Word)
    requires Balanced(inner, ending, Some(opening))
    requires before != ending && before != opening && past != ending && past != opening
    ensures Balanced([before] + inner + [past], ending, Some(opening))
  {
    OneIsBalanced(before, ending, Some(opening));
    OneIsBalanced(past, ending, Some(opening));
    BothAreBalanced([before], inner, ending, Some(opening));
    BothAreBalanced([before] + inner, [past], ending, Some(opening));
  }

  /** A balanced stretch is cut at the closer after it and nowhere else. */
  lemma BalancedIsCutAtItsEnd(words: seq<Word>, at: nat, inner: seq<Word>, ending: Word, opening: Option<Word>,
                              body: seq<Word>, after: nat)
    requires Balanced(inner, ending, opening)
    requires at + |inner| < |words| && words[at..at + |inner|] == inner && words[at + |inner|] == ending
    requires IsUpTo(words, at, ending, opening, body, after)
    ensures body == inner && after == at + |inner| + 1
  {
    var end := at + |inner|;
    assert Closes(words, at, end, ending, opening);
    if after - 1 < end {
      OneCloser(words, at, after - 1, end, ending, opening);
    } else if end < after - 1 {
      OneCloser(words, at, end, after - 1, ending, opening);
    }
  }

  /** However deep TRYs and CATCHes stand in one another, a TRY's text gives
      back its own body and its own CATCH, whatever comes before and after. */
  lemma TryIsReadBack(before: seq<Word>, body: seq<Piece>, catch: seq<Piece>, rest: seq<Word>,
                      read: seq<Word>, caught: seq<Word>)
    requires ReadAs(before + WrittenOne(Try(body, catch)) + rest, |before| + 1, read, caught)
    ensures read == Written(body) && caught == Written(catch)
  {
    var b, c := Written(body), Written(catch);
    WrittenIsBalanced(body);
    WrittenIsBalanced(catch);
    var words := before + WrittenOne(Try(body, catch)) + rest;
    RegroupedAroundBody(before, b, c, rest);
    RegroupedAroundCatch(before, b, c, rest);
    Placed(before + [BeginTry], b, [EndTry] + [BeginCatch] + c + [EndCatch] + rest);
    Placed(before + [BeginTry] + b + [EndTry] + [BeginCatch], c, [EndCatch] + rest);
    assert WrittenOne(Try(body, catch)) == [BeginTry] + b + [EndTry] + [BeginCatch] + c + [EndCatch];
    var tail := [EndTry] + [BeginCatch] + c + [EndCatch] + rest;
    assert tail[0] == tail[..2][0] && tail[1] == tail[..2][1];
    assert words[|before| + 1 + |b| + 1] == tail[1];
    hide *;
    TryIsCut(words, |before| + 1, b, c, read, caught);
  }

  lemma RegroupedAroundBody(before: seq<Word>, b: seq<Word>, c: seq<Word>, rest: seq<Word>)
    ensures before + ([BeginTry] + b + [EndTry] + [BeginCatch] + c + [EndCatch]) + rest
         == (before + [BeginTry]) + b + ([EndTry] + [BeginCatch] + c + [EndCatch] + rest)
    ensures ([EndTry] + [BeginCatch] + c + [EndCatch] + rest)[..2] == [EndTry, BeginCatch]
  {
  }

  lemma RegroupedAroundCatch(before: seq<Word>, b: seq<Word>, c: seq<Word>, rest: seq<Word>)
    ensures before + ([BeginTry] + b + [EndTry] + [BeginCatch] + c + [EndCatch]) + rest
         == (before + [BeginTry] + b + [EndTry] + [BeginCatch]) + c + ([EndCatch] + rest)
  {
  }

  lemma Placed(before: seq<Word>, middle: seq<Word>, rest: seq<Word>)
    requires rest != []
    ensures (before + middle + rest)[|before|..|before| + |middle|] == middle
    ensures (before + middle + rest)[|before| + |middle|] == rest[0]
  {
  }

  lemma TryIsCut(words: seq<Word>, at: nat, b: seq<Word>, c: seq<Word>, read: seq<Word>, caught: seq<Word>)
    requires Balanced(b, EndTry, Some(BeginTry)) && Balanced(c, EndCatch, Some(BeginCatch))
    requires at + |b| + |c| + 2 < |words|
    requires words[at..at + |b|] == b && words[at + |b|] == EndTry && words[at + |b| + 1] == BeginCatch
    requires words[at + |b| + 2..at + |b| + 2 + |c|] == c && words[at + |b| + 2 + |c|] == EndCatch
    requires ReadAs(words, at, read, caught)
    ensures read == b && caught == c
  {
    hide Balanced, IsUpTo;
    var after: nat :| IsUpTo(words, at, EndTry, Some(BeginTry), read, after) && CatchReadAs(words, after, caught);
    BalancedIsCutAtItsEnd(words, at, b, EndTry, Some(BeginTry), read, after);
    var start: nat, past: nat :| start == after + 1 && IsUpTo(words, start, EndCatch, Some(BeginCatch), caught, past);
    BalancedIsCutAtItsEnd(words, start, c, EndCatch, Some(BeginCatch), caught, past);
  }

  /** Not counting what is opened cuts a body short exactly where it holds a TRY
      of its own. */
  lemma NotCountingCutsNestedTries(body: seq<Piece>, rest: seq<Word>, read: seq<Word>, after: nat)
    requires IsUpTo(Written(body) + [EndTry] + rest, 0, EndTry, None, read, after)
    ensures read == Written(body) <==> forall piece :: piece in body ==> piece.Plain?
  {
    var words := Written(body) + [EndTry] + rest;
    if forall piece :: piece in body ==> piece.Plain? {
      PlainHasNoCloser(body);
      NoCloserIsBalanced(Written(body), EndTry);
      assert words[0..|Written(body)|] == Written(body);
      BalancedIsCutAtItsEnd(words, 0, Written(body), EndTry, None, read, after);
    } else {
      NestedHasACloser(body);
      if read == Written(body) {
        var k :| 0 <= k < |Written(body)| && Written(body)[k] == EndTry;
        CloserIsBelow(read, k);
      }
    }
  }

  lemma {:induction false} PlainHasNoCloser(body: seq<Piece>)
    requires forall piece :: piece in body ==> piece.Plain?
    ensures EndTry !in Written(body)
  {
    if body != [] {
      assert body[0] in body;
      PlainHasNoCloser(body[1..]);
    }
  }

  lemma {:induction false} NestedHasACloser(body: seq<Piece>)
    requires exists piece :: piece in body && piece.Try?
    ensures EndTry in Written(body)
  {
    if body[0].Try? {
      var t := body[0];
      assert WrittenOne(t)[1 + |Written(t.body)|] == EndTry;
      assert Written(body)[1 + |Written(t.body)|] == EndTry;
    } else {
      NestedHasACloser(body[1..]);
      var k :| 0 <= k < |Written(body[1..])| && Written(body[1..])[k] == EndTry;
      assert Written(body)[1 + k] == EndTry;
    }
  }

  lemma {:induction false} NoCloserIsBalanced(words: seq<Word>, ending: Word)
    requires ending !in words
    ensures Balanced(words, ending, None)
  {
    if words == [] {
    } else {
      var shorter := words[..|words| - 1];
      NoCloserIsBalanced(shorter, ending);
      OneIsBalanced(words[|words| - 1], ending, None);
      assert words == shorter + [words[|words| - 1]];
      BothAreBalanced(shorter, [words[|words| - 1]], ending, None);
    }
  }

  lemma {:induction false} CloserIsBelow(words: seq<Word>, k: nat)
    requires k < |words| && words[k] == EndTry
    ensures !NeverBelow(words, EndTry, None)
  {
    UncountedNeverRises(words[..k]);
    assert words[..k + 1][..k] == words[..k];
    assert Depth(words[..k + 1], EndTry, None) < 0;
  }

  lemma {:induction false} UncountedNeverRises(words: seq<Word>)
    ensures Depth(words, EndTry, None) <= 0
  {
    if words != [] {
      UncountedNeverRises(words[..|words| - 1]);
    }
  }
}
