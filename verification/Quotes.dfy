/**
  Whether a quote is the document's text (backend/dgate/eligibility.py, `_in_order`, `quote_found`).

  The quote is given as its words after normalisation: no word is empty, and one space stood between two.
 */
module Quotes {
  import opened Wrappers

  const QUOTE_GAP: nat := 160
  const QUOTE_PARTS: nat := 3
  const QUOTE_PART_MIN: nat := 20

  // ------------------------------------------------------------------ words and occurrences

  /** " ".join(words). */
  function Joined(words: seq<string>): string {
    if words == [] then ""
    else if |words| == 1 then words[0]
    else Joined(words[..|words| - 1]) + " " + words[|words| - 1]
  }

  predicate Occurs(text: string, piece: string, k: nat) {
    k + |piece| <= |text| && text[k..k + |piece|] == piece
  }

  /** `text.find(piece, from, last + len(piece))`: the first occurrence that starts in `from..last`. */
  function FindIn(text: string, piece: string, from: nat, last: nat): (r: Option<nat>)
    ensures r.Some? ==> from <= r.value <= last && Occurs(text, piece, r.value)
    ensures r.Some? ==> forall k :: from <= k < r.value ==> !Occurs(text, piece, k)
    ensures r.None? ==> forall k :: from <= k <= last ==> !Occurs(text, piece, k)
    decreases last + 1 - from
  {
    if from > last || from > |text| then None
    else if Occurs(text, piece, from) then Some(from)
    else if from == last then None
    else FindIn(text, piece, from + 1, last)
  }

  // ------------------------------------------------------------------ what the matcher accepts

  /** The longest next piece: the words `i..j` for the greatest `j` up to `upTo` that are long enough and occur
      within the gap, with the first place they occur at. */
  function LongestPiece(words: seq<string>, text: string, i: nat, upTo: nat, at: nat): (r: Option<(nat, nat)>)
    requires i <= upTo <= |words|
    ensures r.Some? ==> i < r.value.0 <= upTo
    decreases upTo
  {
    if i == upTo || |Joined(words[i..upTo])| < QUOTE_PART_MIN then None
    else
      var k := FindIn(text, Joined(words[i..upTo]), at, at + QUOTE_GAP);
      if k.Some? then Some((upTo, k.value)) else LongestPiece(words, text, i, upTo - 1, at)
  }

  /** The words `i..j` are a piece of the quote that occurs at `k`, within the gap after `at`. */
  predicate IsPiece(words: seq<string>, text: string, i: nat, j: nat, at: nat, k: nat) {
    i < j <= |words| && at <= k <= at + 160 && |Joined(words[i..j])| >= 20 && Occurs(text, Joined(words[i..j]), k)
  }

  /** The piece is one of the quote's, no longer one that is long enough occurs in the gap, and it is the piece's
      first place there. */
  lemma {:induction false} LongestMeans(words: seq<string>, text: string, i: nat, upTo: nat, at: nat, m: nat)
    requires i <= upTo <= |words|
    ensures var r := LongestPiece(words, text, i, upTo, at);
            && (r.Some? ==> IsPiece(words, text, i, r.value.0, at, r.value.1))
            && (r.Some? && r.value.0 < m <= upTo ==> FindIn(text, Joined(words[i..m]), at, at + QUOTE_GAP).None?)
            && (r.Some? && at <= m < r.value.1 ==> !Occurs(text, Joined(words[i..r.value.0]), m))
    decreases upTo
  {
    if i < upTo && |Joined(words[i..upTo])| >= QUOTE_PART_MIN
       && FindIn(text, Joined(words[i..upTo]), at, at + QUOTE_GAP).None? {
      LongestMeans(words, text, i, upTo - 1, at, m);
    }
  }

  /** `rest`: the words from `i` on are found from `at` on, each time by the longest piece at its first
      place, in the parts that are left. */
  predicate Accepts(words: seq<string>, text: string, i: nat, at: nat, parts: nat)
    requires i <= |words|
    decreases |words| - i
  {
    i == |words|
    || (parts < QUOTE_PARTS
        && var next := LongestPiece(words, text, i, |words|, at);
           next.Some?
           && Accepts(words, text, next.value.0, next.value.1 + |Joined(words[i..next.value.0])|, parts + 1))
  }

  /** How many words make a beginning that is long enough; all of them when none do. */
  function Opening(words: seq<string>, n: nat): (r: nat)
    requires n <= |words|
    ensures r <= |words|
    decreases |words| - n
  {
    if n == |words| then n
    else if n > 0 && |Joined(words[..n])| >= QUOTE_PART_MIN then n
    else Opening(words, n + 1)
  }

  /** The opening is the shortest beginning of twenty characters, or all the words when none has so many. */
  lemma {:induction false} OpeningExact(words: seq<string>, n: nat, m: nat)
    requires n <= |words|
    ensures var r := Opening(words, n);
            && n <= r && (r == |words| || |Joined(words[..r])| >= 20)
            && (n <= m < r ==> |Joined(words[..m])| < 20)
    decreases |words| - n
  {
    if n < |words| && !(n > 0 && |Joined(words[..n])| >= QUOTE_PART_MIN) {
      OpeningExact(words, n + 1, m);
    }
  }

  ghost predicate InOrder(words: seq<string>, text: string) {
    exists start :: 0 <= start <= |text| && AcceptsAt(words, text, start)
  }

  predicate AcceptsAt(words: seq<string>, text: string, start: nat) {
    Occurs(text, Joined(words[..Opening(words, 0)]), start) && Accepts(words, text, 0, start, 0)
  }

  // ------------------------------------------------------------------ the code

  /** The loop of `rest` over ever shorter next pieces. */
  method Longest(words: seq<string>, text: string, i: nat, at: nat) returns (next: Option<(nat, nat)>)
    requires i <= |words|
    ensures next == LongestPiece(words, text, i, |words|, at)
  {
    var j := |words|;
    while j > i
      invariant i <= j <= |words|
      invariant LongestPiece(words, text, i, |words|, at) == LongestPiece(words, text, i, j, at)
    {
      var piece := Joined(words[i..j]);
      if |piece| < QUOTE_PART_MIN {
        return None;
      }
      var k := FindIn(text, piece, at, at + QUOTE_GAP);
      if k.Some? {
        return Some((j, k.value));
      }
      j := j - 1;
    }
    return None;
  }

  /** `rest`. */
  method Rest(words: seq<string>, text: string, i: nat, at: nat, parts: nat) returns (ok: bool)
    requires i <= |words|
    ensures ok == Accepts(words, text, i, at, parts)
    decreases |words| - i
  {
    if i == |words| {
      return true;
    }
    if parts >= QUOTE_PARTS {
      return false;
    }
    var next := Longest(words, text, i, at);
    if next.None? {
      return false;
    }
    var (j, k) := next.value;
    ok := Rest(words, text, j, k + |Joined(words[i..j])|, parts + 1);
  }

  /** No start before `upTo` is one the words are accepted at. */
  ghost predicate NoneBefore(words: seq<string>, text: string, upTo: nat) {
    forall s: nat :: s < upTo ==> !AcceptsAt(words, text, s)
  }

  /** The first place of the opening, from `from` on. */
  ghost predicate NextStart(words: seq<string>, text: string, from: nat, start: Option<nat>) {
    start == FindIn(text, Joined(words[..Opening(words, 0)]), from, |text|)
  }

  lemma NoneUpToNext(words: seq<string>, text: string, from: nat, start: Option<nat>)
    requires NoneBefore(words, text, from) && NextStart(words, text, from, start)
    ensures NoneBefore(words, text, if start.Some? then start.value else |text| + 1)
    ensures start.Some? ==> from <= start.value <= |text| && Occurs(text, Joined(words[..Opening(words, 0)]), start.value)
  {
    forall s: nat | s < (if start.Some? then start.value else |text| + 1) ensures !AcceptsAt(words, text, s) {
      assert s < from || !Occurs(text, Joined(words[..Opening(words, 0)]), s);
    }
  }

  lemma FoundHere(words: seq<string>, text: string, start: nat)
    requires start <= |text| && Occurs(text, Joined(words[..Opening(words, 0)]), start) && Accepts(words, text, 0, start, 0)
    ensures InOrder(words, text)
  {
    assert AcceptsAt(words, text, start);
  }

  lemma NotHere(words: seq<string>, text: string, start: nat)
    requires NoneBefore(words, text, start) && !Accepts(words, text, 0, start, 0)
    ensures NoneBefore(words, text, start + 1)
  {
    assert !AcceptsAt(words, text, start);
  }

  /** `_in_order`. */
  method FindInOrder(words: seq<string>, text: string) returns (ok: bool)
    ensures ok == InOrder(words, text)
  {
    var first := Joined(words[..Opening(words, 0)]);
    var from := 0;
    var start := FindIn(text, first, 0, |text|);
    NoneUpToNext(words, text, 0, start);
    while start.Some?
      invariant from <= |text| + 1 && (start.Some? ==> from <= start.value <= |text| && Occurs(text, first, start.value))
      invariant NoneBefore(words, text, if start.Some? then start.value else |text| + 1)
      decreases |text| + 1 - from, start.Some?
    {
      var found := Rest(words, text, 0, start.value, 0);
      if found {
        FoundHere(words, text, start.value);
        return true;
      }
      NotHere(words, text, start.value);
      from := start.value + 1;
      start := FindIn(text, first, from, |text|);
      NoneUpToNext(words, text, from, start);
    }
    NeverIn(words, text);
    return false;
  }

  lemma NeverIn(words: seq<string>, text: string)
    requires NoneBefore(words, text, |text| + 1)
    ensures !InOrder(words, text)
  {
  }

  /** `quote_found`, of the normalised quote `Joined(words)`. */
  method QuoteFound(words: seq<string>, text: string) returns (ok: bool)
    ensures ok <==> Joined(words) != "" && (OccursIn(text, Joined(words))
                    || (|Joined(words)| >= 100 && OccursIn(text, Joined(words)[..100])) || InOrder(words, text))
  {
    var q := Joined(words);
    if q == "" {
      return false;
    }
    if FindIn(text, q, 0, |text|).Some? {
      return true;
    }
    if |q| >= 100 && FindIn(text, q[..100], 0, |text|).Some? {
      return true;
    }
    ok := FindInOrder(words, text);
  }

  ghost predicate OccursIn(text: string, piece: string) {
    exists k :: 0 <= k <= |text| && Occurs(text, piece, k)
  }

  // ------------------------------------------------------------------ soundness

  /** One piece of a split: its words `from..upTo` and the place in the document. */
  datatype Piece = Piece(from: nat, upTo: nat, at: nat)

  /** The pieces are the words from `i` on, consecutive and in the document's order from `at` on. */
  ghost predicate Splits(words: seq<string>, text: string, i: nat, at: nat, pieces: seq<Piece>)
    decreases |pieces|
  {
    if pieces == [] then i == |words|
    else
      var p := pieces[0];
      && p.from == i
      && IsPiece(words, text, i, p.upTo, at, p.at)
      && Splits(words, text, p.upTo, p.at + |Joined(words[i..p.upTo])|, pieces[1..])
  }

  lemma {:induction false} AcceptedIsSplit(words: seq<string>, text: string, i: nat, at: nat, parts: nat) returns (pieces: seq<Piece>)
    requires i <= |words| && parts <= QUOTE_PARTS && Accepts(words, text, i, at, parts)
    ensures Splits(words, text, i, at, pieces) && Greedy(words, text, at, pieces) && |pieces| <= QUOTE_PARTS - parts
    decreases |words| - i
  {
    if i == |words| {
      pieces := [];
    } else {
      var p := AcceptedPiece(words, text, i, at, parts);
      var rest := AcceptedIsSplit(words, text, p.upTo, p.at + |Joined(words[i..p.upTo])|, parts + 1);
      pieces := [p] + rest;
      PieceFirst(words, text, i, at, p, rest);
    }
  }

  lemma PieceFirst(words: seq<string>, text: string, i: nat, at: nat, p: Piece, rest: seq<Piece>)
    requires p.from == i && IsPiece(words, text, i, p.upTo, at, p.at) && Foremost(words, text, p, at)
    requires Splits(words, text, p.upTo, p.at + |Joined(words[i..p.upTo])|, rest)
    requires Greedy(words, text, p.at + |Joined(words[i..p.upTo])|, rest)
    ensures Splits(words, text, i, at, [p] + rest) && Greedy(words, text, at, [p] + rest)
  {
    assert ([p] + rest)[0] == p && ([p] + rest)[1..] == rest;
  }

  lemma AcceptedPiece(words: seq<string>, text: string, i: nat, at: nat, parts: nat) returns (p: Piece)
    requires i < |words| && Accepts(words, text, i, at, parts)
    ensures parts < QUOTE_PARTS && p.from == i && IsPiece(words, text, i, p.upTo, at, p.at) && Foremost(words, text, p, at)
    ensures Accepts(words, text, p.upTo, p.at + |Joined(words[i..p.upTo])|, parts + 1)
  {
    LongestMeans(words, text, i, |words|, at, 0);
    var (j, k) := LongestPiece(words, text, i, |words|, at).value;
    TakenIsForemost(words, text, i, at, j, k);
    p := Piece(i, j, k);
  }

  /** Whatever is accepted is the document's text: the quote's words are at most three pieces of twenty
      characters or more, in order, each at most 160 characters after the end of the one before. */
  lemma AcceptedIsTheText(words: seq<string>, text: string) returns (start: nat, pieces: seq<Piece>)
    requires InOrder(words, text)
    ensures start <= |text| && Splits(words, text, 0, start, pieces) && |pieces| <= 3
  {
    start :| 0 <= start <= |text| && AcceptsAt(words, text, start);
    pieces := AcceptedIsSplit(words, text, 0, start, 0);
  }

  // ------------------------------------------------------------------ exactly which splits are found

  /** The piece occurs within the gap after `at`. */
  ghost predicate Near(text: string, piece: string, at: nat) {
    exists k :: at <= k <= at + QUOTE_GAP && Occurs(text, piece, k)
  }

  /** No longer piece from the same word occurs in the gap, and the piece stands at its first place there. */
  ghost predicate Foremost(words: seq<string>, text: string, p: Piece, at: nat)
    requires p.from <= p.upTo <= |words|
  {
    && (forall m :: p.upTo < m <= |words| ==> !Near(text, Joined(words[p.from..m]), at))
    && (forall k :: at <= k < p.at ==> !Occurs(text, Joined(words[p.from..p.upTo]), k))
  }

  /** Every piece, from `at` on, is the foremost. */
  ghost predicate Greedy(words: seq<string>, text: string, at: nat, pieces: seq<Piece>)
    decreases |pieces|
  {
    pieces == []
    || (var p := pieces[0];
        && p.from <= p.upTo <= |words|
        && Foremost(words, text, p, at)
        && Greedy(words, text, p.at + |Joined(words[p.from..p.upTo])|, pieces[1..]))
  }

  lemma LongerTooLong(words: seq<string>, i: nat, j: nat, m: nat)
    requires i <= j <= m <= |words|
    ensures |Joined(words[i..j])| <= |Joined(words[i..m])|
  {
    JoinedPrefix(words[i..m], j - i);
    assert words[i..m][..j - i] == words[i..j];
  }

  /** A foremost piece is the one the search takes. */
  lemma {:induction false} ForemostIsTaken(words: seq<string>, text: string, p: Piece, at: nat, upTo: nat)
    requires p.upTo <= upTo <= |words| && IsPiece(words, text, p.from, p.upTo, at, p.at) && Foremost(words, text, p, at)
    ensures LongestPiece(words, text, p.from, upTo, at) == Some((p.upTo, p.at))
    decreases upTo
  {
    LongerTooLong(words, p.from, p.upTo, upTo);
    if upTo == p.upTo {
    } else {
      assert !Near(text, Joined(words[p.from..upTo]), at);
      ForemostIsTaken(words, text, p, at, upTo - 1);
    }
  }

  lemma TakenIsForemost(words: seq<string>, text: string, i: nat, at: nat, j: nat, k: nat)
    requires i < |words| && LongestPiece(words, text, i, |words|, at) == Some((j, k))
    ensures Foremost(words, text, Piece(i, j, k), at)
  {
    forall m | j < m <= |words| ensures !Near(text, Joined(words[i..m]), at) {
      LongestMeans(words, text, i, |words|, at, m);
    }
    forall m | at <= m < k ensures !Occurs(text, Joined(words[i..j]), m) {
      LongestMeans(words, text, i, |words|, at, m);
    }
  }

  /** A greedy split in the parts that are left is accepted. */
  lemma {:induction false} GreedyIsAccepted(words: seq<string>, text: string, i: nat, at: nat, parts: nat, pieces: seq<Piece>)
    requires i <= |words| && parts + |pieces| <= QUOTE_PARTS
    requires Splits(words, text, i, at, pieces) && Greedy(words, text, at, pieces)
    ensures Accepts(words, text, i, at, parts)
    decreases |pieces|
  {
    if pieces != [] {
      var p := pieces[0];
      ForemostIsTaken(words, text, p, at, |words|);
      GreedyIsAccepted(words, text, p.upTo, p.at + |Joined(words[i..p.upTo])|, parts + 1, pieces[1..]);
    }
  }

  /** The quote's opening stands at `start`, and its words split from there on into a few pieces, each the foremost. */
  ghost predicate GreedySplit(words: seq<string>, text: string, start: nat, pieces: seq<Piece>) {
    && start <= |text| && Occurs(text, Joined(words[..Opening(words, 0)]), start)
    && Splits(words, text, 0, start, pieces) && |pieces| <= 3
    && Greedy(words, text, start, pieces)
  }

  /** Exactly the quotes with such a split are found: of the splits that make a quote the document's text, the one
      whose every piece is the longest in its gap, at its first place. */
  lemma InOrderExact(words: seq<string>, text: string)
    ensures InOrder(words, text) <==> exists start: nat, pieces :: GreedySplit(words, text, start, pieces)
  {
    if InOrder(words, text) {
      var start :| 0 <= start <= |text| && AcceptsAt(words, text, start);
      var pieces := AcceptedIsSplit(words, text, 0, start, 0);
      assert GreedySplit(words, text, start, pieces);
    }
    if start: nat, pieces :| GreedySplit(words, text, start, pieces) {
      GreedyIsAccepted(words, text, 0, start, 0, pieces);
      assert AcceptsAt(words, text, start);
    }
  }

  // ------------------------------------------------------------------ a quote that stands as it is

  lemma {:induction false} JoinedPrefix(words: seq<string>, n: nat)
    requires n <= |words|
    ensures Joined(words[..n]) <= Joined(words)
    decreases |words| - n
  {
    if n == |words| {
      assert words[..n] == words;
    } else {
      var init := words[..|words| - 1];
      JoinedPrefix(init, n);
      assert init[..n] == words[..n];
    }
  }

  /** A quote that occurs as it is, is found in order exactly when it has twenty characters. */
  lemma ContiguousExact(words: seq<string>, text: string)
    requires words != [] && OccursIn(text, Joined(words))
    ensures InOrder(words, text) <==> |Joined(words)| >= QUOTE_PART_MIN
  {
    if |Joined(words)| >= QUOTE_PART_MIN {
      var k :| 0 <= k <= |text| && Occurs(text, Joined(words), k);
      ContiguousAccepted(words, text, k);
    } else {
      forall start | 0 <= start <= |text| ensures !AcceptsAt(words, text, start) {
        TooShort(words, text, start);
      }
    }
  }

  lemma ContiguousAccepted(words: seq<string>, text: string, k: nat)
    requires words != [] && Occurs(text, Joined(words), k) && |Joined(words)| >= QUOTE_PART_MIN
    ensures AcceptsAt(words, text, k)
  {
    JoinedPrefix(words, Opening(words, 0));
    PrefixOccurs(text, Joined(words), Joined(words[..Opening(words, 0)]), k);
    assert words[0..|words|] == words;
    assert FindIn(text, Joined(words), k, k + QUOTE_GAP) == Some(k);
    assert LongestPiece(words, text, 0, |words|, k) == Some((|words|, k));
  }

  lemma PrefixOccurs(text: string, piece: string, prefix: string, k: nat)
    requires Occurs(text, piece, k) && prefix <= piece
    ensures Occurs(text, prefix, k)
  {
  }

  lemma TooShort(words: seq<string>, text: string, start: nat)
    requires words != [] && |Joined(words)| < QUOTE_PART_MIN
    ensures !Accepts(words, text, 0, start, 0)
  {
    assert words[0..|words|] == words;
  }

  // ------------------------------------------------------------------ a split that is not found

  /** Twenty times one letter. */
  function Word(c: char): string {
    seq(20, _ => c)
  }

  /** "A z B C z A B", written without the spaces around z. */
  function Example(): string {
    Word('a') + "z" + Word('b') + " " + Word('c') + "z" + Word('a') + " " + Word('b')
  }

  function ExampleAt(i: nat): char {
    if i < 20 then 'a' else if i == 20 then 'z' else if i < 41 then 'b' else if i == 41 then ' '
    else if i < 62 then 'c' else if i == 62 then 'z' else if i < 83 then 'a' else if i == 83 then ' ' else 'b'
  }

  lemma ExampleLetters()
    ensures |Example()| == 104 && forall i :: 0 <= i < 104 ==> Example()[i] == ExampleAt(i)
  {
  }

  lemma ExampleWords()
    ensures var words := [Word('a'), Word('b'), Word('c')];
            && Joined(words) == Word('a') + " " + Word('b') + " " + Word('c')
            && Joined(words[0..2]) == Word('a') + " " + Word('b') && Joined(words[1..3]) == Word('b') + " " + Word('c')
            && Joined(words[0..1]) == Word('a') && Joined(words[2..3]) == Word('c')
  {
  }

  /** The split that is there: the first word, then the other two together. */
  lemma ExampleSplits()
    ensures var words := [Word('a'), Word('b'), Word('c')];
            Splits(words, Example(), 0, 0, [Piece(0, 1, 0), Piece(1, 3, 21)])
  {
  }

  lemma PairNotTriple(k: nat)
    ensures !Occurs(Example(), Word('a') + " " + Word('b') + " " + Word('c'), k)
  {
    ExampleLetters();
    var abc := Word('a') + " " + Word('b') + " " + Word('c');
    assert |abc| == 62 && abc[20] == abc[41] == ' ';
    if k + 62 <= 104 {
      SameLetters(Example(), abc, k);
    }
  }

  lemma SameLetters(text: string, piece: string, k: nat)
    ensures Occurs(text, piece, k) ==> forall m :: 0 <= m < |piece| ==> text[k + m] == piece[m]
  {
  }

  /** Its two spaces are at 41 and 83, so the first two words stand together only at 63. */
  lemma ExamplePairs(k: nat)
    ensures Occurs(Example(), Word('a') + " " + Word('b'), k) <==> k == 63
    ensures !Occurs(Example(), Word('a') + " " + Word('b') + " " + Word('c'), k)
    ensures Occurs(Example(), Word('c'), k) ==> k < 63
    ensures Occurs(Example(), Word('a'), k) ==> k == 0 || k == 63
  {
    ExampleLetters();
    var text := Example();
    var ab := Word('a') + " " + Word('b');
    if Occurs(text, ab, k) {
      assert text[k + 20] == ab[20] == ' ' && text[k] == ab[0] == 'a';
    }
    assert text[63..104] == ab;
    PairNotTriple(k);
    if Occurs(text, Word('c'), k) {
      assert text[k] == Word('c')[0];
    }
    if Occurs(text, Word('a'), k) {
      assert text[k] == Word('a')[0] && text[k + 19] == Word('a')[19];
    }
  }

  lemma ExampleRejected(start: nat)
    ensures var words := [Word('a'), Word('b'), Word('c')];
            start <= 63 ==> !Accepts(words, Example(), 0, start, 0)
  {
    var words := [Word('a'), Word('b'), Word('c')];
    var text := Example();
    ExampleWords();
    assert words[0..3] == words;
    if start <= 63 {
      forall k { ExamplePairs(k); }
      assert FindIn(text, Joined(words), start, start + QUOTE_GAP) == None;
      assert Occurs(text, Joined(words[0..2]), 63);
      assert FindIn(text, Joined(words[0..2]), start, start + QUOTE_GAP) == Some(63);
      assert LongestPiece(words, text, 0, 3, start) == LongestPiece(words, text, 0, 2, start) == Some((2, 63));
      assert FindIn(text, Joined(words[2..3]), 104, 104 + QUOTE_GAP) == None;
      assert LongestPiece(words, text, 2, 3, 104) == LongestPiece(words, text, 2, 2, 104) == None;
      assert !Accepts(words, text, 2, 104, 1);
    }
  }

  /** Not every such split is found: the longest next piece is taken where it first occurs, and never a
      shorter or a later one, so a quote whose parts are in the document can be refused. */
  lemma SplitCanBeRefused()
    ensures var words := [Word('a'), Word('b'), Word('c')];
            && Splits(words, Example(), 0, 0, [Piece(0, 1, 0), Piece(1, 3, 21)])
            && !InOrder(words, Example())
  {
    var words := [Word('a'), Word('b'), Word('c')];
    ExampleSplits();
    ExampleWords();
    assert words[..1] == words[0..1] && Opening(words, 0) == Opening(words, 1) == 1;
    forall start | 0 <= start <= |Example()| ensures !AcceptsAt(words, Example(), start) {
      ExamplePairs(start);
      ExampleRejected(start);
    }
  }
}
