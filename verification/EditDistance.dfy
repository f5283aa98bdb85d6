/**
  Comparing registration numbers (backend/dgate/awards.py, `_distance`, `_kind`, `numbers_conflict`).

  Letters and digits are those of a normalised number: '0'..'9' and 'A'..'Z'.
 */
module EditDistance {

  // ------------------------------------------------------------------ the recursive distance

  function Differ(x: char, y: char): nat {
    if x == y then 0 else 1
  }

  function Min(x: nat, y: nat): nat {
    if x < y then x else y
  }

  function Init(s: string): string
    requires s != []
  {
    s[..|s| - 1]
  }

  function Last(s: string): char
    requires s != []
  {
    s[|s| - 1]
  }

  /** The edit distance by its recursion on the last letters. */
  function Distance(a: string, b: string): nat
    decreases |a| + |b|
  {
    if a == [] then |b|
    else if b == [] then |a|
    else Min(Min(Distance(Init(a), b) + 1, Distance(a, Init(b)) + 1), Distance(Init(a), Init(b)) + Differ(Last(a), Last(b)))
  }

  // ------------------------------------------------------------------ the code: one row, overwritten

  /** The distance of the first `i` letters of `a` from the first `j` of `b`. */
  ghost function At(a: string, b: string, i: nat, j: nat): nat
    requires i <= |a| && j <= |b|
  {
    Distance(a[..i], b[..j])
  }

  lemma Borders(a: string, b: string, i: nat, j: nat)
    requires i <= |a| && j <= |b|
    ensures At(a, b, i, 0) == i && At(a, b, 0, j) == j
  {
  }

  lemma Inner(a: string, b: string, i: nat, j: nat)
    requires 1 <= i <= |a| && 1 <= j <= |b|
    ensures At(a, b, i, j)
            == Min(Min(At(a, b, i - 1, j) + 1, At(a, b, i, j - 1) + 1), At(a, b, i - 1, j - 1) + Differ(a[i - 1], b[j - 1]))
  {
    assert Init(a[..i]) == a[..i - 1] && Init(b[..j]) == b[..j - 1];
  }

  /** The new value of a cell from its old value, its left neighbour and the old left neighbour. */
  function Cell(above: nat, left: nat, corner: nat, x: char, y: char): nat {
    Min(Min(above + 1, left + 1), corner + Differ(x, y))
  }

  /** `_distance`. */
  method ComputeDistance(a: string, b: string) returns (d: nat)
    ensures d == Distance(a, b)
  {
    var row := new nat[|b| + 1](k => k);
    forall k | 0 <= k <= |b| ensures row[k] == At(a, b, 0, k) {
      Borders(a, b, 0, k);
    }
    for i := 1 to |a| + 1
      invariant forall k :: 0 <= k <= |b| ==> row[k] == At(a, b, i - 1, k)
    {
      OverwriteRow(row, a, b, i);
    }
    assert a[..|a|] == a && b[..|b|] == b;
    d := row[|b|];
  }

  /** The inner loop: the row of `i - 1` letters becomes the row of `i`. */
  method OverwriteRow(row: array<nat>, a: string, b: string, i: nat)
    requires 1 <= i <= |a| && row.Length == |b| + 1
    requires forall k :: 0 <= k <= |b| ==> row[k] == At(a, b, i - 1, k)
    modifies row
    ensures forall k :: 0 <= k <= |b| ==> row[k] == At(a, b, i, k)
  {
    Borders(a, b, i, 0);
    var prev := row[0];
    row[0] := i;
    for j := 1 to |b| + 1
      invariant prev == At(a, b, i - 1, j - 1)
      invariant forall k :: 0 <= k < j ==> row[k] == At(a, b, i, k)
      invariant forall k :: j <= k <= |b| ==> row[k] == At(a, b, i - 1, k)
    {
      Inner(a, b, i, j);
      var above := row[j];
      row[j] := Cell(above, row[j - 1], prev, a[i - 1], b[j - 1]);
      prev := above;
    }
  }

  // ------------------------------------------------------------------ what the distance is

  /** An edit script, letter by letter. */
  datatype Edit = Keep(x: char) | Replace(x: char, y: char) | Delete(x: char) | Insert(y: char)

  function Source(script: seq<Edit>): string {
    if script == [] then [] else Source(script[..|script| - 1]) + EditSource(script[|script| - 1])
  }

  function Target(script: seq<Edit>): string {
    if script == [] then [] else Target(script[..|script| - 1]) + EditTarget(script[|script| - 1])
  }

  function Cost(script: seq<Edit>): nat {
    if script == [] then 0 else Cost(script[..|script| - 1]) + EditCost(script[|script| - 1])
  }

  function EditSource(e: Edit): string {
    if e.Insert? then [] else [e.x]
  }

  function EditTarget(e: Edit): string {
    match e
    case Keep(x) => [x]
    case Replace(_, y) => [y]
    case Insert(y) => [y]
    case Delete(_) => []
  }

  function EditCost(e: Edit): nat {
    if e.Keep? then 0 else 1
  }

  /** One more edit at the end adds at most its cost. */
  lemma OneMoreEdit(a: string, b: string, e: Edit)
    ensures Distance(a + EditSource(e), b + EditTarget(e)) <= Distance(a, b) + EditCost(e)
  {
    match e {
      case Keep(x) => LastLetters(a, x, b, x);
      case Replace(x, y) => LastLetters(a, x, b, y);
      case Delete(x) =>
        assert b + [] == b;
        OneMore(a, b, x);
      case Insert(y) =>
        assert a + [] == a;
        OneMore(b, a, y);
        Symmetric(a, b);
        Symmetric(a, b + [y]);
    }
  }

  /** No script turns one string into the other more cheaply. */
  lemma {:induction false} NoScriptIsCheaper(script: seq<Edit>)
    ensures Distance(Source(script), Target(script)) <= Cost(script)
  {
    if script != [] {
      var rest, e := script[..|script| - 1], script[|script| - 1];
      NoScriptIsCheaper(rest);
      OneMoreEdit(Source(rest), Target(rest), e);
    }
  }

  lemma LastLetters(a: string, x: char, b: string, y: char)
    ensures Distance(a + [x], b + [y]) <= Distance(a, b) + Differ(x, y)
  {
  }

  lemma OneMore(a: string, b: string, x: char)
    ensures Distance(a + [x], b) <= Distance(a, b) + 1
  {
    assert Init(a + [x]) == a;
    if b == [] {
      EmptyRight(a);
    }
  }

  lemma EmptyRight(a: string)
    ensures Distance(a, []) == |a|
  {
  }

  lemma ExtendScript(script: seq<Edit>, e: Edit)
    ensures Cost(script + [e]) == Cost(script) + EditCost(e)
    ensures Source(script + [e]) == Source(script) + EditSource(e)
    ensures Target(script + [e]) == Target(script) + EditTarget(e)
  {
  }

  lemma Ended(a: string)
    requires a != []
    ensures a == Init(a) + [Last(a)] && |Init(a)| < |a|
  {
  }

  /** How the distance of two strings that end in a letter comes from shorter ones. */
  lemma DistanceSteps(a: string, b: string)
    requires a != [] && b != []
    ensures || Distance(a, b) == Distance(Init(a), b) + 1
            || Distance(a, b) == Distance(a, Init(b)) + 1
            || Distance(a, b) == Distance(Init(a), Init(b)) + Differ(Last(a), Last(b))
  {
  }

  /** The last edit of a cheapest script, and what it leaves to be done. */
  lemma LastEdit(a: string, b: string) returns (e: Edit, c: string, d: string)
    requires a != [] || b != []
    ensures a == c + EditSource(e) && b == d + EditTarget(e)
    ensures Distance(a, b) == Distance(c, d) + EditCost(e) && |c| + |d| < |a| + |b|
  {
    if b == [] {
      Ended(a);
      EmptyRight(Init(a));
      EmptyRight(a);
      e, c, d := Delete(Last(a)), Init(a), b;
    } else if a == [] {
      Ended(b);
      e, c, d := Insert(Last(b)), a, Init(b);
    } else {
      e, c, d := LastOfBoth(a, b);
    }
  }

  lemma LastOfBoth(a: string, b: string) returns (e: Edit, c: string, d: string)
    requires a != [] && b != []
    ensures a == c + EditSource(e) && b == d + EditTarget(e)
    ensures Distance(a, b) == Distance(c, d) + EditCost(e) && |c| + |d| < |a| + |b|
  {
    Ended(a);
    Ended(b);
    DistanceSteps(a, b);
    if Distance(a, b) == Distance(Init(a), b) + 1 {
      e, c, d := Delete(Last(a)), Init(a), b;
    } else if Distance(a, b) == Distance(a, Init(b)) + 1 {
      e, c, d := Insert(Last(b)), a, Init(b);
    } else {
      e, c, d := if Last(a) == Last(b) then Keep(Last(a)) else Replace(Last(a), Last(b)), Init(a), Init(b);
    }
  }

  /** And one script costs exactly the distance. */
  lemma {:induction false} CheapestScript(a: string, b: string) returns (script: seq<Edit>)
    ensures Source(script) == a && Target(script) == b && Cost(script) == Distance(a, b)
    decreases |a| + |b|
  {
    if a == [] && b == [] {
      script := [];
    } else {
      var e, c, d := LastEdit(a, b);
      var rest := CheapestScript(c, d);
      script := rest + [e];
      ExtendScript(rest, e);
    }
  }

  // ------------------------------------------------------------------ a metric

  lemma {:induction false} Symmetric(a: string, b: string)
    ensures Distance(a, b) == Distance(b, a)
    decreases |a| + |b|
  {
    if a == [] {
      EmptyRight(b);
    } else if b == [] {
      EmptyRight(a);
    } else {
      Symmetric(Init(a), b);
      Symmetric(a, Init(b));
      Symmetric(Init(a), Init(b));
    }
  }

  lemma {:induction false} LengthBounds(a: string, b: string)
    ensures |a| - |b| <= Distance(a, b) && |b| - |a| <= Distance(a, b)
    ensures Distance(a, b) <= |a| + |b|
    decreases |a| + |b|
  {
    if a != [] && b != [] {
      LengthBounds(Init(a), b);
      LengthBounds(a, Init(b));
      LengthBounds(Init(a), Init(b));
    }
  }

  lemma {:induction false} ZeroMeansEqual(a: string, b: string)
    ensures Distance(a, b) == 0 <==> a == b
    decreases |a| + |b|
  {
    if a != [] && b != [] {
      ZeroMeansEqual(Init(a), Init(b));
      assert a == Init(a) + [Last(a)] && b == Init(b) + [Last(b)];
    }
  }

  lemma DistanceAtMost(a: string, b: string)
    requires a != [] && b != []
    ensures Distance(a, b) <= Distance(Init(a), b) + 1
    ensures Distance(a, b) <= Distance(a, Init(b)) + 1
    ensures Distance(a, b) <= Distance(Init(a), Init(b)) + Differ(Last(a), Last(b))
  {
  }

  lemma {:induction false} Triangle(a: string, b: string, c: string)
    ensures Distance(a, c) <= Distance(a, b) + Distance(b, c)
    decreases |a| + |b| + |c|
  {
    if a == [] || b == [] || c == [] {
      LengthBounds(a, b);
      LengthBounds(b, c);
      LengthBounds(a, c);
      EmptyRight(a);
      EmptyRight(b);
    } else {
      Triangle(Init(a), b, c);
      Triangle(a, b, Init(c));
      Triangle(a, Init(b), c);
      Triangle(a, Init(b), Init(c));
      Triangle(Init(a), Init(b), c);
      Triangle(Init(a), Init(b), Init(c));
      DistanceSteps(a, b);
      DistanceSteps(b, c);
      DistanceAtMost(a, c);
    }
  }

  // ------------------------------------------------------------------ numbers that conflict

  predicate IsDigit(c: char) {
    '0' <= c <= '9'
  }

  predicate AllDigits(s: string) {
    s != [] && forall i :: 0 <= i < |s| ==> IsDigit(s[i])
  }

  /** `lstrip("0")`. */
  function Stripped(s: string): string {
    if s != [] && s[0] == '0' then Stripped(s[1..]) else s
  }

  function Letters(s: string): string {
    if s != [] && 'A' <= s[0] <= 'Z' then [s[0]] + Letters(s[1..]) else []
  }

  datatype Kind = Digits(length: nat) | Prefix(letters: string)

  /** `_kind`. */
  function KindOf(number: string): Kind {
    if AllDigits(number) then Digits(|Stripped(number)|) else Prefix(Letters(number))
  }

  /** `numbers_conflict`. */
  predicate NumbersConflict(a: string, b: string) {
    var za, zb := Stripped(a), Stripped(b);
    if za == zb || zb <= za || za <= zb then false
    else KindOf(a) == KindOf(b) && Distance(a, b) >= 2
  }

  lemma ConflictIsSymmetric(a: string, b: string)
    ensures NumbersConflict(a, b) == NumbersConflict(b, a)
    ensures !NumbersConflict(a, a)
    ensures Stripped(a) <= Stripped(b) ==> !NumbersConflict(a, b)
  {
    Symmetric(a, b);
  }

  /** A number of digits only. */
  predicate Numeral(s: string) {
    |s| > 0 && forall i :: 0 <= i < |s| ==> s[i] in {'0', '1', '2', '3', '4', '5', '6', '7', '8', '9'}
  }

  /** Two numbers conflict exactly when neither begins the other without its leading zeros, they are two edits apart, and
      they are of one kind: both numerals of as many significant digits, or neither a numeral and both with the same
      letters in front. */
  lemma ConflictExact(a: string, b: string)
    ensures NumbersConflict(a, b)
            <==> !(Stripped(a) <= Stripped(b)) && !(Stripped(b) <= Stripped(a)) && Distance(a, b) >= 2
                 && (if Numeral(a) then Numeral(b) && |Stripped(a)| == |Stripped(b)|
                     else !Numeral(b) && Letters(a) == Letters(b))
  {
    NumeralExact(a);
    NumeralExact(b);
  }

  lemma NumeralExact(s: string)
    ensures Numeral(s) <==> AllDigits(s)
  {
    forall i | 0 <= i < |s| ensures IsDigit(s[i]) <==> s[i] in {'0', '1', '2', '3', '4', '5', '6', '7', '8', '9'} {
    }
  }

  /** The letters are those in front of the first other character. */
  lemma {:induction false} LettersExact(s: string)
    ensures Letters(s) <= s && (forall i :: 0 <= i < |Letters(s)| ==> 'A' <= s[i] <= 'Z')
    ensures |Letters(s)| < |s| ==> !('A' <= s[|Letters(s)|] <= 'Z')
  {
    if s != [] && 'A' <= s[0] <= 'Z' {
      LettersExact(s[1..]);
    }
  }

  function Zeros(n: nat): string {
    seq(n, _ => '0')
  }

  /** A common beginning does not count towards the distance. */
  lemma {:induction false} CommonBeginning(p: string, a: string, b: string)
    ensures Distance(p + a, p + b) == Distance(a, b)
    decreases |a| + |b|
  {
    if a == [] {
      assert p + a == p;
      Prefixed(p, b);
    } else if b == [] {
      assert p + b == p;
      Prefixed(p, a);
      Symmetric(p, p + a);
    } else {
      assert Init(p + a) == p + Init(a) && Init(p + b) == p + Init(b);
      CommonBeginning(p, Init(a), b);
      CommonBeginning(p, a, Init(b));
      CommonBeginning(p, Init(a), Init(b));
    }
  }

  lemma {:induction false} Prefixed(p: string, b: string)
    ensures Distance(p, p + b) == |b|
  {
    LengthBounds(p, p + b);
    if b == [] {
      assert p + b == p;
      ZeroMeansEqual(p, p);
    } else {
      assert Init(p + b) == p + Init(b);
      Prefixed(p, Init(b));
    }
  }

  ghost predicate WithoutOne(a: string, k: nat, b: string) {
    k < |a| && a[..k] + a[k + 1..] == b
  }

  lemma LongerByLast(a: string, b: string, k: nat)
    requires a != [] && b != [] && Last(a) == Last(b) && WithoutOne(Init(a), k, Init(b))
    ensures WithoutOne(a, k, b)
  {
  }

  /** Deleting one letter from `a` gives `b` when `a` is one longer and their distance is one. */
  lemma {:induction false} OneLonger(a: string, b: string) returns (k: nat)
    requires |a| == |b| + 1 && Distance(a, b) == 1
    ensures WithoutOne(a, k, b)
    decreases |a|
  {
    if b == [] || Distance(a, b) == Distance(Init(a), b) + 1 {
      ZeroMeansEqual(Init(a), b);
      Ended(a);
      k := |a| - 1;
    } else {
      DistanceSteps(a, b);
      LengthBounds(a, Init(b));
      ZeroMeansEqual(Init(a), Init(b));
      k := OneLonger(Init(a), Init(b));
      LongerByLast(a, b, k);
    }
  }

  /** Put in front of a number that starts with no zero, zeros are never one letter's difference from another
      number of its length. */
  lemma PaddingIsFar(zeros: nat, x: string, y: string)
    requires zeros > 0 && |x| == |y| && x != y && (y == [] || y[0] != '0')
    ensures Distance(Zeros(zeros) + x, y) >= 2
  {
    var a := Zeros(zeros) + x;
    LengthBounds(a, y);
    if zeros == 1 && Distance(a, y) == 1 {
      var k := OneLonger(a, y);
      ShorterByOne(a, x, y, k);
    }
  }

  lemma ShorterByOne(a: string, x: string, y: string, k: nat)
    requires a == Zeros(1) + x && k < |a| && a[..k] + a[k + 1..] == y && (y == [] || y[0] != '0')
    ensures x == y
  {
  }

  /** How many zeros are in front. */
  function Padding(s: string): nat {
    if s != [] && s[0] == '0' then 1 + Padding(s[1..]) else 0
  }

  lemma {:induction false} PaddedIs(s: string)
    ensures s == Zeros(Padding(s)) + Stripped(s)
    ensures Stripped(s) != [] ==> Stripped(s)[0] != '0'
  {
    if s != [] && s[0] == '0' {
      PaddedIs(s[1..]);
      assert Zeros(Padding(s)) == ['0'] + Zeros(Padding(s[1..]));
    }
  }

  lemma ZerosSplit(m: nat, n: nat, x: string)
    requires m >= n
    ensures Zeros(m) + x == Zeros(n) + (Zeros(m - n) + x)
  {
  }

  /** The zeros that both numbers begin with do not count. */
  lemma SharedPadding(a: string, b: string)
    requires Padding(a) >= Padding(b)
    ensures Distance(a, b) == Distance(Zeros(Padding(a) - Padding(b)) + Stripped(a), Stripped(b))
  {
    PaddedIs(a);
    PaddedIs(b);
    ZerosSplit(Padding(a), Padding(b), Stripped(a));
    CommonBeginning(Zeros(Padding(b)), Zeros(Padding(a) - Padding(b)) + Stripped(a), Stripped(b));
  }

  lemma EqualDistance(a: string, b: string)
    requires Padding(a) == Padding(b)
    ensures Distance(a, b) == Distance(Stripped(a), Stripped(b))
  {
    SharedPadding(a, b);
    assert Zeros(0) + Stripped(a) == Stripped(a);
  }

  /** With more zeros in front of one of two numbers as long without them, the two are far from each other. */
  lemma MorePaddingIsFar(a: string, b: string)
    requires Padding(a) > Padding(b) && |Stripped(a)| == |Stripped(b)| && Stripped(a) != Stripped(b)
    ensures Distance(a, b) >= 2
  {
    SharedPadding(a, b);
    PaddedIs(b);
    PaddingIsFar(Padding(a) - Padding(b), Stripped(a), Stripped(b));
  }

  /** Two all-digit numbers of one length of significant digits: with as many leading zeros on both, they
      conflict when their significant digits are two letters apart; with more zeros on one of them, they
      always conflict, even when they are one typing slip apart. */
  lemma DigitConflictExact(a: string, b: string)
    requires AllDigits(a) && AllDigits(b)
    requires |Stripped(a)| == |Stripped(b)| && Stripped(a) != Stripped(b)
    ensures NumbersConflict(a, b) <==> |a| != |b| || Distance(Stripped(a), Stripped(b)) >= 2
  {
    PaddedIs(a);
    PaddedIs(b);
    if |a| == |b| {
      EqualDistance(a, b);
    } else if |a| > |b| {
      MorePaddingIsFar(a, b);
    } else {
      MorePaddingIsFar(b, a);
      Symmetric(a, b);
    }
    SameLengthConflict(a, b);
  }

  lemma SameLengthConflict(a: string, b: string)
    requires AllDigits(a) && AllDigits(b)
    requires |Stripped(a)| == |Stripped(b)| && Stripped(a) != Stripped(b)
    ensures NumbersConflict(a, b) <==> Distance(a, b) >= 2
  {
  }

  // ------------------------------------------------------------------ padding of any number

  lemma EndedLonger(p: string, s: string)
    requires s != []
    ensures p + s == p + Init(s) + [Last(s)]
  {
  }

  lemma {:induction false} CommonEnding(p: string, q: string, s: string)
    ensures Distance(p + s, q + s) <= Distance(p, q)
    decreases |s|
  {
    if s == [] {
      assert p + s == p && q + s == q;
    } else {
      CommonEnding(p, q, Init(s));
      LastLetters(p + Init(s), Last(s), q + Init(s), Last(s));
      EndedLonger(p, s);
      EndedLonger(q, s);
    }
  }

  lemma OneLetterAway(p: string, q: string, s: string)
    requires |p| <= 1 && |q| <= 1
    ensures Distance(p + s, q + s) <= 1
  {
    CommonEnding(p, q, s);
    if p != [] && q != [] {
      DistanceAtMost(p, q);
      EmptyRight([]);
    } else {
      LengthBounds(p, q);
    }
  }

  lemma NearBeforeLast(a: string, b: string)
    requires |a| > 1 && |a| == |b| && a[0] != b[0] && Distance(a, b) <= 1
    ensures Distance(Init(a), Init(b)) <= 1 && Last(a) == Last(b)
  {
    DistanceSteps(a, b);
    LengthBounds(Init(a), b);
    LengthBounds(a, Init(b));
    ZeroMeansEqual(Init(a), b);
    ZeroMeansEqual(a, Init(b));
    ZeroMeansEqual(Init(a), Init(b));
  }

  lemma {:induction false} FirstReplaced(a: string, b: string)
    requires a != [] && |a| == |b| && a[0] != b[0] && Distance(a, b) <= 1
    ensures a[1..] == b[1..]
    decreases |a|
  {
    if |a| > 1 {
      NearBeforeLast(a, b);
      FirstReplaced(Init(a), Init(b));
      assert a[1..] == Init(a)[1..] + [Last(a)] && b[1..] == Init(b)[1..] + [Last(b)];
    }
  }

  lemma FirstDeleted(a: string, b: string)
    requires b != [] && |a| == |b| + 1 && a[0] != b[0] && Distance(a, b) <= 1
    ensures a[1..] == b
  {
    LengthBounds(a, b);
    var k := OneLonger(a, b);
    if k > 0 {
      FirstKept(a, b, k);
    }
  }

  lemma FirstKept(a: string, b: string, k: nat)
    requires k > 0 && b != [] && WithoutOne(a, k, b)
    ensures a[0] == b[0]
  {
  }

  /** Strings that begin differently are one edit apart exactly when it is an edit of the first letter. */
  lemma FirstDiffers(a: string, b: string)
    requires a != [] && b != [] && a[0] != b[0]
    ensures Distance(a, b) <= 1 <==> a[1..] == b[1..] || a[1..] == b || a == b[1..]
  {
    if Distance(a, b) <= 1 {
      LengthBounds(a, b);
      if |a| == |b| {
        FirstReplaced(a, b);
      } else if |a| > |b| {
        FirstDeleted(a, b);
      } else {
        Symmetric(a, b);
        FirstDeleted(b, a);
      }
    }
    assert a == [a[0]] + a[1..] && b == [b[0]] + b[1..];
    assert [] + a == a && [] + b == b;
    if a[1..] == b[1..] {
      OneLetterAway([a[0]], [b[0]], a[1..]);
    } else if a[1..] == b {
      OneLetterAway([a[0]], [], b);
    } else if a == b[1..] {
      OneLetterAway([], [b[0]], a);
    }
  }

  /** Neither number is written with digits only, and neither begins the other once stripped. */
  predicate Lettered(a: string, b: string) {
    !AllDigits(a) && !AllDigits(b) && !(Stripped(a) <= Stripped(b)) && !(Stripped(b) <= Stripped(a))
  }

  /** The letters a number is told by: none behind a zero. */
  function LettersOf(s: string): string {
    if Padding(s) > 0 then [] else Letters(s)
  }

  lemma LetteredConflict(a: string, b: string)
    requires Lettered(a, b)
    ensures NumbersConflict(a, b) <==> LettersOf(a) == LettersOf(b) && Distance(a, b) >= 2
  {
    assert Padding(a) > 0 ==> Letters(a) == [];
    assert Padding(b) > 0 ==> Letters(b) == [];
  }

  lemma PaddedDigits(n: nat, x: string)
    ensures AllDigits(x) ==> AllDigits(Zeros(n) + x)
  {
  }

  lemma StrippedStaysSo(s: string)
    requires !AllDigits(s) && Stripped(s) != []
    ensures !AllDigits(Stripped(s)) && Stripped(Stripped(s)) == Stripped(s) && Padding(Stripped(s)) == 0
  {
    PaddedIs(s);
    PaddedDigits(Padding(s), Stripped(s));
  }

  lemma StrippedIsLettered(a: string, b: string)
    requires Lettered(a, b)
    ensures Lettered(Stripped(a), Stripped(b))
    ensures LettersOf(Stripped(a)) == Letters(Stripped(a)) && LettersOf(Stripped(b)) == Letters(Stripped(b))
  {
    StrippedStaysSo(a);
    StrippedStaysSo(b);
  }

  /** As many zeros in front of both: with some, the letters the numbers begin with are not compared any more, and that
      alone makes conflicts that the stripped numbers do not have. */
  lemma EqualPaddingExact(a: string, b: string)
    requires Lettered(a, b) && Padding(a) == Padding(b)
    ensures var x, y := Stripped(a), Stripped(b);
            NumbersConflict(a, b) != NumbersConflict(x, y)
            <==> Padding(a) > 0 && Letters(x) != Letters(y) && Distance(x, y) >= 2
  {
    EqualDistance(a, b);
    LetteredConflict(a, b);
    StrippedIsLettered(a, b);
    LetteredConflict(Stripped(a), Stripped(b));
  }

  /** The first letter replaced, or one put in front. */
  predicate FirstEdited(p: string, y: string) {
    y != [] && (y[1..] == p || (p != [] && y[1..] == p[1..]))
  }

  lemma PaddedDiffers(m: nat, x: string, y: string)
    requires m > 0 && x != y && y != [] && y[0] != '0'
    ensures Distance(Zeros(m) + x, y) <= 1 <==> FirstEdited(Zeros(m) + x, y)
  {
    var p := Zeros(m) + x;
    assert p[1..] == Zeros(m - 1) + x;
    assert p[1..] != y by {
      if m == 1 {
        assert p[1..] == x;
      }
    }
    FirstDiffers(p, y);
  }

  lemma UnequalDistance(a: string, b: string)
    requires Padding(a) > Padding(b) && Stripped(a) != Stripped(b) && Stripped(b) != []
    ensures Distance(a, b) <= 1 <==> FirstEdited(Zeros(Padding(a) - Padding(b)) + Stripped(a), Stripped(b))
  {
    SharedPadding(a, b);
    PaddedIs(b);
    PaddedDiffers(Padding(a) - Padding(b), Stripped(a), Stripped(b));
  }

  /** More zeros in front of `a`: the two conflict unless `b` begins with a letter, or is `a`, less the zeros they
      share, with its first letter replaced or one put in front. */
  lemma UnequalPaddingExact(a: string, b: string)
    requires Lettered(a, b) && Padding(a) > Padding(b)
    ensures NumbersConflict(a, b)
            <==> (Padding(b) > 0 || Letters(b) == [])
                 && !FirstEdited(Zeros(Padding(a) - Padding(b)) + Stripped(a), Stripped(b))
  {
    LetteredConflict(a, b);
    UnequalDistance(a, b);
  }

  lemma OneZero(s: string)
    requires |s| > 1 && s[0] == '0' && s[1] != '0'
    ensures Stripped(s) == s[1..] && Padding(s) == 1
  {
    assert s[1..][0] == s[1];
  }

  lemma NoZero(s: string)
    requires s != [] && s[0] != '0'
    ensures Stripped(s) == s && Padding(s) == 0
  {
  }

  /** Whatever the letters and the digits, with a zero in front "A1" and "B2" conflict, and without they do not. */
  lemma ZerosHideLetters(l: char, m: char, d: char, e: char)
    requires 'A' <= l <= 'Z' && 'A' <= m <= 'Z' && IsDigit(d) && IsDigit(e) && l != m && d != e
    ensures var a, b := ['0', l, d], ['0', m, e];
            Lettered(a, b) && NumbersConflict(a, b) && !NumbersConflict([l, d], [m, e])
  {
    var a, b, x, y := ['0', l, d], ['0', m, e], [l, d], [m, e];
    OneZero(a);
    OneZero(b);
    NoZero(x);
    NoZero(y);
    assert a[1..] == x && b[1..] == y && x[1..] == [d] && y[1..] == [e];
    assert !IsDigit(a[1]) && !IsDigit(b[1]);
    FirstDiffers(x, y);
    assert Letters(x)[0] == l && Letters(y)[0] == m;
    LetteredConflict(x, y);
    EqualPaddingExact(a, b);
  }

  lemma OneInserted(p: string, x: char, s: string)
    ensures Distance(p + s, p + ([x] + s)) <= 1
  {
    CommonBeginning(p, s, [x] + s);
    OneLetterAway([], [x], s);
    assert [] + s == s;
  }

  /** Whatever the digit and the letter, "01A" and "10A" conflict, and without the zero they are one letter apart. */
  lemma ZeroMakesLetteredConflict(c: char, l: char)
    requires IsDigit(c) && c != '0' && 'A' <= l <= 'Z'
    ensures var a, b := ['0', c, l], [c, '0', l];
            Lettered(a, b) && NumbersConflict(a, b) && !NumbersConflict([c, l], b)
  {
    var a, b, x := ['0', c, l], [c, '0', l], [c, l];
    OneZero(a);
    NoZero(b);
    NoZero(x);
    assert a[1..] == x && x[1] == l && b[1] == '0';
    assert !IsDigit(a[2]) && !IsDigit(b[2]);
    assert Zeros(1) + x == a && b[1..] == ['0', l] && a[1..] != b[1..];
    UnequalPaddingExact(a, b);
    assert Distance(x, b) <= 1 by {
      OneInserted([c], '0', [l]);
      assert [c] + [l] == x && [c] + (['0'] + [l]) == b;
    }
  }

  lemma TwelveIsNearThirteen()
    ensures Stripped("012") == "12" && Stripped("12") == "12" && Stripped("13") == "13"
    ensures Distance("12", "13") <= 1
  {
  }

  /** So a leading zero can make a conflict: "12" and "13" are one letter apart and do not conflict, "012" and
      "13" do. */
  lemma LeadingZeroMakesConflict()
    ensures !NumbersConflict("12", "13") && NumbersConflict("012", "13")
  {
    TwelveIsNearThirteen();
    DigitConflictExact("12", "13");
    DigitConflictExact("012", "13");
  }
}
