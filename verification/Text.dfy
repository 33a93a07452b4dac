/** The string operations the program takes from its standard library, on ASCII. */
module Text {

  // ----- Case -----

  function LowerChar(c: char): char {
    if 'A' <= c <= 'Z' then c - 'A' + 'a' else c
  }

  function UpperChar(c: char): char {
    if 'a' <= c <= 'z' then c - 'a' + 'A' else c
  }

  function ToLower(s: string): (r: string)
    ensures |r| == |s| && forall i :: 0 <= i < |s| ==> r[i] == LowerChar(s[i])
  {
    seq(|s|, i requires 0 <= i < |s| => LowerChar(s[i]))
  }

  function ToUpper(s: string): (r: string)
    ensures |r| == |s| && forall i :: 0 <= i < |s| ==> r[i] == UpperChar(s[i])
  {
    seq(|s|, i requires 0 <= i < |s| => UpperChar(s[i]))
  }

  predicate EqualFold(s: string, t: string) {
    ToLower(s) == ToLower(t)
  }

  lemma ToUpperTwice(s: string)
    ensures ToUpper(ToUpper(s)) == ToUpper(s)
  {
  }

  const UPPER := "ABCDEFGHIJKLMNOPQRSTUVWXYZ"
  const LOWER := "abcdefghijklmnopqrstuvwxyz"

  /** The letters correspond one by one. */
  lemma LettersCorrespond(i: nat)
    requires i < 26
    ensures LowerChar(UPPER[i]) == LOWER[i] && UpperChar(LOWER[i]) == UPPER[i]
  {
  }

  /** Nothing else is changed. */
  lemma OthersAreKept(c: char)
    ensures c !in UPPER ==> LowerChar(c) == c
    ensures c !in LOWER ==> UpperChar(c) == c
  {
    if 'A' <= c <= 'Z' {
      assert UPPER[(c - 'A') as int] == c;
    }
    if 'a' <= c <= 'z' {
      assert LOWER[(c - 'a') as int] == c;
    }
  }

  // ----- Split and join at a separator -----

  function Split(s: string, c: char): (parts: seq<string>)
    ensures |parts| >= 1
  {
    if s == [] then [[]]
    else
      var rest := Split(s[1..], c);
      if s[0] == c then [[]] + rest else Widen(s[0], rest)
  }

  /** Puts a character in front of the first part. */
  function Widen(x: char, parts: seq<string>): (r: seq<string>)
    requires parts != []
    ensures |r| == |parts|
  {
    [[x] + parts[0]] + parts[1..]
  }

  lemma WidenConcat(x: char, parts: seq<string>, more: seq<string>)
    requires parts != []
    ensures Widen(x, parts + more) == Widen(x, parts) + more
  {
    assert (parts + more)[1..] == parts[1..] + more;
  }

  function Join(parts: seq<string>, c: char): string {
    if parts == [] then []
    else if |parts| == 1 then parts[0]
    else parts[0] + [c] + Join(parts[1..], c)
  }

  /** Joining undoes splitting, for every string; so `Split` is injective. */
  lemma {:induction false} JoinOfSplit(s: string, c: char)
    ensures Join(Split(s, c), c) == s
  {
    if s != [] {
      JoinOfSplit(s[1..], c);
      var rest := Split(s[1..], c);
      if s[0] == c {
        assert ([[]] + rest)[1..] == rest;
      } else {
        var first := [s[0]] + rest[0];
        assert ([first] + rest[1..])[1..] == rest[1..];
      }
    }
  }

  lemma {:induction false} SplitAtSeparator(s: string, c: char, t: string)
    ensures Split(s + [c] + t, c) == Split(s, c) + Split(t, c)
  {
    if s == [] {
      assert (s + [c] + t)[1..] == t;
    } else {
      SplitAtSeparator(s[1..], c, t);
      assert (s + [c] + t)[0] == s[0] && (s + [c] + t)[1..] == s[1..] + [c] + t;
      var rest, more := Split(s[1..], c), Split(t, c);
      if s[0] == c {
        assert [[]] + (rest + more) == ([[]] + rest) + more;
      } else {
        WidenConcat(s[0], rest, more);
      }
    }
  }

  lemma {:induction false} SplitWithoutSeparator(s: string, c: char)
    requires c !in s
    ensures Split(s, c) == [s]
  {
    if s != [] {
      SplitWithoutSeparator(s[1..], c);
      assert [s[0]] + s[1..] == s;
    }
  }

  lemma {:induction false} SplitPartsAreFree(s: string, c: char)
    ensures forall p <- Split(s, c) :: c !in p
  {
    if s != [] {
      SplitPartsAreFree(s[1..], c);
      var rest := Split(s[1..], c);
      assert rest[0] in rest && forall p <- rest[1..] :: p in rest;
    }
  }

  /** The parts obtained by splitting every string of the list. */
  function Pieces(parts: seq<string>, c: char): seq<string> {
    if parts == [] then [] else Split(parts[0], c) + Pieces(parts[1..], c)
  }

  lemma {:induction false} SplitOfJoin(parts: seq<string>, c: char)
    requires parts != []
    ensures Split(Join(parts, c), c) == Pieces(parts, c)
  {
    if |parts| == 1 {
      assert Pieces(parts[1..], c) == [];
    } else {
      SplitOfJoin(parts[1..], c);
      SplitAtSeparator(parts[0], c, Join(parts[1..], c));
    }
  }

  lemma {:induction false} PiecesWithoutSeparator(parts: seq<string>, c: char)
    requires forall p <- parts :: c !in p
    ensures Pieces(parts, c) == parts
  {
    if parts != [] {
      SplitWithoutSeparator(parts[0], c);
      PiecesWithoutSeparator(parts[1..], c);
    }
  }

  lemma {:induction false} JoinConcat(xs: seq<string>, ys: seq<string>, c: char)
    requires xs != [] && ys != []
    ensures Join(xs + ys, c) == Join(xs, c) + [c] + Join(ys, c)
  {
    if |xs| == 1 {
      assert (xs + ys)[1..] == ys;
    } else {
      JoinConcat(xs[1..], ys, c);
      assert (xs + ys)[0] == xs[0] && (xs + ys)[1..] == xs[1..] + ys;
      var a, b, d := xs[0] + [c], Join(xs[1..], c), [c] + Join(ys, c);
      assert a + (b + d) == (a + b) + d;
      assert b + d == b + [c] + Join(ys, c);
      assert (a + b) + d == a + b + [c] + Join(ys, c);
    }
  }

  // ----- Search and trim -----

  predicate HasPrefix(s: string, prefix: string) {
    |prefix| <= |s| && s[..|prefix|] == prefix
  }

  function TrimPrefix(s: string, prefix: string): string {
    if HasPrefix(s, prefix) then s[|prefix|..] else s
  }

  /** The position of the first c in s, or the length of s. */
  function IndexOf(s: string, c: char): (j: nat)
    ensures j <= |s| && (j < |s| ==> s[j] == c) && forall i :: 0 <= i < j ==> s[i] != c
  {
    if s == [] || s[0] == c then 0 else 1 + IndexOf(s[1..], c)
  }

  predicate IsSpace(c: char) {
    c == ' ' || c == '\t' || c == '\n' || c == '\r' || c == '\U{000B}' || c == '\U{000C}'
  }

  function TrimLeft(s: string): string {
    if s != [] && IsSpace(s[0]) then TrimLeft(s[1..]) else s
  }

  function TrimRight(s: string): string {
    if s != [] && IsSpace(s[|s| - 1]) then TrimRight(s[..|s| - 1]) else s
  }

  function TrimSpace(s: string): string {
    TrimRight(TrimLeft(s))
  }

  ghost predicate Blank(s: string) {
    forall c <- s :: c in {' ', '\t', '\n', '\r', '\U{000B}', '\U{000C}'}
  }

  lemma {:induction false} TrimLeftIs(left: string, s: string)
    requires Blank(left) && (s != "" ==> !Blank([s[0]]))
    ensures TrimLeft(left + s) == s
  {
    if left == "" {
      assert left + s == s;
      if s != "" {
        assert s[0] in [s[0]];
      }
    } else {
      assert left[0] in left && (left + s)[0] == left[0] && (left + s)[1..] == left[1..] + s;
      assert forall c <- left[1..] :: c in left;
      TrimLeftIs(left[1..], s);
    }
  }

  lemma {:induction false} TrimRightIs(s: string, right: string)
    requires Blank(right) && (s != "" ==> !Blank([s[|s| - 1]]))
    ensures TrimRight(s + right) == s
  {
    var t := s + right;
    if right == "" {
      assert t == s;
      if s != "" {
        assert s[|s| - 1] in [s[|s| - 1]];
      }
    } else {
      var n := |right| - 1;
      assert right[n] in right && t[|t| - 1] == right[n] && t[..|t| - 1] == s + right[..n];
      assert forall c <- right[..n] :: c in right;
      TrimRightIs(s, right[..n]);
    }
  }

  /** Trimming takes the blanks off both ends and nothing else. */
  lemma TrimSpaceIs(left: string, s: string, right: string)
    requires Blank(left) && Blank(right)
    requires s != "" && !Blank([s[0]]) && !Blank([s[|s| - 1]])
    ensures TrimSpace(left + s + right) == s
  {
    assert left + s + right == left + (s + right);
    assert (s + right)[0] == s[0] && [(s + right)[0]] == [s[0]];
    TrimLeftIs(left, s + right);
    TrimRightIs(s, right);
  }

  lemma {:induction false} TrimLeftMembers(s: string)
    ensures forall c <- TrimLeft(s) :: c in s
  {
    if s != [] && IsSpace(s[0]) {
      TrimLeftMembers(s[1..]);
    }
  }

  lemma {:induction false} TrimRightMembers(s: string)
    ensures forall c <- TrimRight(s) :: c in s
  {
    if s != [] && IsSpace(s[|s| - 1]) {
      TrimRightMembers(s[..|s| - 1]);
    }
  }

  lemma TrimSpaceMembers(s: string)
    ensures forall c <- TrimSpace(s) :: c in s
  {
    TrimLeftMembers(s);
    TrimRightMembers(TrimLeft(s));
  }
}
