/** Building a chain of handlers: one fold from the right and one from the left, over any kind
    of entries and handlers, and how the two are related. */
module PipelineBuild {
  import opened Wrappers

  datatype BuildError = NotRegistered(name: string) | Failed(message: string)

  datatype Built<+H> = Ok(handler: H) | Err(error: BuildError)

  /** Wraps the handler in the entries, the last entry first. */
  function FoldR<N, H>(step: (N, H) -> Built<H>, entries: seq<N>, next: H): Built<H> {
    if entries == [] then Ok(next)
    else match FoldR(step, entries[1..], next)
      case Ok(h) => step(entries[0], h)
      case Err(e) => Err(e)
  }

  /** Wraps the handler in the entries, the first entry first. */
  function FoldL<N, H>(step: (N, H) -> Built<H>, entries: seq<N>, next: H): Built<H> {
    if entries == [] then Ok(next)
    else match FoldL(step, entries[..|entries| - 1], next)
      case Ok(h) => step(entries[|entries| - 1], h)
      case Err(e) => Err(e)
  }

  function Reverse<N>(s: seq<N>): (r: seq<N>)
    ensures |r| == |s|
  {
    if s == [] then [] else Reverse(s[1..]) + [s[0]]
  }

  lemma {:induction false} ReverseAt<N>(s: seq<N>, k: nat)
    requires k < |s|
    ensures Reverse(s)[k] == s[|s| - 1 - k]
  {
    if k < |s| - 1 {
      ReverseAt(s[1..], k);
    }
  }

  // ----- Laws of the right-to-left build -----

  /** Building a concatenated list is nesting the two builds. */
  lemma {:induction false} BuildOfConcat<N, H>(step: (N, H) -> Built<H>, xs: seq<N>, ys: seq<N>, next: H)
    ensures FoldR(step, xs + ys, next) ==
            match FoldR(step, ys, next)
            case Ok(h) => FoldR(step, xs, h)
            case Err(e) => Err(e)
  {
    if xs == [] {
      assert xs + ys == ys;
    } else {
      assert (xs + ys)[1..] == xs[1..] + ys;
      BuildOfConcat(step, xs[1..], ys, next);
    }
  }

  /** Entry i is where the build fails: everything to its right was built, and it refused that. */
  ghost predicate FailsAt<N, H>(step: (N, H) -> Built<H>, entries: seq<N>, next: H, i: nat, e: BuildError) {
    && i < |entries|
    && var right := FoldR(step, entries[i + 1..], next);
       right.Ok? && step(entries[i], right.handler) == Err(e)
  }

  /** A build reports an error exactly when some entry refuses what was built to its right. */
  lemma {:induction false} FailureHasAnEntry<N, H>(step: (N, H) -> Built<H>, entries: seq<N>, next: H, e: BuildError)
    ensures FoldR(step, entries, next) == Err(e) <==> exists i: nat :: FailsAt(step, entries, next, i, e)
  {
    if FoldR(step, entries, next) == Err(e) {
      var i := FailingEntry(step, entries, next);
    }
    if i: nat :| FailsAt(step, entries, next, i, e) {
      assert entries[i..][1..] == entries[i + 1..];
      assert entries == entries[..i] + entries[i..];
      BuildOfConcat(step, entries[..i], entries[i..], next);
      assert FoldR(step, entries[i..], next) == Err(e);
    }
  }

  lemma {:induction false} FailingEntry<N, H>(step: (N, H) -> Built<H>, entries: seq<N>, next: H) returns (i: nat)
    requires FoldR(step, entries, next).Err?
    ensures FailsAt(step, entries, next, i, FoldR(step, entries, next).error)
  {
    if FoldR(step, entries[1..], next).Ok? {
      i := 0;
    } else {
      i := FailingEntry(step, entries[1..], next);
      assert entries[1..][i + 1..] == entries[i + 1 + 1..];
      i := i + 1;
    }
  }

  /** That entry is the rightmost one that could not be built: to its right every suffix was
      built, and from it on to the left none was. */
  lemma FailingEntryIsRightmost<N, H>(step: (N, H) -> Built<H>, entries: seq<N>, next: H, i: nat, e: BuildError, j: nat)
    requires FailsAt(step, entries, next, i, e) && j <= |entries|
    ensures FoldR(step, entries[j..], next) == Err(e) <==> j <= i
    ensures FoldR(step, entries[j..], next).Ok? <==> j > i
  {
    if j <= i {
      assert entries[j..][i - j + 1..] == entries[i + 1..];
      assert FailsAt(step, entries[j..], next, i - j, e);
      FailureHasAnEntry(step, entries[j..], next, e);
    } else {
      var right := entries[i + 1..];
      assert right == right[..j - i - 1] + right[j - i - 1..];
      assert right[j - i - 1..] == entries[j..];
      BuildOfConcat(step, right[..j - i - 1], entries[j..], next);
    }
  }

  /** If an entry fails or not whatever it wraps, the build fails exactly when some entry does,
      and with the error of the last such entry in the list. */
  lemma {:induction false} ReportsTheLastFailingEntry<N, H>(step: (N, H) -> Built<H>, entries: seq<N>, next: H, error: N -> Option<BuildError>)
    requires forall n, h :: match step(n, h) case Ok(_) => error(n) == None case Err(e) => error(n) == Some(e)
    ensures FoldR(step, entries, next).Ok? <==> forall n <- entries :: error(n) == None
    ensures forall i :: 0 <= i < |entries| && error(entries[i]).Some? && (forall j :: i < j < |entries| ==> error(entries[j]) == None) ==>
              FoldR(step, entries, next) == Err(error(entries[i]).value)
  {
    if entries != [] {
      var rest := entries[1..];
      ReportsTheLastFailingEntry(step, rest, next, error);
      assert forall n :: n in entries <==> n == entries[0] || n in rest;
      forall i | 0 <= i < |entries| && error(entries[i]).Some? && forall j :: i < j < |entries| ==> error(entries[j]) == None
        ensures FoldR(step, entries, next) == Err(error(entries[i]).value)
      {
        if i > 0 {
          assert rest[i - 1] == entries[i];
          assert forall j :: i - 1 < j < |rest| ==> rest[j] == entries[j + 1];
        } else {
          assert forall j :: 0 <= j < |rest| ==> rest[j] == entries[j + 1];
        }
      }
    }
  }

  // ----- The left-to-right build -----

  /** Building from the left is building the reversed list from the right: the last entry is
      the outermost one. */
  lemma {:induction false} LeftBuildIsReversed<N, H>(step: (N, H) -> Built<H>, entries: seq<N>, next: H)
    ensures FoldL(step, entries, next) == FoldR(step, Reverse(entries), next)
  {
    if entries != [] {
      var n := |entries| - 1;
      LeftBuildIsReversed(step, entries[..n], next);
      ReverseOfInit(entries);
      assert Reverse(entries)[1..] == Reverse(entries[..n]);
    }
  }

  lemma {:induction false} ReverseOfInit<N>(s: seq<N>)
    requires s != []
    ensures Reverse(s) == [s[|s| - 1]] + Reverse(s[..|s| - 1])
  {
    var n := |s| - 1;
    var r := [s[n]] + Reverse(s[..n]);
    forall k | 0 <= k <= n ensures Reverse(s)[k] == r[k] {
      ReverseAt(s, k);
      if k > 0 {
        ReverseAt(s[..n], k - 1);
      }
    }
  }
}
