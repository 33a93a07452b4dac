/** The merge seen through key paths: when it succeeds, and what each path then holds. */
module YamlPaths {
  import opened Wrappers
  import opened YamlTree

  /** The subtree reached by following keys through nested mappings. */
  function At(t: Tree, path: seq<string>): Option<Tree>
    decreases |path|
  {
    if path == [] then Some(t)
    else if !t.Mapping? then None
    else match Lookup(t.entries, path[0])
      case None => None
      case Some(v) => At(v, path[1..])
  }

  /** Two nodes that cannot be merged with each other, whatever they contain. */
  predicate Clash(a: Tree, b: Tree) {
    !SameKind(a, b) || !Container(a)
  }

  ghost predicate ClashAt(from: Tree, into: Tree, path: seq<string>) {
    At(from, path).Some? && At(into, path).Some? && Clash(At(from, path).value, At(into, path).value)
  }

  /** What a path holds after a successful merge. */
  function Overlay(a: Option<Tree>, b: Option<Tree>): Option<Tree> {
    match (a, b)
    case (None, _) => b
    case (_, None) => a
    case (Some(x), Some(y)) => Some(Merge(x, y).tree)
  }

  /** The two values under k, if both are there, merge without error. */
  ghost predicate Agree(fs: seq<Entry>, es: seq<Entry>, k: string) {
    Lookup(fs, k).Some? && Lookup(es, k).Some? ==>
      Merge(Lookup(fs, k).value, Lookup(es, k).value).err.None?
  }

  // ----- One key at a time -----

  lemma {:induction false} LookupAppend(xs: seq<Entry>, ys: seq<Entry>, k: string)
    ensures Lookup(xs + ys, k) == if Lookup(xs, k).Some? then Lookup(xs, k) else Lookup(ys, k)
  {
    if xs == [] {
      assert xs + ys == ys;
    } else {
      LookupAppend(xs[1..], ys, k);
      assert (xs + ys)[0] == xs[0] && (xs + ys)[1..] == xs[1..] + ys;
    }
  }

  lemma MergeEntryLookup(f: Entry, es: seq<Entry>, k: string)
    ensures Lookup(MergeEntry(f, es).0, k) == if k == f.key then Overlay(Some(f.val), Lookup(es, k)) else Lookup(es, k)
  {
    var j := Find(es, f.key);
    if j == |es| {
      LookupAppend(es, [f], k);
    } else {
      var es' := MergeEntry(f, es).0;
      assert forall i :: 0 <= i < |es| ==> es'[i].key == es[i].key;
      assert Find(es', k) == Find(es, k);
    }
  }

  lemma UniqueTail(fs: seq<Entry>)
    requires fs != [] && UniqueKeys(fs)
    ensures UniqueKeys(fs[1..]) && Lookup(fs[1..], fs[0].key).None?
    ensures forall k :: k != fs[0].key ==> Lookup(fs, k) == Lookup(fs[1..], k)
  {
  }

  lemma {:induction false} MergeEntriesSucceed(fs: seq<Entry>, es: seq<Entry>)
    requires UniqueKeys(fs)
    ensures MergeEntries(fs, es).1.None? <==> forall k :: Agree(fs, es, k)
    decreases fs
  {
    if fs != [] {
      var f := fs[0];
      var (es', err) := MergeEntry(f, es);
      UniqueTail(fs);
      assert err.None? <==> Agree(fs, es, f.key);
      if err.None? {
        MergeEntriesSucceed(fs[1..], es');
        forall k ensures Agree(fs, es, k) <==> Agree(fs[1..], es', k) {
          MergeEntryLookup(f, es, k);
        }
      }
    }
  }

  lemma {:induction false} MergeEntriesLookup(fs: seq<Entry>, es: seq<Entry>, k: string)
    requires UniqueKeys(fs) && MergeEntries(fs, es).1.None?
    ensures Lookup(MergeEntries(fs, es).0, k) == Overlay(Lookup(fs, k), Lookup(es, k))
    decreases fs
  {
    if fs != [] {
      var es' := MergeEntry(fs[0], es).0;
      UniqueTail(fs);
      MergeEntryLookup(fs[0], es, k);
      MergeEntriesLookup(fs[1..], es', k);
    }
  }

  // ----- Whole paths -----

  lemma DistinctLookup(t: Tree, k: string)
    requires t.Mapping? && Distinct(t) && Lookup(t.entries, k).Some?
    ensures Distinct(Lookup(t.entries, k).value) && Lookup(t.entries, k).value < t
  {
    var j := Find(t.entries, k);
    assert t.entries[j].val < t;
  }

  /** A merge succeeds exactly when no path present in both trees ends in a pair of nodes
      of different kinds or in a leaf. */
  lemma {:induction false} MergeSucceedsIffNoClash(from: Tree, into: Tree)
    requires Distinct(from)
    ensures Merge(from, into).err.None? <==> forall path :: !ClashAt(from, into, path)
    decreases from
  {
    if Clash(from, into) {
      assert ClashAt(from, into, []);
    } else if from.Mapping? {
      var fs, es := from.entries, into.entries;
      MergeEntriesSucceed(fs, es);
      if MergeEntries(fs, es).1.None? {
        forall path ensures !ClashAt(from, into, path) {
          if path != [] && At(from, path).Some? && At(into, path).Some? {
            assert Agree(fs, es, path[0]);
            DistinctLookup(from, path[0]);
            MergeSucceedsIffNoClash(Lookup(fs, path[0]).value, Lookup(es, path[0]).value);
            assert !ClashAt(Lookup(fs, path[0]).value, Lookup(es, path[0]).value, path[1..]);
          }
        }
      } else {
        var k :| !Agree(fs, es, k);
        var x, y := Lookup(fs, k).value, Lookup(es, k).value;
        DistinctLookup(from, k);
        MergeSucceedsIffNoClash(x, y);
        var path :| ClashAt(x, y, path);
        assert ([k] + path)[1..] == path;
        assert ClashAt(from, into, [k] + path);
      }
    } else {
      forall path ensures !ClashAt(from, into, path) {}
    }
  }

  /** After a successful merge each path holds the merge of what the two trees held there,
      or the one side that had it: merging commutes with following a path. */
  lemma {:induction false} MergeAtPath(from: Tree, into: Tree, path: seq<string>)
    requires Distinct(from) && Merge(from, into).err.None?
    ensures At(Merge(from, into).tree, path) == Overlay(At(from, path), At(into, path))
    ensures At(from, path).Some? && At(into, path).Some? ==> Merge(At(from, path).value, At(into, path).value).err.None?
    decreases |path|
  {
    if path != [] && from.Mapping? {
      var fs, es, k := from.entries, into.entries, path[0];
      MergeEntriesLookup(fs, es, k);
      MergeEntriesSucceed(fs, es);
      assert Agree(fs, es, k);
      if Lookup(fs, k).Some? && Lookup(es, k).Some? {
        DistinctLookup(from, k);
        MergeAtPath(Lookup(fs, k).value, Lookup(es, k).value, path[1..]);
      }
    }
  }

  /** On success a path ends in a given scalar exactly when it does so in one of the inputs. */
  lemma ScalarPathsAreUnion(from: Tree, into: Tree, path: seq<string>, v: string)
    requires Distinct(from) && Merge(from, into).err.None?
    ensures At(Merge(from, into).tree, path) == Some(Scalar(v)) <==>
            At(from, path) == Some(Scalar(v)) || At(into, path) == Some(Scalar(v))
  {
    MergeAtPath(from, into, path);
  }
}
