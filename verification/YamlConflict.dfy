/** What a failed merge leaves behind, and what happens to the failure at a document. */
module YamlConflict {
  import opened Wrappers
  import opened YamlTree
  import opened YamlPaths

  /** The keys named by an error, outermost first. */
  function ErrorPath(e: MergeError): seq<string> {
    match e
    case AtKey(key, cause) => [key] + ErrorPath(cause)
    case _ => []
  }

  function Reason(e: MergeError): MergeError {
    match e
    case AtKey(_, cause) => Reason(cause)
    case _ => e
  }

  /** The part of t that comes before the node at `path` in depth-first order; the mappings
      on the way to that node are kept, cut short. */
  function Before(t: Tree, path: seq<string>): Tree
    requires path != [] && At(t, path).Some?
    decreases |path|
  {
    Mapping(EntriesBefore(t.entries, path))
  }

  function EntriesBefore(fs: seq<Entry>, path: seq<string>): seq<Entry>
    requires path != [] && Lookup(fs, path[0]).Some? && At(Lookup(fs, path[0]).value, path[1..]).Some?
    decreases |path|, |fs|
  {
    if fs[0].key != path[0] then [fs[0]] + EntriesBefore(fs[1..], path)
    else if |path| == 1 then []
    else [Entry(path[0], Before(fs[0].val, path[1..]))]
  }

  /** When a merge fails with error e: the path named by e leads to a clash, e gives its
      reason, and the target holds exactly the complete merge of the part of `from` that
      comes before that clash. */
  lemma {:induction false} FailedMergeIsMergeOfPrefix(from: Tree, into: Tree)
    requires Distinct(from) && Merge(from, into).err.Some?
    ensures var r := Merge(from, into);
            var path := ErrorPath(r.err.value);
            && ClashAt(from, into, path)
            && Reason(r.err.value) == (if SameKind(At(from, path).value, At(into, path).value) then NotMergeable else DifferentKinds)
            && if path == [] then r.tree == into else Merge(Before(from, path), into) == Outcome(r.tree, None)
    decreases from
  {
    if SameKind(from, into) && from.Mapping? {
      FailedEntriesAreMergeOfPrefix(from.entries, into.entries);
    }
  }

  lemma {:induction false} FailedEntriesAreMergeOfPrefix(fs: seq<Entry>, es: seq<Entry>)
    requires Distinct(Mapping(fs)) && MergeEntries(fs, es).1.Some?
    ensures var (es', err) := MergeEntries(fs, es);
            var path := ErrorPath(err.value);
            && path != []
            && ClashAt(Mapping(fs), Mapping(es), path)
            && Reason(err.value) == (if SameKind(At(Mapping(fs), path).value, At(Mapping(es), path).value) then NotMergeable else DifferentKinds)
            && MergeEntries(EntriesBefore(fs, path), es) == (es', None)
    decreases fs
  {
    var f := fs[0];
    var (es1, err1) := MergeEntry(f, es);
    var path := ErrorPath(MergeEntries(fs, es).1.value);
    if err1.Some? {
      var j := Find(es, f.key);
      FailedMergeIsMergeOfPrefix(f.val, es[j].val);
      assert path[1..] == ErrorPath(err1.value.cause);
      if |path| == 1 {
        assert es1 == es;
      } else {
        var cut := Entry(f.key, Before(f.val, path[1..]));
        assert EntriesBefore(fs, path) == [cut];
        assert MergeEntry(cut, es) == (es1, None);
        assert [cut][1..] == [];
      }
    } else {
      UniqueTail(fs);
      FailedEntriesAreMergeOfPrefix(fs[1..], es1);
      assert path[0] != f.key;
      MergeEntryLookup(f, es, path[0]);
      assert Lookup(fs, path[0]) == Lookup(fs[1..], path[0]);
      assert EntriesBefore(fs, path)[1..] == EntriesBefore(fs[1..], path);
    }
  }

  /** Two documents never report a failure. The result is the whole merge of their children
      exactly when no path clashes; otherwise it is silently the merge of the part of `from`
      before the clash, with the rest of `from` lost. */
  lemma DocumentDropsFailure(from: Tree, into: Tree)
    requires from.Document? && into.Document? && Distinct(from)
    ensures var inner := Merge(from.child, into.child);
            && Merge(from, into) == Outcome(Document(inner.tree), None)
            && (inner.err.None? <==> forall path :: !ClashAt(from.child, into.child, path))
            && (inner.err.Some? ==>
                  var path := ErrorPath(inner.err.value);
                  ClashAt(from.child, into.child, path) &&
                  if path == [] then Merge(from, into).tree == into
                  else Merge(from, into).tree == Document(Merge(Before(from.child, path), into.child).tree))
  {
    MergeSucceedsIffNoClash(from.child, into.child);
    if Merge(from.child, into.child).err.Some? {
      FailedMergeIsMergeOfPrefix(from.child, into.child);
    }
  }
}
