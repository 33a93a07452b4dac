/** Conservation: a merge neither invents nor duplicates a leaf, and on success loses none. */
module YamlLeaves {
  import opened YamlTree

  /** How often the leaf x occurs in a tree; keys are not leaves. */
  ghost function Count(x: Tree, t: Tree): nat
    decreases t
  {
    match t
    case Mapping(es) => EntryCount(x, es)
    case Sequence(items) => ItemCount(x, items)
    case Document(child) => Count(x, child)
    case _ => if t == x then 1 else 0
  }

  ghost function EntryCount(x: Tree, es: seq<Entry>): nat
    decreases es
  {
    if es == [] then 0 else Count(x, es[0].val) + EntryCount(x, es[1..])
  }

  ghost function ItemCount(x: Tree, items: seq<Tree>): nat
    decreases items
  {
    if items == [] then 0 else Count(x, items[0]) + ItemCount(x, items[1..])
  }

  lemma {:induction false} ItemCountConcat(x: Tree, xs: seq<Tree>, ys: seq<Tree>)
    ensures ItemCount(x, xs + ys) == ItemCount(x, xs) + ItemCount(x, ys)
  {
    if xs == [] {
      assert xs + ys == ys;
    } else {
      ItemCountConcat(x, xs[1..], ys);
      assert (xs + ys)[0] == xs[0] && (xs + ys)[1..] == xs[1..] + ys;
    }
  }

  lemma {:induction false} EntryCountAppend(x: Tree, es: seq<Entry>, e: Entry)
    ensures EntryCount(x, es + [e]) == EntryCount(x, es) + Count(x, e.val)
  {
    if es == [] {
      assert es + [e] == [e] && [e][1..] == [];
    } else {
      EntryCountAppend(x, es[1..], e);
      assert (es + [e])[0] == es[0] && (es + [e])[1..] == es[1..] + [e];
    }
  }

  lemma {:induction false} EntryCountReplace(x: Tree, es: seq<Entry>, j: nat, e: Entry)
    requires j < |es|
    ensures EntryCount(x, es[j := e]) == EntryCount(x, es) - Count(x, es[j].val) + Count(x, e.val)
  {
    if j == 0 {
      assert es[j := e][1..] == es[1..];
    } else {
      EntryCountReplace(x, es[1..], j - 1, e);
      assert es[j := e][0] == es[0] && es[j := e][1..] == es[1..][j - 1 := e] && es[1..][j - 1] == es[j];
    }
  }

  /** Whatever the outcome, the target keeps all its leaves and gains only leaves of `from`;
      on success it gains them all, each as often as it occurs there. */
  lemma {:induction false} MergeConservesLeaves(x: Tree, from: Tree, into: Tree)
    ensures var r := Merge(from, into);
            && Count(x, into) <= Count(x, r.tree) <= Count(x, into) + Count(x, from)
            && (Plain(from) && r.err.None? ==> Count(x, r.tree) == Count(x, into) + Count(x, from))
    decreases from
  {
    if SameKind(from, into) {
      match from
      case Mapping(fs) => EntriesConserveLeaves(x, fs, into.entries);
      case Sequence(items) => ItemCountConcat(x, into.items, items);
      case Document(child) => MergeConservesLeaves(x, child, into.child);
      case _ =>
    }
  }

  lemma {:induction false} EntryConservesLeaves(x: Tree, f: Entry, es: seq<Entry>)
    ensures var (es', err) := MergeEntry(f, es);
            && EntryCount(x, es) <= EntryCount(x, es') <= EntryCount(x, es) + Count(x, f.val)
            && (Plain(f.val) && err.None? ==> EntryCount(x, es') == EntryCount(x, es) + Count(x, f.val))
    decreases f
  {
    var j := Find(es, f.key);
    if j == |es| {
      EntryCountAppend(x, es, f);
    } else {
      MergeConservesLeaves(x, f.val, es[j].val);
      EntryCountReplace(x, es, j, Entry(es[j].key, Merge(f.val, es[j].val).tree));
    }
  }

  lemma {:induction false} EntriesConserveLeaves(x: Tree, fs: seq<Entry>, es: seq<Entry>)
    ensures var (es', err) := MergeEntries(fs, es);
            && EntryCount(x, es) <= EntryCount(x, es') <= EntryCount(x, es) + EntryCount(x, fs)
            && (Plain(Mapping(fs)) && err.None? ==> EntryCount(x, es') == EntryCount(x, es) + EntryCount(x, fs))
    decreases fs
  {
    if fs != [] {
      EntryConservesLeaves(x, fs[0], es);
      var (es', err) := MergeEntry(fs[0], es);
      if err.None? {
        EntriesConserveLeaves(x, fs[1..], es');
      }
    }
  }
}
