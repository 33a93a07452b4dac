/** Merging only ever extends its target, whether or not it succeeds. */
module YamlExtension {
  import opened YamlTree

  /** t keeps everything s has, at the same position: scalars and aliases are equal,
      sequences grow at the end, mappings keep their entries in order. */
  ghost predicate Extends(s: Tree, t: Tree)
    decreases s
  {
    SameKind(s, t) &&
    match s
    case Mapping(es) => EntriesExtend(es, t.entries)
    case Sequence(items) => items <= t.items
    case Document(child) => Extends(child, t.child)
    case _ => s == t
  }

  ghost predicate EntriesExtend(es: seq<Entry>, es': seq<Entry>)
    decreases es
  {
    && |es| <= |es'|
    && forall i :: 0 <= i < |es| ==> es[i].key == es'[i].key && Extends(es[i].val, es'[i].val)
  }

  lemma {:induction false} ExtendsReflexive(t: Tree)
    ensures Extends(t, t)
  {
    match t
    case Mapping(es) =>
      forall i | 0 <= i < |es| ensures Extends(es[i].val, es[i].val) {
        ExtendsReflexive(es[i].val);
      }
    case Document(child) => ExtendsReflexive(child);
    case _ =>
  }

  lemma {:induction false} ExtendsTransitive(r: Tree, s: Tree, t: Tree)
    requires Extends(r, s) && Extends(s, t)
    ensures Extends(r, t)
    decreases r
  {
    match r
    case Mapping(es) => EntriesExtendTransitive(es, s.entries, t.entries);
    case Document(child) => ExtendsTransitive(child, s.child, t.child);
    case _ =>
  }

  lemma {:induction false} EntriesExtendTransitive(r: seq<Entry>, s: seq<Entry>, t: seq<Entry>)
    requires EntriesExtend(r, s) && EntriesExtend(s, t)
    ensures EntriesExtend(r, t)
    decreases r
  {
    forall i | 0 <= i < |r| ensures Extends(r[i].val, t[i].val) {
      ExtendsTransitive(r[i].val, s[i].val, t[i].val);
    }
  }

  /** Success or failure, the target is extended. */
  lemma {:induction false} MergeExtends(from: Tree, into: Tree)
    ensures Extends(into, Merge(from, into).tree)
    decreases from
  {
    if !SameKind(from, into) {
      ExtendsReflexive(into);
    } else {
      match from
      case Mapping(fs) => MergeEntriesExtends(fs, into.entries);
      case Document(child) => MergeExtends(child, into.child);
      case _ => ExtendsReflexive(into);
    }
  }

  lemma {:induction false} MergeEntriesExtends(fs: seq<Entry>, es: seq<Entry>)
    ensures EntriesExtend(es, MergeEntries(fs, es).0)
    decreases fs
  {
    forall i | 0 <= i < |es| ensures Extends(es[i].val, es[i].val) {
      ExtendsReflexive(es[i].val);
    }
    if fs != [] {
      var j := Find(es, fs[0].key);
      if j < |es| {
        MergeExtends(fs[0].val, es[j].val);
      }
      var (es', err) := MergeEntry(fs[0], es);
      assert EntriesExtend(es, es');
      if err.None? {
        MergeEntriesExtends(fs[1..], es');
        EntriesExtendTransitive(es, es', MergeEntries(fs[1..], es').0);
      }
    }
  }

  /** Merging key-distinct trees never creates a duplicate key, failure included. */
  lemma {:induction false} MergeKeepsDistinct(from: Tree, into: Tree)
    requires Distinct(from) && Distinct(into)
    ensures Distinct(Merge(from, into).tree)
    decreases from
  {
    if SameKind(from, into) {
      match from
      case Mapping(fs) => MergeEntriesKeepDistinct(fs, into.entries);
      case Document(child) => MergeKeepsDistinct(child, into.child);
      case _ =>
    }
  }

  lemma {:induction false} MergeEntriesKeepDistinct(fs: seq<Entry>, es: seq<Entry>)
    requires forall i :: 0 <= i < |fs| ==> Distinct(fs[i].val)
    requires Distinct(Mapping(es))
    ensures Distinct(Mapping(MergeEntries(fs, es).0))
    decreases fs
  {
    if fs != [] {
      var j := Find(es, fs[0].key);
      if j < |es| {
        MergeKeepsDistinct(fs[0].val, es[j].val);
      }
      var (es', err) := MergeEntry(fs[0], es);
      assert Distinct(Mapping(es'));
      if err.None? {
        MergeEntriesKeepDistinct(fs[1..], es');
      }
    }
  }
}
