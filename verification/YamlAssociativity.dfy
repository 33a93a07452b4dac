/** Merging is associative, key order and failure included. */
module YamlAssociativity {
  import opened YamlTree
  import opened YamlPaths
  import opened YamlExtension

  function Keys(es: seq<Entry>): (ks: seq<string>)
    ensures |ks| == |es| && forall i :: 0 <= i < |es| ==> ks[i] == es[i].key
  {
    seq(|es|, i requires 0 <= i < |es| => es[i].key)
  }

  /** The elements of xs that are not in ys, in order. */
  function Minus<T(==)>(xs: seq<T>, ys: seq<T>): seq<T> {
    if xs == [] then []
    else if xs[0] in ys then Minus(xs[1..], ys)
    else [xs[0]] + Minus(xs[1..], ys)
  }

  lemma {:induction false} MinusMembers<T(!new)>(xs: seq<T>, ys: seq<T>)
    ensures forall x :: x in Minus(xs, ys) <==> x in xs && x !in ys
  {
    if xs != [] {
      MinusMembers(xs[1..], ys);
    }
  }

  lemma {:induction false} MinusConcat<T(!new)>(xs: seq<T>, ys: seq<T>, zs: seq<T>)
    ensures Minus(xs + ys, zs) == Minus(xs, zs) + Minus(ys, zs)
  {
    if xs == [] {
      assert xs + ys == ys;
    } else {
      MinusConcat(xs[1..], ys, zs);
      assert (xs + ys)[0] == xs[0] && (xs + ys)[1..] == xs[1..] + ys;
      assert [xs[0]] + (Minus(xs[1..], zs) + Minus(ys, zs)) == ([xs[0]] + Minus(xs[1..], zs)) + Minus(ys, zs);
    }
  }

  lemma {:induction false} MinusTwice<T(!new)>(xs: seq<T>, ys: seq<T>, zs: seq<T>)
    ensures Minus(Minus(xs, ys), zs) == Minus(xs, zs + ys)
  {
    if xs != [] {
      MinusTwice(xs[1..], ys, zs);
      if xs[0] !in ys {
        assert ([xs[0]] + Minus(xs[1..], ys))[1..] == Minus(xs[1..], ys);
      }
    }
  }

  lemma {:induction false} MinusSameMembers<T(!new)>(xs: seq<T>, ys: seq<T>, zs: seq<T>)
    requires forall x :: x in xs ==> (x in ys <==> x in zs)
    ensures Minus(xs, ys) == Minus(xs, zs)
  {
    if xs != [] {
      MinusSameMembers(xs[1..], ys, zs);
    }
  }

  lemma LookupMember(es: seq<Entry>, k: string)
    ensures k in Keys(es) <==> Lookup(es, k).Some?
  {
    var j := Find(es, k);
    assert j < |es| ==> Keys(es)[j] == k;
  }

  /** After a successful merge the target's keys come first, then the new keys in the order of `from`. */
  lemma {:induction false} MergeEntriesKeys(fs: seq<Entry>, es: seq<Entry>)
    requires UniqueKeys(fs) && MergeEntries(fs, es).1.None?
    ensures Keys(MergeEntries(fs, es).0) == Keys(es) + Minus(Keys(fs), Keys(es))
    decreases fs
  {
    if fs != [] {
      var f := fs[0];
      var es' := MergeEntry(f, es).0;
      UniqueTail(fs);
      MergeEntriesKeys(fs[1..], es');
      LookupMember(es, f.key);
      LookupMember(fs[1..], f.key);
      assert Keys(fs)[1..] == Keys(fs[1..]);
      if Lookup(es, f.key).Some? {
        assert Keys(es') == Keys(es);
      } else {
        assert Keys(es') == Keys(es) + [f.key];
        MinusSameMembers(Keys(fs[1..]), Keys(es'), Keys(es));
      }
    }
  }

  /** Entry lists with unique keys are determined by their key order and their lookups. */
  lemma EntriesExtensional(xs: seq<Entry>, ys: seq<Entry>)
    requires UniqueKeys(xs) && UniqueKeys(ys) && Keys(xs) == Keys(ys)
    requires forall k :: Lookup(xs, k) == Lookup(ys, k)
    ensures xs == ys
  {
    assert |xs| == |Keys(xs)| == |ys|;
    forall i | 0 <= i < |xs| ensures xs[i] == ys[i] {
      assert Keys(xs)[i] == Keys(ys)[i];
      assert Find(xs, xs[i].key) == i == Find(ys, xs[i].key);
      assert Lookup(xs, xs[i].key) == Lookup(ys, xs[i].key);
    }
  }

  /** The outcome of two merges in a row, where a failure of the first is a failure of both. */
  predicate BothSucceed(first: Outcome, second: Outcome) {
    first.err.None? && second.err.None?
  }

  /** Merging a into (b into c), and merging (a into b) into c: either both fail, or both
      succeed with the same tree. */
  lemma {:induction false} MergeAssociative(a: Tree, b: Tree, c: Tree)
    requires Distinct(a) && Distinct(b) && Distinct(c)
    requires Plain(a) && Plain(b) && Plain(c)
    ensures var bc := Merge(b, c);
            var ab := Merge(a, b);
            && (BothSucceed(bc, Merge(a, bc.tree)) <==> BothSucceed(ab, Merge(ab.tree, c)))
            && (BothSucceed(bc, Merge(a, bc.tree)) ==> Merge(a, bc.tree).tree == Merge(ab.tree, c).tree)
    decreases a
  {
    if a.Mapping? && b.Mapping? && c.Mapping? {
      EntriesAssociative(a.entries, b.entries, c.entries);
    } else if a.Sequence? && b.Sequence? && c.Sequence? {
      assert (c.items + b.items) + a.items == c.items + (b.items + a.items);
    }
  }

  /** `MergeAssociative` for the values under one key, each of which may be missing. */
  ghost predicate AssociativeAt(a: seq<Entry>, b: seq<Entry>, c: seq<Entry>, k: string) {
    var x, y, z := Lookup(a, k), Lookup(b, k), Lookup(c, k);
    x.Some? && y.Some? && z.Some? ==>
      var yz := Merge(y.value, z.value);
      var xy := Merge(x.value, y.value);
      && (BothSucceed(yz, Merge(x.value, yz.tree)) <==> BothSucceed(xy, Merge(xy.tree, z.value)))
      && (BothSucceed(yz, Merge(x.value, yz.tree)) ==> Merge(x.value, yz.tree).tree == Merge(xy.tree, z.value).tree)
  }

  lemma {:induction false} EntriesAssociative(a: seq<Entry>, b: seq<Entry>, c: seq<Entry>)
    requires Distinct(Mapping(a)) && Distinct(Mapping(b)) && Distinct(Mapping(c))
    requires Plain(Mapping(a)) && Plain(Mapping(b)) && Plain(Mapping(c))
    ensures var (bc, bcErr) := MergeEntries(b, c);
            var (ab, abErr) := MergeEntries(a, b);
            && ((bcErr.None? && MergeEntries(a, bc).1.None?) <==> (abErr.None? && MergeEntries(ab, c).1.None?))
            && (bcErr.None? && MergeEntries(a, bc).1.None? ==> MergeEntries(a, bc).0 == MergeEntries(ab, c).0)
    decreases a
  {
    forall k ensures AssociativeAt(a, b, c, k) {
      if Lookup(a, k).Some? && Lookup(b, k).Some? && Lookup(c, k).Some? {
        var i, j, l := Find(a, k), Find(b, k), Find(c, k);
        MergeAssociative(a[i].val, b[j].val, c[l].val);
      }
    }
    SameSuccess(a, b, c);
    if MergeEntries(b, c).1.None? && MergeEntries(a, MergeEntries(b, c).0).1.None? {
      SameEntries(a, b, c);
    }
  }

  lemma SameSuccess(a: seq<Entry>, b: seq<Entry>, c: seq<Entry>)
    requires Distinct(Mapping(a)) && Distinct(Mapping(b)) && Distinct(Mapping(c))
    requires forall k :: AssociativeAt(a, b, c, k)
    ensures (MergeEntries(b, c).1.None? && MergeEntries(a, MergeEntries(b, c).0).1.None?) <==>
            (MergeEntries(a, b).1.None? && MergeEntries(MergeEntries(a, b).0, c).1.None?)
  {
    if MergeEntries(b, c).1.None? && MergeEntries(a, MergeEntries(b, c).0).1.None? {
      RightThenLeft(a, b, c);
    }
    if MergeEntries(a, b).1.None? && MergeEntries(MergeEntries(a, b).0, c).1.None? {
      LeftThenRight(a, b, c);
    }
  }

  lemma RightThenLeft(a: seq<Entry>, b: seq<Entry>, c: seq<Entry>)
    requires Distinct(Mapping(a)) && Distinct(Mapping(b)) && Distinct(Mapping(c))
    requires forall k :: AssociativeAt(a, b, c, k)
    requires MergeEntries(b, c).1.None? && MergeEntries(a, MergeEntries(b, c).0).1.None?
    ensures MergeEntries(a, b).1.None? && MergeEntries(MergeEntries(a, b).0, c).1.None?
  {
    var ab := MergeEntries(a, b).0;
    forall k ensures Agree(a, b, k) {
      SuccessAt(a, b, c, k);
    }
    MergeEntriesSucceed(a, b);
    MergeEntriesKeepDistinct(a, b);
    forall k ensures Agree(ab, c, k) {
      MergeEntriesLookup(a, b, k);
      SuccessAt(a, b, c, k);
    }
    MergeEntriesSucceed(ab, c);
  }

  lemma LeftThenRight(a: seq<Entry>, b: seq<Entry>, c: seq<Entry>)
    requires Distinct(Mapping(a)) && Distinct(Mapping(b)) && Distinct(Mapping(c))
    requires forall k :: AssociativeAt(a, b, c, k)
    requires MergeEntries(a, b).1.None? && MergeEntries(MergeEntries(a, b).0, c).1.None?
    ensures MergeEntries(b, c).1.None? && MergeEntries(a, MergeEntries(b, c).0).1.None?
  {
    var bc := MergeEntries(b, c).0;
    MergeEntriesKeepDistinct(a, b);
    forall k ensures Agree(b, c, k) {
      SuccessFromLeft(a, b, c, k);
    }
    MergeEntriesSucceed(b, c);
    forall k ensures Agree(a, bc, k) {
      MergeEntriesLookup(b, c, k);
      SuccessFromLeft(a, b, c, k);
    }
    MergeEntriesSucceed(a, bc);
  }

  lemma SuccessFromLeft(a: seq<Entry>, b: seq<Entry>, c: seq<Entry>, k: string)
    requires UniqueKeys(a) && UniqueKeys(MergeEntries(a, b).0)
    requires AssociativeAt(a, b, c, k)
    requires MergeEntries(a, b).1.None? && MergeEntries(MergeEntries(a, b).0, c).1.None?
    ensures Agree(b, c, k)
    ensures var x, y, z := Lookup(a, k), Lookup(b, k), Lookup(c, k);
            x.Some? && Overlay(y, z).Some? ==> Merge(x.value, Overlay(y, z).value).err.None?
  {
    var ab := MergeEntries(a, b).0;
    MergeEntriesSucceed(a, b);
    MergeEntriesSucceed(ab, c);
    MergeEntriesLookup(a, b, k);
    assert Agree(ab, c, k) && Agree(a, b, k);
  }

  lemma SuccessAt(a: seq<Entry>, b: seq<Entry>, c: seq<Entry>, k: string)
    requires UniqueKeys(a) && UniqueKeys(b)
    requires AssociativeAt(a, b, c, k)
    requires MergeEntries(b, c).1.None? && MergeEntries(a, MergeEntries(b, c).0).1.None?
    ensures Agree(a, b, k)
    ensures var x, y, z := Lookup(a, k), Lookup(b, k), Lookup(c, k);
            Overlay(x, y).Some? && z.Some? ==> Merge(Overlay(x, y).value, z.value).err.None?
  {
    var bc := MergeEntries(b, c).0;
    MergeEntriesSucceed(b, c);
    MergeEntriesSucceed(a, bc);
    MergeEntriesLookup(b, c, k);
    assert Agree(b, c, k) && Agree(a, bc, k);
  }

  lemma SameEntries(a: seq<Entry>, b: seq<Entry>, c: seq<Entry>)
    requires Distinct(Mapping(a)) && Distinct(Mapping(b)) && Distinct(Mapping(c))
    requires forall k :: AssociativeAt(a, b, c, k)
    requires MergeEntries(b, c).1.None? && MergeEntries(a, MergeEntries(b, c).0).1.None?
    ensures MergeEntries(a, MergeEntries(b, c).0).0 == MergeEntries(MergeEntries(a, b).0, c).0
  {
    SameSuccess(a, b, c);
    var bc, ab := MergeEntries(b, c).0, MergeEntries(a, b).0;
    var left, right := MergeEntries(a, bc).0, MergeEntries(ab, c).0;
    MergeEntriesKeepDistinct(b, c);
    MergeEntriesKeepDistinct(a, b);
    MergeEntriesKeepDistinct(a, bc);
    MergeEntriesKeepDistinct(ab, c);
    assert Keys(left) == Keys(right) by {
      SameKeys(a, b, c);
    }
    forall k ensures Lookup(left, k) == Lookup(right, k) {
      MergeEntriesLookup(b, c, k);
      MergeEntriesLookup(a, b, k);
      MergeEntriesLookup(a, bc, k);
      MergeEntriesLookup(ab, c, k);
      MergeEntriesSucceed(b, c);
      MergeEntriesSucceed(a, bc);
      assert Agree(b, c, k) && Agree(a, bc, k) && AssociativeAt(a, b, c, k);
    }
    EntriesExtensional(left, right);
  }

  lemma MinusAssociates<T(!new)>(ka: seq<T>, kb: seq<T>, kc: seq<T>)
    ensures kc + Minus(kb, kc) + Minus(ka, kc + Minus(kb, kc)) == kc + Minus(kb + Minus(ka, kb), kc)
  {
    MinusConcat(kb, Minus(ka, kb), kc);
    MinusTwice(ka, kb, kc);
    MinusMembers(kb, kc);
    MinusSameMembers(ka, kc + Minus(kb, kc), kc + kb);
    assert kc + Minus(kb, kc) + Minus(ka, kc + kb) == kc + (Minus(kb, kc) + Minus(ka, kc + kb));
  }

  lemma SameKeys(a: seq<Entry>, b: seq<Entry>, c: seq<Entry>)
    requires UniqueKeys(a) && UniqueKeys(b) && UniqueKeys(MergeEntries(a, b).0)
    requires MergeEntries(b, c).1.None? && MergeEntries(a, MergeEntries(b, c).0).1.None?
    requires MergeEntries(a, b).1.None? && MergeEntries(MergeEntries(a, b).0, c).1.None?
    ensures Keys(MergeEntries(a, MergeEntries(b, c).0).0) == Keys(MergeEntries(MergeEntries(a, b).0, c).0)
  {
    var bc, ab := MergeEntries(b, c).0, MergeEntries(a, b).0;
    MergeEntriesKeys(b, c);
    MergeEntriesKeys(a, b);
    MergeEntriesKeys(a, bc);
    MergeEntriesKeys(ab, c);
    MinusAssociates(Keys(a), Keys(b), Keys(c));
  }

  /** If b clashes with c, whether a is merged depends on the order: merged into the document
      of b it comes after the clash and is lost. */
  lemma DocumentMergeNotAssociative(x: string, k: string, u: Tree, v: string, w: string)
    requires x != k
    ensures var a, b, c := Mapping([Entry(x, u)]), Mapping([Entry(k, Scalar(v))]), Mapping([Entry(k, Scalar(w))]);
            && Merge(Document(a), Merge(Document(b), Document(c)).tree).tree == Document(Mapping(c.entries + a.entries))
            && Merge(Merge(Document(a), Document(b)).tree, Document(c)).tree == Document(c)
  {
    var ea, eb, ec := Entry(x, u), Entry(k, Scalar(v)), Entry(k, Scalar(w));
    assert Find([ec], k) == 0 && Find([ec], x) == 1 && Find([eb], x) == 1;
    MergeOne(eb, [ec]);
    MergeOne(ea, [ec]);
    MergeOne(ea, [eb]);
    assert [eb] + [ea] == [eb, ea] && [eb, ea][0] == eb;
    assert Merge(Mapping([eb]), Mapping([ec])).tree == Mapping([ec]);
    assert Merge(Mapping([ea]), Mapping([eb])).tree == Mapping([eb, ea]);
    assert Merge(Mapping([ea]), Mapping([ec])).tree == Mapping([ec] + [ea]);
    assert MergeEntries([eb, ea], [ec]).0 == [ec];
  }

  lemma MergeOne(f: Entry, es: seq<Entry>)
    ensures MergeEntries([f], es) == MergeEntry(f, es)
    ensures Find(es, f.key) < |es| && Merge(f.val, es[Find(es, f.key)].val).tree == es[Find(es, f.key)].val ==> MergeEntry(f, es).0 == es
  {
    assert [f][1..] == [];
  }
}
