/** Merging many configurations: which lists of them can be merged without loss, and why the order
    in which neighbours are merged then does not matter. */
module YamlGroupings {
  import opened YamlTree
  import opened YamlExtension
  import opened YamlPaths
  import opened YamlAssociativity

  /** No path that both trees have ends in a clash. */
  ghost predicate Clear(a: Tree, b: Tree) {
    forall path :: !ClashAt(a, b, path)
  }

  ghost predicate Proper(t: Tree) {
    Distinct(t) && Plain(t)
  }

  /** A list of trees with brackets: which neighbours are merged first. */
  datatype Grouping = One(tree: Tree) | Pair(left: Grouping, right: Grouping)

  function Trees(g: Grouping): (ts: seq<Tree>)
    ensures ts != []
  {
    match g
    case One(t) => [t]
    case Pair(l, r) => Trees(l) + Trees(r)
  }

  /** What merging the documents of the trees, as grouped, leaves in the last one. */
  function MergeDocumentsOf(g: Grouping): Tree {
    match g
    case One(t) => Document(t)
    case Pair(l, r) => Merge(MergeDocumentsOf(l), MergeDocumentsOf(r)).tree
  }

  /** The tree below that document. */
  function Result(g: Grouping): Tree {
    match g
    case One(t) => t
    case Pair(l, r) => Merge(Result(l), Result(r)).tree
  }

  /** None of the merges drops a failure. */
  predicate Lossless(g: Grouping) {
    match g
    case One(_) => true
    case Pair(l, r) => Lossless(l) && Lossless(r) && Merge(Result(l), Result(r)).err.None?
  }

  lemma {:induction false} ResultIsBelowDocument(g: Grouping)
    ensures MergeDocumentsOf(g) == Document(Result(g))
  {
    if g.Pair? {
      ResultIsBelowDocument(g.left);
      ResultIsBelowDocument(g.right);
    }
  }

  // ----- Clashes with a merged tree -----

  lemma {:induction false} MergeKeepsPlain(from: Tree, into: Tree)
    requires Plain(from) && Plain(into)
    ensures Plain(Merge(from, into).tree)
    decreases from
  {
    if from.Mapping? && into.Mapping? {
      MergeEntriesKeepPlain(from.entries, into.entries);
    }
  }

  lemma {:induction false} MergeEntriesKeepPlain(fs: seq<Entry>, es: seq<Entry>)
    requires Plain(Mapping(es)) && forall i :: 0 <= i < |fs| ==> Plain(fs[i].val)
    ensures Plain(Mapping(MergeEntries(fs, es).0))
    decreases fs
  {
    if fs != [] {
      var j := Find(es, fs[0].key);
      if j < |es| {
        MergeKeepsPlain(fs[0].val, es[j].val);
      }
      var (es', err) := MergeEntry(fs[0], es);
      assert Plain(Mapping(es'));
      if err.None? {
        MergeEntriesKeepPlain(fs[1..], es');
      }
    }
  }

  lemma SucceedsIffClear(a: Tree, b: Tree)
    requires Distinct(a)
    ensures Merge(a, b).err.None? <==> Clear(a, b)
  {
    MergeSucceedsIffNoClash(a, b);
  }

  /** A successful merge clashes with a third tree at a path exactly when one of its inputs does,
      whichever of the two is merged into the other. */
  lemma ClashWithMerged(a: Tree, b: Tree, t: Tree, path: seq<string>)
    requires Distinct(a) && Merge(a, b).err.None?
    ensures ClashAt(t, Merge(a, b).tree, path) <==> ClashAt(t, a, path) || ClashAt(t, b, path)
    ensures ClashAt(Merge(a, b).tree, t, path) <==> ClashAt(a, t, path) || ClashAt(b, t, path)
  {
    MergeAtPath(a, b, path);
  }

  lemma ClearOfMerged(a: Tree, b: Tree, t: Tree)
    requires Distinct(a) && Merge(a, b).err.None?
    ensures Clear(t, Merge(a, b).tree) <==> Clear(t, a) && Clear(t, b)
    ensures Clear(Merge(a, b).tree, t) <==> Clear(a, t) && Clear(b, t)
  {
    forall path
      ensures ClashAt(t, Merge(a, b).tree, path) <==> ClashAt(t, a, path) || ClashAt(t, b, path)
      ensures ClashAt(Merge(a, b).tree, t, path) <==> ClashAt(a, t, path) || ClashAt(b, t, path)
    {
      ClashWithMerged(a, b, t, path);
    }
  }

  ghost predicate AllProper(ts: seq<Tree>) {
    forall t <- ts :: Proper(t)
  }

  ghost predicate PairwiseClear(ts: seq<Tree>) {
    forall i, j :: 0 <= i < j < |ts| ==> Clear(ts[i], ts[j])
  }

  ghost predicate CrossClear(xs: seq<Tree>, ys: seq<Tree>) {
    forall x, y :: x in xs && y in ys ==> Clear(x, y)
  }

  lemma PairwiseClearConcat(xs: seq<Tree>, ys: seq<Tree>)
    ensures PairwiseClear(xs + ys) <==> PairwiseClear(xs) && PairwiseClear(ys) && CrossClear(xs, ys)
  {
    var all := xs + ys;
    if PairwiseClear(all) {
      forall i, j | 0 <= i < j < |xs| ensures Clear(xs[i], xs[j]) {
        assert Clear(all[i], all[j]);
      }
      forall i, j | 0 <= i < j < |ys| ensures Clear(ys[i], ys[j]) {
        assert Clear(all[|xs| + i], all[|xs| + j]);
      }
      forall x, y | x in xs && y in ys ensures Clear(x, y) {
        var i :| 0 <= i < |xs| && xs[i] == x;
        var j :| 0 <= j < |ys| && ys[j] == y;
        assert Clear(all[i], all[|xs| + j]);
      }
    }
  }

  lemma {:induction false} ResultIsProper(g: Grouping)
    requires AllProper(Trees(g))
    ensures Proper(Result(g))
  {
    match g
    case One(t) => assert Trees(g)[0] == t;
    case Pair(l, r) =>
      ResultIsProper(l);
      ResultIsProper(r);
      MergeKeepsDistinct(Result(l), Result(r));
      MergeKeepsPlain(Result(l), Result(r));
  }

  /** A tree is clear of the result of a lossless grouping exactly when it is of all its trees. */
  lemma {:induction false} ClearOfResult(g: Grouping, t: Tree)
    requires AllProper(Trees(g)) && Lossless(g)
    ensures Clear(t, Result(g)) <==> forall u <- Trees(g) :: Clear(t, u)
    ensures Clear(Result(g), t) <==> forall u <- Trees(g) :: Clear(u, t)
  {
    match g
    case One(u) => assert Trees(g)[0] == u;
    case Pair(l, r) =>
      ClearOfResult(l, t);
      ClearOfResult(r, t);
      ResultIsProper(l);
      ClearOfMerged(Result(l), Result(r), t);
      assert forall u :: u in Trees(g) <==> u in Trees(l) || u in Trees(r);
  }

  lemma CrossClearOfResults(l: Grouping, r: Grouping)
    requires AllProper(Trees(l)) && AllProper(Trees(r)) && Lossless(l) && Lossless(r)
    ensures Clear(Result(l), Result(r)) <==> CrossClear(Trees(l), Trees(r))
  {
    ClearOfResult(l, Result(r));
    forall u | u in Trees(l) ensures Clear(u, Result(r)) <==> forall v <- Trees(r) :: Clear(u, v) {
      ClearOfResult(r, u);
    }
  }

  /** No merge of a grouping drops a failure exactly when no two of the trees clash, a condition on
      the inputs alone; so it does not depend on the brackets. */
  lemma {:induction false} LosslessIffPairwiseClear(g: Grouping)
    requires AllProper(Trees(g))
    ensures Lossless(g) <==> PairwiseClear(Trees(g))
  {
    if g.Pair? {
      var xs, ys := Trees(g.left), Trees(g.right);
      assert forall t <- xs :: t in Trees(g);
      assert forall t <- ys :: t in Trees(g);
      LosslessIffPairwiseClear(g.left);
      LosslessIffPairwiseClear(g.right);
      PairwiseClearConcat(xs, ys);
      if Lossless(g.left) && Lossless(g.right) {
        ResultIsProper(g.left);
        SucceedsIffClear(Result(g.left), Result(g.right));
        CrossClearOfResults(g.left, g.right);
      }
    }
  }

  // ----- The order of merging -----

  /** Everything is merged into the last tree, from the right. */
  function FromTheRight(ts: seq<Tree>): (g: Grouping)
    requires ts != []
    ensures Trees(g) == ts
  {
    if |ts| == 1 then One(ts[0]) else Pair(One(ts[0]), FromTheRight(ts[1..]))
  }

  lemma {:induction false} MergeOfConcat(xs: seq<Tree>, ys: seq<Tree>)
    requires xs != [] && ys != [] && AllProper(xs) && AllProper(ys) && PairwiseClear(xs + ys)
    ensures Result(FromTheRight(xs + ys)) == Merge(Result(FromTheRight(xs)), Result(FromTheRight(ys))).tree
    decreases |xs|
  {
    if |xs| == 1 {
      assert (xs + ys)[1..] == ys;
    } else {
      var x, rest := xs[0], xs[1..];
      assert (xs + ys)[1..] == rest + ys && [x] + (rest + ys) == xs + ys;
      PairwiseClearConcat([x], rest + ys);
      MergeOfConcat(rest, ys);
      PairwiseClearConcat(rest, ys);
      var b, c := FromTheRight(rest), FromTheRight(ys);
      assert x in xs && x in [x] && forall t <- rest :: t in xs;
      assert (forall t <- rest :: t in rest + ys) && forall t <- ys :: t in rest + ys;
      OneThenTwo(x, b, c);
    }
  }

  lemma ClearTreesAssociate(a: Tree, b: Tree, c: Tree)
    requires Proper(a) && Proper(b) && Proper(c)
    requires Clear(a, b) && Clear(a, c) && Clear(b, c)
    ensures Merge(a, Merge(b, c).tree).tree == Merge(Merge(a, b).tree, c).tree
  {
    SucceedsIffClear(b, c);
    ClearOfMerged(b, c, a);
    SucceedsIffClear(a, Merge(b, c).tree);
    MergeAssociative(a, b, c);
  }

  lemma OneThenTwo(x: Tree, l: Grouping, r: Grouping)
    requires Proper(x) && AllProper(Trees(l)) && AllProper(Trees(r))
    requires PairwiseClear(Trees(l)) && PairwiseClear(Trees(r)) && CrossClear(Trees(l), Trees(r))
    requires (forall t <- Trees(l) :: Clear(x, t)) && forall t <- Trees(r) :: Clear(x, t)
    ensures Merge(x, Merge(Result(l), Result(r)).tree).tree == Merge(Merge(x, Result(l)).tree, Result(r)).tree
  {
    LosslessIffPairwiseClear(l);
    LosslessIffPairwiseClear(r);
    CrossClearOfResults(l, r);
    ClearOfResult(l, x);
    ClearOfResult(r, x);
    ResultIsProper(l);
    ResultIsProper(r);
    ClearTreesAssociate(x, Result(l), Result(r));
  }

  /** If no two of the trees clash, every grouping of their documents gives the same document,
      which holds all of them; in particular any two groupings of one list agree. */
  lemma {:induction false} GroupingDoesNotMatter(g: Grouping)
    requires AllProper(Trees(g)) && PairwiseClear(Trees(g))
    ensures MergeDocumentsOf(g) == Document(Result(FromTheRight(Trees(g))))
  {
    ResultIsBelowDocument(g);
    SameResult(g);
  }

  lemma {:induction false} SameResult(g: Grouping)
    requires AllProper(Trees(g)) && PairwiseClear(Trees(g))
    ensures Result(g) == Result(FromTheRight(Trees(g)))
  {
    if g.Pair? {
      var xs, ys := Trees(g.left), Trees(g.right);
      assert forall t <- xs :: t in Trees(g);
      assert forall t <- ys :: t in Trees(g);
      PairwiseClearConcat(xs, ys);
      SameResult(g.left);
      SameResult(g.right);
      MergeOfConcat(xs, ys);
    }
  }

  // ----- Three documents -----

  lemma TreesOfPair(a: Tree, b: Tree)
    ensures Trees(Pair(One(a), One(b))) == [a, b]
  {
    assert Trees(One(a)) == [a] && Trees(One(b)) == [b];
  }

  /** Both orders of merging three documents are lossless exactly when no two of them clash. */
  lemma ThreeAreLosslessIffClear(a: Tree, b: Tree, c: Tree)
    requires Proper(a) && Proper(b) && Proper(c)
    ensures Lossless(Pair(One(a), Pair(One(b), One(c)))) <==> Clear(a, b) && Clear(a, c) && Clear(b, c)
    ensures Lossless(Pair(Pair(One(a), One(b)), One(c))) <==> Clear(a, b) && Clear(a, c) && Clear(b, c)
  {
    var g, h := Pair(One(a), Pair(One(b), One(c))), Pair(Pair(One(a), One(b)), One(c));
    var ts := [a, b, c];
    TreesOfPair(b, c);
    TreesOfPair(a, b);
    assert Trees(One(a)) == [a] && Trees(One(c)) == [c];
    assert Trees(g) == [a] + [b, c] == ts && Trees(h) == [a, b] + [c] == ts;
    LosslessIffPairwiseClear(g);
    LosslessIffPairwiseClear(h);
    assert PairwiseClear(ts) ==> Clear(ts[0], ts[1]) && Clear(ts[0], ts[2]) && Clear(ts[1], ts[2]);
  }

  /** Documents whose trees do not clash pairwise can be merged in either order. */
  lemma DocumentMergeAssociative(a: Tree, b: Tree, c: Tree)
    requires Proper(a) && Proper(b) && Proper(c)
    requires Clear(a, b) && Clear(a, c) && Clear(b, c)
    ensures Merge(Document(a), Merge(Document(b), Document(c)).tree) == Merge(Merge(Document(a), Document(b)).tree, Document(c))
  {
    ClearTreesAssociate(a, b, c);
  }

  /** The converse does not hold: with nothing to merge in a, both orders agree whatever b and c
      lose to each other. */
  lemma EqualDespiteClash(b: Tree, c: Tree)
    requires b.Mapping? && c.Mapping?
    ensures var a := Document(Mapping([]));
            Merge(a, Merge(Document(b), Document(c)).tree).tree == Merge(Merge(a, Document(b)).tree, Document(c)).tree
  {
  }
}
