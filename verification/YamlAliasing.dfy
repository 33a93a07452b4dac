/** What distinct keys are needed for: with a key twice in one mapping of the source, the merge
    writes to the source. */
module YamlAliasing {
  import opened Wrappers
  import opened YamlTree
  import opened YamlNode

  function OneItem(k: string, x: string): Entry {
    Entry(k, Sequence([Scalar(x)]))
  }

  function TwoItems(x: string, y: string): Tree {
    Sequence([Scalar(x), Scalar(y)])
  }

  lemma BothUnderOneKey(k: string, x: string, y: string)
    ensures Merge(Mapping([OneItem(k, x), OneItem(k, y)]), Mapping([])) == Outcome(Mapping([Entry(k, TwoItems(x, y))]), None)
  {
    var a, b := OneItem(k, x), OneItem(k, y);
    assert [a, b][1..] == [b] && [b][1..] == [];
    assert [] + [a] == [a];
    assert MergeEntry(a, []) == ([a], None);
    assert [Scalar(x)] + [Scalar(y)] == [Scalar(x), Scalar(y)];
    assert Find([a], k) == 0;
    assert [a][0 := Entry(k, TwoItems(x, y))] == [Entry(k, TwoItems(x, y))];
    assert MergeEntry(b, [a]) == ([Entry(k, TwoItems(x, y))], None);
    assert MergeEntries([b], [a]) == ([Entry(k, TwoItems(x, y))], None);
    assert MergeEntries([a, b], []) == MergeEntries([b], [a]);
  }

  method MakeList(item: string) returns (n: Node)
    ensures n.Valid() && fresh(n.Repr) && n.kind == SequenceNode
    ensures n.tree == Sequence([Scalar(item)]) && |n.content| == 1
    ensures forall m <- n.Repr :: m == n || m.kind == ScalarNode
  {
    var s := new Node(ScalarNode, item);
    n := new Node(SequenceNode, "");
    Append(n, [s], {s}, Sequence([Scalar(item)]));
  }

  lemma FourApart(j: Node, a: Node, l: Node, b: Node, owner: Node)
    requires j.Valid() && a.Valid() && l.Valid() && b.Valid()
    requires j.Repr == {j} && l.Repr == {l} && j != l && j !in a.Repr + b.Repr && l !in a.Repr + b.Repr && a.Repr !! b.Repr
    requires owner !in {j, l} + a.Repr + b.Repr
    ensures Owns([j, a, l, b], owner, {j, l} + a.Repr + b.Repr)
  {
    var ns := [j, a, l, b];
    assert ns[0].Repr !! ns[1].Repr && ns[0].Repr !! ns[2].Repr && ns[0].Repr !! ns[3].Repr;
    assert ns[1].Repr !! ns[2].Repr && ns[1].Repr !! ns[3].Repr && ns[2].Repr !! ns[3].Repr;
  }

  lemma FourEntries(j: Node, a: Node, l: Node, b: Node)
    requires j.kind == l.kind == ScalarNode
    ensures IsEntries([j, a, l, b], [Entry(j.value, a.tree), Entry(l.value, b.tree)])
  {
  }

  method Fill(n: Node, j: Node, a: Node, l: Node, b: Node)
    requires n.Valid() && n.Repr == {n} && n.kind == MappingNode && n.content == []
    requires j.Valid() && a.Valid() && l.Valid() && b.Valid() && j.kind == l.kind == ScalarNode
    requires j.Repr == {j} && l.Repr == {l} && j != l && j !in a.Repr + b.Repr && l !in a.Repr + b.Repr && a.Repr !! b.Repr
    requires n !in {j, l} + a.Repr + b.Repr
    modifies n
    ensures n.Valid() && n.Repr == {n, j, l} + a.Repr + b.Repr
    ensures n.tree == Mapping([Entry(j.value, a.tree), Entry(l.value, b.tree)])
  {
    FourApart(j, a, l, b, n);
    FourEntries(j, a, l, b);
    assert n.content + [j, a, l, b] == [j, a, l, b];
    Append(n, [j, a, l, b], {j, l} + a.Repr + b.Repr, Mapping([Entry(j.value, a.tree), Entry(l.value, b.tree)]));
  }

  method MakeKeys(k: string) returns (j: Node, l: Node)
    ensures j.Valid() && l.Valid() && fresh({j, l}) && j != l && j.Repr == {j} && l.Repr == {l}
    ensures j.kind == l.kind == ScalarNode && j.value == l.value == k
  {
    j := new Node(ScalarNode, k);
    l := new Node(ScalarNode, k);
  }

  method MakeMapping(k: string, a: Node, b: Node) returns (n: Node)
    requires a.Valid() && b.Valid() && a.Repr !! b.Repr
    ensures n.Valid() && fresh(n.Repr - a.Repr - b.Repr)
    ensures n.kind == MappingNode && n.tree == Mapping([Entry(k, a.tree), Entry(k, b.tree)])
    ensures forall m <- n.Repr :: m in a.Repr || m in b.Repr || m == n || m.kind == ScalarNode
  {
    var j, l := MakeKeys(k);
    n := new Node(MappingNode, "");
    Fill(n, j, a, l, b);
  }

  lemma OneKeyTwice(k: string, x: string, y: string)
    ensures !Distinct(Mapping([OneItem(k, x), OneItem(k, y)]))
  {
    var es := [OneItem(k, x), OneItem(k, y)];
    assert es[0].key == es[1].key;
  }

  /** A source that holds a list of x and a list of y under one key. */
  method MakeSource(k: string, x: string, y: string) returns (from: Node)
    ensures from.Valid() && fresh(from.Repr)
    ensures from.tree == Mapping([OneItem(k, x), OneItem(k, y)]) && !Distinct(from.tree)
    ensures forall n <- from.Repr :: n.kind == SequenceNode ==> |n.content| == 1
  {
    var a := MakeList(x);
    var b := MakeList(y);
    from := MakeMapping(k, a, b);
    OneKeyTwice(k, x, y);
  }

  /** Merging such a source into an empty mapping writes to it: one of its own lists gets a second
      item. */
  method MergeIntoEmpty(from: Node, into: Node, ghost k: string, ghost x: string, ghost y: string)
    requires from.Valid() && into.Valid() && from.Repr !! into.Repr && into.Repr == {into}
    requires from.tree == Mapping([OneItem(k, x), OneItem(k, y)]) && into.tree == Mapping([])
    requires forall n <- from.Repr :: n.kind == SequenceNode ==> |n.content| == 1
    modifies into, from.Repr
    ensures exists n <- old(from.Repr) :: n.content != old(n.content) && |n.content| == 2
  {
    BothUnderOneKey(k, x, y);
    var err := RecursiveMerge(from, into);
    ghost var n := into.content[2 * 0 + 1];
    assert into.tree.entries[0] == Entry(into.content[2 * 0].value, n.tree);
    assert n in into.content && n.Valid();
    assert n in old(from.Repr) && n.content != old(n.content);
  }
}
