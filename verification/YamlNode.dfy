/** The merge as the program performs it: in place, on a heap of nodes, sharing subtrees of
    the source with the target. It refines `YamlTree.Merge`. */
module YamlNode {
  import opened Wrappers
  import opened YamlTree

  datatype Kind = ZeroNode | DocumentNode | SequenceNode | MappingNode | ScalarNode | AliasNode

  class Node {
    const kind: Kind
    const value: string
    var content: seq<Node>
    ghost var tree: Tree           // the tree below this node
    ghost var Repr: set<Node>      // at least the nodes of that tree

    constructor (kind: Kind, value: string)
      requires kind != DocumentNode
      ensures Valid() && fresh(Repr) && Repr == {this}
      ensures this.kind == kind && this.value == value && content == []
    {
      this.kind, this.value, content := kind, value, [];
      Repr := {this};
      tree := match kind
        case ScalarNode => Scalar(value)
        case AliasNode => Alias(value)
        case SequenceNode => Sequence([])
        case MappingNode => Mapping([])
        case _ => Blank;
    }

    /** A document node above a tree. */
    constructor OfDocument(child: Node)
      requires child.Valid()
      ensures Valid() && fresh(this) && Repr == {this} + child.Repr
      ensures kind == DocumentNode && content == [child] && tree == Document(child.tree)
    {
      kind, value, content := DocumentNode, "", [child];
      Repr := {this} + child.Repr;
      tree := Document(child.tree);
    }

    /** The nodes reachable from here form a tree, and it is `tree`. */
    ghost predicate Valid()
      reads this, Repr
      decreases Repr
      ensures Valid() ==> this in Repr
    {
      && this in Repr
      && (forall c <- content :: c in Repr && c.Repr <= Repr && this !in c.Repr && c.Valid())
      && Separate(content)
      && Reflects(kind, value, content, tree)
    }
  }

  /** No two nodes of the list share a node below them. */
  ghost predicate Separate(ns: seq<Node>)
    reads ns
  {
    forall i, j :: 0 <= i < j < |ns| ==> ns[i].Repr !! ns[j].Repr
  }

  /** A node with these fields has the tree `tree`, given the trees of its content. */
  ghost predicate Reflects(kind: Kind, value: string, content: seq<Node>, tree: Tree)
    reads content
  {
    match kind
    case MappingNode => tree.Mapping? && IsEntries(content, tree.entries)
    case SequenceNode => tree.Sequence? && IsItems(content, tree.items)
    case DocumentNode => |content| == 1 && tree == Document(content[0].tree)
    case ScalarNode => content == [] && tree == Scalar(value)
    case AliasNode => content == [] && tree == Alias(value)
    case ZeroNode => content == [] && tree == Blank
  }

  ghost predicate IsItems(content: seq<Node>, items: seq<Tree>)
    reads content
  {
    |items| == |content| && forall i :: 0 <= i < |content| ==> items[i] == content[i].tree
  }

  /** Keys and values alternate; keys are scalars. */
  ghost predicate IsEntries(content: seq<Node>, entries: seq<Entry>)
    reads content
  {
    && 2 * |entries| == |content|
    && forall i :: 0 <= i < |entries| ==>
         && content[2 * i].kind == ScalarNode
         && entries[i] == Entry(content[2 * i].value, content[2 * i + 1].tree)
  }

  /** Key comparison; the program panics on other kinds. */
  method NodesEqual(l: Node, r: Node) returns (equal: bool)
    requires l.kind == ScalarNode && r.kind == ScalarNode
    ensures equal <==> l.value == r.value
  {
    equal := l.value == r.value;
  }

  twostate predicate Untouched(n: Node)
    reads n
  {
    n.content == old(n.content) && n.tree == old(n.tree) && n.Repr == old(n.Repr)
  }

  /** Nodes are only written by appending to the content of a mapping or a sequence: what was there
      stays, at its place, and all other nodes keep their content. */
  twostate predicate OnlyGrown(ns: set<Node>)
    reads ns
  {
    forall n <- ns :: old(n.content) <= n.content && (n.content == old(n.content) || n.kind == MappingNode || n.kind == SequenceNode)
  }

  twostate predicate AllUntouched(ns: set<Node>)
    reads ns
  {
    forall n <- ns :: Untouched(n)
  }

  /** The nodes of `ns` are roots of disjoint trees inside R, none of which contains `owner`. */
  ghost predicate Owns(ns: seq<Node>, owner: Node, R: set<Node>)
    reads ns, R
  {
    && (forall c <- ns :: c in R && c.Repr <= R && owner !in c.Repr && c.Valid())
    && Separate(ns)
  }

  lemma OwnsConcat(ns: seq<Node>, ms: seq<Node>, owner: Node, R: set<Node>, S: set<Node>)
    requires Owns(ns, owner, R) && Owns(ms, owner, S) && R !! S - {owner} && owner !in S
    ensures Owns(ns + ms, owner, R + S)
  {
    var all := ns + ms;
    forall i, j | 0 <= i < j < |all| ensures all[i].Repr !! all[j].Repr {
      if j < |ns| {
        assert ns[i].Repr !! ns[j].Repr;
      } else if |ns| <= i {
        assert ms[i - |ns|].Repr !! ms[j - |ns|].Repr;
      }
    }
  }

  /** The nodes under entry p of a mapping, if there is such an entry. */
  ghost function ValueNodes(into: Node, p: nat): set<Node>
    reads into, into.content
  {
    if 2 * p + 1 < |into.content| then into.content[2 * p + 1].Repr else {}
  }

  /** Grows the content of a node; the nodes R of the new content now belong to it, too. */
  method Append(into: Node, ms: seq<Node>, ghost R: set<Node>, ghost tree: Tree)
    requires into.Valid() && Owns(ms, into, R) && R !! into.Repr
    requires Reflects(into.kind, into.value, into.content + ms, tree)
    modifies into
    ensures into.Valid() && into.Repr == old(into.Repr) + R && into.tree == tree
    ensures into.content == old(into.content) + ms
    ensures forall j: nat :: 2 * j + 1 < |old(into.content)| ==> ValueNodes(into, j) == old(ValueNodes(into, j))
  {
    OwnsConcat(into.content, ms, into, into.Repr, R);
    into.content := into.content + ms;
    into.Repr := into.Repr + R;
    into.tree := tree;
  }

  method RecursiveMerge(from: Node, into: Node) returns (err: Option<MergeError>)
    requires from.Valid() && into.Valid() && from.Repr !! into.Repr
    modifies into.Repr, from.Repr
    ensures into.Valid() && into.Repr <= old(into.Repr + from.Repr)
    ensures Outcome(into.tree, err) == Merge(old(from.tree), old(into.tree))
    ensures OnlyGrown(old(into.Repr + from.Repr))
    ensures Distinct(old(from.tree)) ==> AllUntouched(old(from.Repr))
    decreases from.Repr, 2
  {
    if from.kind != into.kind {
      return Some(DifferentKinds);
    }
    match from.kind
    case MappingNode =>
      err := MergeMappings(from, into);
    case SequenceNode =>
      AppendContent(from, into);
      err := None;
    case DocumentNode =>
      MergeDocuments(from, into);
      err := None;
    case _ =>
      err := Some(NotMergeable);
  }

  method AppendContent(from: Node, into: Node)
    requires from.Valid() && into.Valid() && from.Repr !! into.Repr
    requires from.kind == into.kind == SequenceNode
    modifies into
    ensures into.Valid() && into.Repr <= old(into.Repr + from.Repr)
    ensures into.content == old(into.content) + from.content
    ensures into.tree == Merge(from.tree, old(into.tree)).tree
  {
    Append(into, from.content, from.Repr - {from}, Sequence(into.tree.items + from.tree.items));
  }

  method MergeDocuments(from: Node, into: Node)
    requires from.Valid() && into.Valid() && from.Repr !! into.Repr
    requires from.kind == into.kind == DocumentNode
    modifies into.Repr, from.Repr
    ensures into.Valid() && into.Repr <= old(into.Repr + from.Repr)
    ensures into.tree == Merge(old(from.tree), old(into.tree)).tree
    ensures OnlyGrown(old(into.Repr + from.Repr))
    ensures Distinct(old(from.tree)) ==> AllUntouched(old(from.Repr))
    decreases from.Repr, 1
  {
    var val := from.content[0];
    assert val.Repr <= from.Repr && into.content[0].Repr <= into.Repr;
    assert from.tree == Document(val.tree) && into.tree == Document(into.content[0].tree);
    var _ := MergeIntoChild(val, into, 0);
    Adopt(into, 0, Document(into.content[0].tree));
  }

  /** The recursive call: it may change the tree of child m, and leaves the other children alone. */
  method MergeIntoChild(val: Node, into: Node, m: nat) returns (err: Option<MergeError>)
    requires val.Valid() && into.Valid() && val.Repr !! into.Repr && m < |into.content|
    modifies into.content[m].Repr, val.Repr
    ensures Owns(into.content, into, into.Repr + into.content[m].Repr)
    ensures into.content[m].Repr <= old(into.content[m].Repr + val.Repr)
    ensures Outcome(into.content[m].tree, err) == Merge(old(val.tree), old(into.content[m].tree))
    ensures forall k :: 0 <= k < |into.content| && k != m ==> Untouched(into.content[k])
    ensures forall j: nat :: 2 * j + 1 != m ==> ValueNodes(into, j) == old(ValueNodes(into, j))
    ensures OnlyGrown(old(into.Repr + val.Repr))
    ensures Distinct(old(val.tree)) ==> AllUntouched(old(val.Repr))
    decreases val.Repr, 3
  {
    ghost var ns := into.content;
    err := RecursiveMerge(val, into.content[m]);
    forall k | 0 <= k < |ns| && k != m
      ensures ns[k].Valid() && Untouched(ns[k]) && ns[k].Repr !! ns[m].Repr
    {
      assert old(ns[k].Valid()) && old(ns[k].Repr) !! old(ns[m].Repr);
    }
  }

  /** Brings the ghost fields of a node up to date after child m has grown. */
  ghost method Adopt(into: Node, m: nat, tree: Tree)
    requires m < |into.content| && into in into.Repr && into !in into.content[m].Repr
    requires Owns(into.content, into, into.Repr + into.content[m].Repr)
    requires Reflects(into.kind, into.value, into.content, tree)
    modifies into`Repr, into`tree
    ensures into.Valid() && into.Repr == old(into.Repr + into.content[m].Repr) && into.tree == tree
    ensures forall j: nat :: ValueNodes(into, j) == old(ValueNodes(into, j))
  {
    into.Repr := into.Repr + into.content[m].Repr;
    into.tree := tree;
  }

  lemma EntryGrew(ns: seq<Node>, trees: seq<Tree>, es: seq<Entry>, p: nat)
    requires 2 * |es| == |ns| == |trees| && p < |es|
    requires forall i :: 0 <= i < |es| ==> ns[2 * i].kind == ScalarNode && es[i] == Entry(ns[2 * i].value, trees[2 * i + 1])
    requires forall k :: 0 <= k < |ns| && k != 2 * p + 1 ==> ns[k].tree == trees[k]
    ensures IsEntries(ns, es[p := Entry(es[p].key, ns[2 * p + 1].tree)])
  {
  }

  /** Merges `val` into the value of entry p of the mapping `into`. */
  method MergeIntoValue(val: Node, into: Node, p: nat) returns (err: Option<MergeError>)
    requires val.Valid() && into.Valid() && val.Repr !! into.Repr
    requires into.kind == MappingNode && p < |into.tree.entries|
    modifies into, into.content[2 * p + 1].Repr, val.Repr
    ensures into.Valid() && into.Repr <= old(into.Repr + val.Repr)
    ensures var es := old(into.tree.entries);
            var r := Merge(old(val.tree), es[p].val);
            into.tree == Mapping(es[p := Entry(es[p].key, r.tree)]) && err == r.err
    ensures into.content == old(into.content)
    ensures forall j: nat :: j != p ==> ValueNodes(into, j) == old(ValueNodes(into, j))
    ensures OnlyGrown(old(into.Repr + val.Repr))
    ensures Distinct(old(val.tree)) ==> AllUntouched(old(val.Repr))
    decreases val.Repr, 4
  {
    ghost var ns, es := into.content, into.tree.entries;
    ghost var trees := seq(|ns|, k requires 0 <= k < |ns| reads ns => ns[k].tree);
    err := MergeIntoChild(val, into, 2 * p + 1);
    forall k | 0 <= k < |ns| && k != 2 * p + 1 ensures ns[k].tree == trees[k] {
      assert Untouched(ns[k]);
    }
    EntryGrew(ns, trees, es, p);
    Adopt(into, 2 * p + 1, Mapping(es[p := Entry(es[p].key, ns[2 * p + 1].tree)]));
  }

  /** The nodes under the first key k of a mapping, if it has that key. */
  ghost function KeyNodes(into: Node, k: string): set<Node>
    reads into, into.content
  {
    if into.tree.Mapping? then ValueNodes(into, Find(into.tree.entries, k)) else {}
  }

  /** The effect of merging one key and value into a mapping. */
  twostate predicate PairMerged(key: Node, val: Node, into: Node, new err: Option<MergeError>)
    reads *
  {
    && into.Valid() && into.Repr <= old(into.Repr + key.Repr + val.Repr)
    && old(into.tree.Mapping?) && into.tree.Mapping?
    && (into.tree.entries, err) == MergeEntry(Entry(key.value, old(val.tree)), old(into.tree.entries))
    && (Distinct(old(val.tree)) ==> AllUntouched(old(val.Repr)))
    && OnlyGrown(old(into.Repr + val.Repr))
    && (forall k :: k != key.value ==> KeyNodes(into, k) == old(KeyNodes(into, k)))
  }

  lemma FindUpdate(es: seq<Entry>, p: nat, t: Tree)
    requires p < |es|
    ensures forall k :: Find(es[p := Entry(es[p].key, t)], k) == Find(es, k)
    ensures forall k :: k != es[p].key ==> Find(es, k) != p
  {
    var es' := es[p := Entry(es[p].key, t)];
    assert forall i :: 0 <= i < |es| ==> es'[i].key == es[i].key;
    forall k ensures Find(es', k) == Find(es, k) {
      if Find(es', k) < |es| {
        assert es[Find(es', k)].key == k;
      }
    }
  }

  lemma FindAppend(es: seq<Entry>, e: Entry, k: string)
    requires e.key != k
    ensures Find(es + [e], k) == if Find(es, k) < |es| then Find(es, k) else |es| + 1
  {
    var j := Find(es + [e], k);
    assert forall i :: 0 <= i < |es| ==> (es + [e])[i] == es[i];
    if j < |es| {
      assert es[j].key == k;
    }
  }

  /** Merging under entry p leaves the nodes under all other keys where they are. */
  method MergeValueOf(key: Node, val: Node, into: Node, p: nat) returns (err: Option<MergeError>)
    requires val.Valid() && into.Valid() && val.Repr !! into.Repr
    requires into.kind == MappingNode && p == Find(into.tree.entries, key.value) < |into.tree.entries|
    modifies into, ValueNodes(into, p), val.Repr
    ensures into.Valid() && into.Repr <= old(into.Repr + val.Repr)
    ensures var es := old(into.tree.entries);
            var r := Merge(old(val.tree), es[p].val);
            into.tree == Mapping(es[p := Entry(es[p].key, r.tree)]) && err == r.err
    ensures Distinct(old(val.tree)) ==> AllUntouched(old(val.Repr))
    ensures OnlyGrown(old(into.Repr + val.Repr))
    ensures forall k :: k != key.value ==> KeyNodes(into, k) == old(KeyNodes(into, k))
    decreases val.Repr, 5
  {
    ghost var es := into.tree.entries;
    err := MergeIntoValue(val, into, p);
    FindUpdate(es, p, into.tree.entries[p].val);
  }

  /** The first equal key of `into` is that of entry p: merges under it. */
  method MergeUnderKey(key: Node, val: Node, into: Node, p: nat) returns (err: Option<MergeError>)
    requires key.Valid() && val.Valid() && into.Valid() && val.Repr !! into.Repr
    requires into.kind == MappingNode && p == Find(into.tree.entries, key.value) < |into.tree.entries|
    modifies into, ValueNodes(into, p), val.Repr
    ensures PairMerged(key, val, into, err)
    decreases val.Repr, 6
  {
    err := MergeValueOf(key, val, into, p);
    err := if err.Some? then Some(AtKey(key.value, err.value)) else None;
  }

  /** No key of `into` is equal: appends the pair, whose nodes then belong to both trees. */
  method AppendPair(key: Node, val: Node, into: Node)
    requires key.Valid() && val.Valid() && into.Valid()
    requires key.Repr !! val.Repr && key.Repr !! into.Repr && val.Repr !! into.Repr
    requires key.kind == ScalarNode && into.kind == MappingNode
    requires Find(into.tree.entries, key.value) == |into.tree.entries|
    modifies into
    ensures PairMerged(key, val, into, None)
  {
    ghost var es := into.tree.entries;
    Append(into, [key, val], key.Repr + val.Repr, Mapping(into.tree.entries + [Entry(key.value, val.tree)]));
    assert |into.content| == 2 * |es| + 2;
    forall k | k != key.value ensures KeyNodes(into, k) == old(KeyNodes(into, k)) {
      FindAppend(es, Entry(key.value, val.tree), k);
      assert Find(es, k) < |es| ==> ValueNodes(into, Find(es, k)) == old(ValueNodes(into, Find(es, k)));
    }
  }

  /** The inner loop: the position of the first key of `into` equal to `key`. The program makes
      the recursive call of `MergePair` inside this loop, just before leaving it. */
  method FindKey(key: Node, into: Node) returns (j: nat)
    requires into.Valid() && key.kind == ScalarNode && into.kind == MappingNode
    ensures j == 2 * Find(into.tree.entries, key.value)
  {
    j := 0;
    while j < |into.content|
      invariant 0 <= j <= |into.content| && j % 2 == 0
      invariant forall p :: 0 <= p < j / 2 ==> into.tree.entries[p].key != key.value
    {
      assert into.tree.entries[j / 2] == Entry(into.content[2 * (j / 2)].value, into.content[2 * (j / 2) + 1].tree);
      var found := NodesEqual(key, into.content[j]);
      if found {
        break;
      }
      j := j + 2;
    }
    assert Find(into.tree.entries, key.value) == j / 2;
  }

  method MergePair(key: Node, val: Node, into: Node, p: nat) returns (err: Option<MergeError>)
    requires key.Valid() && val.Valid() && into.Valid()
    requires key.Repr !! val.Repr && key.Repr !! into.Repr && val.Repr !! into.Repr
    requires key.kind == ScalarNode && into.kind == MappingNode
    requires p == Find(into.tree.entries, key.value)
    modifies into, ValueNodes(into, p), val.Repr
    ensures PairMerged(key, val, into, err) == true
    decreases val.Repr, 7
  {
    if 2 * p < |into.content| {
      err := MergeUnderKey(key, val, into, p);
    } else {
      AppendPair(key, val, into);
      err := None;
    }
  }

  /** All nodes of the trees rooted in `ms`. */
  ghost function NodesOf(ms: seq<Node>): (r: set<Node>)
    reads ms
    ensures forall m <- ms :: m in r && m.Repr <= r
  {
    if ms == [] then {} else {ms[0]} + ms[0].Repr + NodesOf(ms[1..])
  }

  /** Keys and values that form the entries fs, as disjoint trees. */
  ghost predicate Forest(ms: seq<Node>, fs: seq<Entry>)
    reads ms, NodesOf(ms)
  {
    (forall m <- ms :: m.Valid()) && Separate(ms) && IsEntries(ms, fs)
  }

  lemma NodesApart(X: set<Node>, ms: seq<Node>)
    requires forall m <- ms :: m.Valid() && X !! m.Repr
    ensures X !! NodesOf(ms)
  {
    if ms != [] {
      assert ms[0] in ms[0].Repr;
      NodesApart(X, ms[1..]);
    }
  }

  lemma ForestTail(ms: seq<Node>, fs: seq<Entry>)
    requires |ms| >= 2 && Forest(ms, fs)
    ensures Forest(ms[2..], fs[1..])
    ensures NodesOf(ms) == ms[0].Repr + ms[1].Repr + NodesOf(ms[2..])
    ensures ms[0].Repr !! ms[1].Repr && ms[0].Repr + ms[1].Repr !! NodesOf(ms[2..])
    ensures ms[0].kind == ScalarNode && fs[0] == Entry(ms[0].value, ms[1].tree)
  {
    IsEntriesTail(ms, fs);
    var a, b := ms[0], ms[1];
    assert a in ms && b in ms && a.Valid() && b.Valid();
    assert ms[1..][1..] == ms[2..];
    NodesApart(a.Repr + b.Repr, ms[2..]);
  }

  lemma IsEntriesTail(ms: seq<Node>, fs: seq<Entry>)
    requires |ms| >= 2 && IsEntries(ms, fs)
    ensures ms[0].kind == ScalarNode && fs[0] == Entry(ms[0].value, ms[1].tree)
    ensures IsEntries(ms[2..], fs[1..])
  {
    assert fs[0] == Entry(ms[2 * 0].value, ms[2 * 0 + 1].tree);
    forall i | 0 <= i < |fs[1..]|
      ensures ms[2..][2 * i].kind == ScalarNode && fs[1..][i] == Entry(ms[2..][2 * i].value, ms[2..][2 * i + 1].tree)
    {
      var k := i + 1;
      assert fs[k] == Entry(ms[2 * k].value, ms[2 * k + 1].tree) && ms[2 * k].kind == ScalarNode;
    }
  }

  /** One round of the outer loop; the pairs still to come, `rest`, are left alone. */
  method MergePairKeeping(key: Node, val: Node, into: Node, p: nat, ghost rest: seq<Node>, ghost fs: seq<Entry>)
    returns (err: Option<MergeError>)
    requires key.Valid() && val.Valid() && into.Valid()
    requires key.Repr !! val.Repr && key.Repr !! into.Repr && val.Repr !! into.Repr
    requires key.kind == ScalarNode && into.kind == MappingNode
    requires p == Find(into.tree.entries, key.value)
    requires Forest(rest, fs) && NodesOf(rest) !! into.Repr + key.Repr + val.Repr
    modifies into, KeyNodes(into, key.value), val.Repr
    ensures PairMerged(key, val, into, err) == true
    ensures Forest(rest, fs) == old(Forest(rest, fs)) && NodesOf(rest) == old(NodesOf(rest))
    decreases val.Repr, 8
  {
    assert ValueNodes(into, p) <= into.Repr;
    err := MergePair(key, val, into, p);
  }

  /** What the mapping `into` holds under these keys are the target's own nodes, `mine`. */
  ghost predicate Unshared(ks: set<string>, into: Node, mine: set<Node>)
    reads into, into.content
  {
    forall k <- ks :: KeyNodes(into, k) <= mine
  }

  /** `MergePairKeeping` on the first two of the nodes still to come. If what it merges into is
      the target's own, the nodes of the source, `theirs`, are left alone. */
  method MergeFirst(ms: seq<Node>, ghost fs: seq<Entry>, into: Node, p: nat, ghost mine: set<Node>, ghost theirs: set<Node>)
    returns (err: Option<MergeError>)
    requires |ms| >= 2 && Forest(ms, fs)
    requires into.Valid() && into.kind == MappingNode && NodesOf(ms) !! into.Repr
    requires p == Find(into.tree.entries, ms[0].value)
    requires mine !! theirs && into in mine
    modifies into, KeyNodes(into, ms[0].value), ms[1].Repr
    ensures PairMerged(ms[0], ms[1], into, err) == true
    ensures Forest(ms[2..], fs[1..]) == true && NodesOf(ms[2..]) == old(NodesOf(ms[2..]))
    ensures old(KeyNodes(into, ms[0].value)) <= mine && Distinct(fs[0].val) ==> AllUntouched(theirs)
    decreases ms[1].Repr, 9
  {
    ForestTail(ms, fs);
    err := MergePairKeeping(ms[0], ms[1], into, p, ms[2..], fs[1..]);
  }

  /** The state of the outer loop over the content `ns` of a source mapping, before the round
      for entry h; `theirs` contains the nodes of the source. */
  ghost predicate LoopState(ns: seq<Node>, fs: seq<Entry>, into: Node, h: nat, mine: set<Node>, theirs: set<Node>)
    reads into, into.Repr, ns, theirs
  {
    && into.Valid() && into.kind == MappingNode && into.Repr <= mine + theirs && into in mine
    && h <= |fs| && |ns| == 2 * |fs|
    && NodesOf(ns[2 * h..]) <= theirs && NodesOf(ns[2 * h..]) !! into.Repr
    && Forest(ns[2 * h..], fs[h..])
  }

  lemma KeyNodesOwned(into: Node, k: string)
    requires into.Valid()
    ensures KeyNodes(into, k) <= into.Repr
  {
  }

  /** The effect of one round on entry f, when the target had the entries es. If `own` says that all
      it held under the keys ks was its own, that stays so for the other keys, and with the key of f
      among them the nodes of the source are left alone. */
  twostate predicate RoundMerged(f: Entry, es: seq<Entry>, into: Node, ks: set<string>, own: bool, mine: set<Node>, theirs: set<Node>,
                                 new err: Option<MergeError>)
    reads *
  {
    && into.tree.Mapping? && (into.tree.entries, err) == MergeEntry(f, es)
    && (own ==> Unshared(ks - {f.key}, into, mine))
    && (own && f.key in ks && Distinct(f.val) ==> AllUntouched(theirs))
    && OnlyGrown(old(into.Repr) + theirs)
  }

  /** `MergeFirst`, with its effect in these terms. */
  method MergeHead(ms: seq<Node>, ghost fs: seq<Entry>, into: Node, p: nat, ghost es: seq<Entry>,
                   ghost ks: set<string>, ghost own: bool, ghost mine: set<Node>, ghost theirs: set<Node>)
    returns (err: Option<MergeError>)
    requires |ms| >= 2 && Forest(ms, fs) && NodesOf(ms) <= theirs && NodesOf(ms) !! into.Repr
    requires into.Valid() && into.kind == MappingNode && into.tree == Mapping(es) && p == Find(es, ms[0].value)
    requires mine !! theirs && into in mine && (own ==> Unshared(ks, into, mine))
    modifies into.Repr, theirs
    ensures into.Valid() == true && into.Repr <= old(into.Repr) + theirs && into.Repr !! NodesOf(ms[2..])
    ensures Forest(ms[2..], fs[1..]) == true && NodesOf(ms[2..]) <= theirs
    ensures RoundMerged(fs[0], es, into, ks, own, mine, theirs, err)
    decreases theirs, 10
  {
    ForestTail(ms, fs);
    KeyNodesOwned(into, ms[0].value);
    err := MergeFirst(ms, fs, into, p, mine, theirs);
  }

  /** One round of the outer loop, once the inner loop has found entry p. */
  method MergeNext(ns: seq<Node>, ghost fs: seq<Entry>, into: Node, h: nat, p: nat, ghost es: seq<Entry>,
                   ghost ks: set<string>, ghost own: bool, ghost mine: set<Node>, ghost theirs: set<Node>)
    returns (err: Option<MergeError>)
    requires LoopState(ns, fs, into, h, mine, theirs) == true && h < |fs| && mine !! theirs
    requires into.tree == Mapping(es) && p == Find(es, ns[2 * h].value)
    requires own ==> Unshared(ks, into, mine)
    modifies into.Repr, theirs
    ensures LoopState(ns, fs, into, h + 1, mine, theirs) == true
    ensures RoundMerged(fs[h], es, into, ks, own, mine, theirs, err)
    decreases theirs, 11
  {
    ghost var ms, gs := ns[2 * h..], fs[h..];
    assert ms[0] == ns[2 * h] && gs[0] == fs[h];
    assert ms[2..] == ns[2 * (h + 1)..] && gs[1..] == fs[h + 1..];
    err := MergeHead(ns[2 * h..], fs[h..], into, p, es, ks, own, mine, theirs);
  }

  /** One round of the outer loop, the inner loop included. */
  method MergeRound(ns: seq<Node>, ghost fs: seq<Entry>, into: Node, h: nat, ghost es: seq<Entry>,
                    ghost ks: set<string>, ghost own: bool, ghost mine: set<Node>, ghost theirs: set<Node>)
    returns (err: Option<MergeError>)
    requires LoopState(ns, fs, into, h, mine, theirs) == true && h < |fs| && mine !! theirs
    requires into.tree == Mapping(es)
    requires own ==> Unshared(ks, into, mine)
    modifies into.Repr, theirs
    ensures LoopState(ns, fs, into, h + 1, mine, theirs) == true
    ensures RoundMerged(fs[h], es, into, ks, own, mine, theirs, err)
    decreases theirs, 12
  {
    ForestTail(ns[2 * h..], fs[h..]);
    var j := FindKey(ns[2 * h], into);
    err := MergeNext(ns, fs, into, h, j / 2, es, ks, own, mine, theirs);
  }

  ghost function KeySet(fs: seq<Entry>): (ks: set<string>)
    ensures forall q :: 0 <= q < |fs| ==> fs[q].key in ks
  {
    set e <- fs :: e.key
  }

  lemma KeySetTail(fs: seq<Entry>, h: nat)
    requires h < |fs|
    ensures fs[h].key in KeySet(fs[h..])
    ensures UniqueKeys(fs) ==> KeySet(fs[h + 1..]) <= KeySet(fs[h..]) - {fs[h].key}
  {
    assert fs[h..][0] == fs[h];
    forall e | e in fs[h + 1..] ensures e.key in KeySet(fs[h..]) {
      assert e in fs[h..];
    }
  }

  datatype Snapshot = Snapshot(content: seq<Node>, tree: Tree, nodes: set<Node>)

  /** What these nodes held has only grown. */
  ghost predicate GrownSince(was: map<Node, Snapshot>)
    reads was.Keys
  {
    forall n <- was :: was[n].content <= n.content && (n.content == was[n].content || n.kind == MappingNode || n.kind == SequenceNode)
  }

  ghost predicate SameSince(was: map<Node, Snapshot>, ns: set<Node>)
    reads ns
  {
    forall n <- ns :: n in was && was[n] == Snapshot(n.content, n.tree, n.Repr)
  }

  ghost function Snapshots(ns: set<Node>): (was: map<Node, Snapshot>)
    reads ns
    ensures was.Keys == ns && GrownSince(was) && SameSince(was, ns)
  {
    map n <- ns :: Snapshot(n.content, n.tree, n.Repr)
  }

  /** How far the outer loop has come after h entries: with what is still to be merged the total
      comes out, or it has come out because of an error. */
  ghost predicate Progress(ns: seq<Node>, fs: seq<Entry>, into: Node, h: nat, mine: set<Node>, theirs: set<Node>, distinct: bool,
                           was: map<Node, Snapshot>, total: (seq<Entry>, Option<MergeError>), err: Option<MergeError>)
    reads into, into.Repr, into.content, ns, theirs, was.Keys
  {
    && LoopState(ns, fs, into, h, mine, theirs)
    && total == (if err.None? then MergeEntries(fs[h..], into.tree.entries) else (into.tree.entries, err))
    && GrownSince(was)
    && (distinct ==> Unshared(KeySet(fs[h..]), into, mine) && SameSince(was, theirs))
  }

  /** One round of the outer loop, as a step of the whole merge. */
  method MergeStep(ns: seq<Node>, ghost fs: seq<Entry>, into: Node, h: nat, ghost mine: set<Node>, ghost theirs: set<Node>,
                   ghost distinct: bool, ghost was: map<Node, Snapshot>, ghost total: (seq<Entry>, Option<MergeError>))
    returns (err: Option<MergeError>)
    requires h < |fs| && mine !! theirs
    requires distinct ==> UniqueKeys(fs) && forall q :: 0 <= q < |fs| ==> Distinct(fs[q].val)
    requires Progress(ns, fs, into, h, mine, theirs, distinct, was, total, None) == true
    modifies into.Repr, theirs
    ensures Progress(ns, fs, into, h + 1, mine, theirs, distinct, was, total, err)
    decreases theirs, 13
  {
    assert fs[h..][0] == fs[h] && fs[h..][1..] == fs[h + 1..];
    KeySetTail(fs, h);
    ghost var ks := KeySet(fs[h..]);
    err := MergeRound(ns, fs, into, h, into.tree.entries, ks, Unshared(ks, into, mine), mine, theirs);
  }

  lemma ProgressAtStart(ns: seq<Node>, fs: seq<Entry>, into: Node, theirs: set<Node>, distinct: bool, was: map<Node, Snapshot>)
    requires LoopState(ns, fs, into, 0, into.Repr, theirs) && GrownSince(was) && SameSince(was, theirs)
    ensures |ns| == 2 * |fs| && into.tree.Mapping?
    ensures Progress(ns, fs, into, 0, into.Repr, theirs, distinct, was, MergeEntries(fs, into.tree.entries), None)
  {
    assert fs[0..] == fs;
    forall k ensures KeyNodes(into, k) <= into.Repr {
      KeyNodesOwned(into, k);
    }
  }

  lemma ProgressAtEnd(ns: seq<Node>, fs: seq<Entry>, into: Node, h: nat, mine: set<Node>, theirs: set<Node>, distinct: bool,
                      was: map<Node, Snapshot>, total: (seq<Entry>, Option<MergeError>), err: Option<MergeError>)
    requires Progress(ns, fs, into, h, mine, theirs, distinct, was, total, err) && (err.None? ==> h == |fs|)
    ensures LoopState(ns, fs, into, h, mine, theirs) == true
    ensures into.tree.Mapping? && (into.tree.entries, err) == total
    ensures GrownSince(was) && (distinct ==> SameSince(was, theirs))
  {
  }

  /** The outer loop, over the content `ns` of a source mapping; it ends after `done` entries. */
  method MergeContent(ns: seq<Node>, ghost fs: seq<Entry>, into: Node, ghost theirs: set<Node>, ghost distinct: bool,
                      ghost was: map<Node, Snapshot>)
    returns (err: Option<MergeError>, ghost done: nat)
    requires LoopState(ns, fs, into, 0, into.Repr, theirs) == true && theirs !! into.Repr
    requires distinct ==> UniqueKeys(fs) && forall q :: 0 <= q < |fs| ==> Distinct(fs[q].val)
    requires GrownSince(was) && SameSince(was, theirs)
    modifies into.Repr, theirs
    ensures LoopState(ns, fs, into, done, old(into.Repr), theirs) == true
    ensures (into.tree.entries, err) == MergeEntries(fs, old(into.tree.entries))
    ensures GrownSince(was) && (distinct ==> SameSince(was, theirs))
    decreases theirs, 14
  {
    ghost var mine, total := into.Repr, MergeEntries(fs, into.tree.entries);
    err, done := None, 0;
    ProgressAtStart(ns, fs, into, theirs, distinct, was);
    var i := 0;
    while i < |ns|
      invariant i == 2 * done && done <= |fs| && |ns| == 2 * |fs| && err.None?
      invariant Progress(ns, fs, into, done, mine, theirs, distinct, was, total, None) == true
    {
      assert i / 2 == done;
      err := MergeStep(ns, fs, into, i / 2, mine, theirs, distinct, was, total);
      done := done + 1;
      if err.Some? {
        break;
      }
      i := i + 2;
    }
    ProgressAtEnd(ns, fs, into, done, mine, theirs, distinct, was, total, err);
  }

  lemma NodesWithin(ns: seq<Node>, R: set<Node>)
    requires forall m <- ns :: m in R && m.Repr <= R
    ensures NodesOf(ns) <= R
  {
    if ns != [] {
      NodesWithin(ns[1..], R);
    }
  }

  lemma MappingState(from: Node, into: Node)
    requires from.Valid() && into.Valid() && from.Repr !! into.Repr && from.kind == into.kind == MappingNode
    ensures LoopState(from.content, from.tree.entries, into, 0, into.Repr, from.Repr - {from}) == true
  {
    NodesWithin(from.content, from.Repr - {from});
    assert from.content[2 * 0..] == from.content && from.tree.entries[0..] == from.tree.entries;
  }

  method MergeMappings(from: Node, into: Node) returns (err: Option<MergeError>)
    requires from.Valid() && into.Valid() && from.Repr !! into.Repr
    requires from.kind == into.kind == MappingNode
    modifies into.Repr, from.Repr
    ensures into.Valid() && into.Repr <= old(into.Repr + from.Repr)
    ensures Outcome(into.tree, err) == Merge(old(from.tree), old(into.tree))
    ensures OnlyGrown(old(into.Repr + from.Repr))
    ensures Distinct(old(from.tree)) ==> AllUntouched(old(from.Repr))
    decreases from.Repr, 1
  {
    MappingState(from, into);

    ghost var was := Snapshots(into.Repr + from.Repr);
    ghost var done;
    err, done := MergeContent(from.content, from.tree.entries, into, from.Repr - {from}, Distinct(from.tree), was);
  }
}
