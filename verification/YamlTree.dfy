/** Node trees, and the merge of one tree into another as a function on values.
    `Merge` also says what the target holds when the merge stops half-way. */
module YamlTree {
  import opened Wrappers

  datatype Tree =
    | Blank                              // the zero node: an empty file
    | Scalar(value: string)
    | Alias(name: string)
    | Sequence(items: seq<Tree>)
    | Mapping(entries: seq<Entry>)
    | Document(child: Tree)

  datatype Entry = Entry(key: string, val: Tree)

  datatype MergeError =
    | DifferentKinds
    | NotMergeable
    | AtKey(key: string, cause: MergeError)

  datatype Outcome = Outcome(tree: Tree, err: Option<MergeError>)

  predicate SameKind(s: Tree, t: Tree) {
    match s
    case Blank => t.Blank?
    case Scalar(_) => t.Scalar?
    case Alias(_) => t.Alias?
    case Sequence(_) => t.Sequence?
    case Mapping(_) => t.Mapping?
    case Document(_) => t.Document?
  }

  predicate Container(t: Tree) {
    t.Sequence? || t.Mapping? || t.Document?
  }

  /** The index of the first entry with key k, or the length when there is none. */
  function Find(es: seq<Entry>, k: string): (j: nat)
    ensures j <= |es|
    ensures j < |es| ==> es[j].key == k
    ensures forall i :: 0 <= i < j ==> es[i].key != k
  {
    if es == [] then 0
    else if es[0].key == k then 0
    else 1 + Find(es[1..], k)
  }

  function Lookup(es: seq<Entry>, k: string): Option<Tree> {
    var j := Find(es, k);
    if j < |es| then Some(es[j].val) else None
  }

  /** Merges `from` into `into`; the tree of the outcome is what `into` holds afterwards,
      whether or not the merge failed. A document never reports its child's failure. */
  function Merge(from: Tree, into: Tree): Outcome
    decreases from
  {
    if !SameKind(from, into) then Outcome(into, Some(DifferentKinds))
    else match from
      case Mapping(fs) =>
        var (es, err) := MergeEntries(fs, into.entries);
        Outcome(Mapping(es), err)
      case Sequence(items) => Outcome(Sequence(into.items + items), None)
      case Document(child) => Outcome(Document(Merge(child, into.child).tree), None)
      case _ => Outcome(into, Some(NotMergeable))
  }

  function MergeEntries(fs: seq<Entry>, es: seq<Entry>): (seq<Entry>, Option<MergeError>)
    decreases fs
  {
    if fs == [] then (es, None)
    else
      var (es', err) := MergeEntry(fs[0], es);
      if err.Some? then (es', err) else MergeEntries(fs[1..], es')
  }

  function MergeEntry(f: Entry, es: seq<Entry>): (seq<Entry>, Option<MergeError>)
    decreases f
  {
    var j := Find(es, f.key);
    if j == |es| then (es + [f], None)
    else
      var r := Merge(f.val, es[j].val);
      (es[j := Entry(es[j].key, r.tree)], if r.err.Some? then Some(AtKey(f.key, r.err.value)) else None)
  }

  // ----- Shape predicates -----

  ghost predicate UniqueKeys(es: seq<Entry>) {
    forall i, j :: 0 <= i < j < |es| ==> es[i].key != es[j].key
  }

  /** No mapping anywhere in the tree has the same key twice. */
  ghost predicate Distinct(t: Tree) {
    match t
    case Mapping(es) => UniqueKeys(es) && forall i :: 0 <= i < |es| ==> Distinct(es[i].val)
    case Sequence(items) => forall i :: 0 <= i < |items| ==> Distinct(items[i])
    case Document(child) => Distinct(child)
    case _ => true
  }

  /** No document below the root: what a YAML parser produces under a document node. */
  ghost predicate Plain(t: Tree) {
    match t
    case Mapping(es) => forall i :: 0 <= i < |es| ==> Plain(es[i].val)
    case Sequence(items) => forall i :: 0 <= i < |items| ==> Plain(items[i])
    case Document(_) => false
    case _ => true
  }
}
