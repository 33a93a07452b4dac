/** Merging the application and the secret file: what of the merge of their nodes comes out. */
module YamlConfig {
  import opened Wrappers
  import opened YamlTree
  import opened YamlPaths
  import opened YamlConflict
  import opened YamlNode

  ghost predicate Sound(file: Option<Node>)
    reads if file.Some? then {file.value} + file.value.Repr else {}
  {
    file.Some? ==> file.value.Valid()
  }

  ghost function NodesIn(file: Option<Node>): set<Node>
    reads if file.Some? then {file.value} else {}
  {
    if file.Some? then file.value.Repr else {}
  }

  /** The root the parser gives: a document above the content, and the zero node for an empty file. */
  ghost function RootTree(file: Option<Node>): Tree
    reads if file.Some? then {file.value} else {}
  {
    if file.Some? then Document(file.value.tree) else Blank
  }

  method RootOf(file: Option<Node>) returns (root: Node)
    requires Sound(file)
    ensures root.Valid() && fresh(root) && root.Repr == {root} + NodesIn(file) && root.tree == RootTree(file)
  {
    if file.None? {
      root := new Node(ZeroNode, "");
    } else {
      root := new Node.OfDocument(file.value);
    }
  }

  /** What is merged of two non-empty files: everything if nothing clashes, and otherwise only the
      part of the application file before the first clash. */
  ghost predicate MergedUpToClash(application: Tree, secret: Tree, merged: Tree) {
    if forall path :: !ClashAt(application, secret, path) then
      Merge(application, secret) == Outcome(merged, None)
    else
      exists path ::
        && ClashAt(application, secret, path)
        && if path == [] then merged == secret else Merge(Before(application, path), secret) == Outcome(merged, None)
  }

  lemma DocumentsMerge(application: Tree, secret: Tree)
    requires Distinct(application)
    ensures var r := Merge(Document(application), Document(secret));
            r.err.None? && r.tree.Document? && MergedUpToClash(application, secret, r.tree.child)
  {
    DocumentDropsFailure(Document(application), Document(secret));
    var inner := Merge(application, secret);
    if inner.err.Some? {
      FailedMergeIsMergeOfPrefix(application, secret);
    }
  }

  /** The merge of the two files, each given as the content its parser found. An error is reported,
      and stops the program, exactly when a file is empty; between two others none ever is. */
  method MergeFiles(application: Option<Node>, secret: Option<Node>) returns (merged: Node, err: Option<MergeError>)
    requires Sound(application) && Sound(secret) && NodesIn(application) !! NodesIn(secret)
    modifies NodesIn(application), NodesIn(secret)
    ensures merged.Valid() && fresh(merged)
    ensures Outcome(merged.tree, err) == Merge(old(RootTree(application)), old(RootTree(secret)))
    ensures err.Some? <==> application.None? || secret.None?
    ensures err.None? ==> merged.tree.Document?
    ensures err.None? && Distinct(old(application.value.tree)) ==>
              MergedUpToClash(old(application.value.tree), old(secret.value.tree), merged.tree.child)
  {
    var a := RootOf(application);
    merged := RootOf(secret);
    ghost var t, u := a.tree, merged.tree;
    err := RecursiveMerge(a, merged);
    if application.Some? && secret.Some? && Distinct(t) {
      DocumentsMerge(t.child, u.child);
    }
  }
}
