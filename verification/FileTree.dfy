/**
  The shared file tree: built and sorted by a recursive scan, searched by full path with a
  lookup that descends only where the path so far fits.
 */
module FileTree {
  import opened Prelude

  datatype Node = Node(name: string, fullPath: string, isDirectory: bool, children: seq<Node>)

  /** A node's place: the child indices on the way from the root. */
  type Place = seq<nat>

  // ---------------------------------------------------------------- lookup

  /** Only children whose path is a prefix of the target are entered. */
  function Find(node: Node, target: string): Option<Place>
    decreases node, 1, 0
  {
    if node.fullPath == target then Some([])
    else if node.isDirectory then FindFrom(node, 0, target)
    else None
  }

  function FindFrom(node: Node, i: nat, target: string): Option<Place>
    requires i <= |node.children|
    decreases node, 0, |node.children| - i
  {
    if i == |node.children| then None
    else
      var child := node.children[i];
      var found := if child.fullPath <= target then Find(child, target) else None;
      if found.Some? then Some([i] + found.value) else FindFrom(node, i + 1, target)
  }

  /** Every node that can be shown, in preorder, with its place and path. */
  function Preorder(node: Node): seq<(Place, string)>
    decreases node, 1, 0
  {
    [([], node.fullPath)] + if node.isDirectory then PreorderFrom(node, 0) else []
  }

  function PreorderFrom(node: Node, i: nat): seq<(Place, string)>
    requires i <= |node.children|
    decreases node, 0, |node.children| - i
  {
    if i == |node.children| then []
    else Below(i, Preorder(node.children[i])) + PreorderFrom(node, i + 1)
  }

  function Below(i: nat, es: seq<(Place, string)>): (r: seq<(Place, string)>)
    ensures |r| == |es|
    ensures forall k :: 0 <= k < |es| ==> r[k] == ([i] + es[k].0, es[k].1)
  {
    seq(|es|, k requires 0 <= k < |es| => ([i] + es[k].0, es[k].1))
  }

  /** The exhaustive search: the first node in preorder with the path. */
  function First(es: seq<(Place, string)>, target: string): Option<Place> {
    if es == [] then None
    else if es[0].1 == target then Some(es[0].0)
    else First(es[1..], target)
  }

  /** Every path below a node extends the node's own path. */
  predicate Nested(node: Node) {
    forall i :: 0 <= i < |node.children| ==>
      node.fullPath <= node.children[i].fullPath && Nested(node.children[i])
  }

  /** The root's own path does not matter, the lookup starts inside it. */
  predicate ChildrenNested(root: Node) {
    forall i :: 0 <= i < |root.children| ==> Nested(root.children[i])
  }

  lemma {:induction false} FirstAppend(a: seq<(Place, string)>, b: seq<(Place, string)>, target: string)
    ensures First(a + b, target) == if First(a, target).Some? then First(a, target) else First(b, target)
  {
    if a == [] {
      assert a + b == b;
    } else {
      TailOfAppend(a, b);
      FirstAppend(a[1..], b, target);
    }
  }

  lemma {:induction false} FirstBelow(i: nat, es: seq<(Place, string)>, target: string)
    ensures First(Below(i, es), target)
            == if First(es, target).Some? then Some([i] + First(es, target).value) else None
  {
    if es != [] {
      assert Below(i, es)[1..] == Below(i, es[1..]);
      FirstBelow(i, es[1..], target);
    }
  }

  lemma {:induction false} NestedPathsExtend(node: Node, base: string)
    requires Nested(node) && base <= node.fullPath
    ensures forall k :: 0 <= k < |Preorder(node)| ==> base <= Preorder(node)[k].1
    decreases node, 1, 0
  {
    if node.isDirectory {
      NestedPathsExtendFrom(node, 0, base);
    }
  }

  lemma {:induction false} NestedPathsExtendFrom(node: Node, i: nat, base: string)
    requires Nested(node) && base <= node.fullPath && i <= |node.children|
    ensures forall k :: 0 <= k < |PreorderFrom(node, i)| ==> base <= PreorderFrom(node, i)[k].1
    decreases node, 0, |node.children| - i
  {
    if i < |node.children| {
      NestedPathsExtend(node.children[i], base);
      NestedPathsExtendFrom(node, i + 1, base);
    }
  }

  lemma {:induction false} FirstNeedsPath(es: seq<(Place, string)>, target: string)
    requires forall k :: 0 <= k < |es| ==> es[k].1 != target
    ensures First(es, target).None?
  {
    if es != [] {
      FirstNeedsPath(es[1..], target);
    }
  }

  /** Nothing is lost by the pruning: on a tree of nested paths the lookup finds the same
      node as the exhaustive search, for every target. */
  lemma {:induction false} FindIsExhaustive(node: Node, target: string)
    requires ChildrenNested(node)
    ensures Find(node, target) == First(Preorder(node), target)
    decreases node, 1, 0
  {
    if node.isDirectory {
      FindFromIsExhaustive(node, 0, target);
      var root: (Place, string) := ([], node.fullPath);
      TailOfCons(root, PreorderFrom(node, 0));
    }
  }

  lemma {:induction false} FindFromIsExhaustive(node: Node, i: nat, target: string)
    requires ChildrenNested(node) && i <= |node.children|
    ensures FindFrom(node, i, target) == First(PreorderFrom(node, i), target)
    decreases node, 0, |node.children| - i
  {
    if i < |node.children| {
      var child := node.children[i];
      FindFromIsExhaustive(node, i + 1, target);
      FirstAppend(Below(i, Preorder(child)), PreorderFrom(node, i + 1), target);
      FirstBelow(i, Preorder(child), target);
      if child.fullPath <= target {
        FindIsExhaustive(child, target);
      } else {
        NestedPathsExtend(child, child.fullPath);
        FirstNeedsPath(Preorder(child), target);
      }
    }
  }

  // ---------------------------------------------------------------- order

  /** std::string's less-than. */
  predicate TextLess(a: string, b: string) {
    if b == "" then false
    else if a == "" then true
    else a[0] < b[0] || (a[0] == b[0] && TextLess(a[1..], b[1..]))
  }

  lemma {:induction false} TextLessTotal(a: string, b: string)
    ensures TextLess(a, b) || TextLess(b, a) || a == b
    ensures !(TextLess(a, b) && TextLess(b, a))
    ensures !TextLess(a, a)
  {
    if a != "" && b != "" {
      TextLessTotal(a[1..], b[1..]);
      TextLessTotal(a[1..], a[1..]);
      assert a == [a[0]] + a[1..] && b == [b[0]] + b[1..];
    } else if a != "" {
      TextLessTotal(a[1..], a[1..]);
    }
  }

  /** The order of a dictionary: a text comes before those it begins, and before those that are
      greater where the two first differ. */
  lemma {:induction false} TextLessIff(a: string, b: string)
    ensures TextLess(a, b)
            <==> a < b || exists i :: 0 <= i < |a| && i < |b| && a[..i] == b[..i] && a[i] < b[i]
  {
    if a != "" && b != "" {
      TextLessIff(a[1..], b[1..]);
      if a[0] == b[0] {
        SameFirst(a, b);
      } else if a[0] < b[0] {
        assert a[..0] == b[..0];
      }
    } else if b != "" {
      assert a < b;
    }
  }

  lemma SameFirst(a: string, b: string)
    requires a != "" && b != "" && a[0] == b[0]
    ensures a < b <==> a[1..] < b[1..]
    ensures (exists i :: 0 <= i < |a| && i < |b| && a[..i] == b[..i] && a[i] < b[i])
            <==> exists i :: 0 <= i < |a[1..]| && i < |b[1..]| && a[1..][..i] == b[1..][..i] && a[1..][i] < b[1..][i]
  {
    assert a == [a[0]] + a[1..] && b == [b[0]] + b[1..];
    if i :| 0 <= i < |a| && i < |b| && a[..i] == b[..i] && a[i] < b[i] {
      assert i > 0;
      assert a[1..][..i - 1] == a[..i][1..] && b[1..][..i - 1] == b[..i][1..];
      assert a[1..][i - 1] == a[i] && b[1..][i - 1] == b[i];
    }
    if i :| 0 <= i < |a[1..]| && i < |b[1..]| && a[1..][..i] == b[1..][..i] && a[1..][i] < b[1..][i] {
      assert a[..i + 1] == [a[0]] + a[1..][..i] && b[..i + 1] == [b[0]] + b[1..][..i];
      assert a[i + 1] < b[i + 1];
    }
  }

  lemma {:induction false} TextLessTransitive(a: string, b: string, c: string)
    requires TextLess(a, b) && TextLess(b, c)
    ensures TextLess(a, c)
  {
    if a != "" && a[0] == b[0] == c[0] {
      TextLessTransitive(a[1..], b[1..], c[1..]);
    }
  }

  /** Directories first, then by name. */
  predicate Before(a: Node, b: Node) {
    if a.isDirectory != b.isDirectory then a.isDirectory else TextLess(a.name, b.name)
  }

  lemma NotBeforeTransitive(a: Node, b: Node, c: Node)
    requires !Before(b, a) && !Before(c, b)
    ensures !Before(c, a)
  {
    TextLessTotal(a.name, b.name);
    TextLessTotal(b.name, c.name);
    TextLessTotal(a.name, c.name);
    if TextLess(c.name, a.name) && TextLess(a.name, b.name) {
      TextLessTransitive(c.name, a.name, b.name);
    }
  }

  /** What std::sort asks of the comparison. */
  lemma BeforeIsStrictWeakOrder(a: Node, b: Node, c: Node)
    ensures !Before(a, a)
    ensures Before(a, b) && Before(b, c) ==> Before(a, c)
    ensures !Before(a, b) && !Before(b, a) && !Before(b, c) && !Before(c, b) ==> !Before(a, c) && !Before(c, a)
  {
    TextLessTotal(a.name, a.name);
    TextLessTotal(a.name, b.name);
    TextLessTotal(b.name, c.name);
    if TextLess(a.name, b.name) && TextLess(b.name, c.name) {
      TextLessTransitive(a.name, b.name, c.name);
    }
  }

  /** Two nodes that neither must come before the other have the same name. */
  lemma IncomparableIsSameName(a: Node, b: Node)
    requires !Before(a, b) && !Before(b, a)
    ensures a.name == b.name
  {
    TextLessTotal(a.name, b.name);
  }

  predicate Sorted(nodes: seq<Node>) {
    forall i, j :: 0 <= i < j < |nodes| ==> !Before(nodes[j], nodes[i])
  }

  /** What std::sort promises: the elements, in an order the comparison allows. Which one, where
      it allows several, is left open. */
  ghost predicate IsSort(sort: seq<Node> -> seq<Node>) {
    forall nodes: seq<Node> :: multiset(sort(nodes)) == multiset(nodes) && Sorted(sort(nodes))
  }

  predicate DistinctNames(nodes: seq<Node>) {
    forall i, j :: 0 <= i < j < |nodes| ==> nodes[i].name != nodes[j].name
  }

  lemma SameElements(a: seq<Node>, b: seq<Node>, n: Node)
    requires multiset(a) == multiset(b)
    ensures |a| == |b| && (n in a <==> n in b)
  {
    assert |a| == |multiset(a)| == |multiset(b)| == |b|;
    assert n in multiset(a) <==> n in multiset(b);
  }

  lemma {:induction false} WithoutOne(nodes: seq<Node>, i: nat)
    requires i < |nodes|
    ensures multiset(nodes) == multiset(nodes[..i] + nodes[i + 1..]) + multiset{nodes[i]}
  {
    assert nodes == nodes[..i] + [nodes[i]] + nodes[i + 1..];
  }

  lemma Cancel(a: multiset<Node>, b: multiset<Node>, n: Node)
    requires a + multiset{n} == b + multiset{n}
    ensures a == b
  {
    assert a == (a + multiset{n}) - multiset{n};
    assert b == (b + multiset{n}) - multiset{n};
  }

  lemma {:induction false} WithoutFirst(nodes: seq<Node>)
    requires nodes != []
    ensures multiset(nodes) == multiset(nodes[1..]) + multiset{nodes[0]}
  {
    assert nodes == [nodes[0]] + nodes[1..];
  }

  lemma {:induction false} DistinctIsShared(a: seq<Node>, b: seq<Node>)
    requires multiset(a) == multiset(b) && DistinctNames(a)
    ensures DistinctNames(b)
    decreases |b|
  {
    if b != [] {
      SameElements(a, b, b[0]);
      var i :| 0 <= i < |a| && a[i] == b[0];
      var rest := a[..i] + a[i + 1..];
      WithoutOne(a, i);
      WithoutFirst(b);
      Cancel(multiset(rest), multiset(b[1..]), b[0]);
      DistinctWithout(a, i);
      DistinctIsShared(rest, b[1..]);
      forall j | 0 < j < |b| ensures b[0].name != b[j].name {
        assert b[j] == b[1..][j - 1];
        SameElements(rest, b[1..], b[j]);
      }
      forall j, k | 0 <= j < k < |b| ensures b[j].name != b[k].name {
        if j > 0 {
          assert b[j] == b[1..][j - 1] && b[k] == b[1..][k - 1];
        }
      }
    }
  }

  lemma {:induction false} DistinctWithout(nodes: seq<Node>, i: nat)
    requires DistinctNames(nodes) && i < |nodes|
    ensures var rest := nodes[..i] + nodes[i + 1..];
            DistinctNames(rest) && forall n :: n in rest ==> n.name != nodes[i].name
  {
    var rest := nodes[..i] + nodes[i + 1..];
    assert forall k :: 0 <= k < |rest| ==> rest[k] == if k < i then nodes[k] else nodes[k + 1];
  }

  /** With distinct names there is only one sorted arrangement. */
  lemma {:induction false} SortedIsUnique(a: seq<Node>, b: seq<Node>)
    requires multiset(a) == multiset(b) && Sorted(a) && Sorted(b) && DistinctNames(a)
    ensures a == b
    decreases |a|
  {
    hide Sorted, DistinctNames;
    if a == [] {
      assert |b| == |multiset(b)| == 0;
    } else {
      FirstIsShared(a, b);
      WithoutFirst(a);
      WithoutFirst(b);
      Cancel(multiset(a[1..]), multiset(b[1..]), a[0]);
      TailIsSorted(a);
      TailIsSorted(b);
      SortedIsUnique(a[1..], b[1..]);
      assert a == [a[0]] + a[1..] && b == [b[0]] + b[1..];
    }
  }

  lemma {:induction false} TailIsSorted(nodes: seq<Node>)
    requires Sorted(nodes) && nodes != []
    ensures Sorted(nodes[1..]) && (DistinctNames(nodes) ==> DistinctNames(nodes[1..]))
  {
    hide Before;
  }

  lemma {:induction false} FirstIsShared(a: seq<Node>, b: seq<Node>)
    requires multiset(a) == multiset(b) && Sorted(a) && Sorted(b) && DistinctNames(a) && a != []
    ensures b != [] && a[0] == b[0]
  {
    hide Before;
    SameElements(a, b, a[0]);
    SameElements(a, b, b[0]);
    var k :| 0 <= k < |b| && b[k] == a[0];
    var j :| 0 <= j < |a| && a[j] == b[0];
    if k > 0 && j > 0 {
      IncomparableIsSameName(a[0], b[0]);
    }
  }

  function Insert(nodes: seq<Node>, n: Node): (r: seq<Node>)
    ensures multiset(r) == multiset(nodes) + multiset{n}
    ensures forall x :: x in r <==> x == n || x in nodes
  {
    if nodes == [] then [n]
    else if Before(n, nodes[0]) then [n] + nodes
    else
      assert nodes == [nodes[0]] + nodes[1..];
      [nodes[0]] + Insert(nodes[1..], n)
  }

  function Sort(nodes: seq<Node>): (r: seq<Node>)
    ensures multiset(r) == multiset(nodes)
    ensures forall x :: x in r <==> x in nodes
  {
    if nodes == [] then []
    else
      assert nodes == nodes[..|nodes| - 1] + [nodes[|nodes| - 1]];
      Insert(Sort(nodes[..|nodes| - 1]), nodes[|nodes| - 1])
  }

  lemma {:induction false} InsertKeepsSorted(nodes: seq<Node>, n: Node)
    requires Sorted(nodes)
    ensures Sorted(Insert(nodes, n))
  {
    if nodes == [] {
    } else if Before(n, nodes[0]) {
      TextLessTotal(n.name, nodes[0].name);
      var r := [n] + nodes;
      forall i, j | 0 <= i < j < |r| ensures !Before(r[j], r[i]) {
        if i == 0 && j > 1 {
          NotBeforeTransitive(n, nodes[0], nodes[j - 1]);
        }
      }
    } else {
      var tail := nodes[1..];
      InsertKeepsSorted(tail, n);
      var r := [nodes[0]] + Insert(tail, n);
      forall i, j | 0 <= i < j < |r| ensures !Before(r[j], r[i]) {
        if i == 0 {
          assert r[j] in Insert(tail, n);
          assert r[j] == n || r[j] in tail;
        }
      }
    }
  }

  lemma {:induction false} SortSorts(nodes: seq<Node>)
    ensures Sorted(Sort(nodes))
  {
    if nodes != [] {
      SortSorts(nodes[..|nodes| - 1]);
      InsertKeepsSorted(Sort(nodes[..|nodes| - 1]), nodes[|nodes| - 1]);
    }
  }

  /** One sort that keeps the promise. */
  lemma {:induction false} InsertionIsSort()
    ensures IsSort(Sort)
  {
    forall nodes: seq<Node> ensures multiset(Sort(nodes)) == multiset(nodes) && Sorted(Sort(nodes)) {
      SortSorts(nodes);
    }
  }

  /** On distinct names every sort gives the same result. */
  lemma {:induction false} SortsAgree(sort: seq<Node> -> seq<Node>, nodes: seq<Node>)
    requires IsSort(sort) && DistinctNames(nodes)
    ensures sort(nodes) == Sort(nodes)
  {
    SortSorts(nodes);
    DistinctIsShared(nodes, sort(nodes));
    SortedIsUnique(sort(nodes), Sort(nodes));
  }

  // ---------------------------------------------------------------- the scan

  /** What iterating over a directory yields. `complete` is false when the iteration fails
      after these entries; what was collected is then kept, unsorted. */
  datatype Entry = FileEntry(name: string) | DirEntry(name: string, entries: seq<Entry>, complete: bool)

  /** The path of an entry of a directory. */
  function Join(dir: string, name: string): (p: string)
    ensures dir <= p
  {
    if dir == "" || dir[|dir| - 1] == '/' then dir + name else dir + "/" + name
  }

  function NodeOf(sort: seq<Node> -> seq<Node>, dir: string, e: Entry): Node
    decreases e, 1, 0
  {
    var path := Join(dir, e.name);
    match e
    case FileEntry(name) => Node(name, path, false, [])
    case DirEntry(name, _, _) => Node(name, path, true, Scan(sort, path, e))
  }

  function Collect(sort: seq<Node> -> seq<Node>, dir: string, d: Entry, n: nat): (nodes: seq<Node>)
    requires d.DirEntry? && n <= |d.entries|
    ensures |nodes| == n
    decreases d, 0, n
  {
    if n == 0 then [] else Collect(sort, dir, d, n - 1) + [NodeOf(sort, dir, d.entries[n - 1])]
  }

  /** The children the scan gives the node of directory `d` at path `dir`. */
  function Scan(sort: seq<Node> -> seq<Node>, dir: string, d: Entry): seq<Node>
    requires d.DirEntry?
    decreases d, 0, |d.entries| + 1
  {
    var nodes := Collect(sort, dir, d, |d.entries|);
    if d.complete then sort(nodes) else nodes
  }

  lemma {:induction false} NodeIsNested(sort: seq<Node> -> seq<Node>, dir: string, e: Entry)
    requires IsSort(sort)
    ensures dir <= NodeOf(sort, dir, e).fullPath && Nested(NodeOf(sort, dir, e))
    decreases e, 1, 0
  {
    hide IsSort;
    if e.DirEntry? {
      ScanIsNested(sort, Join(dir, e.name), e);
    }
  }

  lemma {:induction false} CollectIsNested(sort: seq<Node> -> seq<Node>, dir: string, d: Entry, n: nat)
    requires IsSort(sort) && d.DirEntry? && n <= |d.entries|
    ensures forall x :: x in Collect(sort, dir, d, n) ==> dir <= x.fullPath && Nested(x)
    decreases d, 0, n
  {
    hide IsSort;
    if n > 0 {
      CollectIsNested(sort, dir, d, n - 1);
      NodeIsNested(sort, dir, d.entries[n - 1]);
    }
  }

  lemma {:induction false} ScanIsNested(sort: seq<Node> -> seq<Node>, dir: string, d: Entry)
    requires IsSort(sort) && d.DirEntry?
    ensures forall i :: 0 <= i < |Scan(sort, dir, d)| ==>
                          dir <= Scan(sort, dir, d)[i].fullPath && Nested(Scan(sort, dir, d)[i])
    decreases d, 0, |d.entries| + 1
  {
    hide Sorted, Nested, Collect;
    CollectIsNested(sort, dir, d, |d.entries|);
    var scanned, nodes := Scan(sort, dir, d), Collect(sort, dir, d, |d.entries|);
    assert multiset(scanned) == multiset(nodes);
    forall i | 0 <= i < |scanned| ensures dir <= scanned[i].fullPath && Nested(scanned[i]) {
      SameElements(scanned, nodes, scanned[i]);
    }
  }

  /** One node per entry, in the order of the entries. */
  function NodesOf(sort: seq<Node> -> seq<Node>, dir: string, d: Entry): (nodes: seq<Node>)
    requires d.DirEntry?
    ensures |nodes| == |d.entries|
  {
    seq(|d.entries|, i requires 0 <= i < |d.entries| => NodeOf(sort, dir, d.entries[i]))
  }

  lemma {:induction false} CollectIsMap(sort: seq<Node> -> seq<Node>, dir: string, d: Entry, n: nat)
    requires d.DirEntry? && n <= |d.entries|
    ensures Collect(sort, dir, d, n) == NodesOf(sort, dir, d)[..n]
    decreases n
  {
    hide NodeOf;
    if n > 0 {
      CollectIsMap(sort, dir, d, n - 1);
    }
  }

  /** A scanned directory has one child per entry, and when it could be read to the end they
      are in order, whatever sort is used. */
  lemma {:induction false} ScanIsSortedPermutation(sort: seq<Node> -> seq<Node>, dir: string, d: Entry)
    requires IsSort(sort) && d.DirEntry?
    ensures multiset(Scan(sort, dir, d)) == multiset(NodesOf(sort, dir, d))
    ensures d.complete ==> Sorted(Scan(sort, dir, d))
  {
    hide Collect, NodesOf, Sorted;
    CollectIsMap(sort, dir, d, |d.entries|);
    assert NodesOf(sort, dir, d)[..|d.entries|] == NodesOf(sort, dir, d);
  }

  /** When a directory could be read to the end its subdirectories come before its files, and
      names ascend among each. */
  lemma {:induction false} DirectoriesComeFirst(sort: seq<Node> -> seq<Node>, dir: string, d: Entry, i: nat, j: nat)
    requires IsSort(sort) && d.DirEntry? && d.complete && i < j < |Scan(sort, dir, d)|
    ensures var a, b := Scan(sort, dir, d)[i], Scan(sort, dir, d)[j];
            && (b.isDirectory ==> a.isDirectory)
            && (a.isDirectory == b.isDirectory ==> TextLess(a.name, b.name) || a.name == b.name)
  {
    hide Collect, TextLess;
    ScanIsSortedPermutation(sort, dir, d);
    TextLessTotal(Scan(sort, dir, d)[i].name, Scan(sort, dir, d)[j].name);
  }

  /** No directory below has two entries of the same name. */
  predicate NamesDiffer(e: Entry) {
    e.DirEntry? ==>
      && (forall i, j :: 0 <= i < j < |e.entries| ==> e.entries[i].name != e.entries[j].name)
      && (forall i :: 0 <= i < |e.entries| ==> NamesDiffer(e.entries[i]))
  }

  /** In a file system names differ within a directory: the scanned tree is then the same for
      every sort. */
  lemma {:induction false} NodeIsDetermined(sort: seq<Node> -> seq<Node>, dir: string, e: Entry)
    requires IsSort(sort) && NamesDiffer(e)
    ensures NodeOf(sort, dir, e) == NodeOf(Sort, dir, e)
    decreases e, 1, 0
  {
    hide IsSort, NamesDiffer;
    if e.DirEntry? {
      ScanIsDetermined(sort, Join(dir, e.name), e);
    }
  }

  lemma {:induction false} CollectIsDetermined(sort: seq<Node> -> seq<Node>, dir: string, d: Entry, n: nat)
    requires IsSort(sort) && d.DirEntry? && NamesDiffer(d) && n <= |d.entries|
    ensures Collect(sort, dir, d, n) == Collect(Sort, dir, d, n)
    decreases d, 0, n
  {
    hide IsSort;
    if n > 0 {
      CollectIsDetermined(sort, dir, d, n - 1);
      NodeIsDetermined(sort, dir, d.entries[n - 1]);
    }
  }

  lemma {:induction false} ScanIsDetermined(sort: seq<Node> -> seq<Node>, dir: string, d: Entry)
    requires IsSort(sort) && d.DirEntry? && NamesDiffer(d)
    ensures Scan(sort, dir, d) == Scan(Sort, dir, d)
    decreases d, 0, |d.entries| + 1
  {
    hide IsSort, Collect;
    CollectIsDetermined(sort, dir, d, |d.entries|);
    CollectHasDistinctNames(dir, d);
    SortsAgree(sort, Collect(Sort, dir, d, |d.entries|));
  }

  lemma {:induction false} CollectHasDistinctNames(dir: string, d: Entry)
    requires d.DirEntry? && NamesDiffer(d)
    ensures DistinctNames(Collect(Sort, dir, d, |d.entries|))
  {
    hide Collect, Scan;
    CollectIsMap(Sort, dir, d, |d.entries|);
    var nodes := NodesOf(Sort, dir, d);
    assert nodes[..|d.entries|] == nodes;
    assert forall i :: 0 <= i < |nodes| ==> nodes[i].name == d.entries[i].name;
  }

  /** The panel's root: a fixed name, the storage directory's path and its scanned contents. */
  function RootOf(sort: seq<Node> -> seq<Node>, storagePath: string, d: Entry): Node
    requires d.DirEntry?
  {
    Node("Storage Root", storagePath, true, Scan(sort, storagePath, d))
  }

  /** On every tree the scan can build the lookup is exhaustive. */
  lemma {:induction false} LookupOnScannedTree(sort: seq<Node> -> seq<Node>, storagePath: string, d: Entry,
                                               target: string)
    requires IsSort(sort) && d.DirEntry?
    ensures Find(RootOf(sort, storagePath, d), target) == First(Preorder(RootOf(sort, storagePath, d)), target)
  {
    hide IsSort;
    ScanIsNested(sort, storagePath, d);
    FindIsExhaustive(RootOf(sort, storagePath, d), target);
  }

  // ---------------------------------------------------------------- what a scan finds

  /** What the tree shows of one entry. */
  datatype Item = Item(path: string, name: string, isDirectory: bool)

  /** An entry of the directory at `dir` and everything below it, at every depth. */
  function Contents(dir: string, e: Entry): multiset<Item>
    decreases e, 1, 0
  {
    multiset{Item(Join(dir, e.name), e.name, e.DirEntry?)}
    + if e.DirEntry? then ContentsOf(Join(dir, e.name), e, |e.entries|) else multiset{}
  }

  /** The first `n` entries of a directory and everything below them. */
  function ContentsOf(dir: string, d: Entry, n: nat): multiset<Item>
    requires d.DirEntry? && n <= |d.entries|
    decreases d, 0, n
  {
    if n == 0 then multiset{} else ContentsOf(dir, d, n - 1) + Contents(dir, d.entries[n - 1])
  }

  /** A node and every node below it that can be shown. */
  function Items(node: Node): multiset<Item> {
    multiset{Item(node.fullPath, node.name, node.isDirectory)}
    + if node.isDirectory then ItemsOf(node.children) else multiset{}
  }

  function ItemsOf(nodes: seq<Node>): multiset<Item> {
    if nodes == [] then multiset{} else Items(nodes[0]) + ItemsOf(nodes[1..])
  }

  lemma {:induction false} ItemsAppend(a: seq<Node>, b: seq<Node>)
    ensures ItemsOf(a + b) == ItemsOf(a) + ItemsOf(b)
  {
    hide Items;
    if a == [] {
      assert a + b == b;
    } else {
      TailOfAppend(a, b);
      ItemsAppend(a[1..], b);
    }
  }

  lemma {:induction false} ItemsOfOne(n: Node)
    ensures ItemsOf([n]) == Items(n)
  {
    hide Items;
    assert [n][1..] == [];
  }

  lemma {:induction false} ItemsWithout(nodes: seq<Node>, i: nat)
    requires i < |nodes|
    ensures ItemsOf(nodes) == ItemsOf(nodes[..i] + nodes[i + 1..]) + Items(nodes[i])
  {
    hide Items, ItemsOf;
    assert nodes == nodes[..i] + ([nodes[i]] + nodes[i + 1..]);
    ItemsAppend(nodes[..i], [nodes[i]] + nodes[i + 1..]);
    ItemsAppend([nodes[i]], nodes[i + 1..]);
    ItemsAppend(nodes[..i], nodes[i + 1..]);
    ItemsOfOne(nodes[i]);
  }

  /** The order of siblings does not matter. */
  lemma {:induction false} ItemsOfPermutation(a: seq<Node>, b: seq<Node>)
    requires multiset(a) == multiset(b)
    ensures ItemsOf(a) == ItemsOf(b)
    decreases |b|
  {
    hide Items;
    if b == [] {
      assert |a| == |multiset(a)| == 0;
    } else {
      SameElements(a, b, b[0]);
      var i :| 0 <= i < |a| && a[i] == b[0];
      var rest := a[..i] + a[i + 1..];
      WithoutOne(a, i);
      WithoutFirst(b);
      Cancel(multiset(rest), multiset(b[1..]), b[0]);
      ItemsOfPermutation(rest, b[1..]);
      ItemsWithout(a, i);
    }
  }

  lemma {:induction false} NodeHasContents(sort: seq<Node> -> seq<Node>, dir: string, e: Entry)
    requires IsSort(sort)
    ensures Items(NodeOf(sort, dir, e)) == Contents(dir, e)
    decreases e, 1, 0
  {
    hide IsSort, Scan, ItemsOf, ContentsOf, Join;
    if e.DirEntry? {
      ScanHasContents(sort, Join(dir, e.name), e);
    }
  }

  lemma {:induction false} CollectHasContents(sort: seq<Node> -> seq<Node>, dir: string, d: Entry, n: nat)
    requires IsSort(sort) && d.DirEntry? && n <= |d.entries|
    ensures ItemsOf(Collect(sort, dir, d, n)) == ContentsOf(dir, d, n)
    decreases d, 0, n
  {
    hide IsSort, Items, Contents, NodeOf;
    if n > 0 {
      var node := NodeOf(sort, dir, d.entries[n - 1]);
      CollectHasContents(sort, dir, d, n - 1);
      NodeHasContents(sort, dir, d.entries[n - 1]);
      ItemsAppend(Collect(sort, dir, d, n - 1), [node]);
      ItemsOfOne(node);
    }
  }

  /** The scan finds everything and nothing else: its nodes, at every depth, are the entries below
      the directory, each once, with its joined path, its name and its kind. */
  lemma {:induction false} ScanHasContents(sort: seq<Node> -> seq<Node>, dir: string, d: Entry)
    requires IsSort(sort) && d.DirEntry?
    ensures ItemsOf(Scan(sort, dir, d)) == ContentsOf(dir, d, |d.entries|)
    decreases d, 0, |d.entries| + 1
  {
    hide Sorted, Collect, ItemsOf, ContentsOf;
    CollectHasContents(sort, dir, d, |d.entries|);
    ItemsOfPermutation(Scan(sort, dir, d), Collect(sort, dir, d, |d.entries|));
  }

  predicate HasPath(items: multiset<Item>, path: string) {
    exists item :: item in items && item.path == path
  }

  lemma {:induction false} FirstIffItem(node: Node, path: string)
    ensures First(Preorder(node), path).Some? <==> HasPath(Items(node), path)
    decreases node, 1, 0
  {
    hide ItemsOf, PreorderFrom;
    var own: (Place, string) := ([], node.fullPath);
    var item := Item(node.fullPath, node.name, node.isDirectory);
    if node.isDirectory {
      FirstFromIffItem(node, 0, path);
      assert node.children[0..] == node.children;
      TailOfCons(own, PreorderFrom(node, 0));
      HasPathOfSum(multiset{item}, ItemsOf(node.children), path);
    } else {
      assert [own] + [] == [own] && [own][1..] == [];
      assert Items(node) == multiset{item};
    }
    HasPathOfOne(item, path);
  }

  lemma HasPathOfOne(item: Item, path: string)
    ensures HasPath(multiset{item}, path) <==> item.path == path
  {
    assert item in multiset{item};
  }

  lemma HasPathOfSum(a: multiset<Item>, b: multiset<Item>, path: string)
    ensures HasPath(a + b, path) <==> HasPath(a, path) || HasPath(b, path)
  {
    if HasPath(a, path) {
      var item :| item in a && item.path == path;
      assert item in a + b;
    }
    if HasPath(b, path) {
      var item :| item in b && item.path == path;
      assert item in a + b;
    }
    if HasPath(a + b, path) {
      var item :| item in a + b && item.path == path;
      assert item in a || item in b;
    }
  }

  lemma {:induction false} FirstFromIffItem(node: Node, i: nat, path: string)
    requires i <= |node.children|
    ensures First(PreorderFrom(node, i), path).Some? <==> HasPath(ItemsOf(node.children[i..]), path)
    decreases node, 0, |node.children| - i
  {
    hide HasPath, Preorder, Items;
    if i == |node.children| {
      NoItems(path);
    } else {
      var child := node.children[i];
      FirstIffItem(child, path);
      FirstFromIffItem(node, i + 1, path);
      FirstBelow(i, Preorder(child), path);
      FirstAppend(Below(i, Preorder(child)), PreorderFrom(node, i + 1), path);
      assert node.children[i..][1..] == node.children[i + 1..];
      HasPathOfSum(Items(child), ItemsOf(node.children[i + 1..]), path);
    }
  }

  lemma NoItems(path: string)
    ensures !HasPath(ItemsOf([]), path)
  {
  }

  /** The lookup on a scanned tree succeeds exactly on the storage directory's own path and the
      paths of the entries below it. */
  lemma {:induction false} FoundIffEntry(sort: seq<Node> -> seq<Node>, storagePath: string, d: Entry,
                                         target: string)
    requires IsSort(sort) && d.DirEntry?
    ensures Find(RootOf(sort, storagePath, d), target).Some?
            <==> target == storagePath || HasPath(ContentsOf(storagePath, d, |d.entries|), target)
  {
    hide IsSort, Scan, ItemsOf, ContentsOf, HasPath, Preorder, Find;
    var root := RootOf(sort, storagePath, d);
    var item := Item(storagePath, root.name, true);
    LookupOnScannedTree(sort, storagePath, d, target);
    FirstIffItem(root, target);
    ScanHasContents(sort, storagePath, d);
    HasPathOfSum(multiset{item}, ItemsOf(root.children), target);
    HasPathOfOne(item, target);
  }

  /** The node at a place, reached through directories. */
  function NodeAt(node: Node, place: Place): Option<Node>
    decreases place
  {
    if place == [] then Some(node)
    else if node.isDirectory && place[0] < |node.children| then NodeAt(node.children[place[0]], place[1..])
    else None
  }

  /** What is found is a node of the tree with the path asked for. */
  lemma {:induction false} FoundHasPath(node: Node, target: string)
    ensures var place := Find(node, target);
            place.Some? ==>
              var found := NodeAt(node, place.value);
              && found.Some? && found.value.fullPath == target
              && Item(target, found.value.name, found.value.isDirectory) in Items(node)
    decreases node, 1, 0
  {
    hide ItemsOf;
    if node.fullPath != target && node.isDirectory {
      FoundFromHasPath(node, 0, target);
      assert node.children[0..] == node.children;
    }
  }

  lemma {:induction false} FoundFromHasPath(node: Node, i: nat, target: string)
    requires i <= |node.children| && node.isDirectory
    ensures var place := FindFrom(node, i, target);
            place.Some? ==>
              var found := NodeAt(node, place.value);
              && found.Some? && found.value.fullPath == target
              && Item(target, found.value.name, found.value.isDirectory) in ItemsOf(node.children[i..])
    decreases node, 0, |node.children| - i
  {
    hide Find, Items;
    if i < |node.children| {
      var child := node.children[i];
      FoundHasPath(child, target);
      FoundFromHasPath(node, i + 1, target);
      assert node.children[i..][1..] == node.children[i + 1..];
      var found := if child.fullPath <= target then Find(child, target) else None;
      if found.Some? {
        TailOfCons(i, found.value);
      }
    }
  }

  // ---------------------------------------------------------------- paths

  /** The text behind the last separator. */
  function FileName(path: string): string {
    if path == "" || path[|path| - 1] == '/' then ""
    else FileName(path[..|path| - 1]) + [path[|path| - 1]]
  }

  /** A joined path ends in the entry's own name, and what comes before that is the directory and
      a separator if the directory's path does not end in one. */
  lemma {:induction false} JoinEndsInName(dir: string, name: string)
    requires '/' !in name
    ensures FileName(Join(dir, name)) == name
    ensures exists before :: Join(dir, name) == before + name && before in {dir, dir + "/"}
                             && (before == "" || before[|before| - 1] == '/')
  {
    var before := if dir == "" || dir[|dir| - 1] == '/' then dir else dir + "/";
    assert Join(dir, name) == before + name;
    NameBehind(before, name);
  }

  lemma {:induction false} FileNameSnoc(path: string, c: char)
    requires c != '/'
    ensures FileName(path + [c]) == FileName(path) + [c]
  {
    assert (path + [c])[..|path|] == path;
  }

  lemma {:induction false} NameBehind(before: string, name: string)
    requires '/' !in name && (before == "" || before[|before| - 1] == '/')
    ensures FileName(before + name) == name
    decreases name
  {
    if name == "" {
      assert before + name == before;
    } else {
      var init, c := name[..|name| - 1], name[|name| - 1];
      assert name == init + [c] && c in name;
      assert '/' !in init by {
        assert forall i :: 0 <= i < |init| ==> init[i] == name[i];
      }
      NameBehind(before, init);
      Assoc(before, init, [c]);
      FileNameSnoc(before + init, c);
    }
  }

  // ---------------------------------------------------------------- the scanning loop

  method ScanDirectory(sort: seq<Node> -> seq<Node>, dir: string, d: Entry) returns (children: seq<Node>)
    requires IsSort(sort) && d.DirEntry?
    ensures children == Scan(sort, dir, d)
    ensures ItemsOf(children) == ContentsOf(dir, d, |d.entries|)
    decreases d
  {
    hide IsSort, ItemsOf, ContentsOf;
    ScanHasContents(sort, dir, d);
    children := [];
    for i := 0 to |d.entries|
      invariant children == Collect(sort, dir, d, i)
    {
      var e := d.entries[i];
      var meta := Node(e.name, Join(dir, e.name), e.DirEntry?, []);
      if meta.isDirectory {
        var inner := ScanDirectory(sort, meta.fullPath, e);
        meta := meta.(children := inner);
      }
      children := children + [meta];
    }
    if !d.complete {
      return;
    }
    children := SortChildren(sort, children);
  }

  /** The call of std::sort. */
  method SortChildren(sort: seq<Node> -> seq<Node>, nodes: seq<Node>) returns (sorted: seq<Node>)
    requires IsSort(sort)
    ensures sorted == sort(nodes)
    ensures multiset(sorted) == multiset(nodes) && Sorted(sorted)
    ensures DistinctNames(nodes) ==> sorted == Sort(nodes)
  {
    sorted := sort(nodes);
    if DistinctNames(nodes) {
      SortsAgree(sort, nodes);
    }
  }
}
