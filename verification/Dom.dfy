/** The ordered forest of nodes that the Sizzle algorithms walk.

    A node is named by where it stands: `[r]` is the root of tree `r`, and `p + [i]` is child `i`
    of node `p`.  The links the source follows (parentNode, nextSibling, previousSibling,
    firstChild) are functions of the name, and identity (`===`) is equality of names. */
module Dom {
  import opened Wrappers

  datatype Tree = Node(nodeType: nat, nodeName: string, kids: seq<Tree>)

  type Forest = seq<Tree>
  type Path = seq<nat>

  const ELEMENT_NODE := 1

  /** `p` leads from the root of `t` down to one of its nodes. */
  predicate InTree(t: Tree, p: Path)
    decreases |p|
  {
    p == [] || (p[0] < |t.kids| && InTree(t.kids[p[0]], p[1..]))
  }

  function At(t: Tree, p: Path): Tree
    requires InTree(t, p)
    decreases |p|
  {
    if p == [] then t else At(t.kids[p[0]], p[1..])
  }

  /** `n` is a node of the forest. */
  predicate IsNode(f: Forest, n: Path) {
    n != [] && n[0] < |f| && InTree(f[n[0]], n[1..])
  }

  function NodeAt(f: Forest, n: Path): Tree
    requires IsNode(f, n)
  {
    At(f[n[0]], n[1..])
  }

  predicate IsElement(f: Forest, n: Path)
    requires IsNode(f, n)
  {
    NodeAt(f, n).nodeType == ELEMENT_NODE
  }

  function Init(p: Path): Path
    requires p != []
  {
    p[..|p| - 1]
  }

  function Last(p: Path): nat
    requires p != []
  {
    p[|p| - 1]
  }

  // ---- the links ----

  function Parent(n: Path): Option<Path> {
    if |n| <= 1 then None else Some(Init(n))
  }

  function PreviousSibling(n: Path): Option<Path> {
    if |n| <= 1 || Last(n) == 0 then None else Some(Init(n) + [Last(n) - 1])
  }

  function NextSibling(f: Forest, n: Path): Option<Path> {
    if |n| <= 1 || !IsNode(f, Init(n) + [Last(n) + 1]) then None else Some(Init(n) + [Last(n) + 1])
  }

  function FirstChild(f: Forest, n: Path): Option<Path> {
    if IsNode(f, n + [0]) then Some(n + [0]) else None
  }

  // ---- the links stay inside the forest ----

  lemma {:induction false} InTreeChild(t: Tree, p: Path, i: nat)
    ensures InTree(t, p + [i]) <==> InTree(t, p) && i < |At(t, p).kids|
    decreases |p|
  {
    if p == [] {
      assert (p + [i])[1..] == [];
    } else {
      assert (p + [i])[1..] == p[1..] + [i];
      if p[0] < |t.kids| {
        InTreeChild(t.kids[p[0]], p[1..], i);
      }
    }
  }

  /** `n + [i]` is a node exactly when `n` is a node with more than `i` children. */
  lemma ChildIsNode(f: Forest, n: Path, i: nat)
    requires n != []
    ensures IsNode(f, n + [i]) <==> IsNode(f, n) && i < |NodeAt(f, n).kids|
  {
    assert (n + [i])[1..] == n[1..] + [i];
    if n[0] < |f| {
      InTreeChild(f[n[0]], n[1..], i);
    }
  }

  /** The parent of a node, and every sibling up to it, is a node. */
  lemma FamilyIsNode(f: Forest, n: Path, i: nat)
    requires IsNode(f, n) && |n| > 1 && i <= Last(n)
    ensures IsNode(f, Init(n)) && IsNode(f, Init(n) + [i])
    ensures Last(n) < |NodeAt(f, Init(n)).kids|
  {
    assert n == Init(n) + [Last(n)];
    ChildIsNode(f, Init(n), Last(n));
    ChildIsNode(f, Init(n), i);
  }

  lemma {:induction false} AncestorIsNode(f: Forest, n: Path, k: nat)
    requires IsNode(f, n) && 0 < k <= |n|
    ensures IsNode(f, n[..k])
    decreases |n| - k
  {
    if k < |n| {
      AncestorIsNode(f, n, k + 1);
      FamilyIsNode(f, n[..k + 1], 0);
      assert Init(n[..k + 1]) == n[..k];
    } else {
      assert n[..k] == n;
    }
  }

  // ---- document order ----

  function Prefixed(i: nat, ps: seq<Path>): (r: seq<Path>)
    ensures |r| == |ps|
  {
    seq(|ps|, k requires 0 <= k < |ps| => [i] + ps[k])
  }

  /** The nodes of `t` in document order (preorder, depth first): the order
      `compareDocumentPosition` is defined by (DOM Level 3 Core, section 1.4). */
  function Preorder(t: Tree): seq<Path>
    decreases t, |t.kids| + 1
  {
    [[]] + PreorderFrom(t, 0)
  }

  function PreorderFrom(t: Tree, i: nat): seq<Path>
    requires i <= |t.kids|
    decreases t, |t.kids| - i
  {
    if i == |t.kids| then [] else Prefixed(i, Preorder(t.kids[i])) + PreorderFrom(t, i + 1)
  }

  ghost predicate ComesFirst(ps: seq<Path>, a: Path, b: Path) {
    exists i, j :: 0 <= i < j < |ps| && ps[i] == a && ps[j] == b
  }

  /** `a` comes before `b` in document order: the reference for the comparators. */
  ghost predicate Precedes(f: Forest, a: Path, b: Path)
    requires IsNode(f, a) && IsNode(f, b)
  {
    a[0] == b[0] && ComesFirst(Preorder(f[a[0]]), a[1..], b[1..])
  }

  /** Lexicographic order of names, an ancestor first. */
  predicate Less(a: Path, b: Path)
    decreases |a|
  {
    b != [] && (a == [] || a[0] < b[0] || (a[0] == b[0] && Less(a[1..], b[1..])))
  }

  lemma {:induction false} PreorderMembers(t: Tree, p: Path)
    ensures p in Preorder(t) <==> InTree(t, p)
    decreases t, |t.kids| + 1
  {
    PreorderFromMembers(t, 0, p);
  }

  lemma {:induction false} PreorderFromMembers(t: Tree, i: nat, p: Path)
    requires i <= |t.kids|
    ensures p in PreorderFrom(t, i) <==> p != [] && i <= p[0] < |t.kids| && InTree(t.kids[p[0]], p[1..])
    decreases t, |t.kids| - i
  {
    if i < |t.kids| {
      var here := Preorder(t.kids[i]);
      PreorderFromMembers(t, i + 1, p);
      if p != [] {
        PreorderMembers(t.kids[i], p[1..]);
      }
      if p in Prefixed(i, here) {
        var k :| 0 <= k < |here| && Prefixed(i, here)[k] == p;
        assert p == [i] + here[k];
        assert p[1..] == here[k];
      }
      if p != [] && p[0] == i && p[1..] in here {
        var k :| 0 <= k < |here| && here[k] == p[1..];
        assert p == [i] + p[1..];
        assert Prefixed(i, here)[k] == p;
      }
    }
  }

  ghost predicate Sorted(ps: seq<Path>) {
    forall i, j :: 0 <= i < j < |ps| ==> Less(ps[i], ps[j])
  }

  lemma {:induction false} PreorderSorted(t: Tree)
    ensures Sorted(Preorder(t))
    decreases t, |t.kids| + 1
  {
    PreorderFromSorted(t, 0);
    forall p | p in PreorderFrom(t, 0) ensures p != [] {
      PreorderFromMembers(t, 0, p);
    }
    forall i, j | 0 <= i < j < |Preorder(t)| ensures Less(Preorder(t)[i], Preorder(t)[j]) {
      var kids := PreorderFrom(t, 0);
      assert Preorder(t)[j] == kids[j - 1] && kids[j - 1] in kids;
      assert i == 0 || Preorder(t)[i] == kids[i - 1];
    }
  }

  lemma {:induction false} PreorderFromSorted(t: Tree, i: nat)
    requires i <= |t.kids|
    ensures Sorted(PreorderFrom(t, i))
    decreases t, |t.kids| - i
  {
    if i < |t.kids| {
      var here, rest := Prefixed(i, Preorder(t.kids[i])), PreorderFrom(t, i + 1);
      PreorderSorted(t.kids[i]);
      PreorderFromSorted(t, i + 1);
      forall j, k | 0 <= j < k < |here| ensures Less(here[j], here[k]) {
        assert here[j][1..] == Preorder(t.kids[i])[j] && here[k][1..] == Preorder(t.kids[i])[k];
      }
      forall j, k | 0 <= j < |here| && 0 <= k < |rest| ensures Less(here[j], rest[k]) {
        PreorderFromMembers(t, i + 1, rest[k]);
      }
    }
  }

  lemma {:induction false} LessIsStrictTotal(a: Path, b: Path)
    ensures !(Less(a, b) && Less(b, a))
    ensures a != b <==> Less(a, b) || Less(b, a)
    decreases |a|
  {
    if a != [] && b != [] {
      LessIsStrictTotal(a[1..], b[1..]);
      assert a == [a[0]] + a[1..] && b == [b[0]] + b[1..];
    }
  }

  lemma {:induction false} LessTransitive(a: Path, b: Path, c: Path)
    requires Less(a, b) && Less(b, c)
    ensures Less(a, c)
    decreases |a|
  {
    if a != [] && a[0] == b[0] && b[0] == c[0] {
      LessTransitive(a[1..], b[1..], c[1..]);
    }
  }

  /** Within one tree, document order is the lexicographic order of names. */
  lemma PrecedesIsLess(f: Forest, a: Path, b: Path)
    requires IsNode(f, a) && IsNode(f, b) && a[0] == b[0]
    ensures Precedes(f, a, b) <==> Less(a, b)
  {
    var order := Preorder(f[a[0]]);
    PreorderSorted(f[a[0]]);
    PreorderMembers(f[a[0]], a[1..]);
    PreorderMembers(f[a[0]], b[1..]);
    if Precedes(f, a, b) {
      assert Less(a[1..], b[1..]);
    }
    if Less(a, b) {
      var i :| 0 <= i < |order| && order[i] == a[1..];
      var j :| 0 <= j < |order| && order[j] == b[1..];
      LessIsStrictTotal(a[1..], b[1..]);
    }
  }
}
