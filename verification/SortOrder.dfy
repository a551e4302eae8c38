/** The comparator that Sizzle falls back to when the browser has no `compareDocumentPosition`,
    proved to be document order. */
module SortOrder {
  import opened Wrappers
  import opened Dom

  /** What the comparator answers.  Inside one tree it is the sign of document order; between
      trees only a root facing a deeper node comes first. */
  function Order(a: Path, b: Path): int
    requires a != [] && b != []
  {
    if a == b then 0
    else if a[0] == b[0] then (if Less(a, b) then -1 else 1)
    else if |a| == 1 < |b| then -1 else 1
  }

  /** Negative means first in document order, positive means last, zero means the same node. */
  lemma OrderIsDocumentOrder(f: Forest, a: Path, b: Path)
    requires IsNode(f, a) && IsNode(f, b) && a[0] == b[0]
    ensures Order(a, b) < 0 <==> Precedes(f, a, b)
    ensures Order(a, b) > 0 <==> Precedes(f, b, a)
    ensures Order(a, b) == 0 <==> a == b
  {
    PrecedesIsLess(f, a, b);
    PrecedesIsLess(f, b, a);
    LessIsStrictTotal(a, b);
  }

  /** A sort may rely on the comparator over the nodes of one tree. */
  lemma OrderIsConsistent(a: Path, b: Path, c: Path)
    requires a != [] && b != [] && c != [] && a[0] == b[0] == c[0]
    ensures Order(a, b) == -Order(b, a)
    ensures Order(a, b) < 0 && Order(b, c) < 0 ==> Order(a, c) < 0
  {
    LessIsStrictTotal(a, b);
    if Order(a, b) < 0 && Order(b, c) < 0 {
      LessTransitive(a, b, c);
      LessIsStrictTotal(a, c);
    }
  }

  /** Between two trees the answers of the two argument orders agree exactly when one node is a
      root and the other is not, and then the root comes first: two roots, or two deeper nodes,
      each claim to come last. */
  lemma OrderAcrossTrees(a: Path, b: Path)
    requires a != [] && b != [] && a[0] != b[0]
    ensures Order(a, b) == -Order(b, a) <==> (|a| == 1) != (|b| == 1)
    ensures |a| == 1 < |b| ==> Order(a, b) == -1 && Order(b, a) == 1
    ensures (|a| == 1) == (|b| == 1) ==> Order(a, b) == Order(b, a) == 1
  {
  }

  /** The comparator gives the two argument orders answers that agree. */
  predicate Comparable(a: Path, b: Path)
    requires a != [] && b != []
  {
    a[0] == b[0] || (|a| == 1) != (|b| == 1)
  }

  lemma ComparableIsOrdered(a: Path, b: Path, c: Path)
    requires a != [] && b != [] && c != [] && Comparable(a, b) && Comparable(b, c) && Comparable(a, c)
    ensures Order(a, b) == -Order(b, a)
    ensures Order(a, b) < 0 && Order(b, c) < 0 ==> Order(a, c) < 0
  {
    if a[0] == b[0] == c[0] {
      OrderIsConsistent(a, b, c);
    } else if a[0] == b[0] {
      OrderIsConsistent(a, b, b);
    }
  }

  /** Walks the following siblings of `a` in search of `b`; `ret` is the answer for `a === b`. */
  method SiblingCheck(f: Forest, a: Path, b: Path, ret: int) returns (r: int)
    requires IsNode(f, a) && IsNode(f, b)
    ensures a == b ==> r == ret
    ensures a != b ==> r == if Follows(a, b) then -1 else 1
  {
    if a == b {
      return ret;
    }
    var cur := NextSibling(f, a);
    ghost var i := if |a| > 1 then Last(a) + 1 else 0;
    ghost var width := i;
    if |a| > 1 {
      FamilyIsNode(f, a, 0);
      width := |NodeAt(f, Init(a)).kids|;
      ChildIsNode(f, Init(a), i);
    }
    while cur.Some?
      invariant |a| > 1 ==> IsNode(f, Init(a)) && width == |NodeAt(f, Init(a)).kids|
      invariant i <= width
      invariant |a| > 1 ==> i > Last(a)
      invariant cur.Some? ==> |a| > 1 && cur.value == Init(a) + [i] && IsNode(f, cur.value)
      invariant Follows(a, b) ==> |a| > 1 && i <= Last(b)
      invariant cur.None? ==> |a| <= 1 || !IsNode(f, Init(a) + [i])
      decreases width - i
    {
      ChildIsNode(f, Init(a), i);
      if cur.value == b {
        return -1;
      }
      assert Follows(a, b) ==> Init(b) + [Last(b)] == b;
      cur := NextSibling(f, cur.value);
      i := i + 1;
    }
    if Follows(a, b) {
      FamilyIsNode(f, b, i);
    }
    return 1;
  }

  /** `b` is a later sibling of `a`. */
  predicate Follows(a: Path, b: Path) {
    |a| > 1 && |b| > 1 && Init(a) == Init(b) && Last(a) < Last(b)
  }

  lemma {:induction false} LessAtFirstDifference(a: Path, b: Path, i: nat)
    requires i < |a| && i < |b| && a[..i] == b[..i] && a[i] != b[i]
    ensures Less(a, b) <==> a[i] < b[i]
  {
    if i > 0 {
      assert a[0] == a[..i][0] && b[0] == b[..i][0];
      assert a[1..][..i - 1] == a[..i][1..] && b[1..][..i - 1] == b[..i][1..];
      LessAtFirstDifference(a[1..], b[1..], i - 1);
    }
  }

  lemma {:induction false} AncestorIsLess(a: Path, b: Path)
    requires |a| < |b| && b[..|a|] == a
    ensures Less(a, b) && !Less(b, a)
  {
    if a != [] {
      assert a[0] == b[..|a|][0] && b[1..][..|a| - 1] == a[1..];
      AncestorIsLess(a[1..], b[1..]);
    }
  }

  /** The ancestors of `n`, outermost first. */
  function Ancestors(n: Path): (r: seq<Path>)
    requires n != []
    ensures |r| == |n| - 1
    ensures forall k :: 0 <= k < |r| ==> r[k] == n[..k + 1]
  {
    seq(|n| - 1, k requires 0 <= k < |n| - 1 => n[..k + 1])
  }

  method CollectAncestors(n: Path) returns (ap: seq<Path>)
    requires n != []
    ensures ap == Ancestors(n)
  {
    ap := [];
    var cur := Parent(n);
    while cur.Some?
      invariant |ap| <= |n| - 1
      invariant cur == if |ap| == |n| - 1 then None else Some(n[..|n| - 1 - |ap|])
      invariant ap == Ancestors(n)[|n| - 1 - |ap|..]
      decreases |n| - |ap|
    {
      ap := [cur.value] + ap;
      assert |n| - 1 - |ap| > 0 ==> Init(cur.value) == n[..|n| - 1 - |ap|];
      cur := Parent(cur.value);
    }
  }

  /** The whole comparator; it also notices `a === b`, which raises the duplicate flag. */
  method Compare(f: Forest, a: Path, b: Path) returns (r: int, sawDuplicate: bool)
    requires IsNode(f, a) && IsNode(f, b)
    ensures sawDuplicate <==> a == b
    ensures r == Order(a, b)
  {
    if a == b {
      return 0, true;
    }
    sawDuplicate := false;
    var aup, bup := Parent(a), Parent(b);
    if aup == bup {
      r := SiblingCheck(f, a, b, 0);
      if |a| > 1 {
        LessAtFirstDifference(a, b, |a| - 1);
      }
      return;
    } else if aup.None? {
      r := -1;
      if a[0] == b[0] {
        AncestorIsLess(a, b);
      }
      return;
    } else if bup.None? {
      r := 1;
      if a[0] == b[0] {
        AncestorIsLess(b, a);
      }
      return;
    }
    r := CompareDeep(f, a, b);
  }

  /** Two nodes with parents: walk down the lists of ancestors, looking for a discrepancy. */
  method CompareDeep(f: Forest, a: Path, b: Path) returns (r: int)
    requires IsNode(f, a) && IsNode(f, b) && |a| > 1 && |b| > 1 && Init(a) != Init(b)
    ensures r == Order(a, b)
  {
    var ap := CollectAncestors(a);
    var bp := CollectAncestors(b);
    var al, bl := |ap|, |bp|;
    var i := 0;
    while i < al && i < bl
      invariant 0 <= i <= al && i <= bl
      invariant a[..i] == b[..i]
    {
      if ap[i] != bp[i] {
        AncestorIsNode(f, a, i + 1);
        AncestorIsNode(f, b, i + 1);
        r := SiblingCheck(f, ap[i], bp[i], 0);
        assert a[..i + 1] == a[..i] + [a[i]] && b[..i + 1] == b[..i] + [b[i]];
        LessAtFirstDifference(a, b, i);
        return;
      }
      i := i + 1;
    }
    assert a[..i] == b[..i] && Init(a) == a[..al] && Init(b) == b[..bl];
    if i == al {
      assert a == a[..i] + [a[i]];
      AncestorIsNode(f, b, i + 1);
      assert b[..i + 1] == b[..i] + [b[i]];
      r := SiblingCheck(f, a, bp[i], -1);
      if a == bp[i] {
        AncestorIsLess(a, b);
      } else {
        LessAtFirstDifference(a, b, i);
      }
    } else {
      assert b == b[..i] + [b[i]];
      AncestorIsNode(f, a, i + 1);
      assert a[..i + 1] == a[..i] + [a[i]];
      r := SiblingCheck(f, ap[i], b, 1);
      if ap[i] == b {
        AncestorIsLess(b, a);
      } else {
        LessAtFirstDifference(a, b, i);
      }
    }
  }
}
