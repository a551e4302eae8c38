/** What is left of a sequence when some of its items are taken out, and joining sequences. */
module Sequences {

  /** The items that are not doomed, in order. */
  function Keep<T>(items: seq<T>, doomed: T -> bool): (r: seq<T>)
    ensures |r| <= |items|
  {
    if items == [] then []
    else
      var front, last := Keep(items[..|items| - 1], doomed), items[|items| - 1];
      if doomed(last) then front else front + [last]
  }

  lemma KeepSnoc<T>(items: seq<T>, item: T, doomed: T -> bool)
    ensures Keep(items + [item], doomed) == if doomed(item) then Keep(items, doomed) else Keep(items, doomed) + [item]
  {
    assert (items + [item])[..|items|] == items;
  }

  /** What stays is what is not doomed. */
  lemma {:induction false} KeepMembers<T>(items: seq<T>, doomed: T -> bool, item: T)
    ensures item in Keep(items, doomed) <==> item in items && !doomed(item)
  {
    if items != [] {
      var front, last := items[..|items| - 1], items[|items| - 1];
      assert items == front + [last];
      KeepMembers(front, doomed, item);
    }
  }

  /** It stays in the order it had, as often as it was there. */
  lemma {:induction false} KeepConcat<T>(left: seq<T>, right: seq<T>, doomed: T -> bool)
    ensures Keep(left + right, doomed) == Keep(left, doomed) + Keep(right, doomed)
  {
    if right == [] {
      assert left + right == left;
    } else {
      var front, last := right[..|right| - 1], right[|right| - 1];
      assert left + right == (left + front) + [last];
      KeepSnoc(left + front, last, doomed);
      KeepConcat(left, front, doomed);
    }
  }

  lemma {:induction false} KeepSame<T>(items: seq<T>, p: T -> bool, q: T -> bool)
    requires forall h | h in items :: p(h) == q(h)
    ensures Keep(items, p) == Keep(items, q)
  {
    if items != [] {
      KeepSame(items[..|items| - 1], p, q);
    }
  }

  /** Taking out in two passes is taking out what either pass dooms. */
  lemma {:induction false} KeepTwice<T(!new)>(items: seq<T>, p: T -> bool, q: T -> bool, r: T -> bool)
    requires forall h :: r(h) == (p(h) || q(h))
    ensures Keep(Keep(items, p), q) == Keep(items, r)
  {
    if items != [] {
      var front, last := items[..|items| - 1], items[|items| - 1];
      KeepTwice(front, p, q, r);
      if !p(last) {
        KeepSnoc(Keep(front, p), last, q);
      }
    }
  }

  lemma {:induction false} KeepAll<T(!new)>(items: seq<T>, p: T -> bool)
    requires forall h :: !p(h)
    ensures Keep(items, p) == items
  {
    if items != [] {
      KeepAll(items[..|items| - 1], p);
    }
  }

  // ---- joining ----

  function Join<T>(pieces: seq<seq<T>>): seq<T> {
    if pieces == [] then [] else Join(pieces[..|pieces| - 1]) + pieces[|pieces| - 1]
  }

  lemma {:induction false} JoinConcat<T>(front: seq<seq<T>>, back: seq<seq<T>>)
    ensures Join(front + back) == Join(front) + Join(back)
  {
    if back == [] {
      assert front + back == front;
    } else {
      JoinConcat(front, back[..|back| - 1]);
      assert (front + back)[..|front + back| - 1] == front + back[..|back| - 1];
    }
  }
}
