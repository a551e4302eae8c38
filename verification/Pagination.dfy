/** The jQuery pagination plugin: which page links it draws, and where it draws an ellipsis. */
module Pagination {

  datatype Item = Previous(page: int) | Link(page: int) | Ellipsis | Next(page: int)

  datatype Options = Options(maxEntries: int, itemsPerPage: int, displayEntries: nat, edgeEntries: nat,
                             prevText: string, nextText: string, ellipseText: string,
                             prevShowAlways: bool, nextShowAlways: bool)

  function Min(a: int, b: int): int {
    if a < b then a else b
  }

  function Max(a: int, b: int): int {
    if a < b then b else a
  }

  /** `Math.ceil(a / b)` */
  function CeilDiv(a: nat, b: nat): nat
    requires b > 0
  {
    (a + b - 1) / b
  }

  /** A count that is missing or not positive is taken for 1. */
  function Sane(n: int): nat {
    if n <= 0 then 1 else n
  }

  function NumPages(o: Options): nat {
    CeilDiv(Sane(o.maxEntries), Sane(o.itemsPerPage))
  }

  function Interval(o: Options, current: int): (int, int) {
    var half := CeilDiv(o.displayEntries, 2);
    var np := NumPages(o);
    var upper := np - o.displayEntries;
    (if current > half then Max(Min(current - half, upper), 0) else 0,
     if current > half then Min(current + half, np) else Min(o.displayEntries, np))
  }

  /** The least number of pages with room for all entries. */
  lemma NumPagesIsLeast(o: Options)
    ensures var np, per := NumPages(o), Sane(o.itemsPerPage);
            np > 0 && (np - 1) * per < Sane(o.maxEntries) <= np * per
  {
    var a, b := Sane(o.maxEntries), Sane(o.itemsPerPage);
    assert (a + b - 1) == b * ((a + b - 1) / b) + (a + b - 1) % b;
  }

  /** The window is inside the pages and hardly wider than asked for. */
  lemma WindowWidth(o: Options, current: int)
    ensures var w := Interval(o, current);
            0 <= w.0 <= w.1 <= NumPages(o) && w.1 - w.0 <= o.displayEntries + o.displayEntries % 2
    ensures o.displayEntries > 0 ==> Interval(o, current).0 < Interval(o, current).1
  {
    NumPagesIsLeast(o);
  }

  /** The window is the first pages, the last pages, or centred on the current page (and then one
      wider for an odd width). */
  lemma WindowExactly(o: Options, current: nat)
    requires current < NumPages(o)
    ensures var d, np := o.displayEntries, NumPages(o);
            Interval(o, current) == if 2 * current <= d + d % 2 then (0, Min(d, np))
                                    else if 2 * current + d + d % 2 <= 2 * np
                                    then (current - (d + d % 2) / 2, current + (d + d % 2) / 2)
                                    else (np - Min(d, np), np)
  {
    assert CeilDiv(o.displayEntries, 2) * 2 == o.displayEntries + o.displayEntries % 2;
  }

  /** The current page is in the window, except that a window of one leaves out page 1 and a window
      of none everything. */
  lemma CurrentInWindowExactly(o: Options, current: nat)
    requires current < NumPages(o)
    ensures Interval(o, current).0 <= current < Interval(o, current).1
            <==> o.displayEntries >= 2 || (o.displayEntries == 1 && current != 1)
  {
  }

  function Range(a: int, b: int): (r: seq<int>)
    ensures |r| == Max(b - a, 0)
    ensures forall i :: 0 <= i < |r| ==> r[i] == a + i
  {
    seq(Max(b - a, 0), i => a + i)
  }

  /** Where the window and the edges lie; `dots` says whether an ellipsis has a text. */
  datatype Layout = Layout(lo: int, hi: int, np: int, edge: nat, dots: bool) {
    predicate Fits() {
      0 <= lo <= hi <= np
    }

    function First(): seq<int> {
      if edge > 0 then Range(0, Min(edge, lo)) else []
    }

    function Window(): seq<int> {
      Range(lo, hi)
    }

    function Final(): seq<int> {
      if edge > 0 then Range(Max(np - edge, hi), np) else []
    }

    /** The pages that get a numbered link. */
    function Shown(): seq<int> {
      First() + Window() + Final()
    }

    function Left(): seq<Item> {
      Links(First()) + Dots(dots && 0 < edge < lo)
    }

    function Right(): seq<Item> {
      Dots(dots && edge > 0 && hi < np - edge) + Links(Final())
    }

    /** What drawLinks puts between the previous and the next link. */
    function Middle(): seq<Item> {
      Left() + Links(Window()) + Right()
    }
  }

  function LayoutOf(o: Options, current: int): (l: Layout)
    ensures l.Fits() && (o.displayEntries > 0 ==> l.lo < l.hi)
  {
    WindowWidth(o, current);
    Layout(Interval(o, current).0, Interval(o, current).1, NumPages(o), o.edgeEntries, o.ellipseText != "")
  }

  function Dots(b: bool): seq<Item> {
    if b then [Ellipsis] else []
  }

  /** Links in order, with an ellipsis exactly where pages are missing in between. */
  function WithGaps(ids: seq<int>): seq<Item> {
    if ids == [] then []
    else
      var n := |ids| - 1;
      WithGaps(ids[..n]) + (if n > 0 && ids[n] != ids[n - 1] + 1 then [Ellipsis] else []) + [Link(ids[n])]
  }

  function Links(ids: seq<int>): (r: seq<Item>)
    ensures |r| == |ids|
    ensures forall i :: 0 <= i < |ids| ==> r[i] == Link(ids[i])
  {
    seq(|ids|, i requires 0 <= i < |ids| => Link(ids[i]))
  }

  /** A page is shown exactly when it is at an edge or in the window, except that an edge ends
      where the window has already passed it. */
  lemma ShownExactly(l: Layout, page: int)
    requires l.Fits()
    ensures page in l.Shown()
            <==> 0 <= page < l.np
                 && (page < l.edge || page >= l.np - l.edge || l.lo <= page < l.hi)
                 && !(l.hi <= page < l.edge && page < l.np - l.edge)
                 && !(l.np - l.edge <= page < l.lo && page >= l.edge)
  {
    RangeHas(0, Min(l.edge, l.lo), page);
    RangeHas(Max(l.np - l.edge, l.hi), l.np, page);
    RangeHas(l.lo, l.hi, page);
    assert page in l.Shown() <==> page in l.First() || page in l.Window() || page in l.Final();
  }

  /** The pages are shown in increasing order, each once. */
  lemma ShownIncreases(l: Layout, i: nat, j: nat)
    requires l.Fits() && i < j < |l.Shown()|
    ensures l.Shown()[i] < l.Shown()[j]
  {
    var a, b, c := l.First(), l.Window(), l.Final();
    assert l.Shown()[i] == if i < |a| then a[i] else if i < |a| + |b| then b[i - |a|] else c[i - |a| - |b|];
    assert l.Shown()[j] == if j < |a| then a[j] else if j < |a| + |b| then b[j - |a|] else c[j - |a| - |b|];
  }

  lemma RangeHas(a: int, b: int, x: int)
    ensures x in Range(a, b) <==> a <= x < b
  {
    if a <= x < b {
      assert Range(a, b)[x - a] == x;
    }
  }

  lemma LinksSnoc(ids: seq<int>, id: int)
    ensures Links(ids + [id]) == Links(ids) + [Link(id)]
  {
  }

  lemma {:induction false} WithGapsSnoc(ids: seq<int>, id: int)
    ensures WithGaps(ids + [id])
            == WithGaps(ids) + (if ids != [] && id != ids[|ids| - 1] + 1 then [Ellipsis] else []) + [Link(id)]
  {
    assert (ids + [id])[..|ids|] == ids;
  }

  /** A run of pages after others: one gap at most, in front of it. */
  lemma {:induction false} WithGapsRange(ids: seq<int>, a: int, b: int)
    requires a < b && (ids != [] ==> ids[|ids| - 1] < a)
    ensures WithGaps(ids + Range(a, b))
            == WithGaps(ids) + Dots(ids != [] && ids[|ids| - 1] + 1 < a) + Links(Range(a, b))
    decreases b - a
  {
    if a + 1 == b {
      assert Range(a, b) == [a] && Links([a]) == Links([]) + [Link(a)];
      WithGapsSnoc(ids, a);
    } else {
      var r := Range(a, b - 1);
      assert Range(a, b) == r + [b - 1];
      WithGapsRange(ids, a, b - 1);
      WithGapsNext(ids + r, b - 1);
      LinksSnoc(r, b - 1);
      Associate(WithGaps(ids) + Dots(ids != [] && ids[|ids| - 1] + 1 < a), Links(r), [Link(b - 1)]);
      Associate(ids, r, [b - 1]);
    }
  }

  lemma WithGapsNext(ids: seq<int>, id: int)
    requires ids != [] && id == ids[|ids| - 1] + 1
    ensures WithGaps(ids + [id]) == WithGaps(ids) + [Link(id)]
  {
    WithGapsSnoc(ids, id);
  }

  lemma Associate<T>(a: seq<T>, b: seq<T>, c: seq<T>)
    ensures (a + b) + c == a + (b + c)
  {
  }

  /** A run that may be empty, behind pages up to `end`. */
  lemma GapsBehind(head: seq<int>, end: int, from: int, np: int, tail: seq<int>, gap: bool)
    requires head != [] && head[|head| - 1] == end - 1 && end <= from
    requires tail == Range(from, np) && gap == (end < from && from < np)
    ensures WithGaps(head + tail) == WithGaps(head) + (Dots(gap) + Links(tail))
  {
    if from < np {
      WithGapsRange(head, from, np);
      Associate(WithGaps(head), Dots(gap), Links(tail));
    } else {
      assert head + tail == head;
    }
  }

  lemma FirstGaps(l: Layout)
    requires l.Fits() && l.edge > 0
    ensures WithGaps(l.First()) == Links(l.First())
    ensures l.lo > 0 ==> l.First() != [] && l.First()[|l.First()| - 1] == Min(l.edge, l.lo) - 1
    ensures l.lo == 0 ==> l.First() == []
  {
    if l.lo > 0 {
      WithGapsRange([], 0, Min(l.edge, l.lo));
      assert [] + l.First() == l.First();
    }
  }

  lemma WindowGaps(l: Layout)
    requires l.Fits() && l.edge > 0 && l.lo < l.hi && l.dots
    ensures WithGaps(l.First() + l.Window()) == l.Left() + Links(l.Window())
  {
    FirstGaps(l);
    WithGapsRange(l.First(), l.lo, l.hi);
  }

  lemma FinalGaps(l: Layout, head: seq<int>)
    requires l.Fits() && l.edge > 0 && l.dots && head != [] && head[|head| - 1] == l.hi - 1
    ensures WithGaps(head + l.Final()) == WithGaps(head) + l.Right()
  {
    var from := Max(l.np - l.edge, l.hi);
    GapsBehind(head, l.hi, from, l.np, l.Final(), l.hi < l.np - l.edge);
  }

  lemma NonemptyWindow(l: Layout)
    requires l.Fits() && l.edge > 0 && l.lo < l.hi && l.dots
    ensures l.Middle() == WithGaps(l.Shown())
  {
    WindowGaps(l);
    FinalGaps(l, l.First() + l.Window());
  }

  lemma EmptyAtStart(l: Layout)
    requires l.Fits() && l.edge > 0 && l.lo == l.hi == 0 && l.dots
    ensures l.Middle() == WithGaps(l.Shown()) <==> !(l.hi < l.np - l.edge)
  {
    assert l.Shown() == l.Final() == [] + l.Final();
    assert l.Middle() == l.Right();
    var from := Max(l.np - l.edge, l.hi);
    if from < l.np {
      WithGapsRange([], from, l.np);
    }
    assert WithGaps(l.Shown()) == Links(l.Final());
    assert |l.Right()| == |Dots(l.hi < l.np - l.edge)| + |Links(l.Final())|;
  }

  /** After a gap on the left, the gap on the right is drawn a second time. */
  lemma EmptyInside(l: Layout)
    requires l.Fits() && l.edge > 0 && 0 < l.lo == l.hi < l.np && l.dots
    ensures l.Middle() == WithGaps(l.Shown()) <==> !(l.edge < l.lo && l.hi < l.np - l.edge)
  {
    FirstGaps(l);
    var from := Max(l.np - l.edge, l.hi);
    var left, right := l.edge < l.lo, l.hi < l.np - l.edge;
    GapsBehind(l.First(), Min(l.edge, l.lo), from, l.np, l.Final(), left || right);
    EmptyMiddle(l);
    TwoEllipses(Links(l.First()), left, right, Links(l.Final()));
  }

  lemma EmptyMiddle(l: Layout)
    requires l.lo == l.hi
    ensures l.Shown() == l.First() + l.Final() && l.Middle() == l.Left() + l.Right()
  {
  }

  lemma EmptyAtEnd(l: Layout)
    requires l.Fits() && l.edge > 0 && 0 < l.lo == l.hi == l.np && l.dots
    ensures l.Middle() == WithGaps(l.Shown()) <==> l.lo <= l.edge
  {
    FirstGaps(l);
    assert l.Final() == [] && l.Right() == [] && l.Window() == [];
    assert l.Shown() == l.First() && l.Middle() == l.Left();
    assert |l.Left()| == |Links(l.First())| + |Dots(l.edge < l.lo)|;
  }

  /** Two ellipses in the middle are one exactly when not both are there. */
  lemma TwoEllipses(a: seq<Item>, left: bool, right: bool, d: seq<Item>)
    ensures (a + Dots(left)) + (Dots(right) + d) == a + (Dots(left || right) + d) <==> !(left && right)
  {
    assert |(a + Dots(left)) + (Dots(right) + d)| == |a| + |Dots(left)| + |Dots(right)| + |d|;
    assert |a + (Dots(left || right) + d)| == |a| + |Dots(left || right)| + |d|;
  }

  /** With edge entries and an ellipsis text, an ellipsis stands exactly where pages are missing
      between two links; an empty window may get one too many. */
  lemma EllipsisExactly(l: Layout)
    requires l.Fits() && l.edge > 0 && l.dots
    ensures l.Middle() == WithGaps(l.Shown())
            <==> l.lo < l.hi
                 || (if l.lo == 0 then l.np <= l.edge else l.lo <= l.edge || (l.hi >= l.np - l.edge && l.hi != l.np))
  {
    if l.lo < l.hi {
      NonemptyWindow(l);
    } else if l.lo == 0 {
      EmptyAtStart(l);
    } else if l.hi < l.np {
      EmptyInside(l);
    } else {
      EmptyAtEnd(l);
    }
  }

  /** Without edge entries, or without a text, there is no ellipsis. */
  lemma NoEllipsis(l: Layout)
    requires l.edge == 0 || !l.dots
    ensures l.Middle() == Links(l.Shown())
  {
    LinksJoined(l.First(), l.Window());
    LinksJoined(l.First() + l.Window(), l.Final());
  }

  lemma LinksJoined(a: seq<int>, b: seq<int>)
    ensures Links(a + b) == Links(a) + Links(b)
  {
  }

  lemma Joined<T>(a: seq<T>, b: seq<T>, c: seq<T>, d: seq<T>)
    ensures a + b + c + d == a + (b + c + d)
  {
  }

  // ---- the whole panel ----

  /** appendItem's normalization of a page id. */
  function Clamp(o: Options, page: int): int {
    if page < 0 then 0 else if page < NumPages(o) then page else NumPages(o) - 1
  }

  function PreviousLink(o: Options, current: int): seq<Item> {
    if o.prevText != "" && (current > 0 || o.prevShowAlways) then [Previous(Clamp(o, current - 1))] else []
  }

  function NextLink(o: Options, current: int): seq<Item> {
    if o.nextText != "" && (current < NumPages(o) - 1 || o.nextShowAlways) then [Next(Clamp(o, current + 1))] else []
  }

  function AllItems(o: Options, current: int): seq<Item> {
    PreviousLink(o, current) + LayoutOf(o, current).Middle() + NextLink(o, current)
  }

  /** Where the items of a panel lead: the previous link one page back, the next link one page on,
      as far as there is such a page, and a number to its page. */
  lemma ItemsLead(o: Options, current: nat, item: Item)
    requires current < NumPages(o) && item in AllItems(o, current)
    ensures match item
            case Previous(page) => page == if current > 0 then current - 1 else current
            case Next(page) => page == if current < NumPages(o) - 1 then current + 1 else current
            case Link(page) => page in LayoutOf(o, current).Shown()
            case Ellipsis => true
  {
    NumPagesIsLeast(o);
    var l := LayoutOf(o, current);
    if item in l.Middle() {
      assert item in Links(l.First()) || item in Links(l.Window()) || item in Links(l.Final()) || item == Ellipsis;
      assert item.Link? ==> item.page in l.First() || item.page in l.Window() || item.page in l.Final();
    }
  }

  class Panel {
    const opts: Options
    var current: int
    var items: seq<Item>

    constructor (opts: Options, current: int)
      ensures this.opts == opts && this.current == current
      ensures items == Drawn()
    {
      this.opts, this.current, items := opts, current, [];
      new;
      DrawLinks();
    }

    function Drawn(): seq<Item>
      reads this
    {
      AllItems(opts, current)
    }

    method AppendLinks(begin: int, end: int)
      requires 0 <= begin && end <= NumPages(opts)
      modifies this`items
      ensures items == old(items) + Links(Range(begin, end))
    {
      var i := begin;
      while i < end
        invariant begin <= i && (i <= end || i == begin)
        invariant items == old(items) + Links(Range(begin, i))
      {
        items := items + [Link(Clamp(opts, i))];
        LinksSnoc(Range(begin, i), i);
        assert Range(begin, i + 1) == Range(begin, i) + [i];
        i := i + 1;
      }
      assert Range(begin, i) == Range(begin, end);
    }

    method DrawLinks()
      modifies this`items
      ensures items == Drawn()
    {
      items := [];
      DrawPrevious();
      assert items == PreviousLink(opts, current);
      DrawNumbers(LayoutOf(opts, current));
      DrawNext();
    }

    method DrawPrevious()
      modifies this`items
      ensures items == old(items) + PreviousLink(opts, current)
    {
      if opts.prevText != "" && (current > 0 || opts.prevShowAlways) {
        items := items + [Previous(Clamp(opts, current - 1))];
      }
    }

    method DrawNext()
      modifies this`items
      ensures items == old(items) + NextLink(opts, current)
    {
      if opts.nextText != "" && (current < NumPages(opts) - 1 || opts.nextShowAlways) {
        items := items + [Next(Clamp(opts, current + 1))];
      }
    }

    method DrawNumbers(l: Layout)
      requires l.Fits() && l.np == NumPages(opts)
      modifies this`items
      ensures items == old(items) + l.Middle()
    {
      DrawLeft(l);
      AppendLinks(l.lo, l.hi);
      DrawRight(l);
      Joined(old(items), l.Left(), Links(l.Window()), l.Right());
    }

    method DrawLeft(l: Layout)
      requires l.Fits() && l.np == NumPages(opts)
      modifies this`items
      ensures items == old(items) + l.Left()
    {
      if l.lo > 0 && l.edge > 0 {
        AppendLinks(0, Min(l.edge, l.lo));
        if l.edge < l.lo && l.dots {
          items := items + [Ellipsis];
        }
      }
    }

    method DrawRight(l: Layout)
      requires l.Fits() && l.np == NumPages(opts)
      modifies this`items
      ensures items == old(items) + l.Right()
    {
      if l.hi < l.np && l.edge > 0 {
        if l.np - l.edge > l.hi && l.dots {
          items := items + [Ellipsis];
        }
        AppendLinks(Max(l.np - l.edge, l.hi), l.np);
      }
    }

    method PageSelected(page: int)
      modifies this
      ensures current == page && items == Drawn()
    {
      current := page;
      DrawLinks();
    }

    /** A click on item `i`: the current page is drawn without a link, and an ellipsis too. */
    method Click(i: nat)
      requires 0 <= current < NumPages(opts) && items == Drawn() && i < |items|
      modifies this
      ensures 0 <= current < NumPages(opts) && items == Drawn()
      ensures match old(items[i])
              case Previous(_) => current == if old(current) > 0 then old(current) - 1 else old(current)
              case Next(_) => current == if old(current) < NumPages(opts) - 1 then old(current) + 1 else old(current)
              case Link(page) => current == page
              case Ellipsis => current == old(current)
    {
      ItemsLead(opts, current, items[i]);
      if items[i] != Ellipsis && items[i].page != current {
        if items[i].Link? {
          ShownExactly(LayoutOf(opts, current), items[i].page);
        }
        PageSelected(items[i].page);
      }
    }

    method PrevPage() returns (moved: bool)
      modifies this
      ensures moved <==> old(current) > 0
      ensures current == (if moved then old(current) - 1 else old(current))
      ensures moved ==> items == Drawn()
      ensures !moved ==> items == old(items)
    {
      moved := current > 0;
      if moved {
        PageSelected(current - 1);
      }
    }

    method NextPage() returns (moved: bool)
      modifies this
      ensures moved <==> old(current) < NumPages(opts) - 1
      ensures current == (if moved then old(current) + 1 else old(current))
      ensures moved ==> items == Drawn()
      ensures !moved ==> items == old(items)
    {
      moved := current < NumPages(opts) - 1;
      if moved {
        PageSelected(current + 1);
      }
    }
  }
}
