/** The page buttons of the link list (frontend/src/components/pageswitcher.js):
    every page when there are few, otherwise a window of seven pages around
    the current one, with buttons and "..." markers reaching the first and
    the last page. */
module PageSwitcher {

  const ButtonsPerDirection := 3
  const WindowSize := ButtonsPerDirection * 2 + 1

  /** One element of the switcher: a page button (with whether it carries
      the "current" class) or a jump marker. */
  datatype Item = PageButton(n: int, current: bool) | JumpStart | JumpEnd

  /** `getPageButton`: the button is current exactly when its page is the
      shown page. */
  function Button(n: int, page: int): (b: Item)
    ensures b.PageButton? && b.n == n
    ensures b.current <==> n == page
  {
    PageButton(n, n == page)
  }

  /** Buttons `from`..`to`, in order. */
  function Run(from: int, to: int, page: int): (r: seq<Item>)
    ensures |r| == (if from <= to then to - from + 1 else 0)
    ensures forall k :: 0 <= k < |r| ==> r[k] == Button(from + k, page)
    decreases if from <= to then to - from + 1 else 0
  {
    if from > to then [] else [Button(from, page)] + Run(from + 1, to, page)
  }

  /** The clamped window [fromPage, toPage] for at least seven pages. */
  function Window(page: int, pageCount: int): (w: (int, int))
    requires pageCount >= WindowSize
    ensures 1 <= w.0 <= w.1 <= pageCount
    ensures w.1 - w.0 + 1 == WindowSize
    ensures 1 <= page <= pageCount ==> w.0 <= page <= w.1
  {
    var from := page - ButtonsPerDirection;
    var to := page + ButtonsPerDirection;
    if from < 1 then
      var to' := to + (-from + 1);
      (1, if to' < pageCount then to' else pageCount)
    else if to > pageCount then
      var from' := from - (to - pageCount);
      (if from' > 1 then from' else 1, pageCount)
    else (from, to)
  }

  /** The first-page button and start marker in front of the window. */
  function Head(from: int, page: int): seq<Item> {
    if from > 1 then [Button(1, page)] + (if from > 2 then [JumpStart] else []) else []
  }

  /** The end marker and last-page button behind the window. */
  function Tail(to: int, pageCount: int, page: int): seq<Item> {
    if to < pageCount then (if to < pageCount - 1 then [JumpEnd] else []) + [Button(pageCount, page)] else []
  }

  /** `pageButtons`. */
  function PageButtons(page: int, pageCount: int): (r: seq<Item>)
    ensures pageCount < WindowSize ==> r == Run(1, pageCount, page)
    ensures pageCount >= WindowSize ==>
              var (from, to) := Window(page, pageCount);
              && (JumpStart in r <==> from > 2)
              && (JumpEnd in r <==> to < pageCount - 1)
              && |r| >= WindowSize
              && (r[0] == Button(1, page))
              && (r[|r| - 1] == Button(pageCount, page))
  {
    if pageCount < WindowSize then Run(1, pageCount, page)
    else
      var (from, to) := Window(page, pageCount);
      Head(from, page) + Run(from, to, page) + Tail(to, pageCount, page)
  }

  /** The page numbers the switcher shows, in order. */
  function Numbers(items: seq<Item>): (ns: seq<int>)
    ensures |ns| <= |items|
  {
    if |items| == 0 then []
    else (if items[0].PageButton? then [items[0].n] else []) + Numbers(items[1..])
  }

  lemma {:induction false} NumbersAppend(a: seq<Item>, b: seq<Item>)
    ensures Numbers(a + b) == Numbers(a) + Numbers(b)
  {
    if |a| == 0 {
      assert a + b == b;
    } else {
      assert (a + b)[0] == a[0];
      assert (a + b)[1..] == a[1..] + b;
      NumbersAppend(a[1..], b);
    }
  }

  /** The numbers pages `from`..`to`: that integer range. */
  function Range(from: int, to: int): (ns: seq<int>)
    ensures |ns| == (if from <= to then to - from + 1 else 0)
    ensures forall k :: 0 <= k < |ns| ==> ns[k] == from + k
  {
    seq(if from <= to then to - from + 1 else 0, k => from + k)
  }

  lemma {:induction false} NumbersRun(from: int, to: int, page: int)
    ensures Numbers(Run(from, to, page)) == Range(from, to)
    decreases if from <= to then to - from + 1 else 0
  {
    if from <= to {
      NumbersRun(from + 1, to, page);
      assert Run(from, to, page)[1..] == Run(from + 1, to, page);
      assert Range(from, to) == [from] + Range(from + 1, to);
    }
  }

  predicate StrictlyIncreasing(ns: seq<int>) {
    forall i, j :: 0 <= i < j < |ns| ==> ns[i] < ns[j]
  }

  /** The page numbers of the switcher for at least seven pages: 1 when the
      window starts later, the window, and the last page when the window
      ends earlier. */
  lemma WindowNumbers(page: int, pageCount: int)
    requires pageCount >= WindowSize
    ensures var (from, to) := Window(page, pageCount);
            Numbers(PageButtons(page, pageCount))
            == (if from > 1 then [1] else []) + Range(from, to) + (if to < pageCount then [pageCount] else [])
  {
    var (from, to) := Window(page, pageCount);
    var h, r, t := Head(from, page), Run(from, to, page), Tail(to, pageCount, page);
    assert PageButtons(page, pageCount) == h + r + t;
    NumbersAppend(h + r, t);
    NumbersAppend(h, r);
    NumbersRun(from, to, page);
    HeadNumbers(from, page);
    TailNumbers(to, pageCount, page);
  }

  /** The head shows page 1 exactly when the window starts later. */
  lemma HeadNumbers(from: int, page: int)
    ensures Numbers(Head(from, page)) == if from > 1 then [1] else []
  {
    if from > 1 {
      var j: seq<Item> := if from > 2 then [JumpStart] else [];
      assert Head(from, page) == [Button(1, page)] + j;
      NumbersAppend([Button(1, page)], j);
      assert Numbers(j) == [];
      assert Numbers([Button(1, page)]) == [1];
    }
  }

  /** The tail shows the last page exactly when the window ends earlier. */
  lemma TailNumbers(to: int, pageCount: int, page: int)
    ensures Numbers(Tail(to, pageCount, page)) == if to < pageCount then [pageCount] else []
  {
    if to < pageCount {
      var j: seq<Item> := if to < pageCount - 1 then [JumpEnd] else [];
      assert Tail(to, pageCount, page) == j + [Button(pageCount, page)];
      NumbersAppend(j, [Button(pageCount, page)]);
      assert Numbers(j) == [];
      assert Numbers([Button(pageCount, page)]) == [pageCount];
    }
  }

  lemma IncreasingAppend(x: seq<int>, y: seq<int>)
    requires StrictlyIncreasing(x) && StrictlyIncreasing(y)
    requires |x| > 0 && |y| > 0 ==> x[|x| - 1] < y[0]
    ensures StrictlyIncreasing(x + y)
  {
    var xy := x + y;
    forall i, j | 0 <= i < j < |xy|
      ensures xy[i] < xy[j]
    {
      if i < |x| && j >= |x| {
        assert xy[i] <= x[|x| - 1];
        assert y[0] <= xy[j];
      }
    }
  }

  /** A run of consecutive numbers is strictly increasing and lies between
      its ends. */
  lemma RangeOrdered(from: int, to: int)
    ensures StrictlyIncreasing(Range(from, to))
    ensures forall k :: 0 <= k < |Range(from, to)| ==> from <= Range(from, to)[k] <= to
  {
  }

  /** Page 1 when the range starts later, the range, and the last page
      when the range ends earlier: ordered, in bounds, from 1 to the last. */
  lemma FramedOrdered(from: int, to: int, pageCount: int)
    requires 1 <= from <= to <= pageCount
    ensures var ns := (if from > 1 then [1] else []) + Range(from, to) + (if to < pageCount then [pageCount] else []);
            && StrictlyIncreasing(ns)
            && (forall k :: 0 <= k < |ns| ==> 1 <= ns[k] <= pageCount)
            && |ns| > 0 && ns[0] == 1 && ns[|ns| - 1] == pageCount
  {
    var a: seq<int> := if from > 1 then [1] else [];
    var b := Range(from, to);
    var c: seq<int> := if to < pageCount then [pageCount] else [];
    RangeOrdered(from, to);
    IncreasingAppend(a, b);
    IncreasingAppend(a + b, c);
    var ns := a + b + c;
    forall k | 0 <= k < |ns|
      ensures 1 <= ns[k] <= pageCount
    {
      if k < |a| {
        assert ns[k] == a[k];
      } else if k < |a| + |b| {
        assert ns[k] == b[k - |a|];
      } else {
        assert ns[k] == c[k - |a| - |b|];
      }
    }
    if |a| == 0 {
      assert ns[0] == b[0];
    }
    if |c| == 0 {
      assert ns[|ns| - 1] == b[|b| - 1];
    }
  }

  /** The numbers for at least seven pages are ordered and in bounds. */
  lemma WindowOrdered(page: int, pageCount: int)
    requires pageCount >= WindowSize
    ensures var ns := Numbers(PageButtons(page, pageCount));
            && StrictlyIncreasing(ns)
            && (forall k :: 0 <= k < |ns| ==> 1 <= ns[k] <= pageCount)
            && |ns| > 0 && ns[0] == 1 && ns[|ns| - 1] == pageCount
  {
    var (from, to) := Window(page, pageCount);
    WindowNumbers(page, pageCount);
    FramedOrdered(from, to, pageCount);
  }

  /** The numbers shown are strictly increasing and lie in 1..pageCount;
      with at least one page the first is 1 and the last pageCount. */
  lemma PageNumbersOrdered(page: int, pageCount: int)
    ensures var ns := Numbers(PageButtons(page, pageCount));
            && StrictlyIncreasing(ns)
            && (forall k :: 0 <= k < |ns| ==> 1 <= ns[k] <= pageCount)
            && (pageCount >= 1 ==> |ns| > 0 && ns[0] == 1 && ns[|ns| - 1] == pageCount)
  {
    if pageCount < WindowSize {
      NumbersRun(1, pageCount, page);
      RangeOrdered(1, pageCount);
    } else {
      WindowOrdered(page, pageCount);
    }
  }

  /** Exactly the buttons numbered `page` are current. */
  lemma CurrentIsPage(page: int, pageCount: int)
    ensures forall k :: 0 <= k < |PageButtons(page, pageCount)| && PageButtons(page, pageCount)[k].PageButton? ==>
              (PageButtons(page, pageCount)[k].current <==> PageButtons(page, pageCount)[k].n == page)
  {
    if pageCount >= WindowSize {
      var (from, to) := Window(page, pageCount);
      var h := Head(from, page);
      var m := Run(from, to, page);
      var t := Tail(to, pageCount, page);
      var r := h + m + t;
      forall k | 0 <= k < |r| && r[k].PageButton?
        ensures r[k].current <==> r[k].n == page
      {
        if k < |h| {
          assert r[k] == h[k];
        } else if k < |h| + |m| {
          assert r[k] == m[k - |h|];
        } else {
          assert r[k] == t[k - |h| - |m|];
        }
      }
    }
  }
}
