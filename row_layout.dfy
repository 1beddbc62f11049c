/**
 * The row layout that the list builder gives the icon cells of the drawer:
 * a new row starts every `n` icons, and a divider starts the count afresh.
 * The layout is specified by folding the builder's three counters over the
 * view types of the list; the lemmas state what that fold promises.
 */
module RowLayout {
  import opened AdapterItems

  /** The builder's counters: icons since the last divider, icons in the
      current row, and the index of the current row (-1 before any row). */
  datatype RowState = RowState(appsInSection: nat, appsInRow: nat, rowIndex: int)

  const Start := RowState(0, 0, -1)

  function Abs(n: int): nat { if n < 0 then -n else n }

  /**
   * The counters after one more item. The section counter is never negative,
   * so Dafny's `%` agrees with Java's truncating remainder here, whatever the
   * sign of `n`.
   */
  function Step(s: RowState, t: ViewType, n: int): RowState
    requires n != 0
  {
    match t
    case Divider => s.(appsInSection := 0)
    case Icon =>
      var s' := if s.appsInSection % n == 0 then s.(appsInRow := 0, rowIndex := s.rowIndex + 1) else s;
      s'.(appsInSection := s'.appsInSection + 1, appsInRow := s'.appsInRow + 1)
    case Other => s
  }

  /** The counters after the whole list. */
  function After(ts: seq<ViewType>, n: int): RowState
    requires n != 0
  {
    if ts == [] then Start else Step(After(ts[..|ts| - 1], n), ts[|ts| - 1], n)
  }

  /** The row index the builder writes into item `k` (0 for a non-icon). */
  function RowOf(ts: seq<ViewType>, n: int, k: int): int
    requires n != 0 && 0 <= k < |ts|
  {
    if ts[k].Icon? then After(ts[..k + 1], n).rowIndex else 0
  }

  /** The position inside its row that the builder writes into icon `k`. */
  function RowAppIndexOf(ts: seq<ViewType>, n: int, k: int): int
    requires n != 0 && 0 <= k < |ts| && ts[k].Icon?
  {
    After(ts[..k + 1], n).appsInRow - 1
  }

  /** The number of rows the builder reports for the list. */
  function NumRows(ts: seq<ViewType>, n: int): int
    requires n != 0
  {
    After(ts, n).rowIndex + 1
  }

  predicate NoIconIn(ts: seq<ViewType>, lo: int, hi: int)
    requires 0 <= lo <= hi <= |ts|
  {
    forall k :: lo <= k < hi ==> !ts[k].Icon?
  }

  /** What the counters always satisfy between items. */
  ghost predicate Consistent(s: RowState, n: int)
    requires n != 0
  {
    && s.rowIndex >= -1
    && (s.appsInSection > 0 ==> s.appsInRow == (s.appsInSection - 1) % n + 1 && s.rowIndex >= 0)
  }

  lemma MulAwayFromZero(n: int, d: nat)
    requires d >= 1
    ensures n > 0 ==> n * d >= n
    ensures n < 0 ==> n * d <= n
  {
  }

  /** Euclidean division has one remainder. */
  lemma ModUnique(y: int, n: int, q: int, r: int)
    requires n != 0 && y == n * q + r && 0 <= r < Abs(n)
    ensures y % n == r
  {
    var q', r' := y / n, y % n;
    assert y == n * q' + r';
    assert n * (q - q') == r' - r;
    if q > q' {
      MulAwayFromZero(n, q - q');
    } else if q < q' {
      MulAwayFromZero(n, q' - q);
    }
  }

  lemma ModSucc(x: nat, n: int)
    requires n != 0 && (x + 1) % n != 0
    ensures (x + 1) % n == x % n + 1
  {
    var q, r := x / n, x % n;
    assert x == n * q + r;
    if r + 1 == Abs(n) {
      ModUnique(x + 1, n, if n > 0 then q + 1 else q - 1, 0);
    } else {
      ModUnique(x + 1, n, q, r + 1);
    }
  }

  lemma ModSuccWraps(x: nat, n: int)
    requires n != 0
    ensures (x + 1) % n == (x % n + 1) % n
  {
    var r := x % n;
    if (x + 1) % n != 0 {
      ModSucc(x, n);
      ModUnique(r + 1, n, 0, r + 1);
    } else {
      assert r + 1 == Abs(n) by {
        if r + 1 != Abs(n) { ModUnique(x + 1, n, x / n, r + 1); }
      }
      ModUnique(r + 1, n, if n > 0 then 1 else -1, 0);
    }
  }

  lemma AfterStep(ts: seq<ViewType>, n: int, m: nat)
    requires n != 0 && m < |ts|
    ensures After(ts[..m + 1], n) == Step(After(ts[..m], n), ts[m], n)
  {
    assert ts[..m + 1][..m] == ts[..m];
  }

  lemma IconStep(s: RowState, n: int)
    requires n != 0 && Consistent(s, n)
    ensures var s' := Step(s, Icon, n);
      && Consistent(s', n)
      && s'.appsInSection == s.appsInSection + 1
      && s'.appsInRow - 1 == s.appsInSection % n
      && s'.rowIndex == s.rowIndex + (if s.appsInSection % n == 0 then 1 else 0)
  {
    if s.appsInSection % n != 0 {
      ModSucc(s.appsInSection - 1, n);
    }
  }

  lemma {:induction false} AfterConsistent(ts: seq<ViewType>, n: int)
    requires n != 0
    ensures Consistent(After(ts, n), n)
  {
    if ts != [] {
      var s := After(ts[..|ts| - 1], n);
      AfterConsistent(ts[..|ts| - 1], n);
      if ts[|ts| - 1].Icon? { IconStep(s, n); }
    }
  }

  /** An icon's place in its row is the number of icons before it since the
      last divider, modulo `n`. */
  lemma RowAppIndexIsSectionCount(ts: seq<ViewType>, n: int, k: nat)
    requires n != 0 && k < |ts| && ts[k].Icon?
    ensures RowAppIndexOf(ts, n, k) == After(ts[..k], n).appsInSection % n
    ensures RowOf(ts, n, k) == After(ts[..k], n).rowIndex + (if After(ts[..k], n).appsInSection % n == 0 then 1 else 0)
  {
    AfterStep(ts, n, k);
    AfterConsistent(ts[..k], n);
    IconStep(After(ts[..k], n), n);
  }

  /** Every icon lands in a row that exists, at a place inside the row's
      `n` slots. */
  lemma IconSlotInBounds(ts: seq<ViewType>, n: int, k: nat)
    requires n != 0 && k < |ts| && ts[k].Icon?
    ensures 0 <= RowAppIndexOf(ts, n, k) < Abs(n)
    ensures 0 <= RowOf(ts, n, k) < NumRows(ts, n)
  {
    RowAppIndexIsSectionCount(ts, n, k);
    var after := After(ts[..k + 1], n);
    AfterConsistent(ts[..k + 1], n);
    assert after.appsInSection > 0 by { AfterStep(ts, n, k); }
    assert RowOf(ts, n, k) == after.rowIndex >= 0;
    RowIndexMonotone(ts, n, k + 1, |ts|);
    assert ts[..|ts|] == ts;
    assert after.rowIndex <= After(ts, n).rowIndex;
  }

  /** The row counter never goes down. */
  lemma {:induction false} RowIndexMonotone(ts: seq<ViewType>, n: int, a: nat, b: nat)
    requires n != 0 && a <= b <= |ts|
    ensures After(ts[..a], n).rowIndex <= After(ts[..b], n).rowIndex
    decreases b - a
  {
    if a < b {
      RowIndexMonotone(ts, n, a, b - 1);
      AfterStep(ts, n, b - 1);
    }
  }

  /** Items that are not icons leave the row counters alone. */
  lemma {:induction false} NoIconKeepsRow(ts: seq<ViewType>, n: int, a: nat, b: nat)
    requires n != 0 && a <= b <= |ts| && NoIconIn(ts, a, b)
    ensures After(ts[..b], n).rowIndex == After(ts[..a], n).rowIndex
    ensures After(ts[..b], n).appsInRow == After(ts[..a], n).appsInRow
    ensures After(ts[..b], n).appsInSection == After(ts[..a], n).appsInSection
      || After(ts[..b], n).appsInSection == 0
    ensures (forall d :: a <= d < b ==> !ts[d].Divider?) ==>
      After(ts[..b], n).appsInSection == After(ts[..a], n).appsInSection
    decreases b - a
  {
    if a < b {
      NoIconKeepsRow(ts, n, a, b - 1);
      AfterStep(ts, n, b - 1);
    }
  }

  /** Row indices never decrease along the icons of the list. */
  lemma RowsNonDecreasing(ts: seq<ViewType>, n: int, i: nat, j: nat)
    requires n != 0 && i <= j < |ts| && ts[i].Icon? && ts[j].Icon?
    ensures RowOf(ts, n, i) <= RowOf(ts, n, j)
  {
    RowIndexMonotone(ts, n, i + 1, j + 1);
  }

  /** The first icon of the list opens row 0 at place 0. */
  lemma FirstIconOpensRowZero(ts: seq<ViewType>, n: int, j: nat)
    requires n != 0 && j < |ts| && ts[j].Icon? && NoIconIn(ts, 0, j)
    ensures RowOf(ts, n, j) == 0 && RowAppIndexOf(ts, n, j) == 0
  {
    NoIconKeepsRow(ts, n, 0, j);
    assert ts[..0] == [];
    RowAppIndexIsSectionCount(ts, n, j);
  }

  /** The counters just after icon `i`, and what they say about its slot. */
  lemma AfterIcon(ts: seq<ViewType>, n: int, i: nat)
    requires n != 0 && i < |ts| && ts[i].Icon?
    ensures var a := After(ts[..i], n).appsInSection;
      && After(ts[..i + 1], n).appsInSection == a + 1
      && After(ts[..i + 1], n).appsInRow == a % n + 1
      && RowAppIndexOf(ts, n, i) == a % n
      && RowOf(ts, n, i) == After(ts[..i + 1], n).rowIndex
  {
    AfterStep(ts, n, i);
    AfterConsistent(ts[..i], n);
    IconStep(After(ts[..i], n), n);
  }

  /**
   * From one icon to the next: either the next icon opens a new row at place
   * 0, or it takes the next place of the same row.
   */
  lemma NextIconPlacement(ts: seq<ViewType>, n: int, i: nat, j: nat)
    requires n != 0 && i < j < |ts| && ts[i].Icon? && ts[j].Icon? && NoIconIn(ts, i + 1, j)
    ensures RowAppIndexOf(ts, n, j) == 0 ==> RowOf(ts, n, j) == RowOf(ts, n, i) + 1
    ensures RowAppIndexOf(ts, n, j) != 0 ==>
      RowOf(ts, n, j) == RowOf(ts, n, i) && RowAppIndexOf(ts, n, j) == RowAppIndexOf(ts, n, i) + 1
  {
    AfterIcon(ts, n, i);
    NoIconKeepsRow(ts, n, i + 1, j);
    RowAppIndexIsSectionCount(ts, n, j);
    var a := After(ts[..i], n).appsInSection;
    var t := After(ts[..j], n);
    if t.appsInSection % n != 0 {
      assert t.appsInSection == a + 1 by { assert 0 % n == 0; }
      ModSucc(a, n);
    }
  }

  /** Within one section (no divider between two consecutive icons) the place
      in the row advances by one, wrapping to 0 after `n` places. */
  lemma NextIconInSection(ts: seq<ViewType>, n: int, i: nat, j: nat)
    requires n != 0 && i < j < |ts| && ts[i].Icon? && ts[j].Icon? && NoIconIn(ts, i + 1, j)
    requires forall d :: i < d < j ==> !ts[d].Divider?
    ensures RowAppIndexOf(ts, n, j) == (RowAppIndexOf(ts, n, i) + 1) % n
  {
    AfterIcon(ts, n, i);
    NoIconKeepsRow(ts, n, i + 1, j);
    RowAppIndexIsSectionCount(ts, n, j);
    var a := After(ts[..i], n).appsInSection;
    assert After(ts[..j], n).appsInSection == a + 1;
    ModSuccWraps(a, n);
  }

  /** A divider restarts the count: the first icon after it opens a new row,
      one past every row used before the divider. */
  lemma FirstIconAfterDivider(ts: seq<ViewType>, n: int, d: nat, j: nat)
    requires n != 0 && d < j < |ts| && ts[d].Divider? && ts[j].Icon? && NoIconIn(ts, d + 1, j)
    ensures RowAppIndexOf(ts, n, j) == 0
    ensures RowOf(ts, n, j) == After(ts[..d], n).rowIndex + 1
  {
    AfterStep(ts, n, d);
    var s := After(ts[..d + 1], n);
    assert s.appsInSection == 0 && s.rowIndex == After(ts[..d], n).rowIndex;
    NoIconKeepsRow(ts, n, d + 1, j);
    var t := After(ts[..j], n);
    assert t.appsInSection == 0 && t.rowIndex == s.rowIndex;
    assert 0 % n == 0;
    RowAppIndexIsSectionCount(ts, n, j);
  }

  /** Icons on the two sides of a divider never share a row. */
  lemma {:induction false} DividerSeparatesRows(ts: seq<ViewType>, n: int, i: nat, d: nat, j: nat)
    requires n != 0 && i < d < j < |ts| && ts[i].Icon? && ts[d].Divider? && ts[j].Icon?
    ensures RowOf(ts, n, i) < RowOf(ts, n, j)
    decreases j
  {
    if k :| d < k < j && ts[k].Icon? {
      DividerSeparatesRows(ts, n, i, d, k);
      RowsNonDecreasing(ts, n, k, j);
    } else {
      FirstIconAfterDivider(ts, n, d, j);
      RowIndexMonotone(ts, n, i + 1, d);
    }
  }

  /** The reported row count is one past the last icon's row, and 0 when
      the list has no icon. */
  lemma NumRowsIsLastRowPlusOne(ts: seq<ViewType>, n: int)
    requires n != 0
    ensures NoIconIn(ts, 0, |ts|) ==> NumRows(ts, n) == 0
    ensures forall k :: 0 <= k < |ts| && ts[k].Icon? && NoIconIn(ts, k + 1, |ts|) ==>
      NumRows(ts, n) == RowOf(ts, n, k) + 1
  {
    assert ts[..|ts|] == ts;
    assert ts[..0] == [];
    if NoIconIn(ts, 0, |ts|) {
      NoIconKeepsRow(ts, n, 0, |ts|);
    }
    forall k | 0 <= k < |ts| && ts[k].Icon? && NoIconIn(ts, k + 1, |ts|)
      ensures NumRows(ts, n) == RowOf(ts, n, k) + 1
    {
      NoIconKeepsRow(ts, n, k + 1, |ts|);
    }
  }

  /** Entry `k` is the last place its object occurs among the first `hi`
      entries, so the value written there is the one that stays. */
  predicate LastOccurrence(items: seq<AdapterItem>, k: int, hi: int)
    requires 0 <= k < hi <= |items|
  {
    forall m :: k < m < hi ==> items[m] != items[k]
  }

  /** The row fields of every object in the list hold what the builder wrote
      at the object's last occurrence. */
  ghost predicate RowsMatchLayout(items: seq<AdapterItem>, n: int)
    requires n != 0
    reads items
  {
    var ts := Kinds(items);
    forall k :: 0 <= k < |items| && LastOccurrence(items, k, |items|) ==>
      && items[k].rowIndex == RowOf(ts, n, k)
      && (ts[k].Icon? ==> items[k].rowAppIndex == RowAppIndexOf(ts, n, k))
  }

  /**
   * The row-assignment pass of the list builder: every item's row index is
   * reset to 0, and every icon gets the row and in-row place of the layout.
   * Returns the number of rows.
   */
  method AssignRows(items: seq<AdapterItem>, n: int) returns (numRows: int)
    requires n != 0
    modifies items
    ensures numRows == NumRows(Kinds(items), n)
    ensures RowsMatchLayout(items, n)
  {
    ghost var ts := Kinds(items);
    var numAppsInSection: nat := 0;
    var numAppsInRow: nat := 0;
    var rowIndex := -1;
    for i := 0 to |items|
      invariant RowState(numAppsInSection, numAppsInRow, rowIndex) == After(ts[..i], n)
      invariant forall k :: 0 <= k < i && LastOccurrence(items, k, i) ==>
        && items[k].rowIndex == RowOf(ts, n, k)
        && (ts[k].Icon? ==> items[k].rowAppIndex == RowAppIndexOf(ts, n, k))
    {
      AfterStep(ts, n, i);
      var item := items[i];
      assert item.viewType == ts[i];
      item.rowIndex := 0;
      if item.viewType.Divider? {
        numAppsInSection := 0;
      } else if item.viewType.Icon? {
        if numAppsInSection % n == 0 {
          numAppsInRow := 0;
          rowIndex := rowIndex + 1;
        }
        item.rowIndex := rowIndex;
        item.rowAppIndex := numAppsInRow;
        numAppsInSection := numAppsInSection + 1;
        numAppsInRow := numAppsInRow + 1;
      }
    }
    assert ts[..|items|] == ts;
    numRows := rowIndex + 1;
  }
}
