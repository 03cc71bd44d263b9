/** The two pieces of screen arithmetic the firmware computes: the scroll
    window of the main menu (drawMenu) and the filled width of a progress
    bar (drawProgressBar). The drawing itself is not modelled. */
module Layout {
  import opened CInt

  /** Entries of the main menu. */
  const MenuItemCount: int := 11
  /** Menu rows that fit below the title of the 128x64 display. */
  const VisibleItems: int := 6

  /** The first menu entry shown for a given selection. */
  function StartIndex(selection: int): (start: int)
    ensures 0 <= start <= MenuItemCount - VisibleItems
    ensures 0 <= selection < MenuItemCount ==> start <= selection < start + VisibleItems
  {
    var s0 := if selection >= VisibleItems / 2 then selection - VisibleItems / 2 + 1 else 0;
    var s1 := if s0 + VisibleItems > MenuItemCount then MenuItemCount - VisibleItems else s0;
    if s1 < 0 then 0 else s1
  }

  /** Away from both ends of the list the selection stays on the third row. */
  lemma SelectionOnThirdRow(selection: int)
    requires 2 <= selection <= 7
    ensures selection - StartIndex(selection) == 2
  {
  }

  /** Near the top the window stays at the first entry, near the bottom at
      the last six. */
  lemma WindowAtTheEnds(selection: int)
    ensures selection <= 2 ==> StartIndex(selection) == 0
    ensures selection >= 7 ==> StartIndex(selection) == MenuItemCount - VisibleItems
  {
  }

  /** Moving the selection down never scrolls the window up. */
  lemma StartIndexMonotone(a: int, b: int)
    requires a <= b
    ensures StartIndex(a) <= StartIndex(b)
  {
  }

  /** Inner width of the bar that is filled for `percent`, in C arithmetic. */
  function ProgressFill(width: int, percent: int): (filled: int)
    ensures 2 <= width && 0 <= percent <= 100 ==> 0 <= filled <= width - 2
    ensures 2 <= width && percent == 100 ==> filled == width - 2
    ensures percent == 0 ==> filled == 0
  {
    CDiv((width - 2) * percent, 100)
  }

  /** A larger percentage never fills less of the bar. */
  lemma ProgressFillMonotone(width: int, p: int, q: int)
    requires 2 <= width && 0 <= p <= q
    ensures ProgressFill(width, p) <= ProgressFill(width, q)
  {
    assert (width - 2) * p <= (width - 2) * q;
    CDivMonotone((width - 2) * p, (width - 2) * q, 100);
  }
}
