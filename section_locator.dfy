/**
 * Finding section headers: the first pinned row in the visible window, and
 * the pinned row that encloses a given position (asking an optional section
 * indexer first and falling back to a backward scan).
 */
module SectionLocator {
  import opened Platform

  /** One adapter row: whether its view type is a pinned (section) type, and its stable id. */
  datatype Row = Row(pinned: bool, id: int)

  /** The optional SectionIndexer capability of an adapter. */
  datatype Indexer = Indexer(sectionForPosition: int -> int, positionForSection: int -> int)

  /**
   * A list adapter as the list sees it: its identity, whether it implements
   * the pinned-section adapter interface, how many view types it reports,
   * its rows, the optional indexer, and getView(position, convertView),
   * where convertView is the handle of a view offered for reuse.
   */
  datatype Adapter = Adapter(
    handle: int,
    implementsPinned: bool,
    viewTypeCount: int,
    rows: seq<Row>,
    indexer: Option<Indexer>,
    getView: (int, Option<int>) -> ItemView)

  /**
   * isItemViewTypePinned(getItemViewType(p)). A position outside the rows
   * (only an indexer can produce one) counts as not pinned.
   */
  predicate IsPinned(a: Adapter, p: int)
  {
    0 <= p < |a.rows| && a.rows[p].pinned
  }

  /** No row in [lo, hi) is pinned. */
  ghost predicate NonePinnedIn(a: Adapter, lo: int, hi: int)
  {
    forall q :: lo <= q < hi ==> !IsPinned(a, q)
  }

  /** The forward scan over [from, end): the first pinned position, or -1. */
  function ScanForward(a: Adapter, from: int, end: int): (r: int)
    decreases end - from
    ensures r == -1 <==> NonePinnedIn(a, from, end)
    ensures r != -1 ==> from <= r < end && IsPinned(a, r) && NonePinnedIn(a, from, r)
  {
    if from >= end then -1
    else if IsPinned(a, from) then from
    else ScanForward(a, from + 1, end)
  }

  /**
   * findSectionPositionInScreen: -1 when fromPosition lies outside the
   * visible window [first, first + count); otherwise the smallest pinned
   * position in [fromPosition, first + count), or -1 if there is none.
   */
  function FindSectionPositionInScreen(a: Adapter, first: int, count: int, fromPosition: int): (r: int)
    ensures fromPosition < first || fromPosition >= first + count ==> r == -1
    ensures first <= fromPosition < first + count ==>
              (r == -1 <==> NonePinnedIn(a, fromPosition, first + count))
    ensures r != -1 ==>
              fromPosition <= r < first + count && IsPinned(a, r) && NonePinnedIn(a, fromPosition, r)
  {
    if fromPosition < first || fromPosition >= first + count then -1
    else ScanForward(a, fromPosition, first + count)
  }

  /** findFirstSectionPositionInScreen: the first pinned row of the visible window, or -1. */
  function FindFirstSectionPositionInScreen(a: Adapter, first: int, count: int): (r: int)
    ensures r == -1 <==> NonePinnedIn(a, first, first + count)
    ensures r != -1 ==> first <= r < first + count && IsPinned(a, r) && NonePinnedIn(a, first, r)
  {
    FindSectionPositionInScreen(a, first, count, first)
  }

  /** The backward scan from `from` down to 0: the largest pinned position <= from, or -1. */
  function ScanBackward(a: Adapter, from: int): (r: int)
    decreases from + 1
    ensures r == -1 <==> NonePinnedIn(a, 0, from + 1)
    ensures r != -1 ==> 0 <= r <= from && IsPinned(a, r) && NonePinnedIn(a, r + 1, from + 1)
  {
    if from < 0 then -1
    else if IsPinned(a, from) then from
    else ScanBackward(a, from - 1)
  }

  /** The indexer's answer for `from`: the first position of the section holding it. */
  function IndexerCandidate(ix: Indexer, from: int): int
  {
    ix.positionForSection(ix.sectionForPosition(from))
  }

  /** The indexer supplies a candidate for `from` and that candidate is a pinned row. */
  predicate IndexerHit(a: Adapter, from: int)
  {
    a.indexer.Some? && IsPinned(a, IndexerCandidate(a.indexer.value, from))
  }

  /**
   * findCurrentSectionPosition: the indexer's candidate when there is an
   * indexer and its candidate is pinned; otherwise the largest pinned
   * position <= fromPosition, and -1 exactly when there is none.
   */
  function FindCurrentSectionPosition(a: Adapter, fromPosition: int): (r: int)
    ensures r == -1 || IsPinned(a, r)
    ensures IndexerHit(a, fromPosition) ==> r == IndexerCandidate(a.indexer.value, fromPosition)
    ensures !IndexerHit(a, fromPosition) ==>
              (r == -1 <==> NonePinnedIn(a, 0, fromPosition + 1)) &&
              (r != -1 ==> r <= fromPosition && NonePinnedIn(a, r + 1, fromPosition + 1))
  {
    if IndexerHit(a, fromPosition) then IndexerCandidate(a.indexer.value, fromPosition)
    else ScanBackward(a, fromPosition)
  }

  /** Whichever way it is found, the enclosing section agrees with the backward scan. */
  ghost predicate AgreesWithScan(a: Adapter)
  {
    forall q :: FindCurrentSectionPosition(a, q) == ScanBackward(a, q)
  }

  /** An indexer whose pinned candidate is the nearest section at or above `from`. */
  ghost predicate IndexerExactAt(a: Adapter, from: int)
  {
    a.indexer.Some? ==>
      var c := IndexerCandidate(a.indexer.value, from);
      IsPinned(a, c) ==> c <= from && NonePinnedIn(a, c + 1, from + 1)
  }

  /**
   * The fast path never gives a different answer from the slow one as long
   * as the indexer is exact: its pinned candidate is the nearest section at
   * or above the position.
   */
  lemma IndexerAgreesWithScan(a: Adapter, from: int)
    requires IndexerExactAt(a, from)
    ensures FindCurrentSectionPosition(a, from) == ScanBackward(a, from)
  {
  }

  /** Without an indexer the locator always agrees with the backward scan. */
  lemma NoIndexerAgreesWithScan(a: Adapter)
    requires a.indexer.None?
    ensures AgreesWithScan(a)
  {
  }

  /**
   * The backward scan passes over rows that are not pinned: starting from
   * `hi` or from any lower `lo` with only non-pinned rows in between gives
   * the same section.
   */
  lemma ScanBackwardSkips(a: Adapter, lo: int, hi: int)
    requires lo <= hi
    requires NonePinnedIn(a, lo + 1, hi + 1)
    ensures ScanBackward(a, hi) == ScanBackward(a, lo)
  {
  }

  /** A list whose adapter has no pinned row never yields a section, whatever the indexer says. */
  lemma NoSectionsNoPosition(a: Adapter, first: int, count: int, from: int)
    requires forall i :: 0 <= i < |a.rows| ==> !a.rows[i].pinned
    ensures FindSectionPositionInScreen(a, first, count, from) == -1
    ensures FindCurrentSectionPosition(a, from) == -1
  {
  }
}
