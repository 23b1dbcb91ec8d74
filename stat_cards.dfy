/**
 * The stack of publication-statistics cards: one card per count, a page
 * counter `activePage` that a click advances modulo the number of cards,
 * and the pose each card takes depending on whether it is the active card,
 * the card after it, or one further back.
 */
module StatCards {
  import opened Wrappers

  /** The publication counts passed in by the caller. */
  datatype PublicationStats = PublicationStats(journals: int, conferences: int, books: int)

  /** One card: its caption, the source's `label` (also the card's identity on the page) and count. */
  datatype StatCard = StatCard(caption: string, value: int)

  /**
   * The cards: Journals, Conferences and Books Published, in that order,
   * when counts are given; no cards otherwise. The labels are distinct.
   */
  function Stats(ps: Option<PublicationStats>): (r: seq<StatCard>)
    ensures ps.None? <==> r == []
    ensures ps.Some? ==>
      |r| == 3 && r[0].value == ps.value.journals && r[1].value == ps.value.conferences
      && r[2].value == ps.value.books
    ensures forall i, j :: 0 <= i < j < |r| ==> r[i].caption != r[j].caption
  {
    match ps
    case None => []
    case Some(p) => [
      StatCard("Journals", p.journals),
      StatCard("Conferences", p.conferences),
      StatCard("Books Published", p.books)]
  }

  /** The page after `page` among `n` cards. */
  function Advance(page: nat, n: nat): (r: nat)
    requires n > 0
    ensures r < n
  {
    (page + 1) % n
  }

  /** Card `i` is the active card. */
  predicate IsTop(page: nat, i: nat)
  {
    page == i
  }

  /** Card `i` is the card after the active one. */
  predicate IsNext(page: nat, n: nat, i: nat)
    requires n > 0
  {
    Advance(page, n) == i
  }

  /** Where a card sits in the stack; the active card's test comes first. */
  datatype Slot = Top | Next | Back

  function SlotOf(page: nat, n: nat, i: nat): Slot
    requires n > 0
  {
    if IsTop(page, i) then Top else if IsNext(page, n, i) then Next else Back
  }

  /** The animation target of a card; `scalePercent` is the scale in hundredths. */
  datatype Pose = Pose(zIndex: int, x: int, rotate: int, scalePercent: int)

  function PoseOf(slot: Slot): Pose
  {
    match slot
    case Top => Pose(20, 40, -2, 100)
    case Next => Pose(10, 30, 2, 95)
    case Back => Pose(5, 20, 5, 90)
  }

  /** The page counter of the card stack and the cards it pages through. */
  class CardStack {
    const cards: seq<StatCard>
    var activePage: nat

    /** The counter names a card, or is still at its initial 0 when there is none. */
    predicate Valid()
      reads this
    {
      activePage < |cards| || activePage == 0
    }

    /** The stack starts on the first card. */
    constructor (cards: seq<StatCard>)
      ensures this.cards == cards && activePage == 0
      ensures Valid()
    {
      this.cards := cards;
      activePage := 0;
    }

    /**
     * `handleNextPage`: the click handler, present only while there are
     * cards, moves to the next page, wrapping from the last card to the first.
     */
    method HandleNextPage()
      requires Valid() && |cards| > 0
      modifies this
      ensures activePage == Advance(old(activePage), |cards|)
      ensures activePage < |cards| && Valid()
      ensures forall i :: IsTop(activePage, i) <==> IsNext(old(activePage), |cards|, i)
    {
      activePage := (activePage + 1) % |cards|;
    }

    /** The pose of card `i`, chosen by the same branches as the page. */
    method CardPose(i: nat) returns (pose: Pose)
      requires Valid() && i < |cards|
      ensures pose == PoseOf(SlotOf(activePage, |cards|, i))
      ensures pose.zIndex == 20 <==> i == activePage
    {
      var isTop := activePage == i;
      var isNext := (activePage + 1) % |cards| == i;
      var zIndex, x, rotate, scale := 0, 0, 0, 100;
      if isTop {
        zIndex, x, rotate, scale := 20, 40, -2, 100;
      } else if isNext {
        zIndex, x, rotate, scale := 10, 30, 2, 95;
      } else {
        zIndex, x, rotate, scale := 5, 20, 5, 90;
      }
      pose := Pose(zIndex, x, rotate, scale);
    }

    /**
     * With two or more cards on a valid stack, exactly one card is drawn with
     * z-index 20 (the active one) and exactly one other with z-index 10.
     */
    lemma FrontTwoUnique()
      requires Valid() && |cards| >= 2
      ensures exists t :: 0 <= t < |cards| && PoseOf(SlotOf(activePage, |cards|, t)).zIndex == 20
      ensures exists m :: 0 <= m < |cards| && PoseOf(SlotOf(activePage, |cards|, m)).zIndex == 10
      ensures forall i, j ::
        (0 <= i < |cards| && 0 <= j < |cards| && PoseOf(SlotOf(activePage, |cards|, i)).zIndex == 20
         && PoseOf(SlotOf(activePage, |cards|, j)).zIndex == 20) ==> i == j
      ensures forall i, j ::
        (0 <= i < |cards| && 0 <= j < |cards| && PoseOf(SlotOf(activePage, |cards|, i)).zIndex == 10
         && PoseOf(SlotOf(activePage, |cards|, j)).zIndex == 10) ==> i == j
    {
      OneTopOneNext(activePage, |cards|);
    }
  }

  // ----- properties of the paging -----

  /** `k` clicks starting from `page`. */
  function Iterate(page: nat, n: nat, k: nat): (r: nat)
    requires n > 0
  {
    if k == 0 then page else Advance(Iterate(page, n, k - 1), n)
  }

  /** Adding one after reducing modulo `n` is the same as reducing afterwards. */
  lemma ModSucc(m: nat, n: nat)
    requires n > 0
    ensures (m % n + 1) % n == (m + 1) % n
  {
    var q, r := m / n, m % n;
    if r + 1 < n {
      ModUnique(m + 1, n, q, r + 1);
      ModUnique(r + 1, n, 0, r + 1);
    } else {
      ModUnique(m + 1, n, q + 1, 0);
      ModUnique(r + 1, n, 1, 0);
    }
  }

  /** Division with remainder is unique: `q * n + r` with `0 <= r < n` leaves remainder `r`. */
  lemma ModUnique(a: int, n: nat, q: int, r: int)
    requires n > 0 && 0 <= r < n && a == q * n + r
    ensures a % n == r
  {
    var q', r' := a / n, a % n;
    assert n * (q' - q) == r - r';
    if q' - q >= 1 {
      MulAtLeast(n, q' - q);
    } else if q' - q <= -1 {
      MulAtLeast(n, q - q');
    }
  }

  /** A positive multiple of `n` is at least `n`. */
  lemma MulAtLeast(n: nat, d: int)
    requires d >= 1
    ensures n * d >= n
  {
  }

  /** After `k` clicks the counter is `(page + k) mod n`. */
  lemma {:induction false} IterateIsOffset(page: nat, n: nat, k: nat)
    requires page < n
    ensures Iterate(page, n, k) == (page + k) % n
  {
    if k > 0 {
      var m := page + k - 1;
      IterateIsOffset(page, n, k - 1);
      assert Iterate(page, n, k - 1) == m % n;
      ModSucc(m, n);
      assert Iterate(page, n, k) == (m % n + 1) % n;
    }
  }

  /** `n` clicks bring the stack back to where it started. */
  lemma CycleReturnsToStart(page: nat, n: nat)
    requires page < n
    ensures Iterate(page, n, n) == page
  {
    IterateIsOffset(page, n, n);
    ModUnique(page + n, n, 1, page);
  }

  /** With the three statistics cards the pages go 0, 1, 2 and back to 0. */
  lemma ThreeCardCycle()
    ensures Advance(0, 3) == 1 && Advance(1, 3) == 2 && Advance(2, 3) == 0
  {
  }

  /** After a click, the card that was next is the active card. */
  lemma NextBecomesTop(page: nat, n: nat, i: nat)
    requires n > 0
    ensures IsTop(Advance(page, n), i) <==> IsNext(page, n, i)
  {
  }

  /**
   * With two or more cards exactly one card is the active card and exactly
   * one other card is the next card.
   */
  lemma OneTopOneNext(page: nat, n: nat)
    requires 2 <= n && page < n
    ensures exists t :: 0 <= t < n && SlotOf(page, n, t) == Top
    ensures exists m :: 0 <= m < n && SlotOf(page, n, m) == Next
    ensures forall i, j :: 0 <= i < n && 0 <= j < n && SlotOf(page, n, i) == Top && SlotOf(page, n, j) == Top ==> i == j
    ensures forall i, j :: 0 <= i < n && 0 <= j < n && SlotOf(page, n, i) == Next && SlotOf(page, n, j) == Next ==> i == j
  {
    assert SlotOf(page, n, page) == Top;
    var m := Advance(page, n);
    assert m != page by {
      if page + 1 < n {
        assert m == page + 1;
      } else {
        assert m == 0;
      }
    }
    assert SlotOf(page, n, m) == Next;
  }

  /** A lone card is the active card: its next card is itself. */
  lemma LoneCardIsTop(page: nat)
    requires page < 1
    ensures SlotOf(page, 1, 0) == Top
  {
  }

  /** The active card is drawn above every other card, the next card above the rest. */
  lemma StackingOrder(page: nat, n: nat, i: nat)
    requires n > 0 && page < n && i < n
    ensures i != page ==> PoseOf(SlotOf(page, n, i)).zIndex < PoseOf(SlotOf(page, n, page)).zIndex
    ensures SlotOf(page, n, i) == Back ==>
      PoseOf(SlotOf(page, n, i)).zIndex < PoseOf(SlotOf(page, n, Advance(page, n))).zIndex
  {
    if SlotOf(page, n, i) == Back {
      assert Advance(page, n) != i;
    }
  }
}
