/**
 * The carousel helpers of src/features/works/carousel-util.js: five card slots at offsets
 * -2..2 from the centre, recorded on each card as a `pos-N` class, with `is-center` on the
 * card at offset 0.
 *
 * A card's class list is kept as the numbers of its `pos-N` classes, in class-list order,
 * and the `is-center` flag; its other classes play no part.
 */
module Carousel {
  import opened Wrappers

  /** A `.works-content` card element. */
  class Card {
    /** The `N` of each `pos-N` class, in class-list order. */
    var pos: seq<int>
    /** Whether the card has the `is-center` class. */
    var center: bool
    /** The index into the current list of the item the card shows, once one was written. */
    var item: Option<int>
    /** `aria-hidden`. */
    var hidden: bool
    /** Whether its `img` has `style.display` set to `'none'`. */
    var imgHidden: bool
    /** Whether its `.works-desc` holds the no-items message. */
    var message: bool

    /** `buildCard`: a fresh card with no position class and nothing shown yet. */
    constructor Blank()
      ensures pos == [] && !center && Face(this) == (None, false, false, false)
    {
      pos, center, item, hidden, imgHidden, message := [], false, None, false, false, false;
    }
  }

  /** What a card shows, apart from its position classes: item, `aria-hidden`, hidden image, message. */
  function Face(card: Card): (Option<int>, bool, bool, bool)
    reads card
  {
    (card.item, card.hidden, card.imgHidden, card.message)
  }

  /** A `.works-carousel` element, with the `.works-content` cards inside it in document order. */
  class Box {
    var cards: seq<Card>

    constructor ()
      ensures cards == []
    {
      cards := [];
    }
  }

  /** The `.works-view` root, with the `.works-carousel` inside it if there is one. */
  class View {
    var carousel: Box?

    constructor (carousel: Box?)
      ensures this.carousel == carousel
    {
      this.carousel := carousel;
    }
  }

  /** No card occurs twice: a list gathered from the document never repeats an element. */
  predicate Distinct(cards: seq<Card>)
  {
    forall i, j :: 0 <= i < j < |cards| ==> cards[i] != cards[j]
  }

  /** Every `pos-N` class of the card is one of the five slots. */
  predicate InRange(pos: seq<int>)
  {
    forall x :: x in pos ==> -2 <= x <= 2
  }

  /** The first `pos-N` class of a class list, if any. */
  function FirstPos(pos: seq<int>): Option<int>
  {
    if pos == [] then None else Some(pos[0])
  }

  /** `getOffset`: nothing for a missing card or one without a `pos-` class. */
  function GetOffset(card: Card?): Option<int>
    reads card
  {
    if card == null then None else FirstPos(card.pos)
  }

  /** `classList.remove('pos--2', 'pos--1', 'pos-0', 'pos-1', 'pos-2')`. */
  function Strip(pos: seq<int>): (r: seq<int>)
    ensures forall x :: x in r <==> x in pos && !(-2 <= x <= 2)
    ensures InRange(pos) ==> r == []
  {
    if pos == [] then []
    else
      assert pos[0] in pos && forall x :: x in pos[1..] ==> x in pos;
      (if -2 <= pos[0] <= 2 then [] else [pos[0]]) + Strip(pos[1..])
  }

  /** `classList.add('pos-' + off)`: a class already present is not added again. */
  function AddClass(pos: seq<int>, off: int): seq<int>
  {
    if off in pos then pos else pos + [off]
  }

  /**
   * The five slot classes removed and `pos-off` added: the card keeps only its classes
   * outside the five slots besides `off`, and one that had only slot classes has `off` alone.
   */
  function Placed(pos: seq<int>, off: int): (r: seq<int>)
    ensures InRange(pos) ==> r == [off]
  {
    AddClass(Strip(pos), off)
  }

  /** After `Placed` the card has `pos-off` and exactly the non-slot classes it had. */
  lemma PlacedClasses(pos: seq<int>, off: int)
    ensures forall x :: x in Placed(pos, off) <==> x == off || (x in pos && !(-2 <= x <= 2))
  {
  }

  /** `Math.sign(dir) || 1`: `-1` for a negative direction, otherwise `1` (0 acts as `+1`). */
  function SignOr1(dir: int): (s: int)
    ensures s == 1 || s == -1
    ensures s == -1 <==> dir < 0
  {
    if dir < 0 then -1 else 1
  }

  /** The wrap of `rotateClasses`: below -2 becomes 2, above 2 becomes -2. */
  function Wrap(next: int): (r: int)
    ensures -2 <= r <= 2
    ensures -2 <= next <= 2 ==> r == next
  {
    if next < -2 then 2 else if next > 2 then -2 else next
  }

  /** The offset a card at `off` moves to in one rotation in direction `dir`. */
  function NextOffset(off: int, dir: int): (r: int)
    ensures -2 <= r <= 2
  {
    Wrap(off - SignOr1(dir))
  }

  /**
   * A card's `pos-` classes and `is-center` flag after one rotation that subtracts `step`
   * from its offset and wraps.
   */
  function RotatedBy(pos: seq<int>, center: bool, step: int): (seq<int>, bool)
  {
    match FirstPos(pos)
    case None => (pos, center)
    case Some(off) =>
      var next := Wrap(off - step);
      (Placed(pos, next), next == 0)
  }

  /**
   * The loop both versions of `rotateClasses` run: every card with a `pos-` class moves
   * from `off` to `off - step`, wrapped, and carries `is-center` exactly when it lands on 0;
   * cards without one are left alone.
   */
  method RotateBy(cards: seq<Card>, step: int)
    requires Distinct(cards)
    modifies cards`pos, cards`center
    ensures forall i :: 0 <= i < |cards| ==>
      (cards[i].pos, cards[i].center) == RotatedBy(old(cards[i].pos), old(cards[i].center), step) &&
      Face(cards[i]) == old(Face(cards[i]))
  {
    for k := 0 to |cards|
      invariant forall i :: 0 <= i < k ==>
        (cards[i].pos, cards[i].center) == RotatedBy(old(cards[i].pos), old(cards[i].center), step)
      invariant forall i :: k <= i < |cards| ==>
        cards[i].pos == old(cards[i].pos) && cards[i].center == old(cards[i].center)
    {
      RotateCard(cards[k], step);
    }
  }

  /** One card's part of the rotation: its `pos-` classes and `is-center` flag, and nothing else. */
  method RotateCard(card: Card, step: int)
    modifies card`pos, card`center
    ensures (card.pos, card.center) == RotatedBy(old(card.pos), old(card.center), step)
  {
    match GetOffset(card) {
      case None =>
      case Some(off) =>
        var next := Wrap(off - step);
        card.pos := Placed(card.pos, next);
        card.center := next == 0;
    }
  }

  /**
   * `rotateClasses(cards, dir)`: one slot to the left for `dir > 0` (the card on the right
   * comes to the centre), to the right for `dir < 0`, and to the left for `dir == 0`.
   */
  method RotateClasses(cards: seq<Card>, dir: int)
    requires Distinct(cards)
    modifies cards`pos, cards`center
    ensures forall i :: 0 <= i < |cards| ==>
      (cards[i].pos, cards[i].center) == RotatedBy(old(cards[i].pos), old(cards[i].center), SignOr1(dir)) &&
      Face(cards[i]) == old(Face(cards[i]))
  {
    RotateBy(cards, SignOr1(dir));
  }

  /**
   * Of a card whose `pos-` classes are all slots, a unit rotation moves the offset to
   * `NextOffset` and nothing else, and `getOffset` reads the new offset back.
   */
  lemma RotatedSlot(pos: seq<int>, center: bool, step: int)
    requires pos != [] && InRange(pos) && (step == 1 || step == -1)
    ensures RotatedBy(pos, center, step) == ([NextOffset(pos[0], step)], NextOffset(pos[0], step) == 0)
    ensures FirstPos(RotatedBy(pos, center, step).0) == Some(NextOffset(pos[0], step))
  {
  }

  /**
   * The cards as `ensureCarousel` places them and `rotateClasses` keeps them: each card
   * carries exactly one `pos-` class, its offset in `offs`, and `is-center` exactly at 0; the
   * first five sit in the five slots, and any card past the fifth sits in a slot too.
   */
  ghost predicate Arranged(cards: seq<Card>, offs: seq<int>)
    reads set c | c in cards
  {
    |cards| >= 5 && |offs| == |cards| && Distinct(cards) && IsArrangement(offs[..5]) &&
    forall i :: 0 <= i < |cards| ==>
      -2 <= offs[i] <= 2 && cards[i].pos == [offs[i]] && cards[i].center == (offs[i] == 0)
  }

  /**
   * A unit rotation of arranged cards: each card moves to its rotated offset, so the cards
   * stay arranged, the first five with exactly one `is-center` card, and show what they showed.
   */
  method RotateArrangement(cards: seq<Card>, ghost offs: seq<int>, step: int)
    requires Arranged(cards, offs) && (step == 1 || step == -1)
    modifies cards`pos, cards`center
    ensures Arranged(cards, RotatedOffsets(offs, step))
    ensures OneCenter(RotatedOffsets(offs, step)[..5])
    ensures forall i :: 0 <= i < |cards| ==> Face(cards[i]) == old(Face(cards[i]))
  {
    RotateBy(cards, step);
    var r := RotatedOffsets(offs, step);
    assert r[..5] == RotatedOffsets(offs[..5], step);
    RotationKeepsArrangement(offs[..5], step);
    forall i | 0 <= i < |cards|
      ensures cards[i].pos == [r[i]]
    {
      RotatedSlot([offs[i]], offs[i] == 0, step);
    }
  }

  /**
   * Rotating in one direction and then the other restores every slot offset; direction 0
   * rotates like `+1`.
   */
  lemma {:induction false} RotateBack(off: int, dir: int)
    requires -2 <= off <= 2
    ensures NextOffset(NextOffset(off, dir), -SignOr1(dir)) == off
    ensures NextOffset(NextOffset(off, -SignOr1(dir)), dir) == off
    ensures NextOffset(off, 0) == NextOffset(off, 1)
  {
  }

  /** The offset after `n` rotations in direction `dir`. */
  function Turns(off: int, dir: int, n: nat): (r: int)
    ensures n > 0 ==> -2 <= r <= 2
  {
    if n == 0 then off else NextOffset(Turns(off, dir, n - 1), dir)
  }

  /** Five rotations in the same direction bring every card back to its slot. */
  lemma FiveTurns(off: int, dir: int)
    requires -2 <= off <= 2
    ensures Turns(off, dir, 5) == off
    ensures forall n: nat :: 0 < n < 5 ==> Turns(off, dir, n) != off
  {
    assert Turns(off, dir, 1) == NextOffset(off, dir);
    assert Turns(off, dir, 2) == NextOffset(Turns(off, dir, 1), dir);
    assert Turns(off, dir, 3) == NextOffset(Turns(off, dir, 2), dir);
    assert Turns(off, dir, 4) == NextOffset(Turns(off, dir, 3), dir);
  }

  /** Five offsets that are the slots -2..2 in some order. */
  predicate IsArrangement(offs: seq<int>)
  {
    |offs| == 5 &&
    (forall i :: 0 <= i < 5 ==> -2 <= offs[i] <= 2) &&
    (forall i, j :: 0 <= i < j < 5 ==> offs[i] != offs[j]) &&
    (forall o :: -2 <= o <= 2 ==> o in offs)
  }

  /** Exactly one card of an arrangement is at the centre. */
  predicate OneCenter(offs: seq<int>)
  {
    0 in offs && forall i, j :: 0 <= i < |offs| && 0 <= j < |offs| && offs[i] == 0 && offs[j] == 0 ==> i == j
  }

  /** Every offset after one rotation. */
  function RotatedOffsets(offs: seq<int>, dir: int): (r: seq<int>)
    ensures |r| == |offs| && forall i :: 0 <= i < |r| ==> r[i] == NextOffset(offs[i], dir)
  {
    seq(|offs|, i requires 0 <= i < |offs| => NextOffset(offs[i], dir))
  }

  /**
   * A rotation keeps the five offsets an arrangement of -2..2, so exactly one card is
   * `is-center` before and after it.
   */
  lemma {:induction false} RotationKeepsArrangement(offs: seq<int>, dir: int)
    requires IsArrangement(offs)
    ensures IsArrangement(RotatedOffsets(offs, dir))
    ensures OneCenter(offs) && OneCenter(RotatedOffsets(offs, dir))
  {
    var r := RotatedOffsets(offs, dir);
    var back := -SignOr1(dir);
    forall i, j | 0 <= i < j < 5
      ensures r[i] != r[j]
    {
      RotateBack(offs[i], dir);
      RotateBack(offs[j], dir);
    }
    forall o | -2 <= o <= 2
      ensures o in r
    {
      var p := NextOffset(o, back);
      assert p in offs;
      var i :| 0 <= i < 5 && offs[i] == p;
      RotateBack(o, dir);
      assert r[i] == o;
    }
  }

  /** The offset `applyInitialPositions` gives card `i`: `positions[i] ?? 0`. */
  function PositionAt(positions: seq<int>, i: nat): int
  {
    if i < |positions| then positions[i] else 0
  }

  /**
   * `applyInitialPositions`: card `i` takes slot `positions[i]`, or 0 past the end of
   * `positions`, and is `is-center` exactly at 0.
   */
  method ApplyInitialPositions(cards: seq<Card>, positions: seq<int>)
    requires Distinct(cards)
    modifies cards`pos, cards`center
    ensures forall i :: 0 <= i < |cards| ==>
      cards[i].pos == Placed(old(cards[i].pos), PositionAt(positions, i)) &&
      cards[i].center == (PositionAt(positions, i) == 0) &&
      Face(cards[i]) == old(Face(cards[i]))
  {
    for k := 0 to |cards|
      invariant forall i :: 0 <= i < k ==>
        cards[i].pos == Placed(old(cards[i].pos), PositionAt(positions, i)) &&
        cards[i].center == (PositionAt(positions, i) == 0)
      invariant forall i :: k <= i < |cards| ==> cards[i].pos == old(cards[i].pos)
    {
      var off := PositionAt(positions, k);
      cards[k].pos := Placed(cards[k].pos, off);
      cards[k].center := off == 0;
    }
  }

  /** The slots `ensureCarousel` assigns in order. */
  const Initial: seq<int> := [-2, -1, 0, 1, 2]

  /** A fresh carousel's five cards are at -2..2 in order. */
  lemma InitialArrangement()
    ensures IsArrangement(Initial)
    ensures forall i: nat :: i < 5 ==> PositionAt(Initial, i) == Initial[i]
    ensures forall i: nat :: i >= 5 ==> PositionAt(Initial, i) == 0
  {
    assert Initial[0] == -2 && Initial[1] == -1 && Initial[2] == 0;
    assert Initial[3] == 1 && Initial[4] == 2;
  }

  /** The offsets `ensureCarousel` gives `n` cards: -2..2 in order, then 0 past the fifth. */
  function InitialOffsets(n: nat): (r: seq<int>)
    ensures |r| == n && forall i :: 0 <= i < n ==> r[i] == PositionAt(Initial, i)
  {
    seq(n, i requires 0 <= i < n => PositionAt(Initial, i))
  }

  /** Five or more initial offsets start with the five slots and stay within them. */
  lemma InitialOffsetsArranged(n: nat)
    requires n >= 5
    ensures InitialOffsets(n)[..5] == Initial && IsArrangement(InitialOffsets(n)[..5])
    ensures forall i :: 0 <= i < n ==> -2 <= InitialOffsets(n)[i] <= 2
  {
    InitialArrangement();
    assert InitialOffsets(n)[..5] == Initial;
  }

  /** The cards a carousel holds before padding: its own, then the given card if it is new. */
  function Leading(base: seq<Card>, existing: Card?): seq<Card>
  {
    if existing != null && existing !in base then base + [existing] else base
  }

  /**
   * The first half of `ensureCarousel` on a present root: its carousel, created empty if
   * missing, with `existing` appended unless it is already among its cards.
   */
  method Gather(view: View, existing: Card?) returns (box: Box, cards: seq<Card>)
    requires view.carousel != null ==> Distinct(view.carousel.cards)
    modifies view, view.carousel
    ensures view.carousel == box && box.cards == cards && Distinct(cards)
    ensures old(view.carousel) != null ==> box == old(view.carousel)
    ensures old(view.carousel) == null ==> fresh(box)
    ensures cards == Leading(if old(view.carousel) == null then [] else old(view.carousel.cards), existing)
  {
    if view.carousel == null {
      box := new Box();
      view.carousel := box;
    } else {
      box := view.carousel;
    }
    cards := box.cards;
    if existing != null && existing !in cards {
      box.cards := box.cards + [existing];
      cards := cards + [existing];
    }
  }

  /** The padding loop of `ensureCarousel`: fresh blank cards until there are `slots`. */
  method Pad(box: Box, slots: int) returns (cards: seq<Card>)
    requires Distinct(box.cards)
    modifies box
    ensures box.cards == cards && Distinct(cards)
    ensures |cards| == (if |old(box.cards)| < slots then slots else |old(box.cards)|)
    ensures cards[..|old(box.cards)|] == old(box.cards)
    ensures forall i :: |old(box.cards)| <= i < |cards| ==> fresh(cards[i]) && cards[i].pos == []
  {
    cards := box.cards;
    while |cards| < slots
      invariant box.cards == cards && Distinct(cards)
      invariant |old(box.cards)| <= |cards| && cards[..|old(box.cards)|] == old(box.cards)
      invariant |cards| <= (if |old(box.cards)| < slots then slots else |old(box.cards)|)
      invariant forall i :: |old(box.cards)| <= i < |cards| ==> fresh(cards[i]) && cards[i].pos == []
      decreases slots - |cards|
    {
      var c := new Card.Blank();
      box.cards := box.cards + [c];
      cards := cards + [c];
    }
  }

  /**
   * `ensureCarousel`: without a root, no carousel and no cards. Otherwise the root's
   * carousel, created empty if missing; `existing` is appended unless it is already among
   * its cards; fresh cards pad the list to `slots`; and the initial positions are applied.
   */
  method EnsureCarousel(view: View?, existing: Card?, slots: int) returns (box: Box?, cards: seq<Card>)
    requires view != null && view.carousel != null ==> Distinct(view.carousel.cards)
    modifies view
    modifies if view != null && view.carousel != null then {view.carousel} else {}
    modifies if view != null && view.carousel != null then set c | c in view.carousel.cards else {}
    modifies existing
    ensures view == null ==> box == null && cards == []
    ensures view != null ==>
      box != null && view.carousel == box && box.cards == cards && Distinct(cards) &&
      (old(view.carousel) != null ==> box == old(view.carousel)) &&
      (old(view.carousel) == null ==> fresh(box))
    ensures view != null ==>
      var lead := Leading(if old(view.carousel) == null then [] else old(view.carousel.cards), existing);
      |cards| == (if |lead| < slots then slots else |lead|) &&
      cards[..|lead|] == lead &&
      (forall i :: 0 <= i < |lead| ==> cards[i].pos == Placed(old(cards[i].pos), PositionAt(Initial, i))) &&
      (forall i :: |lead| <= i < |cards| ==> fresh(cards[i]) && cards[i].pos == [PositionAt(Initial, i)]) &&
      (forall i :: 0 <= i < |cards| ==> cards[i].center == (PositionAt(Initial, i) == 0))
  {
    if view == null {
      return null, [];
    }
    box, cards := Collect(view, existing, slots);
    ApplyInitialPositions(cards, Initial);
  }

  /** `ensureCarousel` before the initial positions: `Gather`, then `Pad`. */
  method Collect(view: View, existing: Card?, slots: int) returns (box: Box, cards: seq<Card>)
    requires view.carousel != null ==> Distinct(view.carousel.cards)
    modifies view, view.carousel
    ensures view.carousel == box && box.cards == cards && Distinct(cards)
    ensures old(view.carousel) != null ==> box == old(view.carousel)
    ensures old(view.carousel) == null ==> fresh(box)
    ensures var lead := Leading(if old(view.carousel) == null then [] else old(view.carousel.cards), existing);
      |cards| == (if |lead| < slots then slots else |lead|) &&
      cards[..|lead|] == lead &&
      forall i :: |lead| <= i < |cards| ==> fresh(cards[i]) && cards[i].pos == []
  {
    var lead;
    box, lead := Gather(view, existing);
    cards := Pad(box, slots);
  }

  /** Cards placed at the initial slots from class lists holding only slot classes are arranged. */
  lemma PlacedArranged(cards: seq<Card>)
    requires Distinct(cards) && |cards| >= 5
    requires forall i :: 0 <= i < |cards| ==>
      cards[i].pos == [PositionAt(Initial, i)] &&
      cards[i].center == (PositionAt(Initial, i) == 0)
    ensures Arranged(cards, InitialOffsets(|cards|))
  {
    InitialOffsetsArranged(|cards|);
  }
}
