/**
 * The works gallery of src/entry/works-gallery.entry.js: category tabs over a five-card
 * depth carousel built with the carousel helpers. The module variables are the fields of
 * `Gallery`; clicks, the end of the data load and the 320 ms step timer are its methods.
 *
 * The carousel reuses a `.works-carousel` already in the page, with all its cards; the
 * page's cards are taken to carry no `pos-` class outside the five slots.
 */
module WorksGallery {
  import opened Wrappers
  import opened JsInt
  import opened Carousel
  import opened WorksLoader

  /** `SLOTS`. */
  const Slots: int := 5

  /** `currentLang`, which nothing changes. */
  const Lang: string := "ja"

  /** The list item a card at offset `off` shows: `(index + off + list.length) % list.length`. */
  function ItemIndex(index: int, off: int, len: int): int
    requires len > 0
  {
    JsRem(index + off + len, len)
  }

  /** Around any index the gallery holds, the five cards show valid items of the list. */
  lemma ItemIndexInRange(index: int, off: int, len: int)
    requires 0 <= index && -2 <= off <= 2 && 0 < len
    ensures 0 <= ItemIndex(index, off, len) < len
  {
    WrapInRange(index, off, len);
  }

  /**
   * The per-card loop of `render`: a card with a `pos-` class shows the item at its offset,
   * is `is-center` exactly at 0, is `aria-hidden` elsewhere, and loses any no-items message;
   * its image stays hidden if the fallback hid it.
   */
  method ShowItems(cards: seq<Card>, index: int, len: int)
    requires Distinct(cards) && len > 0
    modifies set c | c in cards
    ensures forall i :: 0 <= i < |cards| ==>
      cards[i].pos == old(cards[i].pos) && cards[i].imgHidden == old(cards[i].imgHidden)
    ensures forall i :: 0 <= i < |cards| ==>
      match FirstPos(cards[i].pos)
      case None =>
        cards[i].center == old(cards[i].center) && Face(cards[i]) == old(Face(cards[i]))
      case Some(off) =>
        cards[i].item == Some(ItemIndex(index, off, len)) && cards[i].center == (off == 0) &&
        cards[i].hidden == (off != 0) && !cards[i].message
  {
    for k := 0 to |cards|
      invariant forall i :: 0 <= i < |cards| ==>
        cards[i].pos == old(cards[i].pos) && cards[i].imgHidden == old(cards[i].imgHidden)
      invariant forall i :: 0 <= i < k ==>
        match FirstPos(cards[i].pos)
        case None =>
          cards[i].center == old(cards[i].center) && Face(cards[i]) == old(Face(cards[i]))
        case Some(off) =>
          cards[i].item == Some(ItemIndex(index, off, len)) && cards[i].center == (off == 0) &&
          cards[i].hidden == (off != 0) && !cards[i].message
      invariant forall i :: k <= i < |cards| ==>
        cards[i].center == old(cards[i].center) && Face(cards[i]) == old(Face(cards[i]))
    {
      ShowItem(cards[k], index, len);
    }
  }

  /** One card of the loop of `render`. */
  method ShowItem(card: Card, index: int, len: int)
    requires len > 0
    modifies card`item, card`center, card`hidden, card`message
    ensures match FirstPos(card.pos)
      case None => unchanged(card)
      case Some(off) =>
        card.item == Some(ItemIndex(index, off, len)) && card.center == (off == 0) &&
        card.hidden == (off != 0) && !card.message
  {
    match GetOffset(card) {
      case None =>
      case Some(off) =>
        card.item := Some(ItemIndex(index, off, len));
        card.center := off == 0;
        card.hidden := off != 0;
        card.message := false;
    }
  }

  /**
   * The fallback of `render`: the page's first `.works-image img` is hidden and its first
   * `.works-desc` gets the no-items message; both belong to `card`.
   */
  method ShowFallback(card: Card)
    modifies card`imgHidden, card`message
    ensures card.imgHidden && card.message
  {
    card.imgHidden := true;
    card.message := true;
  }

  /** Cards that had slot classes only keep the one `pos-` class `applyInitialPositions` gives. */
  twostate lemma SlotClassesOnly(lead: seq<Card>, new cs: seq<Card>)
    requires forall c :: c in lead ==> old(InRange(c.pos))
    requires |lead| <= |cs| && cs[..|lead|] == lead
    requires forall i :: 0 <= i < |lead| ==> cs[i].pos == Placed(old(cs[i].pos), PositionAt(Initial, i))
    requires forall i :: |lead| <= i < |cs| ==> cs[i].pos == [PositionAt(Initial, i)]
    ensures forall i :: 0 <= i < |cs| ==> cs[i].pos == [PositionAt(Initial, i)]
  {
    forall i | 0 <= i < |cs|
      ensures cs[i].pos == [PositionAt(Initial, i)]
    {
      if i < |lead| {
        assert cs[i] == lead[i] && lead[i] in lead;
        ghost var was := old(lead[i].pos);
        assert InRange(was);
        assert cs[i].pos == Placed(was, PositionAt(Initial, i));
      }
    }
  }

  /**
   * `ensureCarousel(worksView, right, currentCard, SLOTS, buildCard)` on a present root whose
   * cards carry only slot classes: the cards come out at -2..2 and then 0, each with that
   * one `pos-` class.
   */
  method BuildCarousel(view: View, markup: Card?) returns (box: Box, cards: seq<Card>)
    requires markup != null ==> InRange(markup.pos)
    requires view.carousel != null ==>
      Distinct(view.carousel.cards) && forall c :: c in view.carousel.cards ==> InRange(c.pos)
    modifies view, if view.carousel != null then {view.carousel} else {}
    modifies if view.carousel != null then set c | c in view.carousel.cards else {}
    modifies markup
    ensures view.carousel == box && old(view.carousel) != null ==> box == old(view.carousel)
    ensures view.carousel == box && |cards| >= Slots && Distinct(cards)
    ensures forall i :: 0 <= i < |cards| ==>
      cards[i].pos == [PositionAt(Initial, i)] && cards[i].center == (PositionAt(Initial, i) == 0)
    ensures forall c :: c in cards ==>
      (old(view.carousel) != null && c in old(view.carousel.cards)) || c == markup || fresh(c)
  {
    ghost var base := if view.carousel == null then [] else view.carousel.cards;
    ghost var lead := Leading(base, markup);
    assert forall c :: c in lead ==> InRange(c.pos) && (c in base || c == markup);
    label Before:
    box, cards := EnsureCarousel(view, markup, Slots);
    SlotClassesOnly@Before(lead, cards);
    assert forall c :: c in cards ==> c in lead || fresh(c) by {
      assert cards == lead + cards[|lead|..];
      assert forall c :: c in cards[|lead|..] ==> fresh(c);
    }
  }

  class Gallery {
    /** `worksView`. */
    const view: View?
    /** The page's first `.works-content`, which joins the carousel's cards. */
    const markup: Card?
    const loader: Loader
    /** `currentCategory`. */
    var category: string
    var index: int
    /** `carousel`. */
    var box: Box?
    var cards: seq<Card>
    /** The offset of each card. */
    ghost var offs: seq<int>
    var animating: bool
    /** The running `changeIndex`: its direction, `steps`, `done` and the list length it captured. */
    var dir: int
    var steps: nat
    var done: nat
    var listLen: nat
    /** Whether a step timer is pending. */
    var timerPending: bool

    /** The page's own `.works-carousel` and its cards, which `setupCarousel` takes over. */
    ghost function Page(): set<object>
      reads view
      reads if view != null && view.carousel != null then {view.carousel} else {}
    {
      if view == null || view.carousel == null then {}
      else {view.carousel as object} + set c: Card | c in view.carousel.cards :: c as object
    }

    /**
     * The page before the carousel is built: its cards carry no `pos-` class outside the five
     * slots, and its `.works-carousel` lists each card once.
     */
    ghost predicate PageInSlots()
      reads view, markup, Page()
    {
      (markup != null ==> InRange(markup.pos)) &&
      (view != null && view.carousel != null ==>
        Distinct(view.carousel.cards) && forall c :: c in view.carousel.cards ==> InRange(c.pos))
    }

    /** The index, the carousel and the cards, apart from the animation lock. */
    ghost predicate Layout()
      reads this`index, this`box, this`cards, this`offs, view, markup, (set c | c in cards), Page()
    {
      0 <= index &&
      (box == null ==> cards == [] && PageInSlots()) &&
      (box != null ==> view != null && Arranged(cards, offs))
    }

    /** The lock is held exactly while a step timer is pending, for at most `|delta|` steps. */
    ghost predicate Valid()
      reads this, view, markup, (set c | c in cards), Page()
    {
      Layout() &&
      (timerPending <==> animating) &&
      (animating ==> 0 < listLen && (dir == 1 || dir == -1) && done < (if steps == 0 then 1 else steps))
    }

    /** The list `getCurrentList` gives now. */
    function CurrentList(): seq<Work>
      reads this, loader
    {
      GetList(loader.data, Lang, category)
    }

    /**
     * The card holding the page's first `.works-image img` and `.works-desc`: the carousel's
     * first card, or the page's card while there is no carousel.
     */
    function FallbackCard(): Card?
      reads this
    {
      if cards != [] then cards[0] else markup
    }

    /**
     * What `render` leaves on the page: without a carousel or with an empty list, the fallback
     * card hides its image and shows the message; otherwise every card shows the list item at
     * `index` plus its offset, which is an element of the list, with `aria-hidden` off centre.
     */
    ghost predicate Drawn()
      reads this, loader, markup, set c | c in cards
    {
      (box == null || CurrentList() == [] ==>
        FallbackCard() != null ==> FallbackCard().imgHidden && FallbackCard().message) &&
      (box != null && CurrentList() != [] && |offs| == |cards| ==>
        forall i :: 0 <= i < |cards| ==>
          cards[i].item == Some(ItemIndex(index, offs[i], |CurrentList()|)) &&
          0 <= cards[i].item.value < |CurrentList()| &&
          cards[i].hidden == (offs[i] != 0) && !cards[i].message)
    }

    constructor (view: View?, markup: Card?, loader: Loader)
      requires markup != null ==> InRange(markup.pos)
      requires view != null && view.carousel != null ==>
        Distinct(view.carousel.cards) && forall c :: c in view.carousel.cards ==> InRange(c.pos)
      ensures Valid()
      ensures this.view == view && this.markup == markup && this.loader == loader
      ensures category == "game" && index == 0 && box == null && !animating
    {
      this.view, this.markup, this.loader := view, markup, loader;
      category, index, box, cards := "game", 0, null, [];
      offs := [];
      animating, timerPending := false, false;
      dir, steps, done, listLen := 1, 0, 0, 0;
    }

    /**
     * `setupCarousel`: once, when the root exists, the carousel is built, reusing the page's
     * `.works-carousel` and its cards, adding the page's card and blank ones up to five; the
     * first five sit at -2..2 and any further card at 0.
     */
    method SetupCarousel()
      requires Valid()
      modifies this`box, this`cards, this`offs, view, markup, Page()
      ensures Valid()
      ensures old(box) != null || view == null ==>
        box == old(box) && cards == old(cards) && offs == old(offs) &&
        unchanged(if markup == null then {} else {markup}) && unchanged(set c | c in cards)
      ensures old(box) == null && view != null ==>
        box != null && view.carousel == box && |cards| >= Slots && offs == InitialOffsets(|cards|) &&
        (old(view.carousel) != null ==> box == old(view.carousel))
      ensures forall c :: c in cards ==> c in old(cards) || c in old(Page()) || c == markup || fresh(c)
    {
      if view == null || box != null {
        return;
      }
      ghost var page := Page();
      var b, cs := BuildCarousel(view, markup);
      PlacedArranged(cs);
      box, cards, offs := b, cs, InitialOffsets(|cs|);
      forall c | c in cards
        ensures c in page || c == markup || fresh(c)
      {
      }
    }

    /**
     * `render`: builds the carousel when it can, then draws: the fallback, or every card's
     * item. A card whose image the fallback hid keeps it hidden.
     */
    method Render()
      requires Valid()
      modifies this`box, this`cards, this`offs, view, markup, (set c | c in cards), Page()
      ensures Valid() && Drawn()
      ensures old(box) != null ==> box == old(box) && cards == old(cards) && offs == old(offs)
      ensures forall c :: c in cards ==> c in old(cards) || c in old(Page()) || c == markup || fresh(c)
      ensures old(box) != null ==>
        forall i :: 0 <= i < |cards| ==>
          cards[i].imgHidden == (old(cards[i].imgHidden) || (i == 0 && CurrentList() == []))
    {
      SetupCarousel();
      Draw();
    }

    /** The drawing half of `render`, on the carousel as `setupCarousel` left it. */
    method Draw()
      requires Valid()
      modifies markup, set c | c in cards
      ensures Valid() && Drawn()
      ensures forall i :: 0 <= i < |cards| ==>
        cards[i].imgHidden == (old(cards[i].imgHidden) || (i == 0 && CurrentList() == []))
    {
      var list := GetList(loader.data, Lang, category);
      if box == null || |list| == 0 {
        var target := FallbackCard();
        if target != null {
          ShowFallback(target);
        }
        return;
      }
      ShowItems(cards, index, |list|);
      forall i | 0 <= i < |cards|
        ensures 0 <= ItemIndex(index, offs[i], |list|) < |list|
      {
        ItemIndexInRange(index, offs[i], |list|);
      }
    }

    /** A tab click: the category changes, the index returns to 0, and the page is drawn again. */
    method OnTab(c: string)
      requires Valid()
      modifies this`category, this`index, this`box, this`cards, this`offs, view, markup
      modifies (set c | c in cards), Page()
      ensures Valid() && Drawn()
      ensures category == c && index == 0
    {
      category := c;
      index := 0;
      Render();
    }

    /** The start-up task: `await loadWorks()`, then `render`. */
    method OnLoaded(fetched: Fetched)
      requires Valid()
      modifies this`box, this`cards, this`offs, view, markup, loader, (set c | c in cards), Page()
      ensures Valid() && Drawn()
      ensures old(loader.data).None? ==> loader.data == Outcome(fetched)
      ensures old(loader.data).Some? ==> loader.data == old(loader.data)
    {
      var _ := loader.LoadWorks(fetched);
      Render();
    }

    /** `stepOnce`: rotate the cards one slot and start the step timer. */
    method StepOnce()
      requires Layout() && animating && !timerPending
      requires 0 < listLen && (dir == 1 || dir == -1) && done < (if steps == 0 then 1 else steps)
      modifies this`offs, this`timerPending, set c | c in cards
      ensures Valid() && timerPending
      ensures box != null ==> offs == RotatedOffsets(old(offs), dir) && OneCenter(offs[..Slots])
      ensures forall i :: 0 <= i < |cards| ==> Face(cards[i]) == old(Face(cards[i]))
    {
      Rotate();
      timerPending := true;
    }

    /**
     * The rotation of `stepOnce`, `rotateClassesUtil(cards, dir)`: its step `Math.sign(dir) || 1`
     * is `dir` itself here.
     */
    method Rotate()
      requires Layout() && (dir == 1 || dir == -1)
      modifies this`offs, set c | c in cards
      ensures Layout()
      ensures box != null ==> offs == RotatedOffsets(old(offs), dir) && OneCenter(offs[..Slots])
      ensures forall i :: 0 <= i < |cards| ==> Face(cards[i]) == old(Face(cards[i]))
    {
      assert SignOr1(dir) == dir;
      if box != null {
        ghost var before := offs;
        offs := RotatedOffsets(offs, dir);
        RotateArrangement(cards, before, dir);
      } else {
        RotateClasses(cards, dir);
      }
    }

    /**
     * `changeIndex(delta)`: ignored while animating or when the list is empty; otherwise
     * locks, takes direction `Math.sign(delta) || 1` for `|delta|` steps (at least one) and
     * makes the first.
     */
    method ChangeIndex(delta: int)
      requires Valid()
      modifies this`dir, this`animating, this`steps, this`done, this`listLen, this`offs
      modifies this`timerPending, set c | c in cards
      ensures Valid()
      ensures index == old(index) && category == old(category)
      ensures old(animating) || CurrentList() == [] ==>
        animating == old(animating) && offs == old(offs) && dir == old(dir) && steps == old(steps) &&
        done == old(done) && listLen == old(listLen)
      ensures !old(animating) && CurrentList() != [] ==>
        animating && dir == SignOr1(delta) && steps == (if delta < 0 then -delta else delta) &&
        done == 0 && listLen == |CurrentList()| &&
        (box != null ==> offs == RotatedOffsets(old(offs), dir))
    {
      var list := GetList(loader.data, Lang, category);
      if |list| == 0 || animating {
        return;
      }
      Lock(delta, |list|);
    }

    /** The second half of `changeIndex`: the lock is taken and the first step made. */
    method Lock(delta: int, len: nat)
      requires Valid() && !animating && len > 0
      modifies this`dir, this`animating, this`steps, this`done, this`listLen, this`offs
      modifies this`timerPending, set c | c in cards
      ensures Valid()
      ensures animating && dir == SignOr1(delta) && steps == (if delta < 0 then -delta else delta)
      ensures done == 0 && listLen == len
      ensures box != null ==> offs == RotatedOffsets(old(offs), dir)
    {
      dir := SignOr1(delta);
      animating := true;
      steps := if delta < 0 then -delta else delta;
      done := 0;
      listLen := len;
      StepOnce();
    }

    /**
     * The step timer: the index moves one place in the captured list, wrapping; the page is
     * drawn again; then either the next step starts or, after the last, the lock is released
     * with the page drawn for the final index.
     */
    method OnStepTimer()
      requires Valid() && timerPending
      modifies this`index, this`box, this`cards, this`offs, this`done, this`animating
      modifies this`timerPending, view, markup, (set c | c in cards), Page()
      ensures Valid()
      ensures index == JsRem(old(index) + old(dir) + old(listLen), old(listLen))
      ensures 0 <= index < old(listLen)
      ensures done == old(done) + 1 && steps == old(steps) && dir == old(dir)
      ensures animating <==> done < steps
      ensures old(box) != null && animating ==> offs == RotatedOffsets(old(offs), dir)
      ensures !animating ==> Drawn()
    {
      index := JsRem(index + dir + listLen, listLen);
      WrapInRange(old(index), dir, listLen);
      Render();
      NextStep();
    }

    /** The end of the step timer: `done++`, then the next step or the end of the lock. */
    method NextStep()
      requires Valid() && timerPending
      modifies this`done, this`animating, this`timerPending, this`offs, set c | c in cards
      ensures Valid()
      ensures done == old(done) + 1
      ensures animating <==> done < steps
      ensures box != null && animating ==> offs == RotatedOffsets(old(offs), dir)
      ensures !animating && old(Drawn()) ==> Drawn()
    {
      done := done + 1;
      if done < steps {
        timerPending := false;
        StepOnce();
      } else {
        animating := false;
        timerPending := false;
      }
    }
  }
}
