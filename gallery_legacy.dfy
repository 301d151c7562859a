/**
 * The older works gallery of src/entry/works-gallery.js: the same tabs and carousel as
 * src/entry/works-gallery.entry.js, with its own `ensureCarousel`, which always builds a
 * new carousel from the page's card and blank ones, and its own `getOffset` (the same as
 * the helper's) and `rotateClasses`, which subtracts `dir` itself. `changeIndex` only ever
 * passes a `dir` of 1 or -1.
 *
 * `ensureCarousel` inserts the new carousel before `.arrow-right`. When that arrow exists
 * but is not a direct child of `.works-view` (outside it, or nested deeper inside it),
 * `insertBefore` throws: `carousel` is already set and no card was
 * collected, so the throw ends the `render` that called it, and every later `render` finds
 * a carousel without cards.
 */
module WorksGalleryLegacy {
  import opened Wrappers
  import opened JsInt
  import opened Carousel
  import opened WorksLoader
  import opened WorksGallery

  class LegacyGallery {
    /** `worksView`. */
    const view: View?
    /** The page's first `.works-content`, which becomes the carousel's first card. */
    const markup: Card?
    /** Whether `insertBefore(carousel, right)` succeeds: no `.arrow-right`, or one that is a direct child of the root. */
    const rightOk: bool
    const loader: Loader
    /** `currentCategory`. */
    var category: string
    var index: int
    /** `carousel`. */
    var box: Box?
    var cards: seq<Card>
    /** The offset of each card. */
    ghost var offs: seq<int>
    var animating: bool
    /** The running `changeIndex`: its direction, `steps`, `done` and the list length it captured. */
    var dir: int
    var steps: nat
    var done: nat
    var listLen: nat
    /** Whether a step timer is pending. */
    var timerPending: bool

    /**
     * The index, the carousel and the cards, apart from the animation lock. Before the
     * carousel, the page's card carries no `pos-` class outside the five slots; a carousel
     * whose insertion threw has no cards.
     */
    ghost predicate Layout()
      reads this`index, this`box, this`cards, this`offs, view, markup, (set c | c in cards)
    {
      0 <= index &&
      (box == null ==> cards == [] && (markup != null ==> InRange(markup.pos))) &&
      (box != null && !rightOk ==> cards == []) &&
      (box != null && rightOk ==> view != null && |cards| == Slots && Arranged(cards, offs))
    }

    /**
     * A pending step timer holds the lock, for at most `|delta|` steps; the lock is held
     * without a timer only after a `render` of a step threw.
     */
    ghost predicate Valid()
      reads this, view, markup, (set c | c in cards)
    {
      Layout() &&
      (timerPending ==> animating) &&
      (animating && !timerPending ==> box != null && !rightOk) &&
      (animating ==> 0 < listLen && (dir == 1 || dir == -1) && done < (if steps == 0 then 1 else steps))
    }

    /** The list `getCurrentList` gives now. */
    function CurrentList(): seq<Work>
      reads this, loader
    {
      GetList(loader.data, Lang, category)
    }

    /**
     * The card holding the page's first `.works-image img` and `.works-desc`: the carousel's
     * first card, or the page's card while the carousel has none.
     */
    function FallbackCard(): Card?
      reads this
    {
      if cards != [] then cards[0] else markup
    }

    /**
     * What a `render` that ran to its end leaves on the page: without a carousel or with an
     * empty list, the fallback card hides its image and shows the message; otherwise every
     * card shows the list item at `index` plus its offset, an element of the list, with
     * `aria-hidden` off centre.
     */
    ghost predicate Drawn()
      reads this, loader, markup, set c | c in cards
    {
      (box == null || CurrentList() == [] ==>
        FallbackCard() != null ==> FallbackCard().imgHidden && FallbackCard().message) &&
      (box != null && CurrentList() != [] && |offs| == |cards| ==>
        forall i :: 0 <= i < |cards| ==>
          cards[i].item == Some(ItemIndex(index, offs[i], |CurrentList()|)) &&
          0 <= cards[i].item.value < |CurrentList()| &&
          cards[i].hidden == (offs[i] != 0) && !cards[i].message)
    }

    /** Whether `ensureCarousel` throws now: it builds the carousel and `insertBefore` fails. */
    predicate Throws()
      reads this
    {
      box == null && view != null && !rightOk
    }

    constructor (view: View?, markup: Card?, rightOk: bool, loader: Loader)
      requires markup != null ==> InRange(markup.pos)
      ensures Valid()
      ensures this.view == view && this.markup == markup && this.rightOk == rightOk
      ensures this.loader == loader
      ensures category == "game" && index == 0 && box == null && !animating
    {
      this.view, this.markup, this.rightOk, this.loader := view, markup, rightOk, loader;
      category, index, box, cards := "game", 0, null, [];
      offs := [];
      animating, timerPending := false, false;
      dir, steps, done, listLen := 1, 0, 0, 0;
    }

    /**
     * `ensureCarousel`: once, when the root exists, a new carousel; if inserting it throws,
     * it stays without cards, and otherwise it holds the page's card (if any) padded with
     * blank cards to five, at -2..2 in order. `ok` is false when it throws.
     */
    method EnsureCarousel() returns (ok: bool)
      requires Valid()
      modifies this`box, this`cards, this`offs, view, markup
      ensures Valid()
      ensures ok <==> !old(Throws())
      ensures old(box) != null || view == null ==>
        box == old(box) && cards == old(cards) && offs == old(offs) &&
        unchanged(if markup == null then {} else {markup}) && unchanged(set c | c in cards)
      ensures old(Throws()) ==>
        fresh(box) && cards == [] && unchanged(view) && unchanged(if markup == null then {} else {markup})
      ensures old(box) == null && view != null && rightOk ==>
        fresh(box) && view.carousel == box && box.cards == cards && offs == Initial &&
        cards[..(if markup == null then 0 else 1)] == (if markup == null then [] else [markup])
      ensures forall c :: c in cards ==> c in old(cards) || c == markup || fresh(c)
    {
      if view == null || box != null {
        return true;
      }
      // `carousel = document.createElement('div')` comes before the insertion
      var b := new Box();
      box := b;
      if !rightOk {
        return false;
      }
      var cs := Build(view, b, markup);
      PlacedArranged(cs);
      InitialOffsetsArranged(|cs|);
      cards, offs := cs, InitialOffsets(|cs|);
      assert offs == offs[..Slots];
      return true;
    }

    /**
     * `render`: a throw from `ensureCarousel` ends it with nothing drawn (`ok` false); otherwise
     * it draws. A card whose image the fallback hid keeps it hidden.
     */
    method Render() returns (ok: bool)
      requires Valid()
      modifies this`box, this`cards, this`offs, view, markup, (set c | c in cards)
      ensures Valid()
      ensures ok <==> !old(Throws())
      ensures ok ==> Drawn()
      ensures !ok ==> box != null && cards == []
      ensures old(box) != null ==> box == old(box) && cards == old(cards) && offs == old(offs)
      ensures forall c :: c in cards ==> c in old(cards) || c == markup || fresh(c)
      ensures old(box) != null ==>
        forall i :: 0 <= i < |cards| ==>
          cards[i].imgHidden == (old(cards[i].imgHidden) || (i == 0 && CurrentList() == []))
    {
      ok := EnsureCarousel();
      if !ok {
        return;
      }
      Draw();
    }

    /** The drawing half of `render`, on the carousel as `ensureCarousel` left it. */
    method Draw()
      requires Valid()
      modifies markup, set c | c in cards
      ensures Valid() && Drawn()
      ensures forall i :: 0 <= i < |cards| ==>
        cards[i].imgHidden == (old(cards[i].imgHidden) || (i == 0 && CurrentList() == []))
    {
      var list := GetList(loader.data, Lang, category);
      if box == null || |list| == 0 {
        var target := FallbackCard();
        if target != null {
          ShowFallback(target);
        }
        return;
      }
      ShowItems(cards, index, |list|);
      forall i | 0 <= i < |cards|
        ensures 0 <= ItemIndex(index, offs[i], |list|) < |list|
      {
        ItemIndexInRange(index, offs[i], |list|);
      }
    }

    /**
     * A tab click: the category changes, the index returns to 0, and the page is drawn
     * again, unless that `render` throws.
     */
    method OnTab(c: string)
      requires Valid()
      modifies this`category, this`index, this`box, this`cards, this`offs, view, markup
      modifies (set c | c in cards)
      ensures Valid()
      ensures category == c && index == 0
      ensures !old(Throws()) ==> Drawn()
      ensures old(Throws()) ==> box != null && cards == []
    {
      category := c;
      index := 0;
      var _ := Render();
    }

    /** The start-up task: `await loadWorks()`, then `render`, unless it throws. */
    method OnLoaded(fetched: Fetched)
      requires Valid()
      modifies this`box, this`cards, this`offs, view, markup, loader, (set c | c in cards)
      ensures Valid()
      ensures old(loader.data).None? ==> loader.data == Outcome(fetched)
      ensures old(loader.data).Some? ==> loader.data == old(loader.data)
      ensures !old(Throws()) ==> Drawn()
      ensures old(Throws()) ==> box != null && cards == []
    {
      var _ := loader.LoadWorks(fetched);
      var _ := Render();
    }

    /** `stepOnce`: the local `rotateClasses(dir)`, then the step timer. */
    method StepOnce()
      requires Layout() && animating && !timerPending
      requires 0 < listLen && (dir == 1 || dir == -1) && done < (if steps == 0 then 1 else steps)
      modifies this`offs, this`timerPending, set c | c in cards
      ensures Valid() && timerPending
      ensures box != null && rightOk ==> offs == RotatedOffsets(old(offs), dir) && OneCenter(offs[..Slots])
      ensures forall i :: 0 <= i < |cards| ==> Face(cards[i]) == old(Face(cards[i]))
    {
      Rotate();
      timerPending := true;
    }

    /** The rotation of `stepOnce`: `rotateClasses(dir)` subtracts `dir`, which is 1 or -1. */
    method Rotate()
      requires Layout() && (dir == 1 || dir == -1)
      modifies this`offs, set c | c in cards
      ensures Layout()
      ensures box != null && rightOk ==> offs == RotatedOffsets(old(offs), dir) && OneCenter(offs[..Slots])
      ensures forall i :: 0 <= i < |cards| ==> Face(cards[i]) == old(Face(cards[i]))
    {
      if box != null && rightOk {
        ghost var before := offs;
        offs := RotatedOffsets(offs, dir);
        RotateArrangement(cards, before, dir);
      } else {
        RotateBy(cards, dir);
      }
    }

    /**
     * `changeIndex(delta)`: ignored while animating or when the list is empty; otherwise
     * locks, takes direction `Math.sign(delta) || 1` for `|delta|` steps (at least one) and
     * makes the first.
     */
    method ChangeIndex(delta: int)
      requires Valid()
      modifies this`dir, this`animating, this`steps, this`done, this`listLen, this`offs
      modifies this`timerPending, set c | c in cards
      ensures Valid()
      ensures index == old(index) && category == old(category)
      ensures old(animating) || CurrentList() == [] ==>
        animating == old(animating) && offs == old(offs) && dir == old(dir) && steps == old(steps) &&
        done == old(done) && listLen == old(listLen)
      ensures !old(animating) && CurrentList() != [] ==>
        animating && dir == SignOr1(delta) && steps == (if delta < 0 then -delta else delta) &&
        done == 0 && listLen == |CurrentList()| &&
        (box != null && rightOk ==> offs == RotatedOffsets(old(offs), dir))
    {
      var list := GetList(loader.data, Lang, category);
      if |list| == 0 || animating {
        return;
      }
      Lock(delta, |list|);
    }

    /** The second half of `changeIndex`: the lock is taken and the first step made. */
    method Lock(delta: int, len: nat)
      requires Valid() && !animating && len > 0
      modifies this`dir, this`animating, this`steps, this`done, this`listLen, this`offs
      modifies this`timerPending, set c | c in cards
      ensures Valid()
      ensures animating && dir == SignOr1(delta) && steps == (if delta < 0 then -delta else delta)
      ensures done == 0 && listLen == len
      ensures box != null && rightOk ==> offs == RotatedOffsets(old(offs), dir)
    {
      dir := SignOr1(delta);
      animating := true;
      steps := if delta < 0 then -delta else delta;
      done := 0;
      listLen := len;
      StepOnce();
    }

    /**
     * The step timer: the index moves one place in the captured list, wrapping; the page is
     * drawn again; then either the next step starts or, after the last, the lock is released
     * with the page drawn for the final index. A throw from `render` skips the rest, and the
     * lock is never released.
     */
    method OnStepTimer()
      requires Valid() && timerPending
      modifies this`index, this`box, this`cards, this`offs, this`done, this`animating
      modifies this`timerPending, view, markup, (set c | c in cards)
      ensures Valid()
      ensures index == JsRem(old(index) + old(dir) + old(listLen), old(listLen))
      ensures 0 <= index < old(listLen)
      ensures steps == old(steps) && dir == old(dir)
      ensures old(Throws()) ==> animating && !timerPending && done == old(done) && cards == []
      ensures !old(Throws()) ==>
        done == old(done) + 1 && (animating <==> done < steps) &&
        (old(box) != null && rightOk && animating ==> offs == RotatedOffsets(old(offs), dir)) &&
        (!animating ==> Drawn())
    {
      index := JsRem(index + dir + listLen, listLen);
      WrapInRange(old(index), dir, listLen);
      var ok := Render();
      if !ok {
        // the throw leaves the callback: no `done++`, no next step, the lock stays
        timerPending := false;
        return;
      }
      NextStep();
    }

    /** The end of the step timer: `done++`, then the next step or the end of the lock. */
    method NextStep()
      requires Valid() && timerPending
      modifies this`done, this`animating, this`timerPending, this`offs, set c | c in cards
      ensures Valid()
      ensures done == old(done) + 1
      ensures animating <==> done < steps
      ensures box != null && rightOk && animating ==> offs == RotatedOffsets(old(offs), dir)
      ensures !animating && old(Drawn()) ==> Drawn()
    {
      done := done + 1;
      if done < steps {
        timerPending := false;
        StepOnce();
      } else {
        animating := false;
        timerPending := false;
      }
    }
  }

  /**
   * The building half of `ensureCarousel`, once the carousel is in the root: the page's card
   * (if any) and blank cards up to five, at -2..2 in order, each with that one `pos-` class.
   */
  method Build(view: View, box: Box, markup: Card?) returns (cards: seq<Card>)
    requires box.cards == [] && (markup != null ==> InRange(markup.pos))
    modifies view, box, markup
    ensures view.carousel == box && box.cards == cards
    ensures |cards| == Slots && Distinct(cards)
    ensures cards[..(if markup == null then 0 else 1)] == (if markup == null then [] else [markup])
    ensures forall c :: c in cards ==> c == markup || fresh(c)
    ensures forall i :: 0 <= i < |cards| ==>
      cards[i].pos == [PositionAt(Initial, i)] && cards[i].center == (PositionAt(Initial, i) == 0)
  {
    view.carousel := box;
    if markup != null {
      box.cards := [markup];
    }
    ghost var lead := box.cards;
    cards := Pad(box, Slots);
    assert forall c :: c in cards ==> c == markup || fresh(c) by {
      assert cards == lead + cards[|lead|..];
      assert forall c :: c in cards[|lead|..] ==> fresh(c);
    }
    label Padded:
    // `initial[i]` for the five cards
    ApplyInitialPositions(cards, Initial);
    forall i | 0 <= i < |cards|
      ensures cards[i].pos == [PositionAt(Initial, i)]
    {
      if i < |lead| {
        assert cards[i] == markup;
        assert InRange(old@Padded(cards[i].pos));
      } else {
        assert old@Padded(cards[i].pos) == [];
      }
    }
  }
}
