/**
 * The standalone works page script works.js: category tabs and left/right arrows over a
 * built-in table of works, one work shown at a time. The module variables are the fields of
 * `Page`; the clicks are its methods.
 */
module WorksPage {
  import opened JsInt
  import opened WorksLoader

  /** The placeholder description line shared by all entries. */
  const NoDescription: string := "説明はまだないんだワ"

  /** `WORKS`. */
  const Works: map<string, seq<Work>> := map[
    "game" := [
      Work("img/AlienChan.png", "AlienChan", ["作品1", NoDescription]),
      Work("img/me.jpg", "me", ["作品2", NoDescription])
    ],
    "tool" := [Work("img/logo.png", "ロゴ", ["作品1", NoDescription])],
    "other" := [Work("img/AlienChan.png", "AlienChan", ["作品1", NoDescription])]
  ]

  /** `WORKS[cat] || []`: an unknown category has no works. */
  function ListFor(category: string): seq<Work>
  {
    if category in Works then Works[category] else []
  }

  /** What the page shows: the "no works" message with the image hidden, or one work. */
  datatype Display = NoWorks | Showing(work: Work)

  /** The right arrow's step: `(index + 1) % len`. */
  function Succ(index: int, len: int): int
    requires 0 < len && 0 <= index
  {
    JsRem(index + 1, len)
  }

  /** The left arrow's step: `(index - 1 + len) % len`. */
  function Pred(index: int, len: int): int
    requires 0 < len && 0 <= index
  {
    JsRem(index - 1 + len, len)
  }

  /** Both arrows keep an index in range, and each undoes the other. */
  lemma {:induction false} ArrowsInverse(index: int, len: int)
    requires 0 <= index < len
    ensures 0 <= Succ(index, len) < len && 0 <= Pred(index, len) < len
    ensures Succ(index, len) == (if index == len - 1 then 0 else index + 1)
    ensures Pred(index, len) == (if index == 0 then len - 1 else index - 1)
    ensures Pred(Succ(index, len), len) == index && Succ(Pred(index, len), len) == index
  {
    SmallRem(index + 1, len);
    SmallRem(index - 1 + len, len);
    var s := Succ(index, len);
    var p := Pred(index, len);
    SmallRem(s - 1 + len, len);
    SmallRem(p + 1, len);
  }

  /** The index after `n` presses of the right arrow. */
  function Rights(index: int, len: int, n: nat): (r: int)
    requires 0 <= index < len
    ensures 0 <= r < len
  {
    if n == 0 then index
    else
      var r := Rights(index, len, n - 1);
      ArrowsInverse(r, len);
      Succ(r, len)
  }

  /** Up to `len` presses of the right arrow advance the index by that much, wrapping once. */
  lemma {:induction false} RightsAdvance(index: int, len: int, n: nat)
    requires 0 <= index < len && n <= len
    ensures Rights(index, len, n) == if index + n < len then index + n else index + n - len
  {
    if n > 0 {
      RightsAdvance(index, len, n - 1);
      ArrowsInverse(Rights(index, len, n - 1), len);
    }
  }

  /** Pressing the right arrow `len` times returns to the starting work. */
  lemma RightsCycle(index: int, len: int)
    requires 0 <= index < len
    ensures Rights(index, len, len) == index
  {
    RightsAdvance(index, len, len);
  }

  /** `render`'s `(index + len) % len` leaves an index in range as it is. */
  lemma NormaliseInRange(index: int, len: int)
    requires 0 <= index < len
    ensures JsRem(index + len, len) == index
  {
    SmallRem(index + len, len);
  }

  class Page {
    /** `currentCategory`. */
    var category: string
    var index: int
    var display: Display

    /** The index is 0 for an empty category, and within the category's list otherwise. */
    ghost predicate Valid()
      reads this
    {
      (ListFor(category) == [] ==> index == 0 && display == NoWorks) &&
      (ListFor(category) != [] ==>
        0 <= index < |ListFor(category)| && display == Showing(ListFor(category)[index]))
    }

    /** The script's start: the `game` tab at its first work, drawn once. */
    constructor ()
      ensures Valid() && category == "game" && index == 0
      ensures display == Showing(Works["game"][0])
    {
      category, index, display := "game", 0, NoWorks;
      new;
      Render();
    }

    /**
     * `render`: an empty list shows the message; otherwise the index is brought into range
     * with `(index + len) % len` and that work is shown.
     */
    method Render()
      requires 0 <= index && (ListFor(category) == [] ==> index == 0)
      modifies this
      ensures Valid() && category == old(category)
      ensures ListFor(category) == [] ==> index == old(index) && display == NoWorks
      ensures ListFor(category) != [] ==>
        index == JsRem(old(index) + |ListFor(category)|, |ListFor(category)|) &&
        display == Showing(ListFor(category)[index])
    {
      var list := ListFor(category);
      if |list| == 0 {
        display := NoWorks;
        return;
      }
      index := JsRem(index + |list|, |list|);
      display := Showing(list[index]);
    }

    /** A tab click: switch category, go back to the first work, draw. */
    method OnTab(c: string)
      modifies this
      ensures Valid() && category == c && index == 0
    {
      category := c;
      index := 0;
      Render();
    }

    /** The left arrow: nothing for an empty list, else the previous work, wrapping. */
    method OnLeft()
      requires Valid()
      modifies this
      ensures Valid() && category == old(category)
      ensures ListFor(category) == [] ==> index == old(index) && display == old(display)
      ensures ListFor(category) != [] ==> index == Pred(old(index), |ListFor(category)|)
    {
      var list := ListFor(category);
      if |list| == 0 {
        return;
      }
      ArrowsInverse(index, |list|);
      index := JsRem(index - 1 + |list|, |list|);
      NormaliseInRange(index, |list|);
      Render();
    }

    /** The right arrow: nothing for an empty list, else the next work, wrapping. */
    method OnRight()
      requires Valid()
      modifies this
      ensures Valid() && category == old(category)
      ensures ListFor(category) == [] ==> index == old(index) && display == old(display)
      ensures ListFor(category) != [] ==> index == Succ(old(index), |ListFor(category)|)
    {
      var list := ListFor(category);
      if |list| == 0 {
        return;
      }
      ArrowsInverse(index, |list|);
      index := JsRem(index + 1, |list|);
      NormaliseInRange(index, |list|);
      Render();
    }
  }
}
