/**
 * Matching a fixed pattern of keys against the keys typed so far: which prefixes of the
 * pattern the history ends with, and the Knuth-Morris-Pratt step that keeps the longest one.
 */
module PatternMatch {

  /** The history `w` ends with the first `k` keys of `pat`. */
  predicate EndsWith(pat: seq<string>, w: seq<string>, k: nat)
  {
    k <= |w| && k <= |pat| && w[|w| - k..] == pat[..k]
  }

  /** The history ends with the whole pattern. */
  predicate Complete(pat: seq<string>, w: seq<string>)
  {
    EndsWith(pat, w, |pat|)
  }

  /** Every history ends with the empty prefix. */
  lemma EndsWithNothing(pat: seq<string>, w: seq<string>)
    ensures EndsWith(pat, w, 0)
  {
    assert w[|w|..] == [] == pat[..0];
  }

  /** The largest `k <= m` such that `w` ends with the first `k` keys of `pat`. */
  function BestBelow(pat: seq<string>, w: seq<string>, m: nat): (k: nat)
    ensures k <= m && EndsWith(pat, w, k)
  {
    if m == 0 then
      EndsWithNothing(pat, w);
      0
    else if EndsWith(pat, w, m) then m
    else BestBelow(pat, w, m - 1)
  }

  /** `BestBelow` is the largest: every ending no longer than `m` is at most as long. */
  lemma {:induction false} BestBelowMax(pat: seq<string>, w: seq<string>, m: nat, j: nat)
    requires j <= m && EndsWith(pat, w, j)
    ensures j <= BestBelow(pat, w, m)
  {
    if m > 0 && !EndsWith(pat, w, m) {
      BestBelowMax(pat, w, m - 1, j);
    }
  }

  /** The bound `Progress` searches below: the history's length, but less than the pattern's. */
  function ProgressBound(pat: seq<string>, w: seq<string>): nat
    requires 0 < |pat|
  {
    if |w| < |pat| - 1 then |w| else |pat| - 1
  }

  /** How much of `pat` the history has matched: its longest suffix that is a proper prefix. */
  function Progress(pat: seq<string>, w: seq<string>): (k: nat)
    requires 0 < |pat|
    ensures k < |pat| && EndsWith(pat, w, k)
  {
    BestBelow(pat, w, ProgressBound(pat, w))
  }

  /** The last key of the pattern occurs nowhere earlier in it. */
  predicate LastUnique(pat: seq<string>)
  {
    0 < |pat| && forall i :: 0 <= i < |pat| - 1 ==> pat[i] != pat[|pat| - 1]
  }

  /** Then no proper suffix of the pattern is also a prefix of it. */
  lemma NoBorder(pat: seq<string>, w: seq<string>, k: nat)
    requires LastUnique(pat) && Complete(pat, w) && 0 < k < |pat|
    ensures !EndsWith(pat, w, k)
  {
    assert w[|w| - 1] == w[|w| - |pat|..][|pat| - 1] == pat[|pat| - 1];
    if k <= |w| {
      assert w[|w| - k..][k - 1] == w[|w| - 1];
      assert pat[..k][k - 1] == pat[k - 1];
    }
  }

  /**
   * The Knuth-Morris-Pratt step: the new index is the longest prefix of `pat` that ends the
   * matched prefix followed by `key`; a full match fires and restarts at 0.
   */
  function Step(pat: seq<string>, index: nat, key: string): (r: (nat, bool))
    requires index < |pat|
    ensures r.0 < |pat|
  {
    var k := BestBelow(pat, pat[..index] + [key], index + 1);
    if k == |pat| then (0, true) else (k, false)
  }

  /** A history ending with a prefix ends with the shorter prefixes exactly as that prefix does. */
  lemma EndsWithShorter(pat: seq<string>, w: seq<string>, i: nat, j: nat)
    requires EndsWith(pat, w, i) && j <= i
    ensures EndsWith(pat, pat[..i], j) <==> EndsWith(pat, w, j)
  {
    var u := w[|w| - i..];
    assert u == pat[..i];
    assert w[|w| - j..] == u[i - j..];
  }

  /** One more key extends an ending by one exactly when it is the pattern's next key. */
  lemma ExtendEnding(pat: seq<string>, u: seq<string>, key: string, k: nat)
    requires 0 < k <= |pat|
    ensures EndsWith(pat, u + [key], k) <==> EndsWith(pat, u, k - 1) && key == pat[k - 1]
  {
    var u' := u + [key];
    assert pat[..k] == pat[..k - 1] + [pat[k - 1]];
    if k <= |u'| {
      assert u'[|u'| - k..] == u[|u| - (k - 1)..] + [key];
    }
  }

  /**
   * With `i` the progress of `w`: an ending of `w + [key]` is an ending of
   * `pat[..i] + [key]`.
   */
  lemma {:induction false} EndingsForward(pat: seq<string>, w: seq<string>, key: string, k: nat)
    requires 0 < |pat| && k <= |pat| && EndsWith(pat, w + [key], k)
    ensures EndsWith(pat, pat[..Progress(pat, w)] + [key], k)
  {
    var i := Progress(pat, w);
    if k > 0 {
      ExtendEnding(pat, w, key, k);
      BestBelowMax(pat, w, ProgressBound(pat, w), k - 1);
      EndsWithShorter(pat, w, i, k - 1);
      ExtendEnding(pat, pat[..i], key, k);
    } else {
      EndsWithNothing(pat, pat[..i] + [key]);
    }
  }

  /** And the other way round. */
  lemma {:induction false} EndingsBackward(pat: seq<string>, w: seq<string>, key: string, k: nat)
    requires 0 < |pat| && k <= |pat| && EndsWith(pat, pat[..Progress(pat, w)] + [key], k)
    ensures EndsWith(pat, w + [key], k)
  {
    var i := Progress(pat, w);
    if k > 0 {
      ExtendEnding(pat, pat[..i], key, k);
      EndsWithShorter(pat, w, i, k - 1);
      ExtendEnding(pat, w, key, k);
    } else {
      EndsWithNothing(pat, w + [key]);
    }
  }

  /** When the extended history ends with the whole pattern, the step fires and restarts. */
  lemma {:induction false} StepExactComplete(pat: seq<string>, w: seq<string>, key: string)
    requires LastUnique(pat) && Complete(pat, w + [key])
    ensures BestBelow(pat, pat[..Progress(pat, w)] + [key], Progress(pat, w) + 1) == |pat|
    ensures Progress(pat, w + [key]) == 0
  {
    var i := Progress(pat, w);
    var v := pat[..i] + [key];
    var w' := w + [key];
    EndingsForward(pat, w, key, |pat|);
    BestBelowMax(pat, v, i + 1, |pat|);
    var p := Progress(pat, w');
    if p > 0 {
      NoBorder(pat, w', p);
    }
  }

  /** Otherwise the step does not fire and lands on the extended history's progress. */
  lemma {:induction false} StepExactIncomplete(pat: seq<string>, w: seq<string>, key: string)
    requires 0 < |pat| && !Complete(pat, w + [key])
    ensures BestBelow(pat, pat[..Progress(pat, w)] + [key], Progress(pat, w) + 1)
      == Progress(pat, w + [key])
  {
    var i := Progress(pat, w);
    var v := pat[..i] + [key];
    var w' := w + [key];
    var k := BestBelow(pat, v, i + 1);
    var p := Progress(pat, w');
    EndingsBackward(pat, w, key, k);
    BestBelowMax(pat, w', ProgressBound(pat, w'), k);
    EndingsForward(pat, w, key, p);
    BestBelowMax(pat, v, i + 1, p);
  }

  /**
   * The step is exact: from the progress of any history it fires precisely when the
   * history plus `key` ends with the whole pattern, and its new index is the progress of
   * the extended history.
   */
  lemma {:induction false} StepExact(pat: seq<string>, w: seq<string>, key: string)
    requires LastUnique(pat)
    ensures Step(pat, Progress(pat, w), key) == (Progress(pat, w + [key]), Complete(pat, w + [key]))
  {
    var i := Progress(pat, w);
    var k := BestBelow(pat, pat[..i] + [key], i + 1);
    assert Step(pat, i, key) == if k == |pat| then (0, true) else (k, false);
    if Complete(pat, w + [key]) {
      StepExactComplete(pat, w, key);
    } else {
      StepExactIncomplete(pat, w, key);
    }
  }

  /** The index and the number of firings after feeding `keys` to the step. */
  function Scan(pat: seq<string>, index: nat, keys: seq<string>): (r: (nat, nat))
    requires index < |pat|
    ensures r.0 < |pat|
    decreases |keys|
  {
    if keys == [] then (index, 0)
    else
      var s := Step(pat, index, keys[0]);
      var r := Scan(pat, s.0, keys[1..]);
      (r.0, r.1 + if s.1 then 1 else 0)
  }

  /** Moving the first key of `keys` onto the history leaves the whole unchanged. */
  lemma ShiftKey<T>(w: seq<T>, keys: seq<T>)
    requires keys != []
    ensures (w + [keys[0]]) + keys[1..] == w + keys
  {
  }

  /** How many of the histories `w + keys[..j]`, `1 <= j <= |keys|`, end with the whole pattern. */
  function Hits(pat: seq<string>, w: seq<string>, keys: seq<string>): nat
    decreases |keys|
  {
    if keys == [] then 0
    else (if Complete(pat, w + [keys[0]]) then 1 else 0) + Hits(pat, w + [keys[0]], keys[1..])
  }

  /**
   * Over any keys after any history, the step fires once for every point at which the keys
   * typed so far end with the whole pattern, and at no other point.
   */
  lemma {:induction false} ScanExact(pat: seq<string>, w: seq<string>, keys: seq<string>)
    requires LastUnique(pat)
    ensures Scan(pat, Progress(pat, w), keys) == (Progress(pat, w + keys), Hits(pat, w, keys))
    decreases |keys|
  {
    if keys == [] {
      assert w + keys == w;
    } else {
      var w1 := w + [keys[0]];
      StepExact(pat, w, keys[0]);
      var s := Step(pat, Progress(pat, w), keys[0]);
      var rest := Scan(pat, s.0, keys[1..]);
      assert Scan(pat, Progress(pat, w), keys) == (rest.0, rest.1 + if s.1 then 1 else 0);
      ScanExact(pat, w1, keys[1..]);
      ShiftKey(w, keys);
      assert Hits(pat, w, keys) == (if Complete(pat, w1) then 1 else 0) + Hits(pat, w1, keys[1..]);
    }
  }

  /** A history that ends with the whole pattern somewhere within `keys` counts a hit. */
  lemma {:induction false} HitsAtEnd(pat: seq<string>, w: seq<string>, keys: seq<string>)
    requires keys != [] && Complete(pat, w + keys)
    ensures Hits(pat, w, keys) >= 1
    decreases |keys|
  {
    if |keys| == 1 {
      assert keys == [keys[0]];
    } else {
      assert (w + [keys[0]]) + keys[1..] == w + keys;
      HitsAtEnd(pat, w + [keys[0]], keys[1..]);
    }
  }

  /** Starting from nothing, keys that end with the whole pattern make the step fire. */
  lemma ScanCatches(pat: seq<string>, keys: seq<string>)
    requires LastUnique(pat) && keys != [] && Complete(pat, keys)
    ensures Scan(pat, 0, keys).1 >= 1
  {
    assert [] + keys == keys;
    assert Progress(pat, []) == 0;
    ScanExact(pat, [], keys);
    HitsAtEnd(pat, [], keys);
  }
}

/**
 * The hidden key-sequence listeners of src/entry/easter-egg.js and
 * src/entry/easter-egg.entry.js: both match Up Up Down Down Left Right Left Right B A with
 * the same index rule and differ only in the action fired (navigating to the game page, or
 * hiding the page sections and moving the background camera inside a try/catch that
 * swallows errors). The action is recorded as a count of firings.
 */
module EasterEgg {
  import opened Wrappers
  import opened PatternMatch

  /** `sequence`: the ten keys, letters by their `code`, arrows by their `key`. */
  const Sequence: seq<string> := [
    "ArrowUp", "ArrowUp", "ArrowDown", "ArrowDown",
    "ArrowLeft", "ArrowRight", "ArrowLeft", "ArrowRight",
    "KeyB", "KeyA"
  ]

  /** The parts of `e.target` that `isEditable` looks at. */
  datatype Target = Target(isContentEditable: bool, tagName: string)

  /** A `keydown` event: its target (absent for `null`), `e.code` and `e.key`. */
  datatype KeyEvent = KeyEvent(target: Option<Target>, code: string, key: string)

  /** `isEditable`: a content-editable element, an `INPUT` or a `TEXTAREA`; no target is not. */
  predicate IsEditable(t: Option<Target>)
  {
    t.Some? && (t.value.isContentEditable || t.value.tagName == "INPUT" || t.value.tagName == "TEXTAREA")
  }

  /** `e.code.startsWith('Key') ? e.code : e.key`. */
  function Normalize(code: string, key: string): (r: string)
    ensures |code| >= 3 && code[..3] == "Key" ==> r == code
    ensures !(|code| >= 3 && code[..3] == "Key") ==> r == key
  {
    if |code| >= 3 && code[..3] == "Key" then code else key
  }

  /** Letter keys match by physical key whatever character they type; arrows match by name. */
  lemma NormalizeSpec(key: string)
    ensures Normalize("KeyA", key) == "KeyA" && Normalize("KeyB", key) == "KeyB"
    ensures Normalize("ArrowUp", key) == key
  {
    assert "KeyA"[..3] == "Key" && "KeyB"[..3] == "Key";
    assert "ArrowUp"[..3][0] == 'A' != 'K' == "Key"[0];
  }

  // ---------------------------------------------------------------------------------------
  // The matcher as written
  // ---------------------------------------------------------------------------------------

  /**
   * One `keydown` on a non-editable target: on the expected key advance, and after the
   * tenth key fire and restart; on any other key restart at 1 if it is `ArrowUp`, else at 0.
   * Gives the new index and whether the action fired.
   */
  function Next(index: nat, key: string): (r: (nat, bool))
    requires index < |Sequence|
    ensures r.0 < |Sequence|
    ensures r.1 <==> index == |Sequence| - 1 && key == Sequence[index]
  {
    if key == Sequence[index] then
      if index + 1 == |Sequence| then (0, true) else (index + 1, false)
    else
      (if key == Sequence[0] then 1 else 0, false)
  }

  /**
   * Soundness of the written rule: if the keys so far end with the first `index` keys of the
   * sequence, so do the keys after one more, at the new index; and the action fires only
   * when the keys end with the whole sequence.
   */
  lemma NextSound(w: seq<string>, index: nat, key: string)
    requires index < |Sequence| && EndsWith(Sequence, w, index)
    ensures EndsWith(Sequence, w + [key], Next(index, key).0)
    ensures Next(index, key).1 ==> Complete(Sequence, w + [key])
  {
    var w' := w + [key];
    if key == Sequence[index] {
      assert w'[|w'| - (index + 1)..] == w[|w| - index..] + [key];
      assert Sequence[..index + 1] == Sequence[..index] + [Sequence[index]];
    } else if key == Sequence[0] {
      assert w'[|w'| - 1..] == [key];
    } else {
      assert w'[|w'|..] == [];
    }
  }

  /** The index and the number of firings after feeding `keys` to the written rule from `index`. */
  function Run(index: nat, keys: seq<string>): (r: (nat, nat))
    requires index < |Sequence|
    ensures r.0 < |Sequence|
    decreases |keys|
  {
    if keys == [] then (index, 0)
    else
      var (i, fired) := Next(index, keys[0]);
      var (j, n) := Run(i, keys[1..]);
      (j, n + if fired then 1 else 0)
  }

  /** The sequence typed from a fresh start fires the action once and leaves the index at 0. */
  lemma RunSequence()
    ensures Run(0, Sequence) == (0, 1)
  {
    var s := Sequence;
    assert s[1..][1..][1..][1..][1..][1..][1..][1..][1..][1..] == [];
  }

  /**
   * The written rule misses the sequence when it follows an extra `ArrowUp`: after Up Up
   * the third Up restarts the index at 1, the next Down does not match the second Up, and
   * the action never fires although the keys end with the whole sequence.
   */
  lemma MissesAfterExtraUp()
    ensures Complete(Sequence, ["ArrowUp"] + Sequence)
    ensures Run(0, ["ArrowUp"] + Sequence).1 == 0
  {
    var s := ["ArrowUp"] + Sequence;
    assert s[|s| - |Sequence|..] == Sequence;
    assert s[1..][1..][1..][1..][1..][1..][1..][1..][1..][1..][1..] == [];
  }

  // ---------------------------------------------------------------------------------------
  // The corrected matcher
  // ---------------------------------------------------------------------------------------

  /** `KeyA`, the last key, occurs nowhere else in the sequence. */
  lemma SequenceLastUnique()
    ensures LastUnique(Sequence)
  {
  }

  /**
   * The corrected step: the Knuth-Morris-Pratt step on the sequence. From the progress of
   * any history it fires exactly when the history plus `key` ends with the whole sequence.
   */
  function NextCorrected(index: nat, key: string): (r: (nat, bool))
    requires index < |Sequence|
    ensures r.0 < |Sequence|
  {
    Step(Sequence, index, key)
  }

  /** The corrected step from any history's progress: new progress, and a firing iff complete. */
  lemma NextCorrectedExact(w: seq<string>, key: string)
    ensures NextCorrected(Progress(Sequence, w), key)
      == (Progress(Sequence, w + [key]), Complete(Sequence, w + [key]))
  {
    SequenceLastUnique();
    StepExact(Sequence, w, key);
  }

  /** The corrected rule, from a fresh start, fires on the sequence after an extra `ArrowUp`. */
  lemma CorrectedCatchesExtraUp()
    ensures Scan(Sequence, 0, ["ArrowUp"] + Sequence).1 >= 1
  {
    var s := ["ArrowUp"] + Sequence;
    assert s[|s| - |Sequence|..] == Sequence;
    SequenceLastUnique();
    ScanCatches(Sequence, s);
  }

  // ---------------------------------------------------------------------------------------
  // The listener
  // ---------------------------------------------------------------------------------------

  /** The closure of either listener: `index`, with the accepted keys and firings recorded. */
  class Matcher {
    var index: nat
    var fired: nat
    ghost var keys: seq<string>

    /** The index stays below ten and the accepted keys end with that much of the sequence. */
    ghost predicate Valid()
      reads this
    {
      index < |Sequence| && EndsWith(Sequence, keys, index)
    }

    constructor()
      ensures Valid() && index == 0 && fired == 0 && keys == []
    {
      index, fired, keys := 0, 0, [];
      new;
      assert keys[|keys|..] == [] == Sequence[..0];
    }

    /**
     * The `keydown` listener: editable targets are ignored; otherwise the normalised key
     * takes one step of the rule, and a full match runs the action (whose errors are
     * swallowed) and resets the index.
     */
    method OnKeyDown(e: KeyEvent)
      modifies this
      requires Valid()
      ensures Valid()
      ensures IsEditable(e.target) ==> index == old(index) && fired == old(fired) && keys == old(keys)
      ensures !IsEditable(e.target) ==>
        var key := Normalize(e.code, e.key);
        keys == old(keys) + [key] &&
        (index, fired > old(fired)) == Next(old(index), key) &&
        fired <= old(fired) + 1
      ensures fired > old(fired) ==> Complete(Sequence, keys)
    {
      if IsEditable(e.target) {
        return;
      }
      var key := Normalize(e.code, e.key);
      NextSound(keys, index, key);
      keys := keys + [key];
      if key == Sequence[index] {
        index := index + 1;
        if index == |Sequence| {
          fired := fired + 1;
          index := 0;
        }
      } else {
        index := if key == Sequence[0] then 1 else 0;
      }
    }
  }
}
