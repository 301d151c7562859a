/**
 * The global retro-effect flag of src/core/state.js and its private event bus: the flag
 * starts on, `setRetroEnabled` changes it and dispatches `retro:changed` only when the
 * value actually changes, and `onRetroChanged` subscribes a handler and returns the
 * function that unsubscribes it.
 */
module RetroState {

  /** A JavaScript value as `!!` sees it. */
  datatype JsValue = Undefined | Null | Bool(b: bool) | Num(n: real) | NaN | Str(s: string) | Object

  /** `!!v`: false exactly for `undefined`, `null`, `false`, `0`, `NaN` and the empty string. */
  predicate Truthy(v: JsValue)
  {
    match v
    case Undefined => false
    case Null => false
    case Bool(b) => b
    case Num(n) => n != 0.0
    case NaN => false
    case Str(s) => s != ""
    case Object => true
  }

  /** The flag after a series of `setRetroEnabled` calls with the given coerced values. */
  function Final(start: bool, calls: seq<bool>): (r: bool)
    ensures calls != [] ==> r == calls[|calls| - 1]
    ensures calls == [] ==> r == start
    decreases |calls|
  {
    if calls == [] then start else Final(calls[0], calls[1..])
  }

  /** The `retro:changed` events a series of calls dispatches: one per call that changes the flag. */
  function Emitted(start: bool, calls: seq<bool>): seq<bool>
    decreases |calls|
  {
    if calls == [] then []
    else (if calls[0] == start then [] else [calls[0]]) + Emitted(calls[0], calls[1..])
  }

  /** Each event differs from the value before it: the first from `start`, each later one from the previous event. */
  predicate Alternates(start: bool, events: seq<bool>)
    decreases |events|
  {
    events == [] || (events[0] != start && Alternates(events[0], events[1..]))
  }

  /**
   * Listeners see a strict alternation of values starting from the flag's old value, and
   * the last event carries the flag's final value; with no event, the flag is unchanged.
   */
  lemma {:induction false} EmittedAlternates(start: bool, calls: seq<bool>)
    ensures Alternates(start, Emitted(start, calls))
    ensures Emitted(start, calls) != [] ==>
      Emitted(start, calls)[|Emitted(start, calls)| - 1] == Final(start, calls)
    ensures Emitted(start, calls) == [] ==> Final(start, calls) == start
    ensures |Emitted(start, calls)| <= |calls|
    decreases |calls|
  {
    if calls != [] {
      EmittedAlternates(calls[0], calls[1..]);
      var rest := Emitted(calls[0], calls[1..]);
      if calls[0] != start {
        assert Emitted(start, calls) == [calls[0]] + rest;
        assert ([calls[0]] + rest)[1..] == rest;
      } else {
        assert Emitted(start, calls) == rest;
      }
    }
  }

  /** Setting the same value twice in a row dispatches at most once. */
  lemma {:induction false} RepeatEmitsOnce(start: bool, v: bool)
    ensures Emitted(start, [v, v]) == Emitted(start, [v])
    ensures |Emitted(start, [v, v])| == (if v == start then 0 else 1)
  {
    assert [v, v][1..] == [v];
    assert [v][1..] == [];
  }

  /** No number occurs twice. */
  predicate Distinct(ids: seq<nat>)
  {
    forall i, j :: 0 <= i < j < |ids| ==> ids[i] != ids[j]
  }

  /** `ids` without `id`, the others in their order. */
  function Without(ids: seq<nat>, id: nat): (r: seq<nat>)
    ensures |r| <= |ids|
    decreases |ids|
  {
    if ids == [] then []
    else (if ids[0] == id then [] else [ids[0]]) + Without(ids[1..], id)
  }

  /** Removing `id` keeps exactly the other listeners, and removing an absent one changes nothing. */
  lemma {:induction false} WithoutMembers(ids: seq<nat>, id: nat)
    ensures forall x :: x in Without(ids, id) <==> x in ids && x != id
    ensures id !in ids ==> Without(ids, id) == ids
    decreases |ids|
  {
    if ids != [] {
      WithoutMembers(ids[1..], id);
      assert ids == [ids[0]] + ids[1..];
    }
  }

  /** Splicing one element out of a list without repeats leaves a list without repeats. */
  lemma SpliceDistinct(ids: seq<nat>, k: nat)
    requires Distinct(ids) && k < |ids|
    ensures Distinct(ids[..k] + ids[k + 1..])
  {
    var r := ids[..k] + ids[k + 1..];
    forall a, b | 0 <= a < b < |r|
      ensures r[a] != r[b]
    {
      var pa := if a < k then a else a + 1;
      var pb := if b < k then b else b + 1;
      assert r[a] == ids[pa] && r[b] == ids[pb] && pa < pb;
    }
  }

  /** In a list without repeats, the element at `k` occurs nowhere before or after `k`. */
  lemma SpliceAbsent(ids: seq<nat>, k: nat)
    requires Distinct(ids) && k < |ids|
    ensures ids[k] !in ids[..k] && ids[k] !in ids[k + 1..]
  {
    forall j | 0 <= j < k
      ensures ids[..k][j] != ids[k]
    {
      assert ids[..k][j] == ids[j];
    }
    var after := ids[k + 1..];
    forall j | 0 <= j < |after|
      ensures after[j] != ids[k]
    {
      assert ids[k + 1..][j] == ids[k + 1 + j];
    }
  }

  /** Removing an element that occurs once, at `k`, splices it out. */
  lemma {:induction false} WithoutSplice(ids: seq<nat>, k: nat)
    requires k < |ids| && ids[k] !in ids[..k] && ids[k] !in ids[k + 1..]
    ensures Without(ids, ids[k]) == ids[..k] + ids[k + 1..]
    decreases k
  {
    var id := ids[k];
    var tail := ids[1..];
    if k == 0 {
      WithoutMembers(tail, id);
      assert ids[..0] + ids[1..] == tail;
    } else {
      assert ids[0] == ids[..k][0];
      assert tail[k - 1] == id;
      assert tail[..k - 1] == ids[1..k] && tail[k..] == ids[k + 1..];
      assert id !in tail[..k - 1] by {
        assert forall x :: x in ids[1..k] ==> x in ids[..k];
      }
      WithoutSplice(tail, k - 1);
      assert [ids[0]] + (tail[..k - 1] + tail[k..]) == ids[..k] + ids[k + 1..];
    }
  }

  /**
   * Removing a listener from a list without repeats leaves the others in their order, and
   * still without repeats.
   */
  lemma WithoutKeepsOrder(ids: seq<nat>, k: nat)
    requires Distinct(ids) && k < |ids|
    ensures Without(ids, ids[k]) == ids[..k] + ids[k + 1..]
    ensures Distinct(Without(ids, ids[k]))
  {
    SpliceAbsent(ids, k);
    WithoutSplice(ids, k);
    SpliceDistinct(ids, k);
  }

  /** One delivery of an event to a subscribed handler. */
  datatype Delivery = Delivery(handler: nat, enabled: bool)

  /** A dispatch of `enabled`: one call of each listener, in the order they were added. */
  function Deliver(ids: seq<nat>, enabled: bool): (r: seq<Delivery>)
    ensures |r| == |ids|
    ensures forall i :: 0 <= i < |ids| ==> r[i] == Delivery(ids[i], enabled)
  {
    seq(|ids|, i requires 0 <= i < |ids| => Delivery(ids[i], enabled))
  }

  /** The module state: `retroEnabled`, the bus's listeners, and what has been dispatched and delivered. */
  class Retro {
    var enabled: bool
    /** The wrapper listeners on the bus, by the number of the `onRetroChanged` call that added each. */
    var subscribers: seq<nat>
    var nextId: nat
    /** The detail of every `retro:changed` event dispatched, and every handler call, in order. */
    var events: seq<bool>
    var delivered: seq<Delivery>

    /** Every subscriber was numbered by an earlier `onRetroChanged` call. */
    ghost predicate Valid()
      reads this
    {
      (forall x :: x in subscribers ==> x < nextId) && Distinct(subscribers)
    }

    /** The module's load: the flag on, no listeners, nothing dispatched. */
    constructor ()
      ensures Valid() && enabled && subscribers == [] && events == [] && delivered == []
    {
      enabled, subscribers, nextId, events, delivered := true, [], 0, [], [];
    }

    /** `getRetroEnabled`. */
    function GetRetroEnabled(): bool
      reads this
    {
      enabled
    }

    /**
     * `setRetroEnabled(value)`: the flag becomes `!!value`; if that changes it, one event with
     * the new value is dispatched and each subscribed handler receives it, in order of
     * subscription.
     */
    method SetRetroEnabled(value: JsValue)
      requires Valid()
      modifies this
      ensures Valid() && subscribers == old(subscribers) && nextId == old(nextId)
      ensures enabled == Truthy(value)
      ensures events == old(events) + Emitted(old(enabled), [Truthy(value)])
      ensures old(enabled) == Truthy(value) ==> delivered == old(delivered)
      ensures old(enabled) != Truthy(value) ==>
        delivered == old(delivered) + Deliver(subscribers, enabled)
    {
      var next := Truthy(value);
      assert [next][1..] == [];
      if enabled == next {
        return;
      }
      enabled := next;
      events := events + [enabled];
      delivered := delivered + Deliver(subscribers, enabled);
    }

    /** `onRetroChanged(handler)`: subscribes a new listener and returns its number, which unsubscribes it. */
    method OnRetroChanged() returns (id: nat)
      requires Valid()
      modifies this
      ensures Valid()
      ensures id == old(nextId) && id !in old(subscribers)
      ensures subscribers == old(subscribers) + [id]
      ensures enabled == old(enabled) && events == old(events) && delivered == old(delivered)
    {
      id := nextId;
      subscribers := subscribers + [id];
      nextId := nextId + 1;
    }

    /**
     * The function `onRetroChanged` returned: removes that listener, and only that one, and
     * the others keep their order; a second call changes nothing.
     */
    method Unsubscribe(id: nat)
      requires Valid()
      modifies this
      ensures Valid() && id !in subscribers
      ensures forall x :: x in subscribers <==> x in old(subscribers) && x != id
      ensures forall k :: 0 <= k < |old(subscribers)| && old(subscribers)[k] == id ==>
        subscribers == old(subscribers)[..k] + old(subscribers)[k + 1..]
      ensures id !in old(subscribers) ==> subscribers == old(subscribers)
      ensures nextId == old(nextId)
      ensures enabled == old(enabled) && events == old(events) && delivered == old(delivered)
    {
      WithoutMembers(subscribers, id);
      if k :| 0 <= k < |subscribers| && subscribers[k] == id {
        WithoutKeepsOrder(subscribers, k);
      }
      subscribers := Without(subscribers, id);
    }

    /** The window's `disable-retro` event: `setRetroEnabled(false)`. */
    method OnDisableRetro()
      requires Valid()
      modifies this
      ensures Valid() && !enabled && subscribers == old(subscribers) && nextId == old(nextId)
      ensures events == old(events) + (if old(enabled) then [false] else [])
      ensures delivered == old(delivered) + (if old(enabled) then Deliver(subscribers, false) else [])
    {
      SetRetroEnabled(Bool(false));
    }
  }
}
