/** The on-page toast stack of `addToast`: each toast is pinned at a bottom
    offset given by its index, and the stack closes up when one expires. */
module Toasts {

  /** A rendered toast. `id` stands for the DOM node's identity, which is what
      `indexOf` compares. */
  datatype Toast = Toast(id: nat, message: string, bottom: int)

  /** The `bottom` style, in pixels, of the toast at `index`. */
  function Offset(index: nat): (px: int)
    ensures px >= 20 && px % 60 == 20
  {
    20 + 60 * index
  }

  /** Every toast sits at the offset of its index. */
  ghost predicate Stacked(ts: seq<Toast>)
  {
    forall i :: 0 <= i < |ts| ==> ts[i].bottom == Offset(i)
  }

  ghost predicate DistinctIds(ts: seq<Toast>)
  {
    forall i, j :: 0 <= i < j < |ts| ==> ts[i].id != ts[j].id
  }

  /** A stacked list never overlaps: toasts are at least 60 pixels apart, the
      lowest at 20, in list order. */
  lemma {:induction false} StackedSpacing(ts: seq<Toast>, i: nat, j: nat)
    requires Stacked(ts) && i < j < |ts|
    ensures ts[0].bottom == 20
    ensures ts[j].bottom - ts[i].bottom == 60 * (j - i)
  {
  }

  /** The texts of the toasts, bottom to top. */
  function Messages(ts: seq<Toast>): (ms: seq<string>)
    ensures |ms| == |ts|
    ensures forall i :: 0 <= i < |ts| ==> ms[i] == ts[i].message
  {
    if ts == [] then [] else [ts[0].message] + Messages(ts[1..])
  }

  /** `activeToasts.indexOf(toast)`: the first position holding `id`, or -1. */
  function IndexOf(ts: seq<Toast>, id: nat): (r: int)
    ensures -1 <= r < |ts|
    ensures r == -1 <==> forall i :: 0 <= i < |ts| ==> ts[i].id != id
    ensures r >= 0 ==> ts[r].id == id && forall i :: 0 <= i < r ==> ts[i].id != id
  {
    if ts == [] then -1
    else if ts[0].id == id then 0
    else
      var r := IndexOf(ts[1..], id);
      if r == -1 then -1 else r + 1
  }

  /** The list with every toast moved to the offset of its index (the
      `forEach` after a splice). */
  function Restacked(ts: seq<Toast>): (r: seq<Toast>)
    ensures |r| == |ts| && Stacked(r)
    ensures forall i :: 0 <= i < |ts| ==> r[i].id == ts[i].id && r[i].message == ts[i].message
  {
    seq(|ts|, i requires 0 <= i < |ts| => ts[i].(bottom := Offset(i)))
  }

  /** `splice(k, 1)`. */
  function RemoveAt(ts: seq<Toast>, k: nat): (r: seq<Toast>)
    requires k < |ts|
    ensures |r| == |ts| - 1
    ensures forall i :: 0 <= i < k ==> r[i] == ts[i]
    ensures forall i :: k <= i < |r| ==> r[i] == ts[i + 1]
  {
    ts[..k] + ts[k + 1..]
  }

  /** Removing position `k` and re-offsetting the rest keeps the identities
      distinct and below `bound`; the toasts below `k` stay where they are,
      those above move down one place, and the texts lose exactly entry `k`. */
  lemma SplicedRestacked(before: seq<Toast>, k: nat, bound: nat)
    requires k < |before| && DistinctIds(before)
    requires forall i :: 0 <= i < |before| ==> before[i].id < bound
    ensures var after := Restacked(RemoveAt(before, k));
      && |after| == |before| - 1
      && DistinctIds(after)
      && (forall i :: 0 <= i < |after| ==> after[i].id < bound)
      && (forall i :: 0 <= i < k ==> after[i] == before[i].(bottom := Offset(i)))
      && (forall i :: k <= i < |after| ==> after[i] == before[i + 1].(bottom := Offset(i)))
      && Messages(after) == Messages(before)[..k] + Messages(before)[k + 1..]
  {
    var spliced := RemoveAt(before, k);
    var after := Restacked(spliced);
    assert forall i :: 0 <= i < k ==> spliced[i] == before[i];
    assert forall i :: k <= i < |spliced| ==> spliced[i] == before[i + 1];
    forall i, j | 0 <= i < j < |after|
      ensures after[i].id != after[j].id
    {
      var bi := if i < k then i else i + 1;
      var bj := if j < k then j else j + 1;
      assert after[i].id == before[bi].id && after[j].id == before[bj].id;
    }
  }

  class ToastStack {
    var activeToasts: seq<Toast>
    /** Source of fresh identities for new toast nodes. */
    var nextId: nat

    ghost predicate Valid()
      reads this
    {
      && Stacked(activeToasts)
      && DistinctIds(activeToasts)
      && forall i :: 0 <= i < |activeToasts| ==> activeToasts[i].id < nextId
    }

    constructor ()
      ensures Valid() && activeToasts == []
    {
      activeToasts := [];
      nextId := 0;
    }

    /** The synchronous part of `addToast`: a new toast goes on top of the
        stack at the offset of the current length. */
    method AddToast(message: string) returns (id: nat)
      requires Valid()
      modifies this
      ensures Valid()
      ensures activeToasts == old(activeToasts) + [Toast(id, message, Offset(|old(activeToasts)|))]
      ensures forall i :: 0 <= i < |old(activeToasts)| ==> old(activeToasts)[i].id != id
    {
      id := nextId;
      nextId := nextId + 1;
      activeToasts := activeToasts + [Toast(id, message, Offset(|activeToasts|))];
    }

    /** The `forEach` that moves every toast to the offset of its index. */
    method Restack()
      modifies this
      ensures activeToasts == Restacked(old(activeToasts)) && nextId == old(nextId)
    {
      var index := 0;
      while index < |activeToasts|
        invariant 0 <= index <= |activeToasts| == |old(activeToasts)|
        invariant nextId == old(nextId)
        invariant forall i :: 0 <= i < index ==> activeToasts[i] == old(activeToasts)[i].(bottom := Offset(i))
        invariant forall i :: index <= i < |activeToasts| ==> activeToasts[i] == old(activeToasts)[i]
      {
        activeToasts := activeToasts[index := activeToasts[index].(bottom := Offset(index))];
        index := index + 1;
      }
    }

    /** The expiry callback `addToast` schedules: remove the toast if it is still
        there, then re-offset every remaining toast by its new index. */
    method Expire(id: nat)
      requires Valid()
      modifies this
      ensures Valid()
      ensures nextId == old(nextId)
      ensures var k := IndexOf(old(activeToasts), id);
        activeToasts == if k == -1 then old(activeToasts) else Restacked(RemoveAt(old(activeToasts), k))
    {
      var toastIndex := IndexOf(activeToasts, id);
      if toastIndex == -1 {
        return;
      }
      SplicedRestacked(activeToasts, toastIndex, nextId);
      activeToasts := activeToasts[..toastIndex] + activeToasts[toastIndex + 1..];
      Restack();
    }
  }
}
