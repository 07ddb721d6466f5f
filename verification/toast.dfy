/** The toast queue of the toast provider: `showToast` appends a toast and
    may schedule its auto-hide, `hideToast` removes every toast carrying an
    id. Ids come from the caller; nothing makes them unique. */
module Toasts {
  import opened Options
  import opened Seqs

  datatype ToastType = Success | Error | Warning | Info

  datatype Toast = Toast(id: string, kind: ToastType, message: string, duration: int)

  const DefaultDuration: int := 5000

  /** A scheduled `hideToast(id)` after `delay` milliseconds. */
  datatype AutoHide = AutoHide(id: string, delay: int)

  datatype Shown = Shown(toasts: seq<Toast>, autoHide: Option<AutoHide>)

  /** `showToast(message, type, duration = 5000)` with the generated id
      given as `id`: exactly one toast is appended at the end, and its
      auto-hide is scheduled exactly when its duration is positive. */
  function ShowToast(toasts: seq<Toast>, id: string, message: string, kind: ToastType, duration: Option<int>): (r: Shown)
    ensures |r.toasts| == |toasts| + 1 && r.toasts[..|toasts|] == toasts
    ensures r.toasts[|toasts|].id == id && r.toasts[|toasts|].message == message && r.toasts[|toasts|].kind == kind
    ensures duration.None? ==> r.toasts[|toasts|].duration == DefaultDuration
    ensures duration.Some? ==> r.toasts[|toasts|].duration == duration.value
    ensures r.autoHide.Some? <==> r.toasts[|toasts|].duration > 0
    ensures r.autoHide.Some? ==> r.autoHide.value == AutoHide(id, r.toasts[|toasts|].duration)
  {
    var d := if duration.Some? then duration.value else DefaultDuration;
    var t := Toast(id, kind, message, d);
    assert (toasts + [t])[..|toasts|] == toasts;
    Shown(toasts + [t], if d > 0 then Some(AutoHide(id, d)) else None)
  }

  predicate HasId(toasts: seq<Toast>, id: string)
  {
    exists i :: 0 <= i < |toasts| && toasts[i].id == id
  }

  /** The test `hideToast(id)` filters with. */
  function KeepOther(id: string): Toast -> bool
  {
    (t: Toast) => t.id != id
  }

  /** `hideToast(id)`: keeps the toasts whose id differs. */
  function HideToast(toasts: seq<Toast>, id: string): (r: seq<Toast>)
    ensures !HasId(r, id)
    ensures forall t: Toast :: t.id != id ==> multiset(r)[t] == multiset(toasts)[t]
    ensures forall i :: 0 <= i < |r| ==> r[i] in toasts
  {
    FilterMultisetAll(KeepOther(id), toasts);
    Filter(KeepOther(id), toasts)
  }

  /** The toasts left keep their original relative order. */
  lemma HideKeepsOrder(toasts: seq<Toast>, id: string)
    ensures IsSubsequence(HideToast(toasts, id), toasts)
  {
    FilterIsSubsequence(KeepOther(id), toasts);
  }

  /** Hiding an id no toast carries changes nothing. */
  lemma HideAbsent(toasts: seq<Toast>, id: string)
    requires !HasId(toasts, id)
    ensures HideToast(toasts, id) == toasts
  {
    FilterIdentity(KeepOther(id), toasts);
  }

  /** Hiding twice is hiding once. */
  lemma HideIdempotent(toasts: seq<Toast>, id: string)
    ensures HideToast(HideToast(toasts, id), id) == HideToast(toasts, id)
  {
    HideAbsent(HideToast(toasts, id), id);
  }

  /** Hides of two ids may happen in either order. */
  lemma HideCommutes(toasts: seq<Toast>, a: string, b: string)
    ensures HideToast(HideToast(toasts, a), b) == HideToast(HideToast(toasts, b), a)
  {
    FilterCommutes(KeepOther(a), KeepOther(b), toasts);
  }

  /** Hiding acts on each part of a list separately. */
  lemma HideAppend(a: seq<Toast>, b: seq<Toast>, id: string)
    ensures HideToast(a + b, id) == HideToast(a, id) + HideToast(b, id)
  {
    FilterAppend(KeepOther(id), a, b);
  }

  /** Showing a toast with a fresh id and then hiding that id (the
      auto-hide, or the close button) restores the list. */
  lemma ShowThenHide(toasts: seq<Toast>, id: string, message: string, kind: ToastType, duration: Option<int>)
    requires !HasId(toasts, id)
    ensures HideToast(ShowToast(toasts, id, message, kind, duration).toasts, id) == toasts
  {
    var r := ShowToast(toasts, id, message, kind, duration).toasts;
    var t := r[|toasts|];
    assert r == toasts + [t];
    HideAppend(toasts, [t], id);
    HideAbsent(toasts, id);
  }

  /** Hiding another id leaves a newly shown toast last. */
  lemma HideOtherKeepsNewest(toasts: seq<Toast>, id: string, other: string, message: string, kind: ToastType, duration: Option<int>)
    requires other != id
    ensures var r := ShowToast(toasts, id, message, kind, duration).toasts;
      HideToast(r, other) == HideToast(toasts, other) + [r[|toasts|]]
  {
    var r := ShowToast(toasts, id, message, kind, duration).toasts;
    var t := r[|toasts|];
    assert r == toasts + [t];
    HideAppend(toasts, [t], other);
    HideAbsent([t], other);
  }
}
