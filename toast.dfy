/** The notification queue of components/ui/toast/ToastContext.tsx. The
    random toast id is a parameter (`freshId`); each toast's removal timer is
    an entry of `timers`, and a timer firing is the `ExpireNext` event. The
    callback of an action is a value of type `C` that the caller runs. */
module Toast {
  import opened Wrappers

  datatype Variant = Default | Success | Warning | Destructive

  datatype Action<C> = Action(labelText: string, onClick: C)  // `label` is a Dafny keyword

  datatype Toast<C> = Toast(id: string, message: string, variant: Variant, action: Option<Action<C>>)

  /** A pending `setTimeout` that removes the toast `toastId`. */
  datatype Timer = Timer(toastId: string, delayMs: nat)

  /** Every toast is removed this long after it is shown. */
  const ExpiryMs: nat := 4000

  const OutsideProviderMessage := "useToast must be used within a ToastProvider"

  /** `prev.filter((t) => t.id !== id)`. */
  function WithoutId<C(!new)>(ts: seq<Toast<C>>, id: string): (r: seq<Toast<C>>)
    ensures forall t :: t in r <==> t in ts && t.id != id
    ensures |r| <= |ts|
  {
    if ts == [] then []
    else if ts[0].id == id then WithoutId(ts[1..], id)
    else [ts[0]] + WithoutId(ts[1..], id)
  }

  /** Filtering works piecewise, so the toasts that stay keep their order. */
  lemma {:induction false} WithoutIdConcat<C(!new)>(a: seq<Toast<C>>, b: seq<Toast<C>>, id: string)
    ensures WithoutId(a + b, id) == WithoutId(a, id) + WithoutId(b, id)
  {
    if a != [] {
      var ab := a + b;
      assert ab != [] && ab[0] == a[0] && ab[1..] == a[1..] + b;
      WithoutIdConcat(a[1..], b, id);
      if a[0].id == id {
        assert WithoutId(ab, id) == WithoutId(ab[1..], id);
      } else {
        assert WithoutId(ab, id) == [a[0]] + WithoutId(ab[1..], id);
        assert WithoutId(a, id) == [a[0]] + WithoutId(a[1..], id);
      }
    } else {
      assert a + b == b;
    }
  }

  /** Removing an id that no toast has is a no-op. */
  lemma {:induction false} WithoutAbsentId<C(!new)>(ts: seq<Toast<C>>, id: string)
    requires forall k | 0 <= k < |ts| :: ts[k].id != id
    ensures WithoutId(ts, id) == ts
  {
    if ts != [] {
      WithoutAbsentId(ts[1..], id);
    }
  }

  /** Removing twice is removing once: a timer that fires for a toast that was
      already closed changes nothing. */
  lemma WithoutIdIdempotent<C(!new)>(ts: seq<Toast<C>>, id: string)
    ensures WithoutId(WithoutId(ts, id), id) == WithoutId(ts, id)
  {
    var r := WithoutId(ts, id);
    forall k | 0 <= k < |r| ensures r[k].id != id {
      assert r[k] in r;
    }
    WithoutAbsentId(r, id);
  }

  /** Showing a toast with a fresh id and then removing that id gives the
      queue back. */
  lemma ShowThenRemove<C(!new)>(ts: seq<Toast<C>>, t: Toast<C>)
    requires forall k | 0 <= k < |ts| :: ts[k].id != t.id
    ensures WithoutId(ts + [t], t.id) == ts
  {
    WithoutIdConcat(ts, [t], t.id);
    WithoutAbsentId(ts, t.id);
    assert WithoutId([t], t.id) == [];
  }

  /** `useToast`: outside a provider there is no context, and that is an error. */
  function UseToast<T>(context: Option<T>): (r: Result<T, string>)
    ensures r.Ok? <==> context.Some?
    ensures r.Ok? ==> r.value == context.value
    ensures r.Err? ==> r.error == OutsideProviderMessage
  {
    match context
    case None => Err(OutsideProviderMessage)
    case Some(c) => Ok(c)
  }

  class ToastQueue<C(!new)> {
    /** The toasts on screen, oldest first. */
    var toasts: seq<Toast<C>>
    /** The removal timers not yet fired, in the order they fire: all share one
        delay, so they fire in the order the toasts were shown. */
    var timers: seq<Timer>

    constructor ()
      ensures toasts == [] && timers == []
    {
      toasts := [];
      timers := [];
    }

    /** `showToast`: append one toast and schedule its removal. */
    method ShowToast(message: string, variant: Option<Variant>, action: Option<Action<C>>, freshId: string)
      modifies this
      ensures toasts == old(toasts) + [Toast(freshId, message, variant.GetOr(Default), action)]
      ensures timers == old(timers) + [Timer(freshId, ExpiryMs)]
    {
      toasts := toasts + [Toast(freshId, message, variant.GetOr(Default), action)];
      timers := timers + [Timer(freshId, ExpiryMs)];
    }

    /** `removeToast`: drop every toast with that id; timers are not cancelled. */
    method RemoveToast(id: string)
      modifies this
      ensures toasts == WithoutId(old(toasts), id)
      ensures timers == old(timers)
    {
      toasts := WithoutId(toasts, id);
    }

    /** The action button of toast `i` (rendered only when it has an action):
        hands back the callback to run, once, then removes the toast. */
    method ClickAction(i: nat) returns (callback: C)
      requires i < |toasts| && toasts[i].action.Some?
      modifies this
      ensures callback == old(toasts[i]).action.value.onClick
      ensures toasts == WithoutId(old(toasts), old(toasts[i]).id)
      ensures timers == old(timers)
    {
      callback := toasts[i].action.value.onClick;
      RemoveToast(toasts[i].id);
    }

    /** The close button of toast `i`: removes it without running its action. */
    method ClickClose(i: nat)
      requires i < |toasts|
      modifies this
      ensures toasts == WithoutId(old(toasts), old(toasts[i]).id)
      ensures timers == old(timers)
    {
      RemoveToast(toasts[i].id);
    }

    /** The earliest pending timer fires and removes its toast by id, if any
        toast still has it. */
    method ExpireNext() returns (fired: Option<string>)
      modifies this
      ensures old(timers) == [] ==> fired.None? && toasts == old(toasts) && timers == []
      ensures old(timers) != [] ==>
        && fired == Some(old(timers)[0].toastId)
        && timers == old(timers)[1..]
        && toasts == WithoutId(old(toasts), old(timers)[0].toastId)
    {
      if timers == [] {
        fired := None;
        return;
      }
      var t := timers[0];
      timers := timers[1..];
      RemoveToast(t.toastId);
      fired := Some(t.toastId);
    }
  }
}
