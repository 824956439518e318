/**
 * `AnyDyn<'a>` and `AnyDynMut<'a>`: an `AnyDynPtr` plus a lifetime marker that
 * says whether it stands for a shared `&'a dyn _` or an exclusive
 * `&'a mut dyn _`. Lifetimes are not modelled; the access mode is kept as
 * data so that casting can hand back a reference of the same mode.
 */
module Scoped {
  import opened Options
  import opened TypeIds
  import P = AnyDynPtrs

  /** Shared is `AnyDyn` / `&'a`; Exclusive is `AnyDynMut` / `&'a mut`. */
  datatype Mode = Shared | Exclusive

  /** An `AnyDyn` (mode Shared) or `AnyDynMut` (mode Exclusive). */
  datatype Erased = Erased(mode: Mode, ptr: P.AnyDynPtr)

  /** A typed reference `&'a dyn T` or `&'a mut dyn T`. */
  datatype Borrow = Borrow(mode: Mode, target: P.DynRef)

  /** `AnyDyn::from_raw` / `AnyDynMut::from_raw`: attaches a mode to a raw erased pointer. */
  function FromRaw(mode: Mode, ptr: P.AnyDynPtr): (w: Erased)
    ensures w.ptr == ptr && w.mode == mode
  {
    Erased(mode, ptr)
  }

  /** `AnyDyn::as_ptr` / `AnyDynMut::as_ptr`: the raw erased pointer inside a wrapper. */
  function AsPtr(w: Erased): (p: P.AnyDynPtr)
    ensures FromRaw(w.mode, p) == w
  {
    w.ptr
  }

  /**
   * `AnyDyn::cast` / `AnyDynMut::cast`: delegates to `AnyDynPtr::cast` with the
   * same target and turns the pointer back into a reference of the wrapper's
   * own mode.
   */
  function Cast(w: Erased, t: TraitType): (r: Option<Borrow>)
    ensures r.Some? <==> P.Cast(AsPtr(w), t).Some?
    ensures r.Some? ==> r.value == Borrow(w.mode, P.Cast(AsPtr(w), t).value)
  {
    match P.Cast(w.ptr, t)
    case None => None
    case Some(d) => Some(Borrow(w.mode, d))
  }

  /**
   * `AnyDyn::new` / `AnyDynMut::new`: erases a reference of the given mode.
   * The raw pointer inside is `AnyDynPtr::new` of the same pointer, and
   * casting back to the original trait returns the original reference.
   */
  function New(abi: P.Abi, mode: Mode, from: P.DynRef): (w: Erased)
    requires P.MetadataLayoutFixed(abi, from.pointee)
    ensures AsPtr(w) == P.New(abi, from) && w.mode == mode
    ensures Cast(w, from.pointee) == Some(Borrow(mode, from))
  {
    FromRaw(mode, P.New(abi, from))
  }

  /** `as_ptr(from_raw(p)) == p`: a wrapper adds nothing to the pointer but its mode. */
  lemma AsPtrFromRaw(mode: Mode, ptr: P.AnyDynPtr)
    ensures AsPtr(FromRaw(mode, ptr)) == ptr
    ensures FromRaw(mode, ptr).mode == mode
  {
  }

  /**
   * Casting a wrapper never changes the access mode and never hands back a
   * reference typed at a trait other than the one asked for.
   */
  lemma CastKeepsModeAndTarget(w: Erased, t: TraitType)
    requires Cast(w, t).Some?
    ensures Cast(w, t).value.mode == w.mode
    ensures Cast(w, t).value.target.pointee == t
    ensures Cast(w, t).value.target.thin == AsPtr(w).thin
  {
  }

  /** A wrapper built from a reference of trait `s` refuses every other trait. */
  lemma NewThenCastOther(abi: P.Abi, mode: Mode, from: P.DynRef, t: TraitType)
    requires P.MetadataLayoutFixed(abi, from.pointee)
    requires t != from.pointee
    ensures Cast(New(abi, mode, from), t) == None
  {
  }
}
