/**
 * The crate's own usage scenarios: a type `Implementer` that exposes its
 * `WithMessage` implementation through `match_dyn_type_id!`, a type
 * `NotImplementer` that keeps the default `as_trait_object`, and the `boxed`,
 * `arced` and `dyn_handles` uses of `cast_trait_object`. Boxes, `Arc`s and
 * `Vec`s only decide where the instances live, so instances are addresses.
 */
module Scenarios {
  import opened Options
  import opened TypeIds
  import P = AnyDynPtrs
  import S = Scoped
  import opened Traitcast

  /** `dyn WithMessage`. */
  const WithMessage: TraitType := DynTrait("tests::WithMessage")

  /** The static vtable the compiler emits for `impl WithMessage for Implementer`. */
  const ImplementerWithMessage: P.Meta := P.VTable(1)

  /** What `WithMessage::message` returns when dispatched through each vtable of the program. */
  const MessageImpls: map<P.Meta, string> := map[ImplementerWithMessage := "hello from implementer"]

  /** `r.message()` on an `&dyn WithMessage`: a call through the vtable `r` carries. */
  function Message(r: P.DynRef): (m: string)
    requires r.pointee == WithMessage && r.meta in MessageImpls
    ensures r.meta == ImplementerWithMessage ==> m == ImplementerMessage()
  {
    MessageImpls[r.meta]
  }

  /** `Implementer::message`, called on the concrete type without any vtable. */
  function ImplementerMessage(): string
  {
    "hello from implementer"
  }

  /** The two kinds of handle the scenarios store, each at some address. */
  datatype Handle = Implementer(addr: P.Addr) | NotImplementer(addr: P.Addr)

  /** A handle seen as `&dyn AsTraitObject`. */
  function ProviderOf(h: Handle): (p: Provider)
    ensures WellFormed(p) && p.obj.addr == h.addr
    ensures WithMessage in p.obj.impls <==> h.Implementer?
    ensures p.impl.Default? <==> h.NotImplementer?
  {
    match h
    case Implementer(a) => Provider(Object(a, map[WithMessage := ImplementerWithMessage]), MatchList([WithMessage]))
    case NotImplementer(a) => Provider(Object(a, map[]), Default)
  }

  /** `Implementer` exposes exactly `WithMessage`: every other id is refused. */
  lemma ImplementerExposesOnlyWithMessage(abi: P.Abi, a: P.Addr, id: DynTypeId)
    requires P.MetadataLayoutFixed(abi, WithMessage)
    ensures WellFormed(ProviderOf(Implementer(a)))
    ensures AsTraitObject(abi, ProviderOf(Implementer(a)), id).Some? <==> id == Of(WithMessage)
  {
  }

  /** `NotImplementer` keeps the default and refuses every id, `WithMessage`'s included. */
  lemma NotImplementerExposesNothing(abi: P.Abi, a: P.Addr, id: DynTypeId)
    ensures AsTraitObject(abi, ProviderOf(NotImplementer(a)), id) == None
    ensures CastTraitObject(abi, ProviderOf(NotImplementer(a)), WithMessage) == None
  {
  }

  /** `cast_trait_object::<dyn WithMessage>` on either kind of handle. */
  lemma CastToWithMessage(abi: P.Abi, h: Handle)
    requires P.MetadataLayoutFixed(abi, WithMessage)
    ensures WellFormed(ProviderOf(h))
    ensures CastTraitObject(abi, ProviderOf(h), WithMessage) ==
      if h.Implementer? then Some(S.Borrow(S.Shared, P.DynRef(WithMessage, h.addr, ImplementerWithMessage)))
      else None
  {
  }

  /** `boxed`: the cast succeeds and `message()` returns "hello from implementer". */
  lemma Boxed(abi: P.Abi, a: P.Addr)
    requires P.MetadataLayoutFixed(abi, WithMessage)
    ensures WellFormed(ProviderOf(Implementer(a)))
    ensures var r := CastTraitObject(abi, ProviderOf(Implementer(a)), WithMessage);
      && r.Some?
      && r.value.target.meta in MessageImpls
      && Message(r.value.target) == "hello from implementer"
  {
  }

  /**
   * `arced`: the reference obtained by casting points at the same instance a
   * second owner holds, and the message through it equals the one the second
   * owner gets by calling `Implementer::message` directly.
   */
  lemma Arced(abi: P.Abi, a: P.Addr)
    requires P.MetadataLayoutFixed(abi, WithMessage)
    ensures WellFormed(ProviderOf(Implementer(a)))
    ensures var r := CastTraitObject(abi, ProviderOf(Implementer(a)), WithMessage);
      && r.Some?
      && r.value.target.thin == a
      && r.value.target.meta in MessageImpls
      && Message(r.value.target) == ImplementerMessage()
  {
  }

  /** The closure of `dyn_handles`: cast a handle to `WithMessage` and, if that works, ask for its message. */
  function HandleMessage(abi: P.Abi, h: Handle): (r: Option<string>)
    requires P.MetadataLayoutFixed(abi, WithMessage)
    ensures r == if h.Implementer? then Some(ImplementerMessage()) else None
  {
    CastToWithMessage(abi, h);
    match CastTraitObject(abi, ProviderOf(h), WithMessage)
    case None => None
    case Some(b) => Some(Message(b.target))
  }

  /** `objs.iter().map(..).collect()` in `dyn_handles`. */
  function Messages(abi: P.Abi, hs: seq<Handle>): (r: seq<Option<string>>)
    requires P.MetadataLayoutFixed(abi, WithMessage)
    ensures |r| == |hs|
    ensures forall i :: 0 <= i < |hs| ==> r[i] == if hs[i].Implementer? then Some(ImplementerMessage()) else None
  {
    if |hs| == 0 then []
    else [HandleMessage(abi, hs[0])] + Messages(abi, hs[1..])
  }

  /** `dyn_handles`: `[Implementer, NotImplementer, Implementer, NotImplementer]` gives `[Some(msg), None, Some(msg), None]`. */
  lemma DynHandles(abi: P.Abi, a0: P.Addr, a1: P.Addr, a2: P.Addr, a3: P.Addr)
    requires P.MetadataLayoutFixed(abi, WithMessage)
    ensures Messages(abi, [Implementer(a0), NotImplementer(a1), Implementer(a2), NotImplementer(a3)])
      == [Some("hello from implementer"), None, Some("hello from implementer"), None]
  {
  }
}
