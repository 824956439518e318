/**
 * `AnyDynPtr`: a non-null pointer to a trait object whose trait is erased into
 * runtime data. It holds the thin address, the trait object's dispatch
 * metadata copied verbatim into an opaque slot, and the `TypeId` of the
 * trait-object type it was built from. `Cast` hands the pointer back only to
 * a caller naming that same trait-object type.
 */
module AnyDynPtrs {
  import opened Options
  import opened TypeIds

  /** A non-null address (`NonNull<()>`). */
  type Addr = n: nat | n > 0 witness 1

  /** `DynMetadata<Dyn>`: a pointer to the static vtable of one (type, trait) pair. */
  datatype Meta = VTable(vtable: Addr)

  /** Size and alignment of a type, as `core::alloc::Layout` reports them. */
  datatype Layout = Layout(size: nat, align: nat)

  /** What the compiler decides about data layout: the layout of `DynMetadata<T>` for each `T`. */
  datatype Abi = Abi(metadataLayout: Type -> Layout)

  /**
   * The implementation detail the library rests on: trait-object metadata for
   * `t` has the layout of `DynMetadata<()>`. `AnyDynPtr::new` panics instead of
   * producing a value when this fails, so it is a precondition here.
   */
  predicate MetadataLayoutFixed(abi: Abi, t: TraitType)
  {
    abi.metadataLayout(t) == abi.metadataLayout(Unit)
  }

  /** `NonNull<dyn T>`: a fat pointer, typed at trait `pointee`. */
  datatype DynRef = DynRef(pointee: TraitType, thin: Addr, meta: Meta)

  /** `AnyDynPtr { thin, metadata, type_id }`. */
  datatype AnyDynPtr = AnyDynPtr(thin: Addr, metadata: Meta, typeId: TypeId)

  /**
   * `AnyDynPtr::cast::<dyn t>()`: succeeds exactly when `t`'s `TypeId` is the
   * stored tag, and then rebuilds a pointer typed at `t` from the stored
   * address and metadata. It reads `p` only, so repeated casts agree.
   */
  function Cast(p: AnyDynPtr, t: TraitType): (r: Option<DynRef>)
    ensures r.Some? <==> p.typeId == TypeIdOf(t)
    ensures r.Some? ==> r.value.pointee == t && r.value.thin == p.thin && r.value.meta == p.metadata
  {
    if TypeIdOf(t) != p.typeId then None
    else Some(DynRef(t, p.thin, p.metadata))
  }

  /**
   * `AnyDynPtr::new(from)`: erases the trait of `from`. Casting back to the
   * same trait returns `from` itself, and no other trait is accepted.
   */
  function New(abi: Abi, from: DynRef): (p: AnyDynPtr)
    requires MetadataLayoutFixed(abi, from.pointee)
    ensures Cast(p, from.pointee) == Some(from)
    ensures forall t: TraitType {:trigger Cast(p, t)} :: Cast(p, t).Some? ==> t == from.pointee
  {
    AnyDynPtr(from.thin, from.meta, TypeIdOf(from.pointee))
  }

  /**
   * The stored metadata is only ever reinterpreted as the trait it was
   * captured from: casting an erased `from` to any trait either fails or
   * returns exactly `from`.
   */
  lemma CastNeverReinterprets(abi: Abi, from: DynRef, t: TraitType)
    requires MetadataLayoutFixed(abi, from.pointee)
    ensures Cast(New(abi, from), t) == (if t == from.pointee then Some(from) else None)
  {
  }

  /**
   * A successful cast loses nothing: erasing its answer again gives back the
   * very `AnyDynPtr` it was taken from.
   */
  lemma CastThenNew(abi: Abi, p: AnyDynPtr, t: TraitType)
    requires Cast(p, t).Some?
    requires MetadataLayoutFixed(abi, t)
    ensures New(abi, Cast(p, t).value) == p
  {
  }

  /** Erasure keeps all three parts: distinct pointers never erase to the same value. */
  lemma NewInjective(abi: Abi, a: DynRef, b: DynRef)
    requires MetadataLayoutFixed(abi, a.pointee) && MetadataLayoutFixed(abi, b.pointee)
    ensures New(abi, a) == New(abi, b) <==> a == b
  {
  }
}
