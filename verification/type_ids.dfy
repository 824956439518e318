/**
 * Type identities: the compiler's per-type token `TypeId`, and `DynTypeId`,
 * the same token restricted to trait-object (`dyn Trait`) types, which is the
 * runtime name of a trait in the capability-query protocol.
 *
 * `TypeId` is modelled as carrying the type it identifies, so two ids are
 * equal exactly when they name the same type. The ordering of `TypeId` is
 * unspecified by the language beyond being a consistent total order; the
 * model fixes one such order (type kind first, then the type's path,
 * lexicographically) and proves it is a strict total order.
 */
module TypeIds {

  /** A Rust type, as far as identities are concerned. */
  datatype Type =
    | DynTrait(path: string)   // `dyn path`, a trait-object type
    | Named(path: string)      // any other `'static` type

  /** The types `DynTypeId::of` accepts: those whose pointer metadata is `DynMetadata<Self>`. */
  type TraitType = t: Type | t.DynTrait? witness DynTrait("")

  /** The unit type `()`, whose `DynMetadata<()>` is the erased metadata's layout. */
  const Unit: Type := Named("()")

  /** `core::any::TypeId`: one token per type for the life of the process. */
  datatype TypeId = TypeId(ty: Type)

  /** `TypeId::of::<T>()`. */
  function TypeIdOf(t: Type): TypeId
  {
    TypeId(t)
  }

  datatype Ordering = Less | Equal | Greater

  function Flip(o: Ordering): Ordering
  {
    match o
    case Less => Greater
    case Equal => Equal
    case Greater => Less
  }

  /** Lexicographic comparison of two paths. */
  function CompareStrings(a: string, b: string): Ordering
    decreases |a|
  {
    if |a| == 0 && |b| == 0 then Equal
    else if |a| == 0 then Less
    else if |b| == 0 then Greater
    else if a[0] < b[0] then Less
    else if b[0] < a[0] then Greater
    else CompareStrings(a[1..], b[1..])
  }

  function KindRank(t: Type): nat
  {
    if t.DynTrait? then 0 else 1
  }

  /** The `Ord` of `TypeId`. */
  function CompareTypeIds(a: TypeId, b: TypeId): Ordering
  {
    if KindRank(a.ty) < KindRank(b.ty) then Less
    else if KindRank(b.ty) < KindRank(a.ty) then Greater
    else CompareStrings(a.ty.path, b.ty.path)
  }

  /** The representation of `DynTypeId`: a transparent wrapper of a `TypeId`. */
  datatype DynTypeIdRep = DynTypeIdRep(typeId: TypeId)

  /**
   * `DynTypeId`: the wrapper can only be built for trait-object types, so
   * every value identifies some `dyn Trait`.
   */
  type DynTypeId = d: DynTypeIdRep | d.typeId.ty.DynTrait? witness DynTypeIdRep(TypeId(DynTrait("")))

  /** Recovers the trait a `DynTypeId` names: the type its `TypeId` identifies. */
  function TraitOf(id: DynTypeId): (t: TraitType)
    ensures TypeIdOf(t) == id.typeId
  {
    id.typeId.ty
  }

  /** `DynTypeId::of::<dyn T>()`: wraps `TypeId::of::<dyn T>()`, and so names exactly `T`. */
  function Of(t: TraitType): (id: DynTypeId)
    ensures id.typeId == TypeIdOf(t)
    ensures TraitOf(id) == t
  {
    DynTypeIdRep(TypeIdOf(t))
  }

  /** The derived `Ord` of `DynTypeId`, which compares the wrapped `TypeId`; `Equal` means the same id. */
  function Compare(a: DynTypeId, b: DynTypeId): (o: Ordering)
    ensures o == Equal <==> a == b
  {
    CompareStringsEqual(a.typeId.ty.path, b.typeId.ty.path);
    CompareTypeIds(a.typeId, b.typeId)
  }

  /** Every `DynTypeId` is `DynTypeId::of` the trait it names. */
  lemma OfTraitOf(id: DynTypeId)
    ensures Of(TraitOf(id)) == id
  {
  }

  /** Two trait ids are equal exactly when they name the same trait-object type. */
  lemma OfInjective(s: TraitType, t: TraitType)
    ensures Of(s) == Of(t) <==> s == t
  {
  }

  lemma {:induction false} CompareStringsEqual(a: string, b: string)
    ensures CompareStrings(a, b) == Equal <==> a == b
    decreases |a|
  {
    if |a| > 0 && |b| > 0 && a[0] == b[0] {
      CompareStringsEqual(a[1..], b[1..]);
      if a[1..] == b[1..] {
        assert a == [a[0]] + a[1..] && b == [b[0]] + b[1..];
      }
    }
  }

  lemma {:induction false} CompareStringsFlip(a: string, b: string)
    ensures CompareStrings(b, a) == Flip(CompareStrings(a, b))
    decreases |a|
  {
    if |a| > 0 && |b| > 0 && a[0] == b[0] {
      CompareStringsFlip(a[1..], b[1..]);
    }
  }

  lemma {:induction false} CompareStringsTransitive(a: string, b: string, c: string)
    requires CompareStrings(a, b) == Less && CompareStrings(b, c) == Less
    ensures CompareStrings(a, c) == Less
    decreases |a|
  {
    if |a| > 0 && |b| > 0 && |c| > 0 && a[0] == b[0] && b[0] == c[0] {
      CompareStringsTransitive(a[1..], b[1..], c[1..]);
    }
  }

  /**
   * The derived `Eq`/`Ord` of `DynTypeId` form a strict total order that
   * agrees with equality: `Equal` exactly for the same id, swapping the
   * arguments flips the answer, and `Less` is transitive.
   */
  lemma DynTypeIdTotalOrder(a: DynTypeId, b: DynTypeId, c: DynTypeId)
    ensures Compare(a, b) == Equal <==> a == b
    ensures Compare(b, a) == Flip(Compare(a, b))
    ensures Compare(a, b) == Less && Compare(b, c) == Less ==> Compare(a, c) == Less
  {
    var ta, tb, tc := a.typeId.ty, b.typeId.ty, c.typeId.ty;
    CompareStringsEqual(ta.path, tb.path);
    CompareStringsFlip(ta.path, tb.path);
    if Compare(a, b) == Less && Compare(b, c) == Less
       && KindRank(ta) == KindRank(tb) == KindRank(tc) {
      CompareStringsTransitive(ta.path, tb.path, tc.path);
    }
  }
}
