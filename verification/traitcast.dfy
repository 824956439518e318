/**
 * The trait-to-trait casting protocol of the `traitcast` module: an object
 * answers "give me yourself as trait `id`" with an erased reference or
 * `None`, the `match_dyn_type_id!` macros build that answer from an ordered
 * list of traits, and `cast_trait_object` composes the question with the
 * downcast of the answer.
 */
module Traitcast {
  import opened Options
  import opened TypeIds
  import P = AnyDynPtrs
  import S = Scoped

  /**
   * A concrete value seen through `&self`: its address and, for every trait
   * its type implements, the vtable the compiler emits for that pair.
   */
  datatype Object = Object(addr: P.Addr, impls: map<TraitType, P.Meta>)

  /** `self as &dyn T` (or `&mut dyn T`): only well-typed when the type implements `T`. */
  function SelfAs(obj: Object, t: TraitType): (d: P.DynRef)
    requires t in obj.impls
    ensures d.pointee == t && d.thin == obj.addr
  {
    P.DynRef(t, obj.addr, obj.impls[t])
  }

  /** `self` implements every listed trait; otherwise the macro's expansion does not compile. */
  predicate Implements(obj: Object, traits: seq<TraitType>)
  {
    forall i :: 0 <= i < |traits| ==> traits[i] in obj.impls
  }

  /**
   * The branch the chain takes for `id`, if any, calls `AnyDyn::new` on a
   * trait with the fixed metadata layout, so it does not panic. Every listed
   * trait with id `id` is the same trait, so this is a condition on that one
   * trait only; the other listed traits are never erased.
   */
  predicate TakenBranchFixed(abi: P.Abi, id: DynTypeId, traits: seq<TraitType>)
  {
    forall i :: 0 <= i < |traits| && Of(traits[i]) == id ==> P.MetadataLayoutFixed(abi, traits[i])
  }

  /** `traits[i]` is the first listed trait whose id is `id`. */
  predicate FirstMatch(id: DynTypeId, traits: seq<TraitType>, i: int)
  {
    && 0 <= i < |traits|
    && Of(traits[i]) == id
    && forall j :: 0 <= j < i ==> Of(traits[j]) != id
  }

  /**
   * The chain of `match_dyn_type_id!(self, id => T1, ..., Tn)` (mode Shared)
   * and of `match_dyn_type_id_mut!` (mode Exclusive), comparing the bound id
   * with each listed trait in order: the first match yields `self` erased as
   * that trait, no match yields `None`. The expansion as written compares a
   * re-evaluated argument instead; that is `MatchExpansion.ExpandAsWritten`.
   */
  function MatchDynTypeId(abi: P.Abi, mode: S.Mode, obj: Object, id: DynTypeId, traits: seq<TraitType>)
    : (r: Option<S.Erased>)
    requires Implements(obj, traits) && TakenBranchFixed(abi, id, traits)
    ensures r.Some? <==> exists i :: 0 <= i < |traits| && Of(traits[i]) == id
    ensures r.Some? ==>
      exists i :: FirstMatch(id, traits, i) && r.value == S.New(abi, mode, SelfAs(obj, traits[i]))
    decreases |traits|
  {
    if |traits| == 0 then None
    else if id == Of(traits[0]) then Some(S.New(abi, mode, SelfAs(obj, traits[0])))
    else
      var r := MatchDynTypeId(abi, mode, obj, id, traits[1..]);
      assert forall i :: 1 <= i < |traits| ==> traits[i] == traits[1..][i - 1];
      if r.Some? then
        var k :| FirstMatch(id, traits[1..], k) && r.value == S.New(abi, mode, SelfAs(obj, traits[1..][k]));
        assert FirstMatch(id, traits, k + 1);
        r
      else r
  }

  /**
   * Reference meaning of the chain: it answers `Some` exactly when the trait
   * `id` names is in the list, and then with `self` erased as that trait.
   */
  lemma MatchByMembership(
    abi: P.Abi, mode: S.Mode, obj: Object, id: DynTypeId, traits: seq<TraitType>)
    requires Implements(obj, traits) && TakenBranchFixed(abi, id, traits)
    ensures MatchDynTypeId(abi, mode, obj, id, traits) ==
      if TraitOf(id) in traits
      then Some(S.New(abi, mode, SelfAs(obj, TraitOf(id))))
      else None
  {
  }

  /**
   * The order of the list does not matter: two lists naming the same traits
   * answer every id identically, whether or not a trait is listed twice.
   */
  lemma MatchOrderIrrelevant(
    abi: P.Abi, mode: S.Mode, obj: Object, id: DynTypeId, ts: seq<TraitType>, us: seq<TraitType>)
    requires Implements(obj, ts) && Implements(obj, us)
    requires TakenBranchFixed(abi, id, ts) && TakenBranchFixed(abi, id, us)
    requires forall t :: t in ts <==> t in us
    ensures MatchDynTypeId(abi, mode, obj, id, ts) == MatchDynTypeId(abi, mode, obj, id, us)
  {
    MatchByMembership(abi, mode, obj, id, ts);
    MatchByMembership(abi, mode, obj, id, us);
  }

  /**
   * Only the trait actually erased needs the fixed metadata layout: with the
   * list `[a, b]` where `b`'s layout differs, asking for `a` still answers
   * `self` as `a`.
   */
  lemma OffLayoutTraitNotTaken(abi: P.Abi, mode: S.Mode, obj: Object, a: TraitType, b: TraitType)
    requires a in obj.impls && b in obj.impls && a != b
    requires P.MetadataLayoutFixed(abi, a) && !P.MetadataLayoutFixed(abi, b)
    ensures Implements(obj, [a, b]) && TakenBranchFixed(abi, Of(a), [a, b])
    ensures MatchDynTypeId(abi, mode, obj, Of(a), [a, b]) == Some(S.New(abi, mode, SelfAs(obj, a)))
  {
  }

  /**
   * `match_dyn_type_id_mut!` picks the same branch as `match_dyn_type_id!`;
   * its answer differs only in being an `AnyDynMut`.
   */
  lemma MatchMutMirrorsShared(abi: P.Abi, obj: Object, id: DynTypeId, traits: seq<TraitType>)
    requires Implements(obj, traits) && TakenBranchFixed(abi, id, traits)
    ensures MatchDynTypeId(abi, S.Exclusive, obj, id, traits) ==
      match MatchDynTypeId(abi, S.Shared, obj, id, traits)
      case None => None
      case Some(w) => Some(S.FromRaw(S.Exclusive, S.AsPtr(w)))
  {
  }

  /** How a type implements `AsTraitObject::as_trait_object`. */
  datatype AsTraitObjectImpl =
    | Default                                            // the provided method: supports nothing
    | MatchList(traits: seq<TraitType>)                  // `match_dyn_type_id!(self, type_id => T1, ..., Tn)`
    | HandWritten(answers: map<DynTypeId, P.AnyDynPtr>)  // any other body: the erased pointer given per id

  /** A value behind `&dyn AsTraitObject`. */
  datatype Provider = Provider(obj: Object, impl: AsTraitObjectImpl)

  /** The provider's implementation compiles. */
  predicate WellFormed(p: Provider)
  {
    p.impl.MatchList? ==> Implements(p.obj, p.impl.traits)
  }

  /** Answering `id` does not panic: a macro-built provider erases `self` only as a trait with the fixed layout. */
  predicate AnswersWithoutPanic(abi: P.Abi, p: Provider, id: DynTypeId)
  {
    p.impl.MatchList? ==> TakenBranchFixed(abi, id, p.impl.traits)
  }

  /**
   * `obj.as_trait_object(id)`: the provider's answer, always an `AnyDyn`. The
   * default implementation answers `None` to every id.
   */
  function AsTraitObject(abi: P.Abi, p: Provider, id: DynTypeId): (r: Option<S.Erased>)
    requires WellFormed(p) && AnswersWithoutPanic(abi, p, id)
    ensures p.impl.Default? ==> r == None
    ensures r.Some? ==> r.value.mode == S.Shared
  {
    match p.impl
    case Default => None
    case MatchList(traits) => MatchDynTypeId(abi, S.Shared, p.obj, id, traits)
    case HandWritten(answers) => if id in answers then Some(S.FromRaw(S.Shared, answers[id])) else None
  }

  /**
   * `cast_trait_object::<dyn t>(obj)`: asks with exactly `DynTypeId::of::<dyn t>()`,
   * propagates `None`, and otherwise casts the answer to `t`. Whatever the
   * provider answers, a `Some` is a shared reference typed at `t`.
   */
  function CastTraitObject(abi: P.Abi, p: Provider, t: TraitType): (r: Option<S.Borrow>)
    requires WellFormed(p) && AnswersWithoutPanic(abi, p, Of(t))
    ensures AsTraitObject(abi, p, Of(t)).None? ==> r.None?
    ensures AsTraitObject(abi, p, Of(t)).Some? ==> r == S.Cast(AsTraitObject(abi, p, Of(t)).value, t)
    ensures r.Some? ==> r.value.mode == S.Shared && r.value.target.pointee == t
  {
    match AsTraitObject(abi, p, Of(t))
    case None => None
    case Some(any) => S.Cast(any, t)
  }

  /**
   * End to end for a macro-built provider: a listed trait gives back `self`
   * as that trait, at the vtable of that trait; an unlisted trait gives `None`.
   */
  lemma CastTraitObjectListed(abi: P.Abi, p: Provider, t: TraitType)
    requires WellFormed(p) && AnswersWithoutPanic(abi, p, Of(t)) && p.impl.MatchList?
    ensures t in p.impl.traits ==>
      t in p.obj.impls && CastTraitObject(abi, p, t) == Some(S.Borrow(S.Shared, SelfAs(p.obj, t)))
    ensures t !in p.impl.traits ==> CastTraitObject(abi, p, t) == None
  {
  }

  /** A provider that keeps the default supports no trait at all. */
  lemma DefaultSupportsNothing(abi: P.Abi, p: Provider, t: TraitType)
    requires p.impl.Default?
    ensures forall id :: AsTraitObject(abi, p, id) == None
    ensures CastTraitObject(abi, p, t) == None
  {
  }
}
