/**
 * The `match_dyn_type_id!` expansion exactly as written. The macro binds its
 * `$type_id` argument once (`let type_id = $type_id;`) but then compares the
 * argument expression `$type_id` again in every `else if` branch, so an
 * argument with side effects is evaluated once per branch tried, and the
 * binding is used only to silence an unused-variable warning.
 *
 * Dafny expressions are pure, so the argument is modelled by the sequence of
 * values it yields on successive evaluations: `arg(0)` is the value bound by
 * the `let`, `arg(k)` the value compared in branch `k`. The corrected chain,
 * which compares the bound value everywhere, is `Traitcast.MatchDynTypeId`.
 */
module MatchExpansion {
  import opened Options
  import opened TypeIds
  import P = AnyDynPtrs
  import S = Scoped
  import opened Traitcast

  /**
   * The branch the chain as written takes, if any, erases `self` as a trait
   * with the fixed metadata layout, so `AnyDyn::new` does not panic.
   */
  predicate TakenBranchFixedAsWritten(abi: P.Abi, arg: nat -> DynTypeId, traits: seq<TraitType>, n: nat)
    decreases |traits|
  {
    |traits| > 0 ==>
      if arg(n) == Of(traits[0]) then P.MetadataLayoutFixed(abi, traits[0])
      else TakenBranchFixedAsWritten(abi, arg, traits[1..], n + 1)
  }

  /** The branches from `traits[0]` on, where the first of them re-evaluates the argument for the `n`-th time. */
  function ChainAsWritten(
    abi: P.Abi, mode: S.Mode, obj: Object, arg: nat -> DynTypeId, traits: seq<TraitType>, n: nat)
    : (r: Option<S.Erased>)
    requires Implements(obj, traits) && TakenBranchFixedAsWritten(abi, arg, traits, n)
    ensures r.Some? ==>
      exists i :: 0 <= i < |traits| && Of(traits[i]) == arg(n + i)
                  && P.MetadataLayoutFixed(abi, traits[i]) && r.value == S.New(abi, mode, SelfAs(obj, traits[i]))
    decreases |traits|
  {
    if |traits| == 0 then None
    else if arg(n) == Of(traits[0]) then Some(S.New(abi, mode, SelfAs(obj, traits[0])))
    else
      var r := ChainAsWritten(abi, mode, obj, arg, traits[1..], n + 1);
      assert forall i :: 1 <= i < |traits| ==> traits[i] == traits[1..][i - 1];
      r
  }

  /** The whole expansion: the `let` consumes evaluation 0, the branches start at evaluation 1. */
  function ExpandAsWritten(abi: P.Abi, mode: S.Mode, obj: Object, arg: nat -> DynTypeId, traits: seq<TraitType>)
    : (r: Option<S.Erased>)
    requires Implements(obj, traits) && TakenBranchFixedAsWritten(abi, arg, traits, 1)
    ensures r.Some? ==>
      exists i :: 0 <= i < |traits| && Of(traits[i]) == arg(i + 1)
                  && P.MetadataLayoutFixed(abi, traits[i]) && r.value == S.New(abi, mode, SelfAs(obj, traits[i]))
  {
    ChainAsWritten(abi, mode, obj, arg, traits, 1)
  }

  /** When the argument yields one value from evaluation `n` on, the chain as written is the corrected chain. */
  lemma {:induction false} ChainAgreesWhenStable(
    abi: P.Abi, mode: S.Mode, obj: Object, arg: nat -> DynTypeId, traits: seq<TraitType>, n: nat)
    requires Implements(obj, traits) && TakenBranchFixed(abi, arg(n), traits)
    requires forall k :: n <= k ==> arg(k) == arg(n)
    ensures TakenBranchFixedAsWritten(abi, arg, traits, n)
    ensures ChainAsWritten(abi, mode, obj, arg, traits, n) == MatchDynTypeId(abi, mode, obj, arg(n), traits)
    decreases |traits|
  {
    if |traits| > 0 && arg(n) != Of(traits[0]) {
      assert forall i :: 1 <= i < |traits| ==> traits[i] == traits[1..][i - 1];
      assert Implements(obj, traits[1..]);
      assert arg(n + 1) == arg(n);
      assert TakenBranchFixed(abi, arg(n + 1), traits[1..]);
      ChainAgreesWhenStable(abi, mode, obj, arg, traits[1..], n + 1);
    }
  }

  /** For an argument without side effects (every evaluation gives the bound value) nothing goes wrong. */
  lemma ExpandAgreesWhenPure(abi: P.Abi, mode: S.Mode, obj: Object, arg: nat -> DynTypeId, traits: seq<TraitType>)
    requires Implements(obj, traits) && TakenBranchFixed(abi, arg(0), traits)
    requires forall k :: arg(k) == arg(0)
    ensures TakenBranchFixedAsWritten(abi, arg, traits, 1)
    ensures ExpandAsWritten(abi, mode, obj, arg, traits) == MatchDynTypeId(abi, mode, obj, arg(0), traits)
  {
    ChainAgreesWhenStable(abi, mode, obj, arg, traits, 1);
  }

  const TraitA: TraitType := DynTrait("A")
  const TraitC: TraitType := DynTrait("C")

  /** An argument with a side effect: its first evaluation yields `C`'s id, every later one `A`'s. */
  function Drifting(k: nat): DynTypeId
  {
    if k == 0 then Of(TraitC) else Of(TraitA)
  }

  /**
   * With the argument `Drifting` and the list `[A]`, the expansion as written
   * answers with `self` erased as `A`, although the id it bound names `C`;
   * the corrected chain answers `None`.
   */
  lemma ReevaluatedArgumentMatchesWrongTrait(abi: P.Abi, obj: Object)
    requires TraitA in obj.impls && P.MetadataLayoutFixed(abi, TraitA)
    ensures Implements(obj, [TraitA])
    ensures TakenBranchFixedAsWritten(abi, Drifting, [TraitA], 1) && TakenBranchFixed(abi, Drifting(0), [TraitA])
    ensures ExpandAsWritten(abi, S.Shared, obj, Drifting, [TraitA]) == Some(S.New(abi, S.Shared, SelfAs(obj, TraitA)))
    ensures S.AsPtr(ExpandAsWritten(abi, S.Shared, obj, Drifting, [TraitA]).value).typeId != Drifting(0).typeId
    ensures MatchDynTypeId(abi, S.Shared, obj, Drifting(0), [TraitA]) == None
  {
  }
}
