# any-dyn in Dafny

A model of the `any_dyn` crate. The crate erases the trait of a Rust trait
object into runtime data and hands a typed reference back only to a caller
who names that same trait.

The model has these parts:
- **`DynTypeId`** (`TypeIds`): the comparable identity of a `dyn Trait` type.
- **`AnyDynPtr`** (`AnyDynPtrs`): a thin address, the dispatch metadata
  (vtable pointer) and the `TypeId` tag. `new` captures all three. `cast`
  rebuilds the fat pointer only when the requested trait's id equals the tag.
- **`AnyDyn` / `AnyDynMut`** (`Scoped`): one wrapper datatype `Erased` with an
  access mode, Shared or Exclusive. Casting returns a reference of the
  wrapper's own mode.
- **The `traitcast` protocol** (`Traitcast`):
  - `AsTraitObject::as_trait_object` and its "supports nothing" default.
  - The `match_dyn_type_id!` / `match_dyn_type_id_mut!` first-match chains, as
    one recursive function with a mode parameter.
  - `cast_trait_object`.
- **The crate's tests** (`Scenarios`): `Implementer`, `NotImplementer`,
  `boxed`, `arced` and `dyn_handles`.
- **Two defects in the source** (`MatchExpansion`, `Aliasing`). Each is
  modelled as written and as corrected; see "## Findings".

Everything is a pure function over immutable datatypes. Instances are
addresses. Dispatch metadata is an opaque vtable address, copied by value.
The compiler's layout decisions are a parameter `Abi`. The one
implementation detail the crate relies on is the predicate
`MetadataLayoutFixed`: the metadata of `dyn T` has the layout of
`DynMetadata<()>`. `AnyDynPtr::new` panics when this fails, so the predicate
is a precondition of every constructor.

`TypeId` is modelled as carrying the type it identifies, so ids are equal
exactly when the types are (Rust's 128-bit hash is assumed collision-free).
Rust leaves the order of `TypeId` unspecified beyond being a consistent total
order. The model fixes one such order: kind first, then the type path,
lexicographically. It proves that this order is a strict total order.

Points where the model has to choose a reading of the code:
- `src/lib.rs:165-166` describes `AnyDynMut` as "like `&'a mut dyn Trait`", and
  that type is not `Copy`. The code derives `Copy` for `AnyDynMut`
  (`src/lib.rs:167`). The model keeps both: the as-written rule and the
  corrected rule (see "## Findings").
- The layout `assert_eq!` (`src/lib.rs:260-264`) runs on every `new`, over
  layouts that are compile-time constants. The model states it as a
  precondition of each construction. The `match_dyn_type_id!` chains construct
  only in the branch they take, so they need the layout fact only for the
  trait named by the requested id, not for every listed trait.
- In `src/tests.rs` (lines 2 and 18), the name `Dyn` stands for the shared
  wrapper `AnyDyn`.

## Model

| member | source | states |
|---|---|---|
| `TypeIds.OfInjective` | src/lib.rs:426-437 | `DynTypeId::of::<A>() == DynTypeId::of::<B>()` exactly when `A` and `B` are the same trait-object type |
| `TypeIds.Of` | src/lib.rs:430-437 | `DynTypeId::of::<dyn T>()` wraps `TypeId::of::<dyn T>()`, and the trait it names is exactly `T` |
| `TypeIds.TraitOf` | src/lib.rs:314-319 | the trait a `DynTypeId` names is the type its wrapped `TypeId` identifies; the subset type admits only trait-object types |
| `TypeIds.OfTraitOf` | src/lib.rs:314-319 | every `DynTypeId` is `DynTypeId::of` of the trait it names, so none exists for a non-trait type |
| `TypeIds.Compare` | src/lib.rs:420-424 | the derived `Ord` answers `Equal` exactly for equal ids |
| `TypeIds.DynTypeIdTotalOrder` | src/lib.rs:420-424 | the derived `Eq`/`Ord` of `DynTypeId`, taken from the wrapped `TypeId`, are a strict total order: `Equal` exactly on equal ids, swapping the arguments flips the answer, and `Less` is transitive |
| `AnyDynPtrs.New` | src/lib.rs:251-286 | the pointer built from `from` casts back to `from` itself at `from`'s trait, and no other trait is accepted |
| `AnyDynPtrs.Cast` | src/lib.rs:292-311 | `Some` exactly when the target trait's `TypeId` equals the stored tag; the answer is typed at the target trait and carries the stored address and metadata unchanged |
| `AnyDynPtrs.CastNeverReinterprets` | src/lib.rs:288-298 | casting an erased `from` gives `Some(from)` at `from`'s own trait and `None` at every other trait, so the metadata is only ever read back as the trait it came from |
| `AnyDynPtrs.CastThenNew` | src/lib.rs:299-310 | erasing the answer of a successful cast again gives back the same `AnyDynPtr` |
| `AnyDynPtrs.NewInjective` | src/lib.rs:266-285 | `new` keeps the address, metadata and trait: two fat pointers erase to the same value only if they are equal |
| `Scoped.FromRaw` | src/lib.rs:130-135 | `from_raw` keeps the given pointer unchanged and adds only the access mode |
| `Scoped.AsPtr` | src/lib.rs:154-156 | `from_raw(w.mode, as_ptr(w)) == w`: the raw pointer plus the mode is the whole wrapper |
| `Scoped.AsPtrFromRaw` | src/lib.rs:222-224 | `as_ptr(from_raw(p)) == p` for both `AnyDyn` and `AnyDynMut` |
| `Scoped.New` | src/lib.rs:113-120 | `AnyDyn::new(x).as_ptr() == AnyDynPtr::new(x)` with mode Shared (likewise `AnyDynMut::new`, lines 181-188, with mode Exclusive); casting back to `x`'s trait returns `x` with that mode |
| `Scoped.Cast` | src/lib.rs:141-150 | `AnyDyn::cast` (and `AnyDynMut::cast`, lines 209-218) is `Some` exactly when `AnyDynPtr::cast` with the same target is, and then returns that pointer as a reference of the wrapper's mode |
| `Scoped.CastKeepsModeAndTarget` | src/lib.rs:205-218 | a successful cast of an `AnyDynMut` returns an exclusive reference, and of an `AnyDyn` a shared one; it is typed at the requested trait and points at the wrapper's address |
| `Scoped.NewThenCastOther` | src/lib.rs:137-140 | a wrapper built from a reference to trait `s` refuses every trait other than `s` |
| `Traitcast.SelfAs` | src/traitcast.rs:111 | `self as &dyn T` points at `self`'s address and is typed at `T` |
| `Traitcast.MatchDynTypeId` | src/traitcast.rs:100-118 | the chain, comparing the bound id, answers `Some` exactly when some listed trait has the requested id; the answer is `self` erased as the FIRST such trait; otherwise `None`, so unlisted traits are never matched. Only the trait erased needs the fixed layout, since `AnyDyn::new` runs only in the branch taken |
| `Traitcast.OffLayoutTraitNotTaken` | src/traitcast.rs:109-112 | with `[a, b]` where `b`'s metadata layout differs, asking for `a` still answers `self` as `a`: the branch for `b` is never built |
| `Traitcast.MatchByMembership` | src/traitcast.rs:174-197 | reference meaning of the chain: `Some(AnyDyn::new(self as &dyn T))` when the id names a listed trait `T`, and `None` otherwise |
| `Traitcast.MatchOrderIrrelevant` | src/traitcast.rs:109-113 | two lists naming the same traits, in any order and even with repeats, answer every id the same way |
| `Traitcast.MatchMutMirrorsShared` | src/traitcast.rs:123-141 | `match_dyn_type_id_mut!` takes the same branch as `match_dyn_type_id!`; its answer differs only in being an `AnyDynMut` |
| `Traitcast.AsTraitObject` | src/traitcast.rs:42-45 | the default `as_trait_object` answers `None` for every id, and any answer is a shared `AnyDyn` |
| `Traitcast.CastTraitObject` | src/traitcast.rs:90-96 | asks with exactly `DynTypeId::of::<T>()`; `None` from the provider gives `None`, and otherwise the result is `AnyDyn::cast::<T>` of the answer; any `Some` is a shared reference typed at `T`, whatever the provider answered. A macro provider needs the fixed layout only for `T`, the one trait it erases |
| `Traitcast.CastTraitObjectListed` | src/traitcast.rs:48-51 | for a provider built with the macro, a listed `T` gives `Some` reference to `self` with `T`'s vtable, and an unlisted `T` gives `None` |
| `Traitcast.DefaultSupportsNothing` | src/traitcast.rs:30-45 | a provider that keeps the default refuses every id, so `cast_trait_object` is `None` for every trait |
| `MatchExpansion.ChainAsWritten` | src/traitcast.rs:109-113 | the branches as written: a match is found only where a listed trait's id equals the value the argument yields when it is evaluated again for that branch |
| `MatchExpansion.ExpandAsWritten` | src/traitcast.rs:101-118 | the whole expansion as written: the `let` uses the first evaluation and branch `i` uses evaluation `i + 1` |
| `MatchExpansion.ChainAgreesWhenStable` | src/traitcast.rs:110 | once the argument yields the same value on every later evaluation, the branches as written answer like the corrected chain |
| `MatchExpansion.ExpandAgreesWhenPure` | src/traitcast.rs:103-110 | for an argument without side effects, the expansion as written equals the corrected chain |
| `MatchExpansion.ReevaluatedArgumentMatchesWrongTrait` | src/traitcast.rs:103-110 | with an argument whose evaluations drift from `C`'s id to `A`'s, the expansion as written returns `self` erased as `A` while the bound id names the unlisted `C`; the corrected chain returns `None` |
| `Aliasing.Origin` | src/lib.rs:181-188 | right after `AnyDynMut::new` or `AnyDyn::new`, an exclusive value is the only live value |
| `Aliasing.Step` | src/lib.rs:167-171 | one use by value: it fails to compile exactly when the value is missing, a non-`Copy` value is duplicated, or a reference is cast; every other live value stays live, a `Copy` value stays live, and the only new value is the reference the cast returns |
| `Aliasing.CorrectedStepKeepsExclusiveUnique` | src/lib.rs:159-171 | if only shared values are `Copy`, no use that compiles (a duplication or a by-value cast) can make an exclusive value non-unique |
| `Aliasing.CorrectedRunKeepsExclusiveUnique` | src/lib.rs:205-218 | under the corrected rule, any sequence of uses that compiles keeps an exclusive value unique |
| `Aliasing.AsWrittenCastsExclusiveTwice` | src/lib.rs:167-171 | under the derived `Copy`, casting one `AnyDynMut` twice compiles and leaves two live `&mut` to the same object; under the corrected rule the second cast does not compile |
| `Scenarios.ProviderOf` | src/tests.rs:17-26 | each handle is its instance at its address; `Implementer` implements `WithMessage` and answers with the macro, `NotImplementer` implements no trait and keeps the default |
| `Scenarios.Message` | src/tests.rs:28-32 | `message()` dispatched through `Implementer`'s `WithMessage` vtable runs `Implementer::message` |
| `Scenarios.ImplementerExposesOnlyWithMessage` | src/tests.rs:17-21 | `Implementer` answers `Some` for exactly the id of `dyn WithMessage` |
| `Scenarios.NotImplementerExposesNothing` | src/tests.rs:23-26 | `NotImplementer` answers `None` for every id, and the cast to `WithMessage` is `None` |
| `Scenarios.CastToWithMessage` | src/tests.rs:41-42 | the cast to `dyn WithMessage` gives `Implementer`'s instance with its `WithMessage` vtable, and `None` for `NotImplementer` |
| `Scenarios.Boxed` | src/tests.rs:39-43 | `boxed`: the cast succeeds and `message()` returns "hello from implementer" |
| `Scenarios.Arced` | src/tests.rs:51-57 | `arced`: the cast reference points at the instance the second owner holds, and both report the same message |
| `Scenarios.HandleMessage` | src/tests.rs:96-102 | the `dyn_handles` closure gives `Some("hello from implementer")` for an `Implementer` and `None` for a `NotImplementer` |
| `Scenarios.Messages` | src/tests.rs:94-103 | mapping that closure over a list keeps its length and gives each position the answer for its own handle |
| `Scenarios.DynHandles` | src/tests.rs:83-113 | `[Implementer, NotImplementer, Implementer, NotImplementer]` gives `[Some(msg), None, Some(msg), None]` |

## Left out

- Raw memory mechanics are not modelled. This covers `MaybeUninit`, `copy_nonoverlapping`, `ptr::read`, `from_raw_parts_mut` and `NonNull::new_unchecked` (src/lib.rs:274-279, 299-310). Metadata is an opaque value copied by assignment, and the tag check is what makes reading it back sound.
- The layout computation (`Layout::new`, src/lib.rs:260-264) is not modelled. It depends on the compiler. It appears only as the `Abi` parameter and the `MetadataLayoutFixed` precondition. The panic is modelled by that precondition, not as a value. For the macro chains and `cast_trait_object` the precondition covers only the trait the requested id names.
- Lifetimes, `PhantomData` and the safety obligation of the `unsafe` `from_raw` are left out. These are compile-time matters. Only the Shared/Exclusive mode is kept, and `Aliasing` tracks which values are live.
- `TypeId` is the identified type itself, not a 128-bit hash. Hash collisions, which Rust assumes do not happen, are outside the model. The concrete `Ord` of `TypeId` is replaced by one consistent total order.
- The derived `Debug` and `Hash` implementations are left out. They add no behaviour to the protocol.
- `Box`, `Arc` and `Vec` in the tests, and the `println!` in the doc examples, are left out. Instances are addresses, and `message()` is looked up through the vtable the reference carries.
- A hand-written `as_trait_object` (like the `HelloWorld` doc example, src/lib.rs:375-394) is modelled only as a table from id to the erased pointer it returns.
- `match_dyn_type_id!` needs at least one trait by its syntax. The model's chain also accepts an empty list, and then answers `None` like the final `else`.
- The macros also evaluate their `$self` argument twice, once in the unused `let v` and once in the branch taken. This is not modelled, because the argument is `self` in every use.
- The unused alias `AnyDynMutUsed` (src/traitcast.rs:246-247) is left out.

## Findings

| source | as written | input that shows it | evidently intended | confidence | as-written member | corrected member |
|---|---|---|---|---|---|---|
| src/lib.rs:167-171 | `AnyDynMut<'a>` stands for `&'a mut dyn _` but derives `Clone, Copy`, so `cast(self)` leaves the wrapper usable | `let w = AnyDynMut::new(&mut x as &mut dyn T);` then `w.cast::<dyn T>()` twice: two live `&'a mut dyn T` to `x`, in safe code | `AnyDynMut` is neither `Copy` nor `Clone`, like `&mut`, so a cast consumes it | not executed; high | `Aliasing.AsWrittenCastsExclusiveTwice` | `Aliasing.CorrectedRunKeepsExclusiveUnique` |
| src/traitcast.rs:103-110 | the macro binds `let type_id = $type_id;` but compares the expression `$type_id` again in every branch, so the argument is evaluated once per branch tried | `match_dyn_type_id!(self, next_id() => A)` where `next_id()` first yields `C`'s id and then `A`'s: the answer is `self` as `A`, although the id bound was `C`'s | every branch compares the bound `type_id` | not executed; medium: the defect shows only with a side-effecting argument, and every call in the crate (src/tests.rs:19, src/traitcast.rs:67, 165, 231) passes the plain variable `type_id` | `MatchExpansion.ReevaluatedArgumentMatchesWrongTrait` | `Traitcast.MatchDynTypeId` |
