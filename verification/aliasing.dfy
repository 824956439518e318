/**
 * Aliasing across the erasure boundary. Starting from one reference handed
 * to `AnyDyn::new` or `AnyDynMut::new`, the program holds a collection of live
 * values derived from it: wrappers and the references cast out of them. The
 * rule the wrappers exist to keep is that an exclusive value is the only live
 * value derived from its origin.
 *
 * Rust lets a value be used again after `cast(self)` or be duplicated only
 * if its type is `Copy`/`Clone`. As written, both `AnyDyn` and `AnyDynMut`
 * derive `Clone, Copy`; the corrected rule makes only shared values
 * duplicable, as `&T` is and `&mut T` is not.
 */
module Aliasing {
  import opened Options
  import opened TypeIds
  import P = AnyDynPtrs
  import S = Scoped

  /** A live value derived from one original reference. */
  datatype Live = Handle(w: S.Erased) | Ref(b: S.Borrow)

  function ModeOf(l: Live): S.Mode
  {
    match l
    case Handle(w) => w.mode
    case Ref(b) => b.mode
  }

  /** The duplication rule as written: both wrappers derive `Clone, Copy`, references follow `&`/`&mut`. */
  predicate DerivesCopyAsWritten(l: Live)
  {
    l.Handle? || l.b.mode == S.Shared
  }

  /** The corrected rule: exactly the shared values are `Copy`. */
  predicate IsCopy(l: Live)
  {
    ModeOf(l) == S.Shared
  }

  /** An exclusive live value is the only live value. */
  predicate ExclusiveIsUnique(live: seq<Live>)
  {
    forall i :: 0 <= i < |live| && ModeOf(live[i]) == S.Exclusive ==> |live| == 1
  }

  /** The program's uses of live values. */
  datatype Use =
    | Duplicate(i: nat)              // `let y = x;` followed by a use of `x`, or `x.clone()`
    | CastAt(i: nat, t: TraitType)   // `x.cast::<dyn t>()`, which takes `x` by value

  function Remove(live: seq<Live>, i: nat): (r: seq<Live>)
    requires i < |live|
    ensures |r| == |live| - 1
    ensures forall j :: 0 <= j < |r| ==> r[j] == (if j < i then live[j] else live[j + 1])
  {
    live[..i] + live[i + 1..]
  }

  /**
   * One use under a duplication rule `copy`. `None` means the program does not
   * compile: the value was moved, is not `Copy`, or is not a wrapper. A use
   * by value keeps the value alive only if it is `Copy`; a successful cast
   * adds the reference it returns.
   */
  function Step(live: seq<Live>, u: Use, copy: Live -> bool): (r: Option<seq<Live>>)
    ensures r.None? <==>
      || u.i >= |live|
      || (u.Duplicate? && !copy(live[u.i]))
      || (u.CastAt? && !live[u.i].Handle?)
    ensures r.Some? ==> forall j :: 0 <= j < |live| && j != u.i ==> live[j] in r.value
    ensures r.Some? && copy(live[u.i]) ==> live[u.i] in r.value
    ensures r.Some? ==> forall x :: x in r.value && x !in live ==>
      u.CastAt? && x.Ref? && S.Cast(live[u.i].w, u.t) == Some(x.b)
  {
    match u
    case Duplicate(i) =>
      if i < |live| && copy(live[i]) then Some(live + [live[i]]) else None
    case CastAt(i, t) =>
      if i < |live| && live[i].Handle? then
        var rest := if copy(live[i]) then live else Remove(live, i);
        match S.Cast(live[i].w, t)
        case None => Some(rest)
        case Some(b) => Some(rest + [Ref(b)])
      else None
  }

  /** A sequence of uses; `None` if any of them does not compile. */
  function Run(live: seq<Live>, uses: seq<Use>, copy: Live -> bool): Option<seq<Live>>
    decreases |uses|
  {
    if |uses| == 0 then Some(live)
    else match Step(live, uses[0], copy)
      case None => None
      case Some(next) => Run(next, uses[1..], copy)
  }

  /** The live values right after erasing `from` with `AnyDyn::new` or `AnyDynMut::new`. */
  function Origin(abi: P.Abi, mode: S.Mode, from: P.DynRef): (live: seq<Live>)
    requires P.MetadataLayoutFixed(abi, from.pointee)
    ensures ExclusiveIsUnique(live)
  {
    [Handle(S.New(abi, mode, from))]
  }

  /** Under the corrected rule every compiling use keeps an exclusive value unique. */
  lemma CorrectedStepKeepsExclusiveUnique(live: seq<Live>, u: Use)
    requires ExclusiveIsUnique(live)
    requires Step(live, u, IsCopy).Some?
    ensures ExclusiveIsUnique(Step(live, u, IsCopy).value)
  {
  }

  /** Under the corrected rule any sequence of compiling uses keeps an exclusive value unique. */
  lemma {:induction false} CorrectedRunKeepsExclusiveUnique(live: seq<Live>, uses: seq<Use>)
    requires ExclusiveIsUnique(live)
    ensures Run(live, uses, IsCopy).Some? ==> ExclusiveIsUnique(Run(live, uses, IsCopy).value)
    decreases |uses|
  {
    if |uses| > 0 {
      var next := Step(live, uses[0], IsCopy);
      if next.Some? {
        CorrectedStepKeepsExclusiveUnique(live, uses[0]);
        CorrectedRunKeepsExclusiveUnique(next.value, uses[1..]);
      }
    }
  }

  /**
   * As written, casting one `AnyDynMut` twice compiles (it is `Copy`) and
   * leaves two live `&mut dyn T` to the same object: the second cast is the
   * one the corrected rule rejects.
   */
  lemma AsWrittenCastsExclusiveTwice(abi: P.Abi, from: P.DynRef)
    requires P.MetadataLayoutFixed(abi, from.pointee)
    ensures var uses := [CastAt(0, from.pointee), CastAt(0, from.pointee)];
      && Run(Origin(abi, S.Exclusive, from), uses, DerivesCopyAsWritten).Some?
      && var live := Run(Origin(abi, S.Exclusive, from), uses, DerivesCopyAsWritten).value;
      && |live| == 3
      && live[1] == Ref(S.Borrow(S.Exclusive, from)) && live[2] == Ref(S.Borrow(S.Exclusive, from))
      && !ExclusiveIsUnique(live)
      && Run(Origin(abi, S.Exclusive, from), uses, IsCopy).None?
  {
    var h := Handle(S.New(abi, S.Exclusive, from));
    var b := Ref(S.Borrow(S.Exclusive, from));
    var uses := [CastAt(0, from.pointee), CastAt(0, from.pointee)];
    assert Origin(abi, S.Exclusive, from) == [h];
    // As written: the wrapper stays live after each cast.
    assert [h] + [b] == [h, b] && [h, b] + [b] == [h, b, b];
    assert Step([h], uses[0], DerivesCopyAsWritten) == Some([h, b]);
    assert Step([h, b], uses[1], DerivesCopyAsWritten) == Some([h, b, b]);
    assert uses[1..][1..] == [];
    assert Run([h, b], uses[1..], DerivesCopyAsWritten) == Some([h, b, b]);
    assert Run([h], uses, DerivesCopyAsWritten) == Some([h, b, b]);
    assert !ExclusiveIsUnique([h, b, b]) by {
      assert ModeOf([h, b, b][1]) == S.Exclusive;
    }
    // Corrected: the first cast consumes the wrapper, so there is nothing left to cast.
    assert Remove([h], 0) == [] && [] + [b] == [b];
    assert Step([h], uses[0], IsCopy) == Some([b]);
    assert Step([b], uses[1], IsCopy) == None;
    assert Run([b], uses[1..], IsCopy) == None;
  }
}
