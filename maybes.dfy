/** The optional container `Maybe<T>` of src/Maybe.cs.

    The C# payload of a `Just` is a value of type `T`, which may be the null
    reference, so the payload is a `Nullable<T>` here and callbacks take and
    return `Nullable` values. The factory collapses a null payload into `None`,
    but `Select` wraps the callback's result as it is, so `Just(Null)` is a
    reachable value. */
module Maybes {
  import opened Nulls

  datatype Maybe<T> = None | Just(value: Nullable<T>)

  /** Holds of every container the factory builds: no `Just` carries null. */
  predicate Normalized<T>(m: Maybe<T>)
  {
    m.Just? ==> m.value.NonNull?
  }

  /** `Maybe<T>.Just(value)` and the implicit conversion from `T`:
      null becomes `None`, anything else `Just(value)`; never fails. */
  function Of<T>(v: Nullable<T>): (m: Maybe<T>)
    ensures v.Null? ==> m == None
    ensures v.NonNull? ==> m.Just? && m.value == v
    ensures Normalized(m)
  {
    if v.NonNull? then Just(v) else None
  }

  /** Case analysis: `onJust` on the payload of a `Just`, the thunk `onNone` otherwise. */
  function Match<T, R>(m: Maybe<T>, onJust: Nullable<T> -> R, onNone: () -> R): (r: R)
    ensures m.None? ==> r == onNone()
    ensures m.Just? ==> r == onJust(m.value)
  {
    match m
    case None => onNone()
    case Just(v) => onJust(v)
  }

  /** Functor map. The result of `f` is wrapped without normalization. */
  function Select<T, R>(m: Maybe<T>, f: Nullable<T> -> Nullable<R>): (r: Maybe<R>)
    ensures m.None? ==> r == None
    ensures m.Just? ==> r.Just? && r.value == f(m.value)
  {
    match m
    case None => None
    case Just(v) => Just(f(v))
  }

  /** Monadic bind: the continuation's result on a `Just`, `None` otherwise. */
  function SelectMany<T, R>(m: Maybe<T>, f: Nullable<T> -> Maybe<R>): (r: Maybe<R>)
    ensures m.None? ==> r == None
    ensures m.Just? ==> r == f(m.value)
  {
    match m
    case None => None
    case Just(v) => f(v)
  }

  /** The combining overload of `SelectMany`, derived from bind and map. */
  function SelectManyWith<T, U, R>(m: Maybe<T>, f: Nullable<T> -> Maybe<U>,
                                   trans: (Nullable<T>, Nullable<U>) -> Nullable<R>): (r: Maybe<R>)
    ensures m.None? ==> r == None
    ensures m.Just? && f(m.value).None? ==> r == None
    ensures m.Just? && f(m.value).Just? ==> r == Just(trans(m.value, f(m.value).value))
  {
    SelectMany(m, x => Select(f(x), y => trans(x, y)))
  }

  /** `Equals(Maybe<T>? maybe)`, written as the source writes it, through `Match`.
      Payload equality `val.Equals(v)` is Dafny equality; it is false when `v` is null. */
  function Equals<T(==)>(m: Maybe<T>, other: Nullable<Maybe<T>>): (b: bool)
    ensures b <==> other == NonNull(m)
  {
    match m
    case None =>
      other.NonNull? && Match(other.value, _ => false, () => true)
    case Just(val) =>
      other.NonNull? && Match(other.value, (v: Nullable<T>) => (val.Null? && v.Null?) || (val.NonNull? && val == v), () => false)
  }

  // ----- Equality, case by case -----

  lemma EqualsCases<T>(a: Nullable<T>, b: Nullable<T>)
    ensures Equals<T>(None, NonNull(None))
    ensures !Equals(None, NonNull(Just(a))) && !Equals(Just(a), NonNull(None))
    ensures Equals(Just(a), NonNull(Just(b))) <==> (a.Null? && b.Null?) || (a.NonNull? && b.NonNull? && a.value == b.value)
    ensures !Equals(Just(a), Null) && !Equals<T>(None, Null)
  {
  }

  lemma EqualsIsEquivalence<T>(x: Maybe<T>, y: Maybe<T>, z: Maybe<T>)
    ensures Equals(x, NonNull(x))
    ensures Equals(x, NonNull(y)) ==> Equals(y, NonNull(x))
    ensures Equals(x, NonNull(y)) && Equals(y, NonNull(z)) ==> Equals(x, NonNull(z))
  {
  }

  // ----- Match is the one primitive the other operations derive from -----

  lemma MatchRebuilds<T>(m: Maybe<T>)
    ensures Match(m, v => Just(v), () => None) == m
  {
  }

  lemma SelectViaMatch<T, R>(m: Maybe<T>, f: Nullable<T> -> Nullable<R>)
    ensures Select(m, f) == Match(m, v => Just(f(v)), () => None)
  {
  }

  lemma SelectManyViaMatch<T, R>(m: Maybe<T>, f: Nullable<T> -> Maybe<R>)
    ensures SelectMany(m, f) == Match(m, f, () => None)
  {
  }

  // ----- Functor laws, each also in the form the tests check it, through Equals -----

  lemma SelectIdentity<T>(m: Maybe<T>)
    ensures Select(m, x => x) == m
    ensures Equals(m, NonNull(Select(m, x => x)))
  {
  }

  lemma SelectComposition<T, U, R>(m: Maybe<T>, f: Nullable<T> -> Nullable<U>, g: Nullable<U> -> Nullable<R>)
    ensures Select(Select(m, f), g) == Select(m, x => g(f(x)))
    ensures Equals(Select(m, x => g(f(x))), NonNull(Select(Select(m, f), g)))
  {
  }

  // ----- Monad laws, with `Of` as unit -----

  /** Left identity holds exactly when the value is not null or `f` sends null to `None`. */
  lemma LeftIdentity<T, R>(v: Nullable<T>, f: Nullable<T> -> Maybe<R>)
    ensures SelectMany(Of(v), f) == f(v) <==> v.NonNull? || f(v) == None
    ensures Equals(SelectMany(Of(v), f), NonNull(f(v))) <==> v.NonNull? || f(v) == None
  {
  }

  /** Right identity holds exactly on the normalized containers. */
  lemma RightIdentity<T>(m: Maybe<T>)
    ensures SelectMany(m, Of) == m <==> Normalized(m)
    ensures Equals(SelectMany(m, Of), NonNull(m)) <==> Normalized(m)
  {
  }

  lemma Associativity<T, U, R>(m: Maybe<T>, f: Nullable<T> -> Maybe<U>, g: Nullable<U> -> Maybe<R>)
    ensures SelectMany(SelectMany(m, f), g) == SelectMany(m, x => SelectMany(f(x), g))
    ensures Equals(SelectMany(SelectMany(m, f), g), NonNull(SelectMany(m, x => SelectMany(f(x), g))))
  {
  }

  /** The combining overload is bind followed by a map that sees both values. */
  lemma SelectManyWithIsBindThenSelect<T, U, R>(m: Maybe<T>, f: Nullable<T> -> Maybe<U>, h: Nullable<U> -> Nullable<R>)
    ensures SelectManyWith(m, f, (x, y) => h(y)) == Select(SelectMany(m, f), h)
  {
  }

  // ----- Null reaches a Just through Select -----

  /** `Select` on a container built by the factory can produce `Just(null)`,
      which breaks right identity: binding it to the factory yields `None`. */
  lemma RightIdentityFailsAfterSelect()
    ensures exists m: Maybe<int> :: m == Select(Of(NonNull(1)), _ => Null) && SelectMany(m, Of) != m
  {
    var m: Maybe<int> := Select(Of(NonNull(1)), _ => Null);
    assert SelectMany(m, Of) == None;
  }

  /** Left identity fails at null for a continuation that does not send null to `None`. */
  lemma LeftIdentityFailsAtNull()
    ensures exists f: Nullable<int> -> Maybe<int> :: SelectMany(Of(Null), f) != f(Null)
  {
    var f: Nullable<int> -> Maybe<int> := x => Just(x);
    assert SelectMany(Of(Null), f) == None;
    assert f(Null) == Just(Null);
  }

  /** The operations that keep the factory's invariant. */
  lemma SelectManyKeepsNormalized<T, R>(m: Maybe<T>, f: Nullable<T> -> Maybe<R>)
    requires forall x :: Normalized(f(x))
    ensures Normalized(SelectMany(m, f))
  {
  }

  lemma SelectKeepsNormalized<T, R>(m: Maybe<T>, f: Nullable<T> -> Nullable<R>)
    requires Normalized(m)
    requires forall x: Nullable<T> :: x.NonNull? ==> f(x).NonNull?
    ensures Normalized(Select(m, f))
  {
  }
}
