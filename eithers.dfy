/** The disjoint container `Either<L, R>` of src/Either.cs.

    `Right` is the value channel and `Left` short-circuits. The container
    tests a payload for null only inside the payload comparison of `Equals`,
    which the model folds into Dafny equality, so the payload types are left
    generic: they range over every value of the C# types, null included. */
module Eithers {
  import opened Nulls

  datatype Either<L, R> = Left(left: L) | Right(right: R)

  /** `Either<L, R>.Right(value)` and the implicit conversion from `R`. */
  function FromRight<L, R>(v: R): (e: Either<L, R>)
    ensures e.Right? && e.right == v
  {
    Right(v)
  }

  /** `Either<L, R>.Left(value)` and the implicit conversion from `L`. */
  function FromLeft<L, R>(v: L): (e: Either<L, R>)
    ensures e.Left? && e.left == v
  {
    Left(v)
  }

  /** Case analysis: exactly one of the two callbacks is applied. */
  function Match<L, R, T>(e: Either<L, R>, onLeft: L -> T, onRight: R -> T): (r: T)
    ensures e.Left? ==> r == onLeft(e.left)
    ensures e.Right? ==> r == onRight(e.right)
  {
    match e
    case Left(l) => onLeft(l)
    case Right(v) => onRight(v)
  }

  /** Functor map on the `Right` channel; a `Left` keeps its payload. */
  function Select<L, R, TR>(e: Either<L, R>, onRight: R -> TR): (r: Either<L, TR>)
    ensures e.Left? ==> r == Left(e.left)
    ensures e.Right? ==> r == Right(onRight(e.right))
  {
    match e
    case Left(l) => Left(l)
    case Right(v) => Right(onRight(v))
  }

  /** Monadic bind on the `Right` channel; a `Left` short-circuits. */
  function SelectMany<L, R, TR>(e: Either<L, R>, onRight: R -> Either<L, TR>): (r: Either<L, TR>)
    ensures e.Left? ==> r == Left(e.left)
    ensures e.Right? ==> r == onRight(e.right)
  {
    match e
    case Left(l) => Left(l)
    case Right(v) => onRight(v)
  }

  /** The combining overload of `SelectMany`, derived from bind and map. */
  function SelectManyWith<L, R, U, TR>(e: Either<L, R>, f: R -> Either<L, U>, trans: (R, U) -> TR): (r: Either<L, TR>)
    ensures e.Left? ==> r == Left(e.left)
    ensures e.Right? && f(e.right).Left? ==> r == Left(f(e.right).left)
    ensures e.Right? && f(e.right).Right? ==> r == Right(trans(e.right, f(e.right).right))
  {
    SelectMany(e, x => Select(f(x), y => trans(x, y)))
  }

  /** `Equals(Either<L, R>? either)`, written as the source writes it, through `Match`.
      The payload rule "both null, or `Equals`" is Dafny equality. */
  function Equals<L(==), R(==)>(e: Either<L, R>, other: Nullable<Either<L, R>>): (b: bool)
    ensures b <==> other == NonNull(e)
  {
    match e
    case Left(val) =>
      other.NonNull? && Match(other.value, (v: L) => v == val, _ => false)
    case Right(val) =>
      other.NonNull? && Match(other.value, _ => false, (v: R) => v == val)
  }

  // ----- Equality, case by case -----

  lemma EqualsCases<L, R>(a: L, b: L, c: R, d: R)
    ensures !Equals(Left(a), NonNull(Right(c))) && !Equals(Right(c), NonNull(Left(a)))
    ensures Equals<L, R>(Left(a), NonNull(Left(b))) <==> a == b
    ensures Equals<L, R>(Right(c), NonNull(Right(d))) <==> c == d
    ensures !Equals<L, R>(Left(a), Null) && !Equals<L, R>(Right(c), Null)
  {
  }

  lemma EqualsIsEquivalence<L, R>(x: Either<L, R>, y: Either<L, R>, z: Either<L, R>)
    ensures Equals(x, NonNull(x))
    ensures Equals(x, NonNull(y)) ==> Equals(y, NonNull(x))
    ensures Equals(x, NonNull(y)) && Equals(y, NonNull(z)) ==> Equals(x, NonNull(z))
  {
  }

  // ----- Match is the one primitive the other operations derive from -----

  lemma MatchRebuilds<L, R>(e: Either<L, R>)
    ensures Match(e, l => Left(l), r => Right(r)) == e
  {
  }

  lemma SelectViaMatch<L, R, TR>(e: Either<L, R>, f: R -> TR)
    ensures Select(e, f) == Match(e, l => Left(l), r => Right(f(r)))
  {
  }

  lemma SelectManyViaMatch<L, R, TR>(e: Either<L, R>, f: R -> Either<L, TR>)
    ensures SelectMany(e, f) == Match(e, l => Left(l), f)
  {
  }

  // ----- Functor laws, each also in the form the tests check it, through Equals -----

  lemma SelectIdentity<L, R>(e: Either<L, R>)
    ensures Select(e, x => x) == e
    ensures Equals(e, NonNull(Select(e, x => x)))
  {
  }

  lemma SelectComposition<L, R, U, TR>(e: Either<L, R>, f: R -> U, g: U -> TR)
    ensures Select(Select(e, f), g) == Select(e, x => g(f(x)))
    ensures Equals(Select(e, x => g(f(x))), NonNull(Select(Select(e, f), g)))
  {
  }

  // ----- Monad laws, with `FromRight` as unit: they hold for every input -----

  lemma LeftIdentity<L, R, TR>(v: R, f: R -> Either<L, TR>)
    ensures SelectMany(FromRight(v), f) == f(v)
    ensures Equals(SelectMany(FromRight(v), f), NonNull(f(v)))
  {
  }

  lemma RightIdentity<L, R>(e: Either<L, R>)
    ensures SelectMany(e, FromRight) == e
    ensures Equals(SelectMany(e, FromRight), NonNull(e))
  {
  }

  lemma Associativity<L, R, U, TR>(e: Either<L, R>, f: R -> Either<L, U>, g: U -> Either<L, TR>)
    ensures SelectMany(SelectMany(e, f), g) == SelectMany(e, x => SelectMany(f(x), g))
    ensures Equals(SelectMany(SelectMany(e, f), g), NonNull(SelectMany(e, x => SelectMany(f(x), g))))
  {
  }

  /** The combining overload is bind followed by a map that sees both values. */
  lemma SelectManyWithIsBindThenSelect<L, R, U, TR>(e: Either<L, R>, f: R -> Either<L, U>, h: U -> TR)
    ensures SelectManyWith(e, f, (x, y) => h(y)) == Select(SelectMany(e, f), h)
  {
  }
}
