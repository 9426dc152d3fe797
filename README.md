# Compote: optional and disjoint containers, currying helpers

A Dafny model of the core of Compote, a small C# functional-programming
library:

- `Maybe<T>` (src/Maybe.cs), an optional value with the variants `None` and
  `Just(v)`, module `Maybes` in maybes.dfy;
- `Either<L, R>` (src/Either.cs), a disjoint union `Left(l) | Right(r)` where
  `Right` is the value channel and `Left` short-circuits, module `Eithers` in
  eithers.dfy;
- the currying (`Unary`) and partial application (`With`) helpers for
  functions of two to four arguments (src/Function.cs), module `Functions` in
  functions.dfy.

Each C# class hierarchy becomes a Dafny `datatype`, and each overridden method
becomes a total `function` that matches on the variant. C# delegates become
total arrow types. Structural equality on payloads is Dafny `==`: it covers the
source's "both null, or `Equals`" rule. Each `Equals` takes its argument as a
`Nullable` value, because the C# argument may be a null reference.

The model spells out C# null wherever the code decides something by it, apart
from the null tests inside payload comparisons, which Dafny `==` absorbs. Module `Nulls`
(nulls.dfy) defines `Nullable<T> = Null | NonNull(value)`. `Nullable<T>` adds `Null`
even when the C# type is a non-nullable value type such as `int`; for those
types `Just(Null)` cannot be reached, and a Dafny `Maybe<int>` holding `Null`
stands for a C# `Maybe<int?>` or a reference type. A `Maybe<T>` payload
is a `Nullable<T>`, and the callbacks of `Maybe` take and return `Nullable`
values. The factory `Maybe<T>.Just` collapses null into `None`. `Select`
builds `new Just<R>(f(value))` directly, so `Just(null)` is reachable, and
`Equals` has a branch for two null payloads. Because of this the monad laws of
`Maybe` do not hold for every input:

- right identity fails on `Just(null)`;
- left identity fails at null for a continuation that does not send null to
  `None`.

`Maybes.LeftIdentity` and `Maybes.RightIdentity` state exactly when each law
holds. Two counterexample lemmas show that each failure can happen. The
`Maybe` law tests in test/Maybe.cs would pass, for reasons argued from their
text and not proved here (their continuations `F`, `G` and `H` are not
modelled). Left identity holds at null because `F(null)` is `None`
(`String.IsNullOrWhiteSpace(null)` is true). Right identity holds because `F`
returns only normalized containers. Associativity holds for every container
(`Maybes.Associativity`). The reasons given for the two identity laws assume
that the non-generic `Maybe.Just` and `Maybe.None<T>()` the tests call delegate
to the factory `Maybe<T>.Just` and to `None`.

`Either` tests a payload for null only inside the payload comparison in
`Equals`, which the model folds into Dafny `==`. So its payload types stay
generic (they range over all values, null included), and all of its laws hold
for every input.

Each functor and monad law is stated twice: with Dafny equality, and in the
form the tests check it, through the modelled `Equals`.

The `With` overloads share one C# name. Here each has its own name,
`WithN_P`: `N` is the arity and the digits `P` are the positions it fixes.
For example, `With4_13` fixes the first and third arguments of a quaternary
function.

## Model

| member | source | states |
|---|---|---|
| `Maybes.Of` | src/Maybe.cs:37-42 | The factory and the implicit conversion: a null value gives `None`, any other value `v` gives `Just(v)`; the result is always normalized (no `Just` holds null); construction never fails. |
| `Maybes.Match` | src/Maybe.cs:51-69 | `None` yields `onNone()`, `Just(v)` yields `onJust(v)`; exactly one branch decides the result. |
| `Maybes.Select` | src/Maybe.cs:52-70 | `None` maps to `None` whatever `f` is; `Just(v)` maps to `Just(f(v))` with no null normalization of `f(v)`. |
| `Maybes.SelectMany` | src/Maybe.cs:53-71 | `None` binds to `None` whatever `f` is; `Just(v)` binds to exactly `f(v)`. |
| `Maybes.SelectManyWith` | src/Maybe.cs:31-32 | The combining overload: `None` if the container or `f(v)` is empty, otherwise `Just(trans(v, w))` where `f(v) == Just(w)`. |
| `Maybes.Equals` | src/Maybe.cs:55-81 | Written through `Match` as the source does; true exactly when the other reference is not null and holds the same variant with an equal payload (structural equality). |
| `Maybes.EqualsCases` | src/Maybe.cs:55-81 | `None` equals `None`; `None` and `Just` never match in either order; `Just(a)` equals `Just(b)` iff both are null or both non-null and equal; a null reference is never equal. |
| `Maybes.EqualsIsEquivalence` | src/Maybe.cs:73-81 | `Equals` is reflexive, symmetric and transitive. |
| `Maybes.MatchRebuilds` | src/Maybe.cs:4-13 | Case analysis with the two constructors as branches gives back the container. |
| `Maybes.SelectViaMatch` | src/Maybe.cs:52-70 | `Select` is `Match` with `v => Just(f(v))` and `() => None`. |
| `Maybes.SelectManyViaMatch` | src/Maybe.cs:53-71 | `SelectMany` is `Match` with `f` and `() => None`. |
| `Maybes.SelectIdentity` | test/Maybe.cs:19-21 | Functor identity: mapping the identity gives back every container, `Just(null)` included. |
| `Maybes.SelectComposition` | test/Maybe.cs:23-25 | Functor composition: mapping `f` then `g` equals mapping `x => g(f(x))`. |
| `Maybes.LeftIdentity` | test/Maybe.cs:46-50 | Left identity `SelectMany(Of(v), f) == f(v)` holds exactly when `v` is not null or `f(null)` is `None`. |
| `Maybes.RightIdentity` | test/Maybe.cs:52-56 | Right identity `SelectMany(m, Of) == m` holds exactly when `m` is normalized, i.e. is not `Just(null)`. |
| `Maybes.Associativity` | test/Maybe.cs:58-62 | Bind is associative for every container and continuations: `SelectMany(SelectMany(m, f), g) == SelectMany(m, x => SelectMany(f(x), g))`. |
| `Maybes.SelectManyWithIsBindThenSelect` | src/Maybe.cs:31-32 | When `trans` ignores the first value, the combining overload is bind followed by a map. |
| `Maybes.RightIdentityFailsAfterSelect` | src/Maybe.cs:70 | Some container built by the factory and then `Select` (namely `Just(null)`) violates right identity. |
| `Maybes.LeftIdentityFailsAtNull` | src/Maybe.cs:41-42 | Some continuation violates left identity at the null value, because the factory turns null into `None`. |
| `Maybes.SelectManyKeepsNormalized` | src/Maybe.cs:53-71 | Binding to continuations that return normalized containers yields a normalized container. |
| `Maybes.SelectKeepsNormalized` | src/Maybe.cs:70 | Mapping a normalized container with a function that sends non-null to non-null keeps it normalized. |
| `Eithers.FromRight` | src/Either.cs:16 | `Either.Right(v)` (and the conversion from `R`) is the `Right` variant carrying `v` unchanged. |
| `Eithers.FromLeft` | src/Either.cs:22 | `Either.Left(v)` (and the conversion from `L`) is the `Left` variant carrying `v` unchanged. |
| `Eithers.Match` | src/Either.cs:67-93 | `Left(l)` yields `onLeft(l)`, `Right(r)` yields `onRight(r)`. |
| `Eithers.Select` | src/Either.cs:70-96 | `Left(l)` stays `Left(l)` whatever `f` is; `Right(r)` becomes `Right(f(r))`. |
| `Eithers.SelectMany` | src/Either.cs:73-99 | `Left(l)` short-circuits to `Left(l)` whatever `f` is; `Right(r)` binds to exactly `f(r)`. |
| `Eithers.SelectManyWith` | src/Either.cs:50-51 | The combining overload: the first `Left` met (the container's or `f(r)`'s) is returned; otherwise `Right(trans(r, w))` where `f(r) == Right(w)`. |
| `Eithers.Equals` | src/Either.cs:76-109 | Written through `Match` as the source does; true exactly when the other reference is not null and holds the same variant with an equal payload. |
| `Eithers.EqualsCases` | src/Either.cs:76-109 | `Left` never equals `Right` whatever the payloads; `Left(a)` equals `Left(b)` iff `a == b`, likewise for `Right`; a null reference is never equal. |
| `Eithers.EqualsIsEquivalence` | src/Either.cs:101-109 | `Equals` is reflexive, symmetric and transitive. |
| `Eithers.MatchRebuilds` | src/Either.cs:24-31 | Case analysis with the two constructors as branches gives back the container. |
| `Eithers.SelectViaMatch` | src/Either.cs:70-96 | `Select` is `Match` with `Left` passed through and `r => Right(f(r))`. |
| `Eithers.SelectManyViaMatch` | src/Either.cs:73-99 | `SelectMany` is `Match` with `Left` passed through and `f`. |
| `Eithers.SelectIdentity` | test/Either.cs:9-12 | Functor identity on the `Right` channel, for every container. |
| `Eithers.SelectComposition` | test/Either.cs:14-21 | Functor composition on the `Right` channel, for every container. |
| `Eithers.LeftIdentity` | test/Either.cs:37-42 | Left identity with `Right` as unit holds for every value, null included. |
| `Eithers.RightIdentity` | test/Either.cs:44-48 | Right identity with `Right` as unit holds for every container. |
| `Eithers.Associativity` | test/Either.cs:50-55 | Bind is associative for every container and continuations. |
| `Eithers.SelectManyWithIsBindThenSelect` | src/Either.cs:50-51 | When `trans` ignores the first value, the combining overload is bind followed by a map. |
| `Functions.Unary2` | src/Function.cs:20-21 | `Unary(f)(a1)(a2) == f(a1, a2)` for every argument pair. |
| `Functions.With2_1` | src/Function.cs:28-29 | Fixing the first argument: the residual function applied to `a2` is `f(a1, a2)`. |
| `Functions.With2_2` | src/Function.cs:31-32 | Fixing the second argument: the residual function applied to `a1` is `f(a1, a2)`. |
| `Functions.Unary3` | src/Function.cs:42-43 | `Unary(f)(a1)(a2)(a3) == f(a1, a2, a3)` for all arguments. |
| `Functions.With3_1` | src/Function.cs:50-51 | Fixing argument 1: the residual function applied to the other two, in order, is `f(a1, a2, a3)`. |
| `Functions.With3_2` | src/Function.cs:52-53 | Fixing argument 2: the residual function applied to the other two, in order, is `f(a1, a2, a3)`. |
| `Functions.With3_3` | src/Function.cs:54-55 | Fixing argument 3: the residual function applied to the other two, in order, is `f(a1, a2, a3)`. |
| `Functions.With3_12` | src/Function.cs:62-63 | Fixing arguments 1 and 2: the residual function applied to the remaining one is `f(a1, a2, a3)`. |
| `Functions.With3_13` | src/Function.cs:64-65 | Fixing arguments 1 and 3: the residual function applied to the remaining one is `f(a1, a2, a3)`. |
| `Functions.With3_23` | src/Function.cs:66-67 | Fixing arguments 2 and 3: the residual function applied to the remaining one is `f(a1, a2, a3)`. |
| `Functions.Unary4` | src/Function.cs:77-78 | `Unary(f)(a1)(a2)(a3)(a4) == f(a1, a2, a3, a4)` for all arguments. |
| `Functions.With4_1` | src/Function.cs:86-87 | Fixing argument 1: the residual function applied to the other three, in order, is `f(a1, a2, a3, a4)`. |
| `Functions.With4_2` | src/Function.cs:88-89 | Fixing argument 2: the residual function applied to the other three, in order, is `f(a1, a2, a3, a4)`. |
| `Functions.With4_3` | src/Function.cs:90-91 | Fixing argument 3: the residual function applied to the other three, in order, is `f(a1, a2, a3, a4)`. |
| `Functions.With4_4` | src/Function.cs:92-93 | Fixing argument 4: the residual function applied to the other three, in order, is `f(a1, a2, a3, a4)`. |
| `Functions.With4_12` | src/Function.cs:100-101 | Fixing arguments 1 and 2: the residual function applied to the other two, in order, is `f(a1, a2, a3, a4)`. |
| `Functions.With4_13` | src/Function.cs:102-103 | Fixing arguments 1 and 3: the residual function applied to the other two, in order, is `f(a1, a2, a3, a4)`. |
| `Functions.With4_14` | src/Function.cs:104-105 | Fixing arguments 1 and 4: the residual function applied to the other two, in order, is `f(a1, a2, a3, a4)`. |
| `Functions.With4_23` | src/Function.cs:106-107 | Fixing arguments 2 and 3: the residual function applied to the other two, in order, is `f(a1, a2, a3, a4)`. |
| `Functions.With4_24` | src/Function.cs:108-109 | Fixing arguments 2 and 4: the residual function applied to the other two, in order, is `f(a1, a2, a3, a4)`. |
| `Functions.With4_34` | src/Function.cs:110-111 | Fixing arguments 3 and 4: the residual function applied to the other two, in order, is `f(a1, a2, a3, a4)`. |
| `Functions.With4_123` | src/Function.cs:118-119 | Fixing arguments 1, 2 and 3: the residual function applied to the remaining one is `f(a1, a2, a3, a4)`. |
| `Functions.With4_124` | src/Function.cs:120-121 | Fixing arguments 1, 2 and 4: the residual function applied to the remaining one is `f(a1, a2, a3, a4)`. |
| `Functions.With4_134` | src/Function.cs:122-123 | Fixing arguments 1, 3 and 4: the residual function applied to the remaining one is `f(a1, a2, a3, a4)`. |
| `Functions.With4_234` | src/Function.cs:124-125 | Fixing arguments 2, 3 and 4: the residual function applied to the remaining one is `f(a1, a2, a3, a4)`. |
| `Functions.UnaryUncurry2` | src/Function.cs:20-21 | `Unary` on binary functions and uncurrying are inverse to each other, pointwise. |
| `Functions.UnaryUncurry3` | src/Function.cs:42-43 | `Unary` on ternary functions and uncurrying are inverse to each other, pointwise. |
| `Functions.UnaryUncurry4` | src/Function.cs:77-78 | `Unary` on quaternary functions and uncurrying are inverse to each other, pointwise. |
| `Functions.UnaryFixesFirst` | src/Function.cs:14-29 | Giving `Unary(f)` its first argument fixes it: for arity 2 this is `With` on the first position, for arities 3 and 4 it is `Unary` of that `With`. |
| `Functions.FixTwoOfThree` | src/Function.cs:57-67 | Each ternary overload fixing two positions equals fixing them one after the other with the one-position overloads. |
| `Functions.FixTwoOfFour` | src/Function.cs:95-111 | Each quaternary overload fixing two positions equals fixing them one after the other; `With4_34` is also fixing position 4 first, then position 3. |
| `Functions.FixThreeOfFour` | src/Function.cs:113-125 | Each quaternary overload fixing three positions equals fixing the first of them, then the other two. |

## Left out

- Exceptions thrown by user callbacks are not modelled. They propagate unchanged and involve no container logic.
- That `Select` and `SelectMany` do not invoke the callback on `None` or `Left` is stated as the result not depending on the callback. Dafny functions are pure, so there is no call to count.
- The public, non-readonly static field `Maybe<T>.None` (src/Maybe.cs:40) is the `None` constructor here. Reassigning that field at run time is not modelled.
- The `IEquatable` interface plumbing and reference identity are not modelled.
- Payload comparison is modelled as Dafny equality: `val.Equals(v)` at src/Maybe.cs:79, and `v.Equals(val)` at src/Either.cs:82 and src/Either.cs:108. This assumes the payload's `object.Equals` coincides with structural equality. That equality is symmetric, which is why the two call directions give the same answer.
- Payloads compared by reference are not modelled. That covers any class without an `Equals(object)` override, nested `Maybe`/`Either` included, since neither overrides `object.Equals`. For example, C# finds two distinct `Just(Just(1))` instances unequal, while `Maybes.Equals` finds them equal.
- Null delegates are not modelled: the arrow types are total functions.
- Continuations that return a null container are not modelled: a `Maybe` or `Either` result is always a container here. In C#, `Just(v).SelectMany(_ => null)` returns null, and `SelectMany(f, trans)` then throws at `f(x).Select` (src/Maybe.cs:32, src/Either.cs:51).
- The implicit conversions are the factories `Maybes.Of`, `Eithers.FromRight` and `Eithers.FromLeft`. When `L` and `R` coincide, C# cannot resolve the conversion; that is a compiler concern and is not modelled.
- The same applies to the `With` overloads when type parameters coincide; the model gives each overload its own name.
- The non-generic `Maybe.Just` and `Maybe.None<T>()` helpers that the tests call are not part of this model: their source is not among the modelled files.
- The test harness is not modelled: the property-based generators and the concrete test continuations `F`, `G`, `H`. The laws those tests check are stated for all inputs instead.
