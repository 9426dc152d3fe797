/** Currying (`Unary`) and partial application (`With`) of src/Function.cs,
    for functions of two, three and four arguments.

    The C# `With` overloads share one name and are told apart by the types of
    the fixed arguments; here each has its own name, `WithN_P`, where `N` is
    the arity and the digits `P` are the positions it fixes. Every residual
    function takes the remaining arguments in their original order. */
module Functions {

  // ----- Arity 2 -----

  function Unary2<T1(!new), T2(!new), R>(f: (T1, T2) -> R): (c: T1 -> T2 -> R)
    ensures forall a1, a2 :: c(a1)(a2) == f(a1, a2)
  {
    a1 => a2 => f(a1, a2)
  }

  function With2_1<T1(!new), T2(!new), R>(f: (T1, T2) -> R, a1: T1): (g: T2 -> R)
    ensures forall a2 :: g(a2) == f(a1, a2)
  {
    a2 => f(a1, a2)
  }

  function With2_2<T1(!new), T2(!new), R>(f: (T1, T2) -> R, a2: T2): (g: T1 -> R)
    ensures forall a1 :: g(a1) == f(a1, a2)
  {
    a1 => f(a1, a2)
  }

  // ----- Arity 3 -----

  function Unary3<T1(!new), T2(!new), T3(!new), R>(f: (T1, T2, T3) -> R): (c: T1 -> T2 -> T3 -> R)
    ensures forall a1, a2, a3 :: c(a1)(a2)(a3) == f(a1, a2, a3)
  {
    a1 => a2 => a3 => f(a1, a2, a3)
  }

  function With3_1<T1(!new), T2(!new), T3(!new), R>(f: (T1, T2, T3) -> R, a1: T1): (g: (T2, T3) -> R)
    ensures forall a2, a3 :: g(a2, a3) == f(a1, a2, a3)
  {
    (a2, a3) => f(a1, a2, a3)
  }

  function With3_2<T1(!new), T2(!new), T3(!new), R>(f: (T1, T2, T3) -> R, a2: T2): (g: (T1, T3) -> R)
    ensures forall a1, a3 :: g(a1, a3) == f(a1, a2, a3)
  {
    (a1, a3) => f(a1, a2, a3)
  }

  function With3_3<T1(!new), T2(!new), T3(!new), R>(f: (T1, T2, T3) -> R, a3: T3): (g: (T1, T2) -> R)
    ensures forall a1, a2 :: g(a1, a2) == f(a1, a2, a3)
  {
    (a1, a2) => f(a1, a2, a3)
  }

  function With3_12<T1(!new), T2(!new), T3(!new), R>(f: (T1, T2, T3) -> R, a1: T1, a2: T2): (g: T3 -> R)
    ensures forall a3 :: g(a3) == f(a1, a2, a3)
  {
    a3 => f(a1, a2, a3)
  }

  function With3_13<T1(!new), T2(!new), T3(!new), R>(f: (T1, T2, T3) -> R, a1: T1, a3: T3): (g: T2 -> R)
    ensures forall a2 :: g(a2) == f(a1, a2, a3)
  {
    a2 => f(a1, a2, a3)
  }

  function With3_23<T1(!new), T2(!new), T3(!new), R>(f: (T1, T2, T3) -> R, a2: T2, a3: T3): (g: T1 -> R)
    ensures forall a1 :: g(a1) == f(a1, a2, a3)
  {
    a1 => f(a1, a2, a3)
  }

  // ----- Arity 4 -----

  function Unary4<T1(!new), T2(!new), T3(!new), T4(!new), R>(f: (T1, T2, T3, T4) -> R): (c: T1 -> T2 -> T3 -> T4 -> R)
    ensures forall a1, a2, a3, a4 :: c(a1)(a2)(a3)(a4) == f(a1, a2, a3, a4)
  {
    a1 => a2 => a3 => a4 => f(a1, a2, a3, a4)
  }

  function With4_1<T1(!new), T2(!new), T3(!new), T4(!new), R>(f: (T1, T2, T3, T4) -> R, a1: T1): (g: (T2, T3, T4) -> R)
    ensures forall a2, a3, a4 :: g(a2, a3, a4) == f(a1, a2, a3, a4)
  {
    (a2, a3, a4) => f(a1, a2, a3, a4)
  }

  function With4_2<T1(!new), T2(!new), T3(!new), T4(!new), R>(f: (T1, T2, T3, T4) -> R, a2: T2): (g: (T1, T3, T4) -> R)
    ensures forall a1, a3, a4 :: g(a1, a3, a4) == f(a1, a2, a3, a4)
  {
    (a1, a3, a4) => f(a1, a2, a3, a4)
  }

  function With4_3<T1(!new), T2(!new), T3(!new), T4(!new), R>(f: (T1, T2, T3, T4) -> R, a3: T3): (g: (T1, T2, T4) -> R)
    ensures forall a1, a2, a4 :: g(a1, a2, a4) == f(a1, a2, a3, a4)
  {
    (a1, a2, a4) => f(a1, a2, a3, a4)
  }

  function With4_4<T1(!new), T2(!new), T3(!new), T4(!new), R>(f: (T1, T2, T3, T4) -> R, a4: T4): (g: (T1, T2, T3) -> R)
    ensures forall a1, a2, a3 :: g(a1, a2, a3) == f(a1, a2, a3, a4)
  {
    (a1, a2, a3) => f(a1, a2, a3, a4)
  }

  function With4_12<T1(!new), T2(!new), T3(!new), T4(!new), R>(f: (T1, T2, T3, T4) -> R, a1: T1, a2: T2): (g: (T3, T4) -> R)
    ensures forall a3, a4 :: g(a3, a4) == f(a1, a2, a3, a4)
  {
    (a3, a4) => f(a1, a2, a3, a4)
  }

  function With4_13<T1(!new), T2(!new), T3(!new), T4(!new), R>(f: (T1, T2, T3, T4) -> R, a1: T1, a3: T3): (g: (T2, T4) -> R)
    ensures forall a2, a4 :: g(a2, a4) == f(a1, a2, a3, a4)
  {
    (a2, a4) => f(a1, a2, a3, a4)
  }

  function With4_14<T1(!new), T2(!new), T3(!new), T4(!new), R>(f: (T1, T2, T3, T4) -> R, a1: T1, a4: T4): (g: (T2, T3) -> R)
    ensures forall a2, a3 :: g(a2, a3) == f(a1, a2, a3, a4)
  {
    (a2, a3) => f(a1, a2, a3, a4)
  }

  function With4_23<T1(!new), T2(!new), T3(!new), T4(!new), R>(f: (T1, T2, T3, T4) -> R, a2: T2, a3: T3): (g: (T1, T4) -> R)
    ensures forall a1, a4 :: g(a1, a4) == f(a1, a2, a3, a4)
  {
    (a1, a4) => f(a1, a2, a3, a4)
  }

  function With4_24<T1(!new), T2(!new), T3(!new), T4(!new), R>(f: (T1, T2, T3, T4) -> R, a2: T2, a4: T4): (g: (T1, T3) -> R)
    ensures forall a1, a3 :: g(a1, a3) == f(a1, a2, a3, a4)
  {
    (a1, a3) => f(a1, a2, a3, a4)
  }

  function With4_34<T1(!new), T2(!new), T3(!new), T4(!new), R>(f: (T1, T2, T3, T4) -> R, a3: T3, a4: T4): (g: (T1, T2) -> R)
    ensures forall a1, a2 :: g(a1, a2) == f(a1, a2, a3, a4)
  {
    (a1, a2) => f(a1, a2, a3, a4)
  }

  function With4_123<T1(!new), T2(!new), T3(!new), T4(!new), R>(f: (T1, T2, T3, T4) -> R, a1: T1, a2: T2, a3: T3): (g: T4 -> R)
    ensures forall a4 :: g(a4) == f(a1, a2, a3, a4)
  {
    a4 => f(a1, a2, a3, a4)
  }

  function With4_124<T1(!new), T2(!new), T3(!new), T4(!new), R>(f: (T1, T2, T3, T4) -> R, a1: T1, a2: T2, a4: T4): (g: T3 -> R)
    ensures forall a3 :: g(a3) == f(a1, a2, a3, a4)
  {
    a3 => f(a1, a2, a3, a4)
  }

  function With4_134<T1(!new), T2(!new), T3(!new), T4(!new), R>(f: (T1, T2, T3, T4) -> R, a1: T1, a3: T3, a4: T4): (g: T2 -> R)
    ensures forall a2 :: g(a2) == f(a1, a2, a3, a4)
  {
    a2 => f(a1, a2, a3, a4)
  }

  function With4_234<T1(!new), T2(!new), T3(!new), T4(!new), R>(f: (T1, T2, T3, T4) -> R, a2: T2, a3: T3, a4: T4): (g: T1 -> R)
    ensures forall a1 :: g(a1) == f(a1, a2, a3, a4)
  {
    a1 => f(a1, a2, a3, a4)
  }

  // ----- Uncurrying, the inverse of Unary -----

  function Uncurry2<T1, T2, R>(c: T1 -> T2 -> R): (T1, T2) -> R
  {
    (a1, a2) => c(a1)(a2)
  }

  function Uncurry3<T1, T2, T3, R>(c: T1 -> T2 -> T3 -> R): (T1, T2, T3) -> R
  {
    (a1, a2, a3) => c(a1)(a2)(a3)
  }

  function Uncurry4<T1, T2, T3, T4, R>(c: T1 -> T2 -> T3 -> T4 -> R): (T1, T2, T3, T4) -> R
  {
    (a1, a2, a3, a4) => c(a1)(a2)(a3)(a4)
  }

  lemma UnaryUncurry2<T1(!new), T2(!new), R>(f: (T1, T2) -> R, c: T1 -> T2 -> R)
    ensures forall a1, a2 :: Uncurry2(Unary2(f))(a1, a2) == f(a1, a2)
    ensures forall a1, a2 :: Unary2(Uncurry2(c))(a1)(a2) == c(a1)(a2)
  {
  }

  lemma UnaryUncurry3<T1(!new), T2(!new), T3(!new), R>(f: (T1, T2, T3) -> R, c: T1 -> T2 -> T3 -> R)
    ensures forall a1, a2, a3 :: Uncurry3(Unary3(f))(a1, a2, a3) == f(a1, a2, a3)
    ensures forall a1, a2, a3 :: Unary3(Uncurry3(c))(a1)(a2)(a3) == c(a1)(a2)(a3)
  {
  }

  lemma UnaryUncurry4<T1(!new), T2(!new), T3(!new), T4(!new), R>(f: (T1, T2, T3, T4) -> R, c: T1 -> T2 -> T3 -> T4 -> R)
    ensures forall a1, a2, a3, a4 :: Uncurry4(Unary4(f))(a1, a2, a3, a4) == f(a1, a2, a3, a4)
    ensures forall a1, a2, a3, a4 :: Unary4(Uncurry4(c))(a1)(a2)(a3)(a4) == c(a1)(a2)(a3)(a4)
  {
  }

  // ----- How the helpers relate to each other -----

  /** Feeding the first argument to `Unary` fixes it, as `With` does. */
  lemma UnaryFixesFirst<T1(!new), T2(!new), T3(!new), T4(!new), R>(f2: (T1, T2) -> R, f3: (T1, T2, T3) -> R, f4: (T1, T2, T3, T4) -> R, a1: T1)
    ensures forall a2 :: Unary2(f2)(a1)(a2) == With2_1(f2, a1)(a2)
    ensures forall a2, a3 :: Unary3(f3)(a1)(a2)(a3) == Unary2(With3_1(f3, a1))(a2)(a3)
    ensures forall a2, a3, a4 :: Unary4(f4)(a1)(a2)(a3)(a4) == Unary3(With4_1(f4, a1))(a2)(a3)(a4)
  {
  }

  /** Fixing two arguments of a ternary function is fixing them one after the other. */
  lemma FixTwoOfThree<T1(!new), T2(!new), T3(!new), R>(f: (T1, T2, T3) -> R, a1: T1, a2: T2, a3: T3)
    ensures forall x3 :: With3_12(f, a1, a2)(x3) == With2_1(With3_1(f, a1), a2)(x3)
    ensures forall x2 :: With3_13(f, a1, a3)(x2) == With2_2(With3_1(f, a1), a3)(x2)
    ensures forall x1 :: With3_23(f, a2, a3)(x1) == With2_2(With3_2(f, a2), a3)(x1)
  {
  }

  /** Fixing two arguments of a quaternary function is fixing them one after the other. */
  lemma FixTwoOfFour<T1(!new), T2(!new), T3(!new), T4(!new), R>(f: (T1, T2, T3, T4) -> R, a1: T1, a2: T2, a3: T3, a4: T4)
    ensures forall x3, x4 :: With4_12(f, a1, a2)(x3, x4) == With3_1(With4_1(f, a1), a2)(x3, x4)
    ensures forall x2, x4 :: With4_13(f, a1, a3)(x2, x4) == With3_2(With4_1(f, a1), a3)(x2, x4)
    ensures forall x2, x3 :: With4_14(f, a1, a4)(x2, x3) == With3_3(With4_1(f, a1), a4)(x2, x3)
    ensures forall x1, x4 :: With4_23(f, a2, a3)(x1, x4) == With3_2(With4_2(f, a2), a3)(x1, x4)
    ensures forall x1, x3 :: With4_24(f, a2, a4)(x1, x3) == With3_3(With4_2(f, a2), a4)(x1, x3)
    ensures forall x1, x2 :: With4_34(f, a3, a4)(x1, x2) == With3_3(With4_3(f, a3), a4)(x1, x2)
    ensures forall x1, x2 :: With4_34(f, a3, a4)(x1, x2) == With3_3(With4_4(f, a4), a3)(x1, x2)
  {
  }

  /** Fixing three arguments of a quaternary function is fixing one, then two. */
  lemma FixThreeOfFour<T1(!new), T2(!new), T3(!new), T4(!new), R>(f: (T1, T2, T3, T4) -> R, a1: T1, a2: T2, a3: T3, a4: T4)
    ensures forall x4 :: With4_123(f, a1, a2, a3)(x4) == With3_12(With4_1(f, a1), a2, a3)(x4)
    ensures forall x3 :: With4_124(f, a1, a2, a4)(x3) == With3_13(With4_1(f, a1), a2, a4)(x3)
    ensures forall x2 :: With4_134(f, a1, a3, a4)(x2) == With3_23(With4_1(f, a1), a3, a4)(x2)
    ensures forall x1 :: With4_234(f, a2, a3, a4)(x1) == With3_23(With4_2(f, a2), a3, a4)(x1)
  {
  }
}

