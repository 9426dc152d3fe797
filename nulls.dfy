/** The host language's nullable values.
    A value of an unconstrained C# type parameter may be the null reference;
    the model spells that out as `Null` beside the non-null values `NonNull(v)`.
    `Null` is added even where the C# type is a non-nullable value type such
    as `int`; there no C# value corresponds to it, so a `Null` payload at
    `int` stands for `int?` or a reference type. */
module Nulls {

  datatype Nullable<+T> = Null | NonNull(value: T)

}
