/**
 * The methods of `BasicObject` that decide equality and negation for every
 * object of the language.
 */
module BasicObject {
  import opened Wrappers
  import opened Objects

  /**
   * `equal?` is the identity primitive, and `==` is an alias of it. Values of
   * this model are compared as values: for the singletons and for objects
   * referred to by identity this is identity.
   */
  function Identical(self: Value, other: Value): (r: Value)
    ensures r == True || r == False
    ensures r == True <==> self == other
  {
    if self == other then True else False
  }

  /** `==` is the same method as `equal?`. */
  function Equals(self: Value, other: Value): (r: Value)
    ensures r == Identical(self, other)
    ensures Truthy(r) <==> self == other
  {
    Identical(self, other)
  }

  /** `!`: true exactly when the receiver is identical to `false` or to `nil`. */
  function Not(self: Value): (r: Value)
    ensures r == True || r == False
    ensures r == True <==> self == False || self == Nil
  {
    if Truthy(Identical(self, False)) || Truthy(Identical(self, Nil)) then True else False
  }

  /** `!=`: the opposite of `==`. */
  function NotEquals(self: Value, other: Value): (r: Value)
    ensures r == True || r == False
    ensures r == True <==> self != other
  {
    if Truthy(Equals(self, other)) then False else True
  }

  /** `__id__` is not implemented by this runtime and always raises. */
  function Id(self: Value): (r: Result<nat>)
    ensures r.Err? && r.error.kind == NotImplementedError
  {
    Err(Exception(NotImplementedError, "Foundry does not implement object_id"))
  }

  /** `!` agrees with the truthiness policy used by `if`, `while` and branches. */
  lemma NotIsFalsiness(v: Value)
    ensures Truthy(Not(v)) <==> !Truthy(v)
  {
  }

  /** `a != b` is the negation of `a == b`. */
  lemma NotEqualsNegatesEquals(a: Value, b: Value)
    ensures NotEquals(a, b) == Not(Equals(a, b))
  {
  }

  /** Negating twice gives the canonical boolean of the receiver's truthiness. */
  lemma DoubleNegation(v: Value)
    ensures Not(Not(v)) == Boolean(Truthy(v))
  {
  }
}
