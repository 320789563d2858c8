/**
 * The runtime values shared by the tree-walking interpreter, the language's
 * own core classes and the native code generator.
 */
module Objects {

  /**
   * A language-level value. `Nil`, `True` and `False` are the three
   * process-wide singletons; `Undef` is the interpreter's "no such constant"
   * marker; modules and classes are referred to by identity.
   */
  datatype Value =
    | Nil
    | True
    | False
    | Undef
    | Integer(i: int)
    | Symbol(name: string)
    | Tuple(elems: seq<Value>)
    | ModuleRef(id: nat)
    | ObjectRef(id: nat)

  /** The language's truthiness policy: only `nil` and `false` are falsy. */
  predicate Truthy(v: Value) {
    !(v == Nil || v == False)
  }

  /** The canonical boolean object for a host truth value. */
  function Boolean(b: bool): (r: Value)
    ensures r == True || r == False
    ensures Truthy(r) == b
  {
    if b then True else False
  }
}
