/**
 * The value-level parts of the interpreter's handlers: tuple slicing with
 * Ruby's inclusive ranges, splat splicing, the arity check and its message.
 */
module InterpreterPrimitives {
  import opened Wrappers
  import opened Objects
  import opened Decimal

  /** An integer as Ruby interpolates it into a string. */
  function IntToString(i: int): string {
    if i < 0 then "-" + NatToString(-i) else NatToString(i)
  }

  /**
   * `a[from..to]` for a Ruby array: negative bounds count from the end, the
   * range includes `to`, and a start outside `0..|a|` gives `nil` (`None`).
   */
  function InclusiveSlice(a: seq<Value>, from: int, to: int): (r: Option<seq<Value>>)
    ensures r.Some? <==> (if from < 0 then 0 <= from + |a| else from <= |a|)
  {
    var start := if from < 0 then from + |a| else from;
    if start < 0 || start > |a| then None
    else
      var stop := if to < 0 then to + |a| else to;
      var end := if stop + 1 < start then start else if stop + 1 > |a| then |a| else stop + 1;
      Some(a[start..end])
  }

  /** In range, the slice is exactly the elements `from` through `to`. */
  lemma SliceInRange(a: seq<Value>, from: int, to: int)
    requires 0 <= from <= to < |a|
    ensures InclusiveSlice(a, from, to) == Some(a[from..to + 1])
    ensures |InclusiveSlice(a, from, to).value| == to - from + 1
  {
  }

  /** A negative bound names the same element as its offset from the end. */
  lemma SliceNegativeBounds(a: seq<Value>, from: int, to: int)
    requires -|a| <= from < 0 && -|a| <= to < 0
    ensures InclusiveSlice(a, from, to) == InclusiveSlice(a, from + |a|, to + |a|)
  {
  }

  /** A range that ends before it starts selects nothing; a start just past the end selects nothing too. */
  lemma SliceEmpty(a: seq<Value>, from: int, to: int)
    requires 0 <= from <= |a| && 0 <= to < from
    ensures InclusiveSlice(a, from, to) == Some([])
  {
    assert a[from..from] == [];
  }

  /** One evaluated element of an `array` node. */
  datatype Part = One(v: Value) | Spliced(vs: seq<Value>)

  /** The tuple contents that `array` builds from its evaluated elements, in order. */
  function Splice(parts: seq<Part>): seq<Value> {
    if |parts| == 0 then []
    else
      var last := parts[|parts| - 1];
      Splice(parts[..|parts| - 1]) + (if last.One? then [last.v] else last.vs)
  }

  /** Each part contributes one element, or all of its spliced elements. */
  function Width(p: Part): nat {
    if p.One? then 1 else |p.vs|
  }

  function TotalWidth(parts: seq<Part>): nat {
    if |parts| == 0 then 0 else TotalWidth(parts[..|parts| - 1]) + Width(parts[|parts| - 1])
  }

  /** Splicing concatenates: the contents of `ps + qs` are those of `ps` followed by those of `qs`. */
  lemma {:induction false} SpliceAppend(ps: seq<Part>, qs: seq<Part>)
    ensures Splice(ps + qs) == Splice(ps) + Splice(qs)
    decreases |qs|
  {
    if |qs| == 0 {
      assert ps + qs == ps;
    } else {
      var init := qs[..|qs| - 1];
      assert (ps + qs)[..|ps + qs| - 1] == ps + init;
      SpliceAppend(ps, init);
    }
  }

  /** The tuple is as long as the parts are wide. */
  lemma {:induction false} SpliceLength(parts: seq<Part>)
    ensures |Splice(parts)| == TotalWidth(parts)
  {
    if |parts| > 0 {
      SpliceLength(parts[..|parts| - 1]);
    }
  }

  /** Without splats, the tuple holds the elements themselves, in order. */
  lemma {:induction false} SpliceWithoutSplats(parts: seq<Part>)
    requires forall i :: 0 <= i < |parts| ==> parts[i].One?
    ensures |Splice(parts)| == |parts|
    ensures forall i :: 0 <= i < |parts| ==> Splice(parts)[i] == parts[i].v
  {
    if |parts| > 0 {
      SpliceWithoutSplats(parts[..|parts| - 1]);
    }
  }

  /** `check_arity`: does an argument count fall outside `from..to` (`to` absent: no upper bound)? */
  predicate ArityViolated(size: int, from: int, to: Option<int>) {
    size < from || (to.Some? && size > to.value)
  }

  /** The message of the arity error; a missing upper bound is printed as `.`, giving `from...`. */
  function ArityMessage(size: int, from: int, to: Option<int>): string {
    if to.None? || from != to.value then
      "wrong number of arguments (" + IntToString(size) + " for " + IntToString(from) + ".."
        + (if to.None? then "." else IntToString(to.value)) + ")"
    else
      "wrong number of arguments (" + IntToString(size) + " for " + IntToString(from) + ")"
  }

  /** `on_check_arity` once the arguments are evaluated: NIL, or the interpreter's error. */
  function CheckArity(size: int, from: int, to: Option<int>): (r: Result<Value>)
    ensures r.Ok? <==> !ArityViolated(size, from, to)
    ensures r.Ok? ==> r.value == Nil
    ensures r.Err? ==> r.error == Exception(InterpreterError, ArityMessage(size, from, to))
  {
    if ArityViolated(size, from, to) then Err(Exception(InterpreterError, ArityMessage(size, from, to)))
    else Ok(Nil)
  }

  /** An exact arity is reported as a single number. */
  lemma ExactArityMessage(size: nat, n: nat)
    requires size != n
    ensures CheckArity(size, n, Some(n))
            == Err(Exception(InterpreterError,
                 "wrong number of arguments (" + NatToString(size) + " for " + NatToString(n) + ")"))
  {
  }

  /** An open-ended arity is reported as `from...`. */
  lemma OpenArityMessage(size: nat, from: nat)
    requires size < from
    ensures CheckArity(size, from, None)
            == Err(Exception(InterpreterError,
                 "wrong number of arguments (" + NatToString(size) + " for " + NatToString(from) + "...)"))
  {
    assert ".." + "." + ")" == "...)";
  }

  /** `array_bigger_than`: TRUE exactly when the tuple is longer than `length`. */
  function BiggerThan(elems: seq<Value>, length: int): (r: Value)
    ensures r == True <==> |elems| > length
    ensures r == False <==> |elems| <= length
  {
    if |elems| > length then True else False
  }
}
