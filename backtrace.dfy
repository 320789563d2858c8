/**
 * Stack traces of the interpreter (`collect_backtrace_part` and
 * `collect_backtrace` of `Foundry::Interpreter::Base`). Each interpreter
 * contributes one part: its scope stack, optionally followed by the node
 * being evaluated, innermost entry first. An entry without a function
 * name of its own is attributed to the last function name seen below it.
 */
module Backtrace {
  import opened Wrappers
  import opened InterpreterNodes

  datatype BacktraceItem = BacktraceItem(file: string, line: nat, func: Option<string>)

  /** The position of the last location in `locs` that has a function name. */
  function LastNamed(locs: seq<Loc>): (r: Option<nat>)
    ensures r.Some? ==> r.value < |locs| && locs[r.value].func.Some? && forall j :: r.value < j < |locs| ==> locs[j].func.None?
    ensures r.None? ==> forall j :: 0 <= j < |locs| ==> locs[j].func.None?
  {
    if |locs| == 0 then None
    else if locs[|locs| - 1].func.Some? then Some(|locs| - 1)
    else LastNamed(locs[..|locs| - 1])
  }

  /** The function name of the last location in `locs` that has one. */
  function LastFunction(locs: seq<Loc>): (r: Option<string>)
    ensures r.None? <==> forall i :: 0 <= i < |locs| ==> locs[i].func.None?
    ensures r.Some? ==> exists i :: 0 <= i < |locs| && locs[i].func == r && forall j :: i < j < |locs| ==> locs[j].func.None?
  {
    match LastNamed(locs)
    case None => None
    case Some(i) => locs[i].func
  }

  /** The item for entry `i` of the stack, with the function name carried forward to it. */
  function ItemAt(locs: seq<Loc>, i: nat): BacktraceItem
    requires i < |locs|
  {
    BacktraceItem(locs[i].file, locs[i].line, LastFunction(locs[..i + 1]))
  }

  /** One interpreter's part of a backtrace: an item per stack entry, innermost first. */
  function BacktracePart(locs: seq<Loc>): (r: seq<BacktraceItem>)
    ensures |r| == |locs|
  {
    seq(|locs|, k requires 0 <= k < |locs| => ItemAt(locs, |locs| - 1 - k))
  }

  /**
   * The loop of `collect_backtrace_part`: walks the stack from the
   * outermost entry, carrying the last function name seen, then reverses
   * the items.
   */
  method ItemsOf(stack: seq<Loc>) returns (r: seq<BacktraceItem>)
    ensures r == BacktracePart(stack)
  {
    var lastFunction: Option<string> := None;
    var items: seq<BacktraceItem> := [];
    var i := 0;
    while i < |stack|
      invariant 0 <= i <= |stack| && |items| == i
      invariant forall k :: 0 <= k < i ==> items[k] == ItemAt(stack, k)
      invariant lastFunction == LastFunction(stack[..i])
    {
      if stack[i].func.Some? {
        lastFunction := stack[i].func;
      }
      LastFunctionStep(stack, i);
      items := items + [BacktraceItem(stack[i].file, stack[i].line, lastFunction)];
      i := i + 1;
    }
    r := seq(|items|, k requires 0 <= k < |items| => items[|items| - 1 - k]);
    assert forall k :: 0 <= k < |items| ==> r[k] == BacktracePart(stack)[k];
  }

  /** What a backtrace reads of one interpreter: its scope stack and the node being evaluated, if any. */
  datatype Frame = Frame(stack: seq<Loc>, current: Option<Loc>)

  /**
   * The entries of one part: the scope stack, then the current node when
   * asked for; asking for an absent current node raises, as calling
   * `function` on `nil` does.
   */
  function PartEntries(f: Frame, includeCurrent: bool): (r: Result<seq<Loc>>)
    ensures r.Err? <==> includeCurrent && f.current.None?
    ensures r.Ok? ==> r.value == if includeCurrent then f.stack + [f.current.value] else f.stack
  {
    if !includeCurrent then Ok(f.stack)
    else match f.current
      case None => Err(Exception(NoMethodError, "undefined method function for nil"))
      case Some(c) => Ok(f.stack + [c])
  }

  /** `collect_backtrace_part(include_current)` of one interpreter. */
  function PartOf(f: Frame, includeCurrent: bool): (r: Result<seq<BacktraceItem>>)
    ensures r.Err? <==> includeCurrent && f.current.None?
    ensures r.Ok? ==> |r.value| == |f.stack| + (if includeCurrent then 1 else 0)
  {
    match PartEntries(f, includeCurrent)
    case Err(e) => Err(e)
    case Ok(locs) => Ok(BacktracePart(locs))
  }

  /**
   * `collect_backtrace(include_current)`: the part of `frames[0]` (this
   * interpreter), then the parts of its outer interpreters, which never
   * include their current node.
   */
  function CollectBacktrace(frames: seq<Frame>, includeCurrent: bool): (r: Result<seq<seq<BacktraceItem>>>)
    requires |frames| > 0
    ensures r.Err? <==> includeCurrent && frames[0].current.None?
    ensures r.Ok? ==> |r.value| == |frames|
    decreases |frames|
  {
    match PartOf(frames[0], includeCurrent)
    case Err(e) => Err(e)
    case Ok(part) =>
      if |frames| == 1 then Ok([part])
      else
        var rest := CollectBacktrace(frames[1..], false);
        Ok([part] + rest.value)
  }

  /**
   * The carry of the source's loop: walking the stack from the outermost
   * entry, the last function name seen after `i + 1` entries is that of
   * entry `i` when it has one, and the one seen before it otherwise.
   */
  lemma LastFunctionStep(locs: seq<Loc>, i: nat)
    requires i < |locs|
    ensures LastFunction(locs[..i + 1]) == if locs[i].func.Some? then locs[i].func else LastFunction(locs[..i])
  {
    var pre := locs[..i + 1];
    assert pre[..i] == locs[..i];
    if LastNamed(locs[..i]).Some? {
      assert pre[LastNamed(locs[..i]).value] == locs[..i][LastNamed(locs[..i]).value];
    }
  }

  /** The name carried to entry `i` is its own when it has one, and otherwise that of an entry below it. */
  lemma CarriedFunction(locs: seq<Loc>, i: nat)
    requires i < |locs|
    ensures var f := LastFunction(locs[..i + 1]);
      && (locs[i].func.Some? ==> f == locs[i].func)
      && (f.Some? ==> exists j :: 0 <= j <= i && locs[j].func == f)
  {
    var pre := locs[..i + 1];
    LastFunctionStep(locs, i);
    if LastFunction(pre).Some? {
      var j :| 0 <= j < |pre| && pre[j].func == LastFunction(pre) && forall m :: j < m < |pre| ==> pre[m].func.None?;
      assert locs[j] == pre[j];
    }
  }

  /** Every item's function name is that of an entry at or below it, and entries with a name keep their own. */
  lemma PartAttribution(locs: seq<Loc>, k: nat)
    requires k < |locs|
    ensures var it := BacktracePart(locs)[k];
      && it.file == locs[|locs| - 1 - k].file && it.line == locs[|locs| - 1 - k].line
      && (locs[|locs| - 1 - k].func.Some? ==> it.func == locs[|locs| - 1 - k].func)
      && (it.func.Some? ==> exists j :: 0 <= j <= |locs| - 1 - k && locs[j].func == it.func)
  {
    var i := |locs| - 1 - k;
    assert BacktracePart(locs)[k] == ItemAt(locs, i);
    CarriedFunction(locs, i);
  }


  /** The first item of a part that includes the current node is that node. */
  lemma CurrentComesFirst(f: Frame)
    requires f.current.Some?
    ensures PartEntries(f, true).Ok?
    ensures var top := BacktracePart(PartEntries(f, true).value)[0];
      top.file == f.current.value.file && top.line == f.current.value.line
  {
    var locs := f.stack + [f.current.value];
    assert PartEntries(f, true).value == locs;
    assert BacktracePart(locs)[0] == ItemAt(locs, |locs| - 1);
  }

  /** The parts of the outer interpreters never include their current node. */
  lemma {:induction false} OuterPartsOmitCurrent(frames: seq<Frame>, includeCurrent: bool, k: nat)
    requires |frames| > 0 && 0 < k < |frames|
    requires CollectBacktrace(frames, includeCurrent).Ok?
    ensures CollectBacktrace(frames, includeCurrent).value[k] == BacktracePart(frames[k].stack)
    decreases |frames|
  {
    if k > 1 {
      OuterPartsOmitCurrent(frames[1..], false, k - 1);
    } else {
      var rest := frames[1..];
      assert rest[0] == frames[1];
      if |rest| > 1 {
        assert CollectBacktrace(rest, false).value[0] == BacktracePart(rest[0].stack);
      }
    }
  }
}
