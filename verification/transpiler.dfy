/** The part-efficiency transpiler: a scan over an instruction list with a
    window of five, which rewrites the first window matching a fixed pattern
    so that the window's field load becomes a no-op and its final call is
    redirected to a substitute method. The instruction type is generic; the
    pattern test (`MatchesPattern` against the fixed pattern) is a parameter. */
module PartEfficiencyTranspiler {
  import opened Wrappers

  /** `CodeInstruction`: an opcode and an operand that may be null. */
  datatype Instruction<Op, Operand> = Instruction(opcode: Op, operand: Option<Operand>)

  /** `const int len = 5`: the pattern's length. */
  const PatternLength: nat := 5

  /** The window `subArr` copied from `lst[i .. i + len]`. */
  function Window<Op, Operand>(insts: seq<Instruction<Op, Operand>>, i: nat): (w: seq<Instruction<Op, Operand>>)
    requires i + PatternLength <= |insts|
    ensures |w| == PatternLength
    ensures forall j :: 0 <= j < PatternLength ==> w[j] == insts[i + j]
  {
    insts[i..i + PatternLength]
  }

  /** The starts the source loop tries: `i < lst.Count - len`, which is no
      start at all when the list has five or fewer instructions. */
  function SourceScanBound(n: nat): (b: nat)
    ensures b == 0 <==> n <= PatternLength
    ensures b > 0 ==> b + PatternLength == n
  {
    if n > PatternLength then n - PatternLength else 0
  }

  /** Every start at which a whole window fits: `i <= lst.Count - len`. */
  function FullScanBound(n: nat): (b: nat)
    ensures b == 0 <==> n < PatternLength
    ensures b > 0 ==> b + PatternLength == n + 1
  {
    if n >= PatternLength then n - PatternLength + 1 else 0
  }

  /** A bound under which every tried start has a whole window. */
  predicate ValidBound(n: nat, bound: nat)
  {
    bound == 0 || bound + PatternLength <= n + 1
  }

  /** `i` is the first start below `bound` whose window matches. */
  predicate IsFirstMatch<Op, Operand>(insts: seq<Instruction<Op, Operand>>, matches: seq<Instruction<Op, Operand>> -> bool, bound: nat, i: nat)
    requires ValidBound(|insts|, bound)
  {
    && i < bound
    && matches(Window(insts, i))
    && forall k :: 0 <= k < i ==> !matches(Window(insts, k))
  }

  /** The scan from `from` to `bound`: the first matching start, if any. */
  function FirstMatch<Op, Operand>(insts: seq<Instruction<Op, Operand>>, matches: seq<Instruction<Op, Operand>> -> bool, from: nat, bound: nat): (r: Option<nat>)
    requires from <= bound && ValidBound(|insts|, bound)
    ensures r.Some? ==> from <= r.value < bound && matches(Window(insts, r.value))
    ensures r.Some? ==> forall k :: from <= k < r.value ==> !matches(Window(insts, k))
    ensures r.None? ==> forall k :: from <= k < bound ==> !matches(Window(insts, k))
    decreases bound - from
  {
    if from == bound then None
    else if matches(Window(insts, from)) then Some(from)
    else FirstMatch(insts, matches, from + 1, bound)
  }

  /** The two writes after a match at `i`: `lst[i + 1]` becomes a no-op with
      a null operand and `lst[i + 4]` a call of the substitute method. */
  function RewriteAt<Op, Operand>(insts: seq<Instruction<Op, Operand>>, i: nat, nop: Op, call: Op, subMethod: Operand): seq<Instruction<Op, Operand>>
    requires i + PatternLength <= |insts|
  {
    insts[i + 1 := Instruction(nop, None)][i + 4 := Instruction(call, Some(subMethod))]
  }

  /** The scan-and-rewrite over the starts below `bound`; the first match
      ends it. */
  function TranspileUpTo<Op, Operand>(insts: seq<Instruction<Op, Operand>>, matches: seq<Instruction<Op, Operand>> -> bool,
                                      bound: nat, nop: Op, call: Op, subMethod: Operand): (r: seq<Instruction<Op, Operand>>)
    requires ValidBound(|insts|, bound)
    ensures |r| == |insts|
    ensures (forall k :: 0 <= k < bound ==> !matches(Window(insts, k))) ==> r == insts
    ensures forall i: nat :: IsFirstMatch(insts, matches, bound, i) ==>
      && r[i + 1] == Instruction(nop, None)
      && r[i + 4] == Instruction(call, Some(subMethod))
      && forall k :: 0 <= k < |r| && k != i + 1 && k != i + 4 ==> r[k] == insts[k]
  {
    var first := FirstMatch(insts, matches, 0, bound);
    if first.None? then insts
    else
      assert IsFirstMatch(insts, matches, bound, first.value);
      FirstMatchIsUnique(insts, matches, bound, first.value);
      RewriteAt(insts, first.value, nop, call, subMethod)
  }

  lemma FirstMatchIsUnique<Op, Operand>(insts: seq<Instruction<Op, Operand>>, matches: seq<Instruction<Op, Operand>> -> bool, bound: nat, i: nat)
    requires ValidBound(|insts|, bound) && IsFirstMatch(insts, matches, bound, i)
    ensures forall j: nat :: IsFirstMatch(insts, matches, bound, j) ==> j == i
  {
  }

  /** `GetPartEfficiencyFix.Transpiler`, with the scan bound as written. */
  function Transpile<Op, Operand>(insts: seq<Instruction<Op, Operand>>, matches: seq<Instruction<Op, Operand>> -> bool,
                                  nop: Op, call: Op, subMethod: Operand): (r: seq<Instruction<Op, Operand>>)
    ensures |r| == |insts|
    ensures |insts| <= PatternLength ==> r == insts
    ensures (forall k :: 0 <= k < SourceScanBound(|insts|) ==> !matches(Window(insts, k))) ==> r == insts
    ensures forall i: nat :: IsFirstMatch(insts, matches, SourceScanBound(|insts|), i) ==>
      && r[i + 1] == Instruction(nop, None)
      && r[i + 4] == Instruction(call, Some(subMethod))
      && forall k :: 0 <= k < |r| && k != i + 1 && k != i + 4 ==> r[k] == insts[k]
  {
    TranspileUpTo(insts, matches, SourceScanBound(|insts|), nop, call, subMethod)
  }

  /** The scan with every start tried, the last whole window included. */
  function TranspileEveryWindow<Op, Operand>(insts: seq<Instruction<Op, Operand>>, matches: seq<Instruction<Op, Operand>> -> bool,
                                             nop: Op, call: Op, subMethod: Operand): (r: seq<Instruction<Op, Operand>>)
    ensures |r| == |insts|
    ensures (forall k: nat :: k + PatternLength <= |insts| ==> !matches(Window(insts, k))) ==> r == insts
    ensures forall i: nat :: IsFirstMatch(insts, matches, FullScanBound(|insts|), i) ==>
      && r[i + 1] == Instruction(nop, None)
      && r[i + 4] == Instruction(call, Some(subMethod))
      && forall k :: 0 <= k < |r| && k != i + 1 && k != i + 4 ==> r[k] == insts[k]
  {
    TranspileUpTo(insts, matches, FullScanBound(|insts|), nop, call, subMethod)
  }

  /** With every start tried, a list that holds a matching window at all is
      rewritten at its first one, wherever that window sits. */
  lemma EveryWindowFindsAnyMatch<Op, Operand>(insts: seq<Instruction<Op, Operand>>, matches: seq<Instruction<Op, Operand>> -> bool, j: nat)
    requires j + PatternLength <= |insts| && matches(Window(insts, j))
    ensures exists i: nat :: i <= j && IsFirstMatch(insts, matches, FullScanBound(|insts|), i)
  {
    var first := FirstMatch(insts, matches, 0, FullScanBound(|insts|));
    assert first.Some?;
    assert IsFirstMatch(insts, matches, FullScanBound(|insts|), first.value);
  }

  /** Both scans agree whenever the first match does not end at the last
      instruction. */
  lemma ScansAgreeBeforeLastWindow<Op, Operand>(insts: seq<Instruction<Op, Operand>>, matches: seq<Instruction<Op, Operand>> -> bool,
                                               nop: Op, call: Op, subMethod: Operand, i: nat)
    requires |insts| > PatternLength
    requires IsFirstMatch(insts, matches, FullScanBound(|insts|), i) && i + PatternLength < |insts|
    ensures Transpile(insts, matches, nop, call, subMethod) == TranspileEveryWindow(insts, matches, nop, call, subMethod)
  {
    var r := Transpile(insts, matches, nop, call, subMethod);
    var s := TranspileEveryWindow(insts, matches, nop, call, subMethod);
    assert IsFirstMatch(insts, matches, SourceScanBound(|insts|), i);
    assert forall k :: 0 <= k < |r| ==> r[k] == s[k];
  }

  /** The scan as written never reaches the last window: five instructions
      that match the pattern are returned as they are, where the full scan
      rewrites them. */
  lemma LastWindowIsSkipped()
    ensures var insts := seq(5, _ => Instruction(0, None));
      && Transpile(insts, _ => true, 1, 2, 3) == insts
      && TranspileEveryWindow(insts, _ => true, 1, 2, 3) != insts
  {
    var insts: seq<Instruction<int, int>> := seq(5, _ => Instruction(0, None));
    var s := TranspileEveryWindow(insts, _ => true, 1, 2, 3);
    assert IsFirstMatch(insts, _ => true, FullScanBound(|insts|), 0);
    assert s[1] != insts[1];
  }
}
