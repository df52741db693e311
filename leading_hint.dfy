/**
 * The leading join-order hint: its state after parsing, the registry and
 * bitmap methods, the join-constraint resolver, the filter extraction and the
 * stack machine that assembles the hinted join tree.
 */
module LeadingHints {
  import opened Wrappers
  import opened JoinTypes
  import opened Plans
  import opened JoinConstraints
  import opened RelationRegistry
  import opened FilterScope
  import opened JoinShapes
  import HintParser

  /** The Java exceptions the hint engine can raise, modelled as outcomes. */
  datatype JavaError =
    | IndexOutOfBounds  // tablelist.get(0) on an empty table list
    | NullPointer       // conditionJoinType.get(condition) returned null
    | ClassCast         // the plan left on top of the stack is not a join

  /** Result of generateLeadingJoinPlan: a join tree, null, or an exception. */
  datatype Assembly = Built(plan: Plan) | NoPlan | Thrown(error: JavaError)

  /** One stack entry: (level, (plan, distribute index)). */
  datatype Frame = Frame(level: int, plan: Plan, distributeIndex: nat)

  /** The mutable fields of a hint, for "nothing else changes" contracts. */
  datatype State = State(
    status: HintStatus,
    errorMessage: string,
    distributeHints: map<nat, DistributeHint>,
    pairs: seq<IdName>,
    scans: map<RelationId, Plan>,
    filters: seq<PendingFilter>,
    conditionJoinType: map<Expr, JoinType>,
    constraints: seq<JoinConstraint>,
    totalBitmap: RelationBitmap)

  /**
   * isConditionJoinTypeMatched: Some(true) when every condition came from a
   * join compatible with the computed kind, Some(false) at the first
   * incompatible one, None (a NullPointerException) at the first condition
   * with no recorded join kind.
   */
  function ConditionsMatched(conditions: seq<Expr>, original: map<Expr, JoinType>, joinType: JoinType): (r: Option<bool>)
    ensures r == Some(true) ==> forall i :: 0 <= i < |conditions| ==> conditions[i] in original
    ensures r.None? ==> exists i :: 0 <= i < |conditions| && conditions[i] !in original
  {
    if conditions == [] then Some(true)
    else if conditions[0] !in original then None
    else if !Compatible(original[conditions[0]], joinType) then Some(false)
    else ConditionsMatched(conditions[1..], original, joinType)
  }

  /** The condition is recorded with a join kind compatible with joinType. */
  predicate Matches(condition: Expr, original: map<Expr, JoinType>, joinType: JoinType) {
    condition in original && Compatible(original[condition], joinType)
  }

  /**
   * The check succeeds exactly when every condition matches, and throws
   * exactly when an unrecorded condition comes before any mismatch.
   */
  lemma {:induction false} ConditionsMatchedSpec(conditions: seq<Expr>, original: map<Expr, JoinType>, joinType: JoinType)
    ensures ConditionsMatched(conditions, original, joinType) == Some(true) <==>
            forall i :: 0 <= i < |conditions| ==> Matches(conditions[i], original, joinType)
    ensures ConditionsMatched(conditions, original, joinType).None? <==>
            exists i :: 0 <= i < |conditions| && conditions[i] !in original &&
                        forall j :: 0 <= j < i ==> Matches(conditions[j], original, joinType)
  {
    if conditions != [] && Matches(conditions[0], original, joinType) {
      var rest := conditions[1..];
      ConditionsMatchedSpec(rest, original, joinType);
      assert forall i :: 0 < i < |conditions| ==> conditions[i] == rest[i - 1];
      if ConditionsMatched(rest, original, joinType).None? {
        var i :| 0 <= i < |rest| && rest[i] !in original &&
                 forall j :: 0 <= j < i ==> Matches(rest[j], original, joinType);
        assert conditions[i + 1] !in original;
        forall j | 0 <= j < i + 1 ensures Matches(conditions[j], original, joinType) {
          if j > 0 {
            assert conditions[j] == rest[j - 1];
          }
        }
      } else {
        forall i | 0 <= i < |conditions| && conditions[i] !in original
          ensures exists j :: 0 <= j < i && !Matches(conditions[j], original, joinType)
        {
          var k :| 0 <= k < i - 1 && !Matches(rest[k], original, joinType);
          assert conditions[k + 1] == rest[k];
        }
      }
    }
  }

  /** The name is registered and its relation id has a scan plan. */
  ghost predicate Loadable(pairs: seq<IdName>, scans: map<RelationId, Plan>, name: string) {
    Find(pairs, name).Some? && Find(pairs, name).value in scans
  }

  /** The name is registered but relationIdToScanMap has no plan for its id. */
  ghost predicate ScanMissing(pairs: seq<IdName>, scans: map<RelationId, Plan>, name: string) {
    Find(pairs, name).Some? && Find(pairs, name).value !in scans
  }

  /** The first n names of the table list all have scan plans. */
  ghost predicate Resolvable(pairs: seq<IdName>, scans: map<RelationId, Plan>, names: seq<string>, n: nat) {
    n <= |names| && forall j :: 0 <= j < n ==> Loadable(pairs, scans, names[j])
  }

  /** The scan plan getLogicalPlanByName returns for a name with a scan. */
  ghost function ScanFor(pairs: seq<IdName>, scans: map<RelationId, Plan>, name: string): Plan
    requires Loadable(pairs, scans, name)
  {
    scans[Find(pairs, name).value]
  }

  /** The scan plans of names[a..b], in order. */
  ghost function Leaves(pairs: seq<IdName>, scans: map<RelationId, Plan>, names: seq<string>, a: nat, b: nat): seq<Plan>
    requires a <= b && Resolvable(pairs, scans, names, b)
    decreases b
  {
    if a == b then []
    else Leaves(pairs, scans, names, a, b - 1) + [ScanFor(pairs, scans, names[b - 1])]
  }

  /** The units of the scans of names[a..b]. */
  ghost function SpanUnits(pairs: seq<IdName>, scans: map<RelationId, Plan>, names: seq<string>, a: nat, b: nat): seq<Plan>
    requires a <= b && Resolvable(pairs, scans, names, b)
  {
    UnitsOf(Leaves(pairs, scans, names, a, b))
  }

  lemma {:induction false} LeavesSplit(pairs: seq<IdName>, scans: map<RelationId, Plan>, names: seq<string>, a: nat, b: nat, c: nat)
    requires a <= b <= c && Resolvable(pairs, scans, names, c)
    ensures Leaves(pairs, scans, names, a, c) == Leaves(pairs, scans, names, a, b) + Leaves(pairs, scans, names, b, c)
    decreases c
  {
    if b < c {
      LeavesSplit(pairs, scans, names, a, b, c - 1);
    }
  }

  lemma SpanUnitsSplit(pairs: seq<IdName>, scans: map<RelationId, Plan>, names: seq<string>, a: nat, b: nat, c: nat)
    requires a <= b <= c && Resolvable(pairs, scans, names, c)
    ensures SpanUnits(pairs, scans, names, a, c) == SpanUnits(pairs, scans, names, a, b) + SpanUnits(pairs, scans, names, b, c)
  {
    LeavesSplit(pairs, scans, names, a, b, c);
    UnitsOfAppend(Leaves(pairs, scans, names, a, b), Leaves(pairs, scans, names, b, c));
  }

  lemma SpanUnitsOne(pairs: seq<IdName>, scans: map<RelationId, Plan>, names: seq<string>, a: nat)
    requires Resolvable(pairs, scans, names, a + 1)
    ensures SpanUnits(pairs, scans, names, a, a + 1) == Units(ScanFor(pairs, scans, names[a]))
  {
    assert Leaves(pairs, scans, names, a, a) == [];
    var ls := Leaves(pairs, scans, names, a, a + 1);
    assert ls == [ScanFor(pairs, scans, names[a])];
    assert ls[..0] == [];
    assert UnitsOf(ls) == UnitsOf(ls[..0]) + Units(ls[0]);
  }

  /** The end of the table range of stack frame k. */
  function Next(starts: seq<nat>, k: nat, end: nat): nat
    requires k < |starts|
  {
    if k + 1 < |starts| then starts[k + 1] else end
  }

  /**
   * The stack frames cover consecutive ranges of the table list, in order,
   * ending at `end`: frame k joins the scans of tables starts[k] to Next(k).
   */
  ghost predicate FramesCover(pairs: seq<IdName>, scans: map<RelationId, Plan>, names: seq<string>,
                              stack: seq<Frame>, starts: seq<nat>, end: nat)
  {
    && |stack| == |starts|
    && end <= |names|
    && Resolvable(pairs, scans, names, end)
    && (forall i, j :: 0 <= i < j < |starts| ==> starts[i] < starts[j])
    && (forall k :: 0 <= k < |starts| ==> starts[k] < end)
    && (forall k :: 0 <= k < |stack| ==>
          Units(stack[k].plan) == SpanUnits(pairs, scans, names, starts[k], Next(starts, k, end)))
  }

  /** Popping the top frame leaves frames that cover the table list up to where the popped frame began. */
  lemma PopFrame(pairs: seq<IdName>, scans: map<RelationId, Plan>, names: seq<string>,
                 stack: seq<Frame>, starts: seq<nat>, end: nat)
    requires FramesCover(pairs, scans, names, stack, starts, end) && |stack| > 0
    ensures starts[|stack| - 1] < end
    ensures Units(stack[|stack| - 1].plan) == SpanUnits(pairs, scans, names, starts[|stack| - 1], end)
    ensures FramesCover(pairs, scans, names, stack[..|stack| - 1], starts[..|stack| - 1], starts[|stack| - 1])
  {
    var n := |stack| - 1;
    var stack', starts', end' := stack[..n], starts[..n], starts[n];
    assert Next(starts, n, end) == end;
    assert Resolvable(pairs, scans, names, end') by {
      forall j | 0 <= j < end' ensures Loadable(pairs, scans, names[j]) {
        assert j < end;
      }
    }
    forall i, j | 0 <= i < j < |starts'| ensures starts'[i] < starts'[j] {
      assert starts'[i] == starts[i] && starts'[j] == starts[j];
    }
    forall k | 0 <= k < |starts'| ensures starts'[k] < end' {
      assert starts'[k] == starts[k];
    }
    forall k | 0 <= k < |starts'|
      ensures Units(stack'[k].plan) == SpanUnits(pairs, scans, names, starts'[k], Next(starts', k, end'))
    {
      assert stack'[k] == stack[k] && starts'[k] == starts[k];
      assert Next(starts', k, end') == Next(starts, k, end);
    }
  }

  /** Pushing a plan that joins names[s..e] on frames covering up to s gives frames covering up to e. */
  lemma PushFrame(pairs: seq<IdName>, scans: map<RelationId, Plan>, names: seq<string>,
                  stack: seq<Frame>, starts: seq<nat>, s: nat, e: nat, f: Frame)
    requires FramesCover(pairs, scans, names, stack, starts, s)
    requires s < e <= |names| && Resolvable(pairs, scans, names, e)
    requires Units(f.plan) == SpanUnits(pairs, scans, names, s, e)
    ensures FramesCover(pairs, scans, names, stack + [f], starts + [s], e)
  {
    var stack', starts' := stack + [f], starts + [s];
    assert Next(starts', |stack|, e) == e;
    forall i, j | 0 <= i < j < |starts'| ensures starts'[i] < starts'[j] {
      assert starts'[i] == starts[i];
      if j < |starts| {
        assert starts'[j] == starts[j];
      }
    }
    forall k | 0 <= k < |starts'| ensures starts'[k] < e {
      if k < |starts| {
        assert starts'[k] == starts[k];
      }
    }
    forall k | 0 <= k < |stack'|
      ensures Units(stack'[k].plan) == SpanUnits(pairs, scans, names, starts'[k], Next(starts', k, e))
    {
      if k < |stack| {
        assert stack'[k] == stack[k] && starts'[k] == starts[k];
        assert Next(starts', k, e) == Next(starts, k, s);
      }
    }
  }

  /** Every scan plan records correct bitmaps. */
  ghost predicate ScansWellFormed(scans: map<RelationId, Plan>) {
    forall id :: id in scans ==> WellFormed(scans[id])
  }

  lemma ScanForWellFormed(pairs: seq<IdName>, scans: map<RelationId, Plan>, name: string)
    requires Loadable(pairs, scans, name) && ScansWellFormed(scans)
    ensures WellFormed(ScanFor(pairs, scans, name))
  {
  }

  /**
   * The invariant of the frame stack of generateLeadingJoinPlan when tables
   * names[..end] have been read: the frames cover consecutive ranges, their
   * bitmaps have been used for filter extraction, and they are well formed
   * when the scans are.
   */
  ghost predicate StackInvariant(pairs: seq<IdName>, scans: map<RelationId, Plan>, names: seq<string>,
                                 stack: seq<Frame>, starts: seq<nat>, end: nat, used: set<RelationBitmap>)
  {
    && FramesCover(pairs, scans, names, stack, starts, end)
    && (forall k :: 0 <= k < |stack| ==> GetBitmap(stack[k].plan) in used)
    && (ScansWellFormed(scans) ==> forall k :: 0 <= k < |stack| ==> WellFormed(stack[k].plan))
  }

  lemma PopStack(pairs: seq<IdName>, scans: map<RelationId, Plan>, names: seq<string>,
                 stack: seq<Frame>, starts: seq<nat>, end: nat, used: set<RelationBitmap>)
    requires StackInvariant(pairs, scans, names, stack, starts, end, used) && |stack| > 0
    ensures starts[|stack| - 1] < end
    ensures Units(stack[|stack| - 1].plan) == SpanUnits(pairs, scans, names, starts[|stack| - 1], end)
    ensures GetBitmap(stack[|stack| - 1].plan) in used
    ensures ScansWellFormed(scans) ==> WellFormed(stack[|stack| - 1].plan)
    ensures StackInvariant(pairs, scans, names, stack[..|stack| - 1], starts[..|stack| - 1], starts[|stack| - 1], used)
  {
    PopFrame(pairs, scans, names, stack, starts, end);
    var n := |stack| - 1;
    assert forall k :: 0 <= k < n ==> stack[..n][k] == stack[k];
  }

  lemma PushStack(pairs: seq<IdName>, scans: map<RelationId, Plan>, names: seq<string>,
                  stack: seq<Frame>, starts: seq<nat>, s: nat, e: nat, f: Frame,
                  used: set<RelationBitmap>, used': set<RelationBitmap>)
    requires StackInvariant(pairs, scans, names, stack, starts, s, used) && used <= used'
    requires s < e <= |names| && Resolvable(pairs, scans, names, e)
    requires Units(f.plan) == SpanUnits(pairs, scans, names, s, e)
    requires GetBitmap(f.plan) in used' && (ScansWellFormed(scans) ==> WellFormed(f.plan))
    ensures StackInvariant(pairs, scans, names, stack + [f], starts + [s], e, used')
  {
    PushFrame(pairs, scans, names, stack, starts, s, e, f);
    assert forall k :: 0 <= k < |stack| ==> (stack + [f])[k] == stack[k];
  }

  lemma StackUsedGrows(pairs: seq<IdName>, scans: map<RelationId, Plan>, names: seq<string>,
                       stack: seq<Frame>, starts: seq<nat>, end: nat, used: set<RelationBitmap>, used': set<RelationBitmap>)
    requires StackInvariant(pairs, scans, names, stack, starts, end, used) && used <= used'
    ensures StackInvariant(pairs, scans, names, stack, starts, end, used')
  {
  }

  /** The distribute hints keep their keys, types and statuses; successInLeading is only ever set. */
  ghost predicate HintsEvolved(before: map<nat, DistributeHint>, after: map<nat, DistributeHint>) {
    && after.Keys == before.Keys
    && forall k :: k in before ==>
         after[k].distributeType == before[k].distributeType && after[k].status == before[k].status &&
         (before[k].successInLeading ==> after[k].successInLeading)
  }

  /** getJoinHint's answer: the stored directive marked as used by the hint, or a NONE directive. */
  function HintFor(hints: map<nat, DistributeHint>, d: nat): DistributeHint {
    if d in hints then hints[d].(successInLeading := true) else DistributeHint(NONE, false, SUCCESS)
  }

  /** The directives after getJoinHint(d): only the entry at d changes, to HintFor(hints, d). */
  function MarkUsed(hints: map<nat, DistributeHint>, d: nat): map<nat, DistributeHint> {
    if d in hints then hints[d := HintFor(hints, d)] else hints
  }

  /** Evolved directives still give the answer the original ones gave. */
  lemma HintForEvolved(before: map<nat, DistributeHint>, after: map<nat, DistributeHint>, d: nat)
    requires HintsEvolved(before, after)
    ensures HintFor(after, d) == HintFor(before, d)
  {
    if d in before {
      assert after[d].(successInLeading := true) == before[d].(successInLeading := true);
    }
  }

  /**
   * The join one reduction step builds from `left` and `right`: the
   * conditions extracted from `filters` for the two bitmaps, the join kind
   * the resolver computes, the directive at `d`, and the union bitmap.
   */
  function ExpectedJoin(es: seq<Edge>, hints: map<nat, DistributeHint>, d: nat, filters: seq<PendingFilter>,
                        left: Plan, right: Plan): Plan
  {
    Join(JoinTypeOf(es, Resolve(es, GetBitmap(left) + GetBitmap(right), GetBitmap(left), GetBitmap(right)),
                    JoinConditions(filters, GetBitmap(left) + GetBitmap(right)) == []),
         HintFor(hints, d), JoinConditions(filters, GetBitmap(left) + GetBitmap(right)), left, right,
         GetBitmap(left) + GetBitmap(right))
  }

  /** What a join tree is matched against: the registry, the table list, the original directives and the constraints. */
  datatype Env = Env(pairs: seq<IdName>, scans: map<RelationId, Plan>, names: seq<string>,
                     hints: map<nat, DistributeHint>, es: seq<Edge>)

  /**
   * The plan has the skeleton `s`: a leaf is the scan of its table, possibly
   * under a filter; a join reads the directive the skeleton names, records
   * the union bitmap and has the kind the resolver computes for its sides.
   */
  ghost predicate Shaped(p: Plan, s: Shape, env: Env)
    decreases s
  {
    match s
    case Leaf(i) =>
      && i < |env.names| && Loadable(env.pairs, env.scans, env.names[i])
      && (p == ScanFor(env.pairs, env.scans, env.names[i]) ||
          (p.Filter? && p.child == ScanFor(env.pairs, env.scans, env.names[i])))
    case Node(d, l, r) =>
      && p.Join? && p.hint == HintFor(env.hints, d)
      && p.bitmap == GetBitmap(p.left) + GetBitmap(p.right)
      && p.joinType == JoinTypeOf(env.es, Resolve(env.es, p.bitmap, GetBitmap(p.left), GetBitmap(p.right)), p.conditions == [])
      && Shaped(p.left, l, env) && Shaped(p.right, r, env)
  }

  /** The frames carry the reference machine's levels, distribute indices and skeletons. */
  ghost predicate StackShaped(stack: seq<Frame>, ss: seq<ShapeFrame>, env: Env) {
    && |stack| == |ss|
    && forall k :: 0 <= k < |stack| ==>
         stack[k].level == ss[k].level && stack[k].distributeIndex == ss[k].distributeIndex &&
         Shaped(stack[k].plan, ss[k].shape, env)
  }

  /** A reduction step on plans that have skeletons l and r builds a plan with skeleton Node(d, l, r). */
  lemma ExpectedJoinShaped(env: Env, hints: map<nat, DistributeHint>, d: nat, filters: seq<PendingFilter>,
                           left: Plan, right: Plan, l: Shape, r: Shape)
    requires Shaped(left, l, env) && Shaped(right, r, env) && HintsEvolved(env.hints, hints)
    ensures Shaped(ExpectedJoin(env.es, hints, d, filters, left, right), Node(d, l, r), env)
  {
    HintForEvolved(env.hints, hints, d);
  }

  lemma StackShapedPop(stack: seq<Frame>, ss: seq<ShapeFrame>, env: Env)
    requires StackShaped(stack, ss, env) && |stack| > 0
    ensures StackShaped(stack[..|stack| - 1], ss[..|ss| - 1], env)
    ensures stack[|stack| - 1].level == ss[|ss| - 1].level
    ensures stack[|stack| - 1].distributeIndex == ss[|ss| - 1].distributeIndex
    ensures Shaped(stack[|stack| - 1].plan, ss[|ss| - 1].shape, env)
  {
  }

  lemma StackShapedPush(stack: seq<Frame>, ss: seq<ShapeFrame>, env: Env, f: Frame, sf: ShapeFrame)
    requires StackShaped(stack, ss, env)
    requires f.level == sf.level && f.distributeIndex == sf.distributeIndex && Shaped(f.plan, sf.shape, env)
    ensures StackShaped(stack + [f], ss + [sf], env)
  {
  }

  /**
   * getExplainString's loop over the parameters: the text built so far and
   * the table index, or None for the NullPointerException raised when a
   * directive has no entry at the current table index.
   */
  function Explain(tokens: seq<string>, hints: map<nat, DistributeHint>): (r: Option<(string, nat)>)
    ensures r.Some? ==> r.value.1 <= |tokens|
  {
    if tokens == [] then Some(("", 0))
    else
      match Explain(tokens[..|tokens| - 1], hints)
      case None => None
      case Some((out, tableIndex)) =>
        var p := tokens[|tokens| - 1];
        if p == "{" || p == "}" || p == "[" || p == "]" then Some((out + p + " ", tableIndex))
        else if p == "shuffle" || p == "broadcast" then
          if tableIndex !in hints then None
          else if hints[tableIndex].status == SUCCESS then Some((out + p + " ", tableIndex))
          else Some((out, tableIndex))
        else Some((out + p + " ", tableIndex + 1))
  }

  /** A directive recorded for a prefix of the tokens stays recorded for the whole list. */
  lemma {:induction false} DirectiveAtExtends(tokens: seq<string>, p: nat, k: nat)
    requires p <= |tokens| && HintParser.DirectiveAt(tokens[..p], k).Some?
    ensures HintParser.DirectiveAt(tokens, k).Some?
    decreases |tokens| - p
  {
    if p < |tokens| {
      assert tokens[..p + 1][..p] == tokens[..p];
      DirectiveAtExtends(tokens, p + 1, k);
    } else {
      assert tokens[..p] == tokens;
    }
  }

  /**
   * For parameters that parsed and hold no "[" or "]", the table index of
   * getExplainString counts the tables read so far, so every directive finds
   * the entry the constructor stored for it and no exception is raised.
   */
  lemma {:induction false} ExplainTotal(tokens: seq<string>, all: seq<string>, hints: map<nat, DistributeHint>)
    requires tokens <= all && HintParser.Parse(all).Some?
    requires forall i :: 0 <= i < |tokens| ==> tokens[i] != "[" && tokens[i] != "]"
    requires hints.Keys == HintParser.Parse(all).value.directives.Keys
    ensures Explain(tokens, hints).Some?
    ensures Explain(tokens, hints).value.1 == |HintParser.Names(tokens)|
  {
    if tokens != [] {
      var prefix := tokens[..|tokens| - 1];
      ExplainTotal(prefix, all, hints);
      var p := tokens[|tokens| - 1];
      if p == "shuffle" || p == "broadcast" {
        var k := |HintParser.Names(prefix)|;
        assert HintParser.DirectiveAt(tokens, k).Some?;
        assert all[..|tokens|] == tokens;
        DirectiveAtExtends(all, |tokens|, k);
        HintParser.DirectivesAreLastAtEachCount(all);
      }
    }
  }

  /**
   * The constructor takes "[" and "]" for table names while getExplainString
   * does not count them, so after "t1 [" the table index lags behind: the
   * directive of "t1 [ shuffle t2" is stored at index 2, the explain loop
   * looks it up at index 1 and raises a NullPointerException.
   */
  lemma ExplainBracketThrows()
    ensures var tokens := ["t1", "[", "shuffle", "t2"];
            && HintParser.Parse(tokens).Some?
            && HintParser.Parse(tokens).value.tables == ["t1", "[", "t2"]
            && HintParser.Parse(tokens).value.directives.Keys == {2}
            && Explain(tokens, HintParser.Parse(tokens).value.directives).None?
  {
    var tokens := ["t1", "[", "shuffle", "t2"];
    HintParser.BracketIsTable();
    var hints := HintParser.Parse(tokens).value.directives;
    assert "t1" != "{" && "t1" != "}" && "t1" != "[" && "t1" != "]" && "t1" != "shuffle" && "t1" != "broadcast";
    assert tokens[..3][..2][..1] == ["t1"] && ["t1"][..0] == [];
    assert tokens[..3][..2] == ["t1", "["] && tokens[..3] == ["t1", "[", "shuffle"];
    assert Explain([], hints) == Some(("", 0));
    assert Explain(["t1"], hints).value.1 == 1;
    assert Explain(["t1", "["], hints).value.1 == 1;
  }

  class LeadingHint {
    var status: HintStatus
    var errorMessage: string
    const originalString: string
    const parameters: seq<string>
    const tablelist: seq<string>
    const levellist: seq<int>
    var distributeHints: map<nat, DistributeHint>
    var relationIdAndTableName: seq<IdName>
    var relationIdToScanMap: map<RelationId, Plan>
    var filters: seq<PendingFilter>
    var conditionJoinType: map<Expr, JoinType>
    var joinConstraintList: seq<JoinConstraint>
    var totalBitmap: RelationBitmap

    ghost predicate Valid() {
      |tablelist| == |levellist|
    }

    ghost function Snapshot(): State
      reads this
    {
      State(status, errorMessage, distributeHints, relationIdAndTableName, relationIdToScanMap,
            filters, conditionJoinType, joinConstraintList, totalBitmap)
    }

    ghost function Constraints(): set<JoinConstraint>
      reads this
    {
      set k | 0 <= k < |joinConstraintList| :: joinConstraintList[k]
    }

    /** The state the constructor leaves once its loop has parsed the parameters. */
    constructor (parameters: seq<string>, originalString: string, parsed: HintParser.ParsedHint)
      requires |parsed.tables| == |parsed.levels|
      ensures this.parameters == parameters && this.originalString == originalString
      ensures tablelist == parsed.tables && levellist == parsed.levels && distributeHints == parsed.directives
      ensures Snapshot() == State(SUCCESS, "", parsed.directives, [], map[], [], map[], [], {})
      ensures Valid()
    {
      this.parameters := parameters;
      this.originalString := originalString;
      tablelist := parsed.tables;
      levellist := parsed.levels;
      distributeHints := parsed.directives;
      status := SUCCESS;
      errorMessage := "";
      relationIdAndTableName := [];
      relationIdToScanMap := map[];
      filters := [];
      conditionJoinType := map[];
      joinConstraintList := [];
      totalBitmap := {};
    }

    /** getExplainString; None is the NullPointerException of a directive without an entry. */
    method GetExplainString() returns (r: Option<string>)
      ensures status != SUCCESS ==> r == Some(originalString)
      ensures status == SUCCESS ==>
                (r.None? <==> Explain(parameters, distributeHints).None?) &&
                (r.Some? ==> r.value == "leading(" + Explain(parameters, distributeHints).value.0 + ")")
    {
      if status != SUCCESS {
        return Some(originalString);
      }
      var out := "";
      var tableIndex: nat := 0;
      for i := 0 to |parameters|
        invariant Explain(parameters[..i], distributeHints) == Some((out, tableIndex))
      {
        assert parameters[..i + 1][..i] == parameters[..i];
        var parameter := parameters[i];
        if parameter == "{" || parameter == "}" || parameter == "[" || parameter == "]" {
          out := out + parameter + " ";
        } else if parameter == "shuffle" || parameter == "broadcast" {
          if tableIndex !in distributeHints {
            ExplainFailureIsFinal(i + 1);
            return None;
          }
          if distributeHints[tableIndex].status == SUCCESS {
            out := out + parameter + " ";
          }
        } else {
          out := out + parameter + " ";
          tableIndex := tableIndex + 1;
        }
      }
      assert parameters[..|parameters|] == parameters;
      return Some("leading(" + out + ")");
    }

    lemma {:induction false} ExplainFailureIsFinal(p: nat)
      requires p <= |parameters| && Explain(parameters[..p], distributeHints).None?
      ensures Explain(parameters, distributeHints).None?
      decreases |parameters| - p
    {
      if p < |parameters| {
        assert parameters[..p + 1][..p] == parameters[..p];
        ExplainFailureIsFinal(p + 1);
      } else {
        assert parameters[..p] == parameters;
      }
    }

    /**
     * getLogicalPlanByName: the scan of the first pair with that name;
     * SYNTAX_ERROR for an unregistered name, and null with nothing changed
     * when relationIdToScanMap has no plan for the id.
     */
    method GetLogicalPlanByName(name: string) returns (p: Option<Plan>)
      modifies this
      ensures Find(relationIdAndTableName, name).None? ==>
                p.None? && Snapshot() == old(Snapshot()).(status := SYNTAX_ERROR, errorMessage := "can not find table: " + name)
      ensures ScanMissing(relationIdAndTableName, relationIdToScanMap, name) ==> p.None? && Snapshot() == old(Snapshot())
      ensures Loadable(relationIdAndTableName, relationIdToScanMap, name) ==>
                Snapshot() == old(Snapshot()) && p == Some(ScanFor(relationIdAndTableName, relationIdToScanMap, name))
    {
      var id := FindRelationIdAndTableName(name);
      if id.None? {
        status := SYNTAX_ERROR;
        errorMessage := "can not find table: " + name;
        return None;
      }
      if id.value !in relationIdToScanMap {
        return None;
      }
      return Some(relationIdToScanMap[id.value]);
    }

    /** putRelationIdAndTableName, proved against PutById. */
    method PutRelationIdAndTableName(p: IdName)
      modifies this
      ensures Snapshot() == old(Snapshot()).(pairs := PutById(old(relationIdAndTableName), p))
    {
      ghost var before := relationIdAndTableName;
      var isUpdate := false;
      for i := 0 to |relationIdAndTableName|
        invariant |relationIdAndTableName| == |before|
        invariant relationIdAndTableName[i..] == before[i..]
        invariant forall j :: 0 <= j < i ==>
                    relationIdAndTableName[j] ==
                    if before[j].relationId == p.relationId then IdName(before[j].relationId, p.tableName) else before[j]
        invariant isUpdate <==> exists j :: 0 <= j < i && before[j].relationId == p.relationId
        invariant Snapshot() == old(Snapshot()).(pairs := relationIdAndTableName)
      {
        assert relationIdAndTableName[i] == before[i..][0];
        if relationIdAndTableName[i].relationId == p.relationId {
          relationIdAndTableName := relationIdAndTableName[i := IdName(relationIdAndTableName[i].relationId, p.tableName)];
          isUpdate := true;
        }
        assert relationIdAndTableName[i + 1..] == before[i + 1..] by {
          assert before[i + 1..] == before[i..][1..];
        }
      }
      if !isUpdate {
        relationIdAndTableName := relationIdAndTableName + [p];
      }
    }

    /** updateRelationIdByTableName, proved against UpdateByName. */
    method UpdateRelationIdByTableName(p: IdName)
      modifies this
      ensures Snapshot() == old(Snapshot()).(pairs := UpdateByName(old(relationIdAndTableName), p))
    {
      ghost var before := relationIdAndTableName;
      var isUpdate := false;
      for i := 0 to |relationIdAndTableName|
        invariant |relationIdAndTableName| == |before|
        invariant relationIdAndTableName[i..] == before[i..]
        invariant forall j :: 0 <= j < i ==>
                    relationIdAndTableName[j] ==
                    if before[j].tableName == p.tableName then IdName(p.relationId, before[j].tableName) else before[j]
        invariant isUpdate <==> exists j :: 0 <= j < i && before[j].tableName == p.tableName
        invariant Snapshot() == old(Snapshot()).(pairs := relationIdAndTableName)
      {
        assert relationIdAndTableName[i] == before[i..][0];
        if relationIdAndTableName[i].tableName == p.tableName {
          relationIdAndTableName := relationIdAndTableName[i := IdName(p.relationId, relationIdAndTableName[i].tableName)];
          isUpdate := true;
        }
        assert relationIdAndTableName[i + 1..] == before[i + 1..] by {
          assert before[i + 1..] == before[i..][1..];
        }
      }
      if !isUpdate {
        relationIdAndTableName := relationIdAndTableName + [p];
      }
    }

    /** findRelationIdAndTableName: the id of the first pair with that name. */
    method FindRelationIdAndTableName(name: string) returns (r: Option<RelationId>)
      ensures r == Find(relationIdAndTableName, name)
    {
      for i := 0 to |relationIdAndTableName|
        invariant Find(relationIdAndTableName[i..], name) == Find(relationIdAndTableName, name)
      {
        if relationIdAndTableName[i].tableName == name {
          return Some(relationIdAndTableName[i].relationId);
        }
        assert relationIdAndTableName[i..][1..] == relationIdAndTableName[i + 1..];
      }
      return None;
    }

    /** hasSameName: whether some table is named twice in the hint. */
    method HasSameName() returns (b: bool)
      ensures b == HasDuplicate(tablelist)
    {
      var tableSet: set<string> := {};
      for i := 0 to |tablelist|
        invariant tableSet == set j | 0 <= j < i :: tablelist[j]
        invariant forall j, k :: 0 <= j < k < i ==> tablelist[j] != tablelist[k]
      {
        if tablelist[i] in tableSet {
          var j :| 0 <= j < i && tablelist[j] == tablelist[i];
          return true;
        }
        tableSet := tableSet + {tablelist[i]};
      }
      return false;
    }

    /** The loop shared by setTotalBitmap and getLeadingTableBitmap. */
    method CollectTableBitmap() returns (bits: RelationBitmap, missing: Option<nat>)
      ensures missing == FirstMissing(relationIdAndTableName, tablelist)
      ensures bits == FoundIds(relationIdAndTableName, tablelist[..if missing.Some? then missing.value else |tablelist|])
    {
      bits := {};
      for index := 0 to |tablelist|
        invariant forall j :: 0 <= j < index ==> Find(relationIdAndTableName, tablelist[j]).Some?
        invariant bits == FoundIds(relationIdAndTableName, tablelist[..index])
      {
        var id := FindRelationIdAndTableName(tablelist[index]);
        if id.None? {
          return bits, Some(index);
        }
        assert tablelist[..index + 1] == tablelist[..index] + [tablelist[index]];
        FoundIdsAppend(relationIdAndTableName, tablelist[..index], tablelist[index]);
        bits := bits + {id.value};
      }
      assert tablelist[..|tablelist|] == tablelist;
      return bits, None;
    }

    /**
     * setTotalBitmap: a duplicated name records SYNTAX_ERROR but the bitmap is
     * still built; an unregistered name records SYNTAX_ERROR and leaves
     * totalBitmap as it was.
     */
    method SetTotalBitmap()
      modifies this
      ensures var missing := FirstMissing(relationIdAndTableName, tablelist);
              && (missing.Some? ==>
                    Snapshot() == old(Snapshot()).(status := SYNTAX_ERROR,
                                                   errorMessage := "can not find table: " + tablelist[missing.value]))
              && (missing.None? && HasDuplicate(tablelist) ==>
                    Snapshot() == old(Snapshot()).(status := SYNTAX_ERROR, errorMessage := "duplicated table",
                                                   totalBitmap := FoundIds(relationIdAndTableName, tablelist)))
              && (missing.None? && !HasDuplicate(tablelist) ==>
                    Snapshot() == old(Snapshot()).(totalBitmap := FoundIds(relationIdAndTableName, tablelist)))
    {
      var same := HasSameName();
      if same {
        status := SYNTAX_ERROR;
        errorMessage := "duplicated table";
      }
      var bits, missing := CollectTableBitmap();
      if missing.Some? {
        status := SYNTAX_ERROR;
        errorMessage := "can not find table: " + tablelist[missing.value];
        return;
      }
      assert tablelist[..|tablelist|] == tablelist;
      totalBitmap := bits;
    }

    /**
     * getLeadingTableBitmap: {} for duplicated names, the ids of the names
     * before the first unregistered one, or the ids of all names.
     */
    method GetLeadingTableBitmap() returns (bits: RelationBitmap)
      modifies this
      ensures HasDuplicate(tablelist) ==>
                bits == {} && Snapshot() == old(Snapshot()).(status := SYNTAX_ERROR, errorMessage := "duplicated table")
      ensures var missing := FirstMissing(relationIdAndTableName, tablelist);
              !HasDuplicate(tablelist) && missing.Some? ==>
                bits == FoundIds(relationIdAndTableName, tablelist[..missing.value]) &&
                Snapshot() == old(Snapshot()).(status := SYNTAX_ERROR, errorMessage := "can not find table: " + tablelist[missing.value])
      ensures !HasDuplicate(tablelist) && FirstMissing(relationIdAndTableName, tablelist).None? ==>
                bits == FoundIds(relationIdAndTableName, tablelist) && Snapshot() == old(Snapshot())
    {
      var same := HasSameName();
      if same {
        status := SYNTAX_ERROR;
        errorMessage := "duplicated table";
        return {};
      }
      var missing;
      bits, missing := CollectTableBitmap();
      if missing.Some? {
        status := SYNTAX_ERROR;
        errorMessage := "can not find table: " + tablelist[missing.value];
        return;
      }
      assert tablelist[..|tablelist|] == tablelist;
    }

    /**
     * getJoinConstraint, proved against Resolve: (null, false) is (None,
     * false), (null, true) is (None, true), and a match sets the matched
     * constraint's reversed flag.
     */
    method GetJoinConstraint(join: RelationBitmap, left: RelationBitmap, right: RelationBitmap)
      returns (c: Option<JoinConstraint>, ok: bool)
      modifies Constraints()
      ensures Resolve(EdgesOf(joinConstraintList), join, left, right).Failed? ==> c.None? && !ok
      ensures Resolve(EdgesOf(joinConstraintList), join, left, right).NoMatch? ==> c.None? && ok
      ensures Resolve(EdgesOf(joinConstraintList), join, left, right).Matched? ==>
                && c == Some(joinConstraintList[Resolve(EdgesOf(joinConstraintList), join, left, right).index]) && ok
                && c.value.reversed == Resolve(EdgesOf(joinConstraintList), join, left, right).reversed
      ensures forall k :: 0 <= k < |joinConstraintList| && Some(joinConstraintList[k]) != c ==>
                joinConstraintList[k].reversed == old(joinConstraintList[k].reversed)
    {
      ghost var es := EdgesOf(joinConstraintList);
      var reversed := false;
      var mustBeLeftjoin := false;
      var matched: Option<nat> := None;
      for i := 0 to |joinConstraintList|
        invariant matched.Some? ==> matched.value < i
        invariant ResolveFrom(es, join, left, right, i, ScanState(matched, reversed, mustBeLeftjoin)) == Resolve(es, join, left, right)
      {
        // Classify walks the guards of the loop body in their order and names the branch taken
        var v := Classify(joinConstraintList[i].edge, join, left, right);
        if v.Violation? {
          return None, false;
        } else if v.MustBeLeft? {
          mustBeLeftjoin := true;
        } else if IsMatch(v) {
          if matched.Some? {
            return None, false;
          }
          matched := Some(i);
          reversed := v.Swapped? || v.SemiReversed?;
          if v.FullOuterMatch? {
            break;
          }
        }
      }
      assert Finish(es, ScanState(matched, reversed, mustBeLeftjoin)) == Resolve(es, join, left, right);
      if mustBeLeftjoin && (matched.None? || !joinConstraintList[matched.value].edge.joinType.IsLeftJoin()
                            || !joinConstraintList[matched.value].edge.lhsStrict) {
        return None, false;
      }
      if matched.None? {
        return None, true;
      }
      joinConstraintList[matched.value].reversed := reversed;
      return Some(joinConstraintList[matched.value]), true;
    }

    /**
     * computeJoinType: the matched constraint's kind, swapped when reversed;
     * otherwise CROSS_JOIN for no conditions and INNER_JOIN else.  A failed
     * resolution records UNUSED and still answers CROSS_JOIN or INNER_JOIN.
     */
    method ComputeJoinType(left: RelationBitmap, right: RelationBitmap, conditions: seq<Expr>) returns (joinType: JoinType)
      modifies this, Constraints()
      ensures var o := Resolve(EdgesOf(joinConstraintList), left + right, left, right);
              && joinType == JoinTypeOf(EdgesOf(joinConstraintList), o, conditions == [])
              && Snapshot() == old(Snapshot()).(status := if o.Failed? then UNUSED else old(status))
              && (forall k ::
                    (0 <= k < |joinConstraintList| && !(o.Matched? && joinConstraintList[k] == joinConstraintList[o.index])) ==>
                    joinConstraintList[k].reversed == old(joinConstraintList[k].reversed))
    {
      var c, ok := GetJoinConstraint(left + right, left, right);
      if !ok {
        status := UNUSED;
      } else if c.None? {
        if conditions == [] {
          return CROSS_JOIN;
        }
        return INNER_JOIN;
      } else {
        if c.value.reversed {
          return c.value.edge.joinType.Swap();
        } else {
          return c.value.edge.joinType;
        }
      }
      if conditions == [] {
        return CROSS_JOIN;
      }
      return INNER_JOIN;
    }

    /**
     * getLogicalPlanByName followed by makeFilterPlanIfExist, as
     * generateLeadingJoinPlan does for every table it reads; None is the
     * null that ends the generation.
     */
    method LoadLeaf(j: nat) returns (leaf: Option<Plan>)
      requires j < |tablelist|
      modifies this
      ensures Find(relationIdAndTableName, tablelist[j]).None? ==>
                leaf.None? &&
                Snapshot() == old(Snapshot()).(status := SYNTAX_ERROR, errorMessage := "can not find table: " + tablelist[j])
      ensures ScanMissing(relationIdAndTableName, relationIdToScanMap, tablelist[j]) ==>
                leaf.None? && Snapshot() == old(Snapshot())
      ensures Loadable(relationIdAndTableName, relationIdToScanMap, tablelist[j]) ==>
                && leaf.Some?
                && relationIdAndTableName == old(relationIdAndTableName)
                && relationIdToScanMap == old(relationIdToScanMap)
                && var scan := ScanFor(relationIdAndTableName, relationIdToScanMap, tablelist[j]);
                   && (leaf.value == scan || (leaf.value.Filter? && leaf.value.child == scan))
                   && Units(leaf.value) == Units(scan)
                   && GetBitmap(leaf.value) == GetBitmap(scan)
                   && WellFormed(leaf.value) == WellFormed(scan)
                   && Snapshot() == old(Snapshot()).(filters := Remaining(old(filters), GetBitmap(scan)))
    {
      var scan := GetLogicalPlanByName(tablelist[j]);
      if scan.None? {
        return None;
      }
      var p := MakeFilterPlanIfExist(scan.value);
      return Some(p);
    }

    /**
     * Reading table `index` in generateLeadingJoinPlan: its scan plan, with
     * the filters it covers on top, becomes the leaf of the skeleton at that
     * position and its bitmap is used for filter extraction.  None is the
     * null returned for an unregistered table or one without a scan plan.
     */
    method ReadLeaf(index: nat, ghost origin: seq<PendingFilter>, ghost used0: set<RelationBitmap>, ghost env: Env)
      returns (plan: Option<Plan>, ghost used: set<RelationBitmap>)
      requires index < |tablelist| && Resolvable(relationIdAndTableName, relationIdToScanMap, tablelist, index)
      requires filters == RemainingAll(origin, used0)
      requires env.pairs == relationIdAndTableName && env.scans == relationIdToScanMap && env.names == tablelist
      modifies this
      ensures Snapshot() == old(Snapshot()).(status := status, errorMessage := errorMessage, filters := filters)
      ensures filters == RemainingAll(origin, used) && used0 <= used
      ensures plan.None? ==> status != SUCCESS || ScanMissing(relationIdAndTableName, relationIdToScanMap, tablelist[index])
      ensures plan.Some? ==>
                && status == old(status) && errorMessage == old(errorMessage)
                && Resolvable(relationIdAndTableName, relationIdToScanMap, tablelist, index + 1)
                && Units(plan.value) == SpanUnits(relationIdAndTableName, relationIdToScanMap, tablelist, index, index + 1)
                && GetBitmap(plan.value) in used
                && (ScansWellFormed(relationIdToScanMap) ==> WellFormed(plan.value))
                && Shaped(plan.value, Leaf(index), env)
    {
      ghost var pairs, scans := relationIdAndTableName, relationIdToScanMap;
      used := used0;
      plan := LoadLeaf(index);
      if plan.None? {
        return;
      }
      RemainingAllStep(origin, used, GetBitmap(plan.value));
      used := used + {GetBitmap(plan.value)};
      SpanUnitsOne(pairs, scans, tablelist, index);
      if ScansWellFormed(scans) {
        ScanForWellFormed(pairs, scans, tablelist[index]);
      }
    }

    /**
     * One reduction step of generateLeadingJoinPlan: extract the join
     * conditions of the popped plan and the current one, compute the join
     * type, check it against the conditions' original join types and build
     * the join with the distribute hint stored at `distributeIndex`.
     * Some(outcome) is a return from the whole generation.
     */
    method JoinTop(left: Plan, right: Plan, distributeIndex: nat, ghost origin: seq<PendingFilter>,
                   ghost originHints: map<nat, DistributeHint>, ghost used0: set<RelationBitmap>)
      returns (early: Option<Assembly>, join: Plan, ghost used: set<RelationBitmap>)
      requires filters == RemainingAll(origin, used0)
      requires HintsEvolved(originHints, distributeHints)
      modifies this, Constraints()
      ensures Snapshot() == old(Snapshot()).(status := status, errorMessage := errorMessage,
                                             distributeHints := distributeHints, filters := filters)
      ensures used == used0 + {GetBitmap(left) + GetBitmap(right)}
      ensures filters == Remaining(old(filters), GetBitmap(left) + GetBitmap(right))
      ensures filters == RemainingAll(origin, used)
      ensures HintsEvolved(originHints, distributeHints)
      ensures early.Some? ==>
                && distributeHints == old(distributeHints)
                && (early.value == Thrown(NullPointer) || (early.value.NoPlan? && status != SUCCESS))
      ensures early.None? ==>
                && status == SUCCESS
                && distributeHints == MarkUsed(old(distributeHints), distributeIndex)
                && join == ExpectedJoin(EdgesOf(joinConstraintList), old(distributeHints), distributeIndex, old(filters), left, right)
                && GetBitmap(join) in used
                && Units(join) == Units(left) + Units(right)
                && (WellFormed(left) && WellFormed(right) ==> WellFormed(join))
    {
      var conditions := GetJoinConditions(left, right);
      var joinBitmap := GetBitmap(left) + GetBitmap(right);
      RemainingAllStep(origin, used0, joinBitmap);
      used := used0 + {joinBitmap};
      var joinType;
      early, joinType := CheckJoinType(GetBitmap(left), GetBitmap(right), conditions);
      join := left;
      if early.None? {
        var distributeHint := GetJoinHint(distributeIndex);
        join := Join(joinType, distributeHint, conditions, left, right, joinBitmap);
      }
    }

    /**
     * The join-type part of a reduction step: compute the join type, then
     * check the conditions' original join types against it.  Some(outcome)
     * is a return from the whole generation: the NullPointerException of a
     * condition with no recorded join type, or null once the hint is no
     * longer successful, UNUSED with its message when a condition came from
     * an incompatible join.
     */
    method CheckJoinType(left: RelationBitmap, right: RelationBitmap, conditions: seq<Expr>)
      returns (early: Option<Assembly>, joinType: JoinType)
      modifies this, Constraints()
      ensures Snapshot() == old(Snapshot()).(status := status, errorMessage := errorMessage)
      ensures joinType == JoinTypeOf(EdgesOf(joinConstraintList),
                                     Resolve(EdgesOf(joinConstraintList), left + right, left, right), conditions == [])
      ensures ConditionsMatched(conditions, conditionJoinType, joinType).None? ==>
                && early == Some(Thrown(NullPointer)) && errorMessage == old(errorMessage)
                && status == (if Resolve(EdgesOf(joinConstraintList), left + right, left, right).Failed? then UNUSED else old(status))
      ensures ConditionsMatched(conditions, conditionJoinType, joinType) == Some(false) ==>
                early == Some(NoPlan) && status == UNUSED && errorMessage == "condition does not matched joinType"
      ensures ConditionsMatched(conditions, conditionJoinType, joinType) == Some(true) ==>
                && errorMessage == old(errorMessage)
                && status == (if Resolve(EdgesOf(joinConstraintList), left + right, left, right).Failed? then UNUSED else old(status))
                && (early.None? <==> status == SUCCESS)
                && (early.Some? ==> early == Some(NoPlan))
      ensures early.Some? ==> early.value == Thrown(NullPointer) || (early.value.NoPlan? && status != SUCCESS)
      ensures early.None? ==> status == SUCCESS
    {
      joinType := ComputeJoinType(left, right, conditions);
      var matched := IsConditionJoinTypeMatched(conditions, joinType);
      if matched.None? {
        return Some(Thrown(NullPointer)), joinType;
      }
      if !matched.value {
        status := UNUSED;
        errorMessage := "condition does not matched joinType";
      }
      if status != SUCCESS {
        return Some(NoPlan), joinType;
      }
      return None, joinType;
    }

    /**
     * The inner loop of generateLeadingJoinPlan and the push after it: while
     * the frame on top of the stack has the current level, pop it and join
     * its plan with the current one.  Some(outcome) is a return from the
     * whole generation.  On the frames it follows Reduce: the new stack has
     * the levels, distribute indices and skeletons Reduce computes from the
     * skeletons of the old stack and of the current plan.
     */
    method ReduceFrames(stack0: seq<Frame>, ghost starts0: seq<nat>, level0: int, index: nat, distributeIndex0: nat,
                        plan0: Plan, ghost start0: nat, ghost origin: seq<PendingFilter>,
                        ghost originHints: map<nat, DistributeHint>, ghost used0: set<RelationBitmap>,
                        ghost env: Env, ghost shapes0: seq<ShapeFrame>, ghost cur0: Shape)
      returns (early: Option<Assembly>, stack: seq<Frame>, ghost starts: seq<nat>, stackTopLevel: int,
               ghost used: set<RelationBitmap>, ghost m: Machine)
      requires |stack0| > 0 && start0 < index <= |tablelist| && Valid()
      requires Resolvable(relationIdAndTableName, relationIdToScanMap, tablelist, index)
      requires StackInvariant(relationIdAndTableName, relationIdToScanMap, tablelist, stack0, starts0, start0, used0)
      requires Units(plan0) == SpanUnits(relationIdAndTableName, relationIdToScanMap, tablelist, start0, index)
      requires GetBitmap(plan0) in used0 && (ScansWellFormed(relationIdToScanMap) ==> WellFormed(plan0))
      requires filters == RemainingAll(origin, used0)
      requires HintsEvolved(originHints, distributeHints)
      requires env == Env(relationIdAndTableName, relationIdToScanMap, tablelist, originHints, EdgesOf(joinConstraintList))
      requires StackShaped(stack0, shapes0, env) && Shaped(plan0, cur0, env)
      modifies this, Constraints()
      ensures Snapshot() == old(Snapshot()).(status := status, errorMessage := errorMessage,
                                             distributeHints := distributeHints, filters := filters)
      ensures filters == RemainingAll(origin, used)
      ensures HintsEvolved(originHints, distributeHints)
      ensures m == Reduce(levellist, index, shapes0, level0, cur0, distributeIndex0)
      ensures early.Some? ==> early.value == Thrown(NullPointer) || (early.value.NoPlan? && status != SUCCESS)
      ensures early.None? ==>
                && |stack| > 0 && StackInvariant(relationIdAndTableName, relationIdToScanMap, tablelist, stack, starts, index, used)
                && StackShaped(stack, m.stack, env) && stackTopLevel == m.level
    {
      ghost var pairs, scans := relationIdAndTableName, relationIdToScanMap;
      m := Reduce(levellist, index, shapes0, level0, cur0, distributeIndex0);
      stack, starts, stackTopLevel, used := stack0, starts0, level0, used0;
      var logicalPlan, distributeIndex := plan0, distributeIndex0;
      ghost var curStart: nat := start0;
      ghost var shapes, cur := shapes0, cur0;
      var newStackTop := stack[|stack| - 1];
      while !(|stack| == 0 || stackTopLevel != newStackTop.level)
        invariant curStart < index && Resolvable(relationIdAndTableName, relationIdToScanMap, tablelist, index)
        invariant StackInvariant(relationIdAndTableName, relationIdToScanMap, tablelist, stack, starts, curStart, used)
        invariant Units(logicalPlan) == SpanUnits(relationIdAndTableName, relationIdToScanMap, tablelist, curStart, index)
        invariant |stack| > 0 ==> newStackTop == stack[|stack| - 1]
        invariant GetBitmap(logicalPlan) in used
        invariant ScansWellFormed(relationIdToScanMap) ==> WellFormed(logicalPlan)
        invariant filters == RemainingAll(origin, used)
        invariant HintsEvolved(originHints, distributeHints)
        invariant Snapshot() == old(Snapshot()).(status := status, errorMessage := errorMessage,
                                                 distributeHints := distributeHints, filters := filters)
        invariant StackShaped(stack, shapes, env) && Shaped(logicalPlan, cur, env)
        invariant Reduce(levellist, index, shapes, stackTopLevel, cur, distributeIndex) == m
        invariant joinConstraintList == old(joinConstraintList)
        decreases |stack|
      {
        var early0;
        early0, stack, starts, curStart, logicalPlan, distributeIndex, stackTopLevel, used, shapes, cur :=
          ReducePass(stack, starts, curStart, index, logicalPlan, distributeIndex, stackTopLevel,
                     origin, originHints, used, env, shapes, cur, m);
        if early0.Some? {
          return early0, stack, starts, stackTopLevel, used, m;
        }
        if |stack| > 0 {
          newStackTop := stack[|stack| - 1];
        }
      }
      PushStack(pairs, scans, tablelist, stack, starts, curStart, index, Frame(stackTopLevel, logicalPlan, distributeIndex),
                used, used);
      StackShapedPush(stack, shapes, env, Frame(stackTopLevel, logicalPlan, distributeIndex),
                      ShapeFrame(stackTopLevel, cur, distributeIndex));
      stack := stack + [Frame(stackTopLevel, logicalPlan, distributeIndex)];
      starts := starts + [curStart];
      return None, stack, starts, stackTopLevel, used, m;
    }

    /**
     * One pass of the inner loop of generateLeadingJoinPlan with its
     * bookkeeping: the joined plan becomes the current one, the next join
     * reads the popped frame's distribute index, and the level drops as
     * Lowered says.  On skeletons it is one unfolding of Reduce, so the
     * machine Reduce computes is unchanged.
     */
    method ReducePass(stack: seq<Frame>, ghost starts: seq<nat>, ghost curStart: nat, index: nat, plan: Plan,
                      distributeIndex: nat, level: int, ghost origin: seq<PendingFilter>,
                      ghost originHints: map<nat, DistributeHint>, ghost used0: set<RelationBitmap>,
                      ghost env: Env, ghost shapes: seq<ShapeFrame>, ghost cur: Shape, ghost m: Machine)
      returns (early: Option<Assembly>, stack': seq<Frame>, ghost starts': seq<nat>, ghost curStart': nat, plan': Plan,
               distributeIndex': nat, level': int, ghost used: set<RelationBitmap>,
               ghost shapes': seq<ShapeFrame>, ghost cur': Shape)
      requires Valid() && |stack| > 0 && curStart < index <= |tablelist| && level == stack[|stack| - 1].level
      requires Resolvable(relationIdAndTableName, relationIdToScanMap, tablelist, index)
      requires StackInvariant(relationIdAndTableName, relationIdToScanMap, tablelist, stack, starts, curStart, used0)
      requires Units(plan) == SpanUnits(relationIdAndTableName, relationIdToScanMap, tablelist, curStart, index)
      requires GetBitmap(plan) in used0 && (ScansWellFormed(relationIdToScanMap) ==> WellFormed(plan))
      requires filters == RemainingAll(origin, used0)
      requires HintsEvolved(originHints, distributeHints)
      requires env == Env(relationIdAndTableName, relationIdToScanMap, tablelist, originHints, EdgesOf(joinConstraintList))
      requires StackShaped(stack, shapes, env) && Shaped(plan, cur, env)
      requires Reduce(levellist, index, shapes, level, cur, distributeIndex) == m
      modifies this, Constraints()
      ensures Snapshot() == old(Snapshot()).(status := status, errorMessage := errorMessage,
                                             distributeHints := distributeHints, filters := filters)
      ensures filters == RemainingAll(origin, used)
      ensures HintsEvolved(originHints, distributeHints)
      ensures early.Some? ==> early.value == Thrown(NullPointer) || (early.value.NoPlan? && status != SUCCESS)
      ensures early.None? ==>
                && stack' == stack[..|stack| - 1] && curStart' < index
                && StackInvariant(relationIdAndTableName, relationIdToScanMap, tablelist, stack', starts', curStart', used)
                && Units(plan') == SpanUnits(relationIdAndTableName, relationIdToScanMap, tablelist, curStart', index)
                && GetBitmap(plan') in used
                && (ScansWellFormed(relationIdToScanMap) ==> WellFormed(plan'))
                && StackShaped(stack', shapes', env) && Shaped(plan', cur', env)
                && Reduce(levellist, index, shapes', level', cur', distributeIndex') == m
    {
      var top := stack[|stack| - 1];
      early, plan', used := JoinWithTop(stack, starts, curStart, index, plan, distributeIndex,
                                        origin, originHints, used0, env, shapes, cur);
      stack', starts', curStart', distributeIndex', level', shapes', cur' :=
        stack, starts, curStart, distributeIndex, level, shapes, cur;
      if early.Some? {
        return;
      }
      ReduceUnfold(levellist, index, shapes, level, cur, distributeIndex);
      shapes', cur' := shapes[..|shapes| - 1], Node(distributeIndex, shapes[|shapes| - 1].shape, cur);
      curStart' := starts[|starts| - 1];
      stack', starts' := stack[..|stack| - 1], starts[..|starts| - 1];
      distributeIndex' := top.distributeIndex;
      level' := LowerLevel(level, index);
    }

    /**
     * The level update after each join of the inner loop: a positive level
     * drops by one at the end of the table list or when the next table's
     * level is lower.
     */
    method LowerLevel(stackTopLevel: int, index: nat) returns (level: int)
      requires Valid()
      ensures level == Lowered(levellist, index, stackTopLevel)
    {
      level := stackTopLevel;
      if stackTopLevel > 0 {
        if index < |tablelist| {
          if stackTopLevel > levellist[index] {
            level := stackTopLevel - 1;
          }
        } else {
          level := stackTopLevel - 1;
        }
      }
    }

    /**
     * The join in one pass of the inner loop of generateLeadingJoinPlan: pop the top
     * frame and join its plan, on the left, with the current plan.  The
     * join covers the tables from the popped frame's start to `index`.
     */
    method JoinWithTop(stack: seq<Frame>, ghost starts: seq<nat>, ghost end: nat, index: nat, plan: Plan,
                       distributeIndex: nat, ghost origin: seq<PendingFilter>,
                       ghost originHints: map<nat, DistributeHint>, ghost used0: set<RelationBitmap>,
                       ghost env: Env, ghost shapes: seq<ShapeFrame>, ghost cur: Shape)
      returns (early: Option<Assembly>, join: Plan, ghost used: set<RelationBitmap>)
      requires |stack| > 0 && end < index <= |tablelist|
      requires Resolvable(relationIdAndTableName, relationIdToScanMap, tablelist, index)
      requires StackInvariant(relationIdAndTableName, relationIdToScanMap, tablelist, stack, starts, end, used0)
      requires Units(plan) == SpanUnits(relationIdAndTableName, relationIdToScanMap, tablelist, end, index)
      requires GetBitmap(plan) in used0 && (ScansWellFormed(relationIdToScanMap) ==> WellFormed(plan))
      requires filters == RemainingAll(origin, used0)
      requires HintsEvolved(originHints, distributeHints)
      requires env == Env(relationIdAndTableName, relationIdToScanMap, tablelist, originHints, EdgesOf(joinConstraintList))
      requires StackShaped(stack, shapes, env) && Shaped(plan, cur, env)
      modifies this, Constraints()
      ensures Snapshot() == old(Snapshot()).(status := status, errorMessage := errorMessage,
                                             distributeHints := distributeHints, filters := filters)
      ensures |starts| == |stack| && starts[|stack| - 1] < end
      ensures |shapes| == |stack| && stack[|stack| - 1].level == shapes[|stack| - 1].level
      ensures stack[|stack| - 1].distributeIndex == shapes[|stack| - 1].distributeIndex
      ensures filters == RemainingAll(origin, used)
      ensures HintsEvolved(originHints, distributeHints)
      ensures early.Some? ==> early.value == Thrown(NullPointer) || (early.value.NoPlan? && status != SUCCESS)
      ensures early.None? ==>
                && join == ExpectedJoin(EdgesOf(joinConstraintList), old(distributeHints), distributeIndex, old(filters),
                                        stack[|stack| - 1].plan, plan)
                && distributeHints == MarkUsed(old(distributeHints), distributeIndex)
                && StackInvariant(relationIdAndTableName, relationIdToScanMap, tablelist,
                                  stack[..|stack| - 1], starts[..|stack| - 1], starts[|stack| - 1], used)
                && Units(join) == SpanUnits(relationIdAndTableName, relationIdToScanMap, tablelist, starts[|stack| - 1], index)
                && GetBitmap(join) in used
                && (ScansWellFormed(relationIdToScanMap) ==> WellFormed(join))
                && StackShaped(stack[..|stack| - 1], shapes[..|stack| - 1], env)
                && Shaped(join, Node(distributeIndex, shapes[|stack| - 1].shape, cur), env)
    {
      ghost var pairs, scans := relationIdAndTableName, relationIdToScanMap;
      ghost var hints0, filters0 := distributeHints, filters;
      StackShapedPop(stack, shapes, env);
      PopStack(pairs, scans, tablelist, stack, starts, end, used0);
      var top := stack[|stack| - 1];
      ghost var start := starts[|stack| - 1];
      SpanUnitsSplit(pairs, scans, tablelist, start, end, index);
      early, join, used := JoinTop(top.plan, plan, distributeIndex, origin, originHints, used0);
      if early.None? {
        assert relationIdAndTableName == pairs && relationIdToScanMap == scans;
        ExpectedJoinShaped(env, hints0, distributeIndex, filters0, top.plan, plan, shapes[|stack| - 1].shape, cur);
        StackUsedGrows(pairs, scans, tablelist, stack[..|stack| - 1], starts[..|stack| - 1], start, used0, used);
      }
    }

    /**
     * One iteration of generateLeadingJoinPlan's outer loop: read table
     * `index`, then either reduce the frames of the same level or push a new
     * frame.  Some(outcome) is a return from the whole generation.  On the
     * frames it follows ReadStep of the reference machine.
     */
    method ReadTable(index: nat, stack0: seq<Frame>, ghost starts0: seq<nat>, level0: int,
                     ghost origin: seq<PendingFilter>, ghost originHints: map<nat, DistributeHint>,
                     ghost used0: set<RelationBitmap>, ghost env: Env, ghost m0: Machine)
      returns (early: Option<Assembly>, stack: seq<Frame>, ghost starts: seq<nat>, stackTopLevel: int,
               ghost used: set<RelationBitmap>)
      requires Valid() && index < |tablelist| && |stack0| > 0
      requires StackInvariant(relationIdAndTableName, relationIdToScanMap, tablelist, stack0, starts0, index, used0)
      requires filters == RemainingAll(origin, used0)
      requires HintsEvolved(originHints, distributeHints)
      requires env == Env(relationIdAndTableName, relationIdToScanMap, tablelist, originHints, EdgesOf(joinConstraintList))
      requires StackShaped(stack0, m0.stack, env) && level0 == m0.level
      modifies this, Constraints()
      ensures Snapshot() == old(Snapshot()).(status := status, errorMessage := errorMessage,
                                             distributeHints := distributeHints, filters := filters)
      ensures filters == RemainingAll(origin, used)
      ensures HintsEvolved(originHints, distributeHints)
      ensures early.Some? ==>
                || early.value == Thrown(NullPointer)
                || (early.value.NoPlan? &&
                    (status != SUCCESS || ScanMissing(relationIdAndTableName, relationIdToScanMap, tablelist[index])))
      ensures early.None? ==>
                && |stack| > 0 && StackInvariant(relationIdAndTableName, relationIdToScanMap, tablelist, stack, starts, index + 1, used)
                && StackShaped(stack, ReadStep(levellist, index, m0).stack, env)
                && stackTopLevel == ReadStep(levellist, index, m0).level
    {
      ghost var pairs, scans := relationIdAndTableName, relationIdToScanMap;
      stack, starts, stackTopLevel := stack0, starts0, level0;
      var currentLevel := levellist[index];
      var plan;
      plan, used := ReadLeaf(index, origin, used0, env);
      if plan.None? {
        return Some(NoPlan), stack, starts, stackTopLevel, used;
      }
      StackUsedGrows(pairs, scans, tablelist, stack, starts, index, used0, used);
      assert joinConstraintList == old(joinConstraintList);
      if currentLevel == stackTopLevel {
        ghost var m;
        early, stack, starts, stackTopLevel, used, m :=
          ReduceFrames(stack, starts, stackTopLevel, index + 1, index, plan.value, index, origin, originHints, used,
                       env, m0.stack, Leaf(index));
      } else {
        PushStack(pairs, scans, tablelist, stack, starts, index, index + 1, Frame(currentLevel, plan.value, index + 1),
                  used, used);
        StackShapedPush(stack, m0.stack, env, Frame(currentLevel, plan.value, index + 1),
                        ShapeFrame(currentLevel, Leaf(index), index + 1));
        // the frame records the index after it was advanced
        stack := stack + [Frame(currentLevel, plan.value, index + 1)];
        starts := starts + [index];
        stackTopLevel := currentLevel;
        early := None;
      }
    }

    /**
     * generateLeadingJoinPlan: the stack machine over (level, plan,
     * distribute index) frames.  A built plan has the skeleton
     * AssembledShape(levellist) computes from the level list alone: its
     * leaves are the tables' scans (with their filters), each join reads the
     * directive the skeleton names, records the union of its children's
     * bitmaps and has the kind the constraint resolver computes.  It leaves
     * the hint in SUCCESS and joins the scans of a final range of the table
     * list in hint order.  The failed cast of the final frame happens
     * exactly where the skeleton is a single table.  null leaves the hint
     * unsuccessful, unless a table has no scan plan.  The pending filters
     * that remain are the original ones not covered by any bitmap used for
     * extraction, in their original order.
     */
    method GenerateLeadingJoinPlan() returns (r: Assembly, ghost used: set<RelationBitmap>, ghost first: nat)
      requires Valid()
      modifies this, Constraints()
      ensures Snapshot() == old(Snapshot()).(status := status, errorMessage := errorMessage,
                                             distributeHints := distributeHints, filters := filters)
      ensures r == Thrown(IndexOutOfBounds) <==> |tablelist| == 0
      ensures r.Built? ==> status == SUCCESS && r.plan.Join?
      ensures r.NoPlan? ==>
                || status != SUCCESS
                || exists j :: 0 <= j < |tablelist| && ScanMissing(relationIdAndTableName, relationIdToScanMap, tablelist[j])
      ensures r.Built? ==>
                Shaped(r.plan, AssembledShape(levellist),
                       Env(relationIdAndTableName, relationIdToScanMap, tablelist, old(distributeHints), EdgesOf(joinConstraintList)))
      ensures r == Thrown(ClassCast) ==> AssembledShape(levellist).Leaf?
      ensures filters == RemainingAll(old(filters), used)
      ensures r.Built? ==> GetBitmap(r.plan) in used
      ensures r.Built? ==>
                && first < |tablelist|
                && Resolvable(relationIdAndTableName, relationIdToScanMap, tablelist, |tablelist|)
                && Units(r.plan) == SpanUnits(relationIdAndTableName, relationIdToScanMap, tablelist, first, |tablelist|)
      ensures r.Built? && ScansWellFormed(relationIdToScanMap) ==> WellFormed(r.plan)
      ensures HintsEvolved(old(distributeHints), distributeHints)
    {
      ghost var pairs, scans := relationIdAndTableName, relationIdToScanMap;
      ghost var env := Env(pairs, scans, tablelist, distributeHints, EdgesOf(joinConstraintList));
      if |tablelist| == 0 {
        RemainingAllEmpty(filters);
        return Thrown(IndexOutOfBounds), {}, 0;
      }
      var stack, stackTopLevel;
      ghost var starts;
      stack, starts, stackTopLevel, used := FirstFrame();
      if stack == [] {
        return NoPlan, used, 0;
      }
      var early;
      assert joinConstraintList == old(joinConstraintList);
      early, stack, starts, stackTopLevel, used := ReadTables(stack, starts, stackTopLevel, old(filters), old(distributeHints), used, env);
      if early.Some? {
        return early.value, used, 0;
      }
      ghost var shapes := MachineAt(levellist, |levellist|).stack;
      assert AssembledShape(levellist) == shapes[|shapes| - 1].shape;
      r, first := FinishPlan(stack, starts, used, env, shapes);
    }

    /**
     * The end of generateLeadingJoinPlan: the top frame, once every table is
     * read, is cast to a join and returned with the hint set to SUCCESS; the
     * cast fails exactly where the top skeleton is a single table.
     */
    method FinishPlan(stack: seq<Frame>, ghost starts: seq<nat>, ghost used: set<RelationBitmap>, ghost env: Env,
                      ghost shapes: seq<ShapeFrame>)
      returns (r: Assembly, ghost first: nat)
      requires Valid() && |tablelist| > 0 && |stack| > 0
      requires StackInvariant(relationIdAndTableName, relationIdToScanMap, tablelist, stack, starts, |tablelist|, used)
      requires StackShaped(stack, shapes, env)
      modifies this
      ensures Snapshot() == old(Snapshot()).(status := status)
      ensures r == Thrown(ClassCast) || r.Built?
      ensures r == Thrown(ClassCast) ==> status == old(status) && shapes[|shapes| - 1].shape.Leaf?
      ensures r.Built? ==>
                && status == SUCCESS && r.plan.Join?
                && Shaped(r.plan, shapes[|shapes| - 1].shape, env)
                && GetBitmap(r.plan) in used
                && first < |tablelist|
                && Resolvable(relationIdAndTableName, relationIdToScanMap, tablelist, |tablelist|)
                && Units(r.plan) == SpanUnits(relationIdAndTableName, relationIdToScanMap, tablelist, first, |tablelist|)
                && (ScansWellFormed(relationIdToScanMap) ==> WellFormed(r.plan))
    {
      PopStack(relationIdAndTableName, relationIdToScanMap, tablelist, stack, starts, |tablelist|, used);
      StackShapedPop(stack, shapes, env);
      var finalJoin := stack[|stack| - 1].plan;
      if !finalJoin.Join? {
        return Thrown(ClassCast), 0;
      }
      status := SUCCESS;
      return Built(finalJoin), starts[|starts| - 1];
    }

    /**
     * The outer loop of generateLeadingJoinPlan, from the second table on.
     * Some(outcome) is a return from the whole generation; otherwise the
     * frames carry the reference machine's state once every table is read.
     */
    method ReadTables(stack0: seq<Frame>, ghost starts0: seq<nat>, level0: int, ghost origin: seq<PendingFilter>,
                      ghost originHints: map<nat, DistributeHint>, ghost used0: set<RelationBitmap>, ghost env: Env)
      returns (early: Option<Assembly>, stack: seq<Frame>, ghost starts: seq<nat>, stackTopLevel: int,
               ghost used: set<RelationBitmap>)
      requires Valid() && |tablelist| > 0 && |stack0| > 0
      requires StackInvariant(relationIdAndTableName, relationIdToScanMap, tablelist, stack0, starts0, 1, used0)
      requires filters == RemainingAll(origin, used0)
      requires HintsEvolved(originHints, distributeHints)
      requires env == Env(relationIdAndTableName, relationIdToScanMap, tablelist, originHints, EdgesOf(joinConstraintList))
      requires StackShaped(stack0, MachineAt(levellist, 1).stack, env) && level0 == MachineAt(levellist, 1).level
      modifies this, Constraints()
      ensures Snapshot() == old(Snapshot()).(status := status, errorMessage := errorMessage,
                                             distributeHints := distributeHints, filters := filters)
      ensures filters == RemainingAll(origin, used)
      ensures HintsEvolved(originHints, distributeHints)
      ensures early.Some? ==>
                || early.value == Thrown(NullPointer)
                || (early.value.NoPlan? &&
                    (status != SUCCESS ||
                     exists j :: 0 <= j < |tablelist| && ScanMissing(relationIdAndTableName, relationIdToScanMap, tablelist[j])))
      ensures early.None? ==>
                && |stack| > 0
                && StackInvariant(relationIdAndTableName, relationIdToScanMap, tablelist, stack, starts, |tablelist|, used)
                && StackShaped(stack, MachineAt(levellist, |levellist|).stack, env)
    {
      ghost var pairs, scans := relationIdAndTableName, relationIdToScanMap;
      stack, starts, stackTopLevel, used := stack0, starts0, level0, used0;
      var index := 1;
      ghost var mach := MachineAt(levellist, 1);
      while index < |tablelist|
        invariant 1 <= index <= |tablelist|
        invariant |stack| >= 1
        invariant StackInvariant(pairs, scans, tablelist, stack, starts, index, used)
        invariant filters == RemainingAll(origin, used)
        invariant HintsEvolved(originHints, distributeHints)
        invariant Snapshot() == old(Snapshot()).(status := status, errorMessage := errorMessage,
                                                 distributeHints := distributeHints, filters := filters)
        invariant mach == MachineAt(levellist, index)
        invariant StackShaped(stack, mach.stack, env) && stackTopLevel == mach.level
        invariant joinConstraintList == old(joinConstraintList)
        decreases |tablelist| - index
      {
        early, stack, starts, stackTopLevel, used :=
          ReadTable(index, stack, starts, stackTopLevel, origin, originHints, used, env, mach);
        if early.Some? {
          return;
        }
        mach := ReadStep(levellist, index, mach);
        index := index + 1;
      }
      early := None;
    }

    /**
     * The start of generateLeadingJoinPlan: the first table's scan, with its
     * filters, as the only frame, at the first table's level and with
     * distribute index 0.  An empty stack stands for the null returned when
     * the first table is unregistered or has no scan plan.
     */
    method FirstFrame() returns (stack: seq<Frame>, ghost starts: seq<nat>, stackTopLevel: int, ghost used: set<RelationBitmap>)
      requires Valid() && |tablelist| > 0
      modifies this
      ensures Snapshot() == old(Snapshot()).(status := status, errorMessage := errorMessage, filters := filters)
      ensures filters == RemainingAll(old(filters), used)
      ensures stack == [] ==> status != SUCCESS || ScanMissing(relationIdAndTableName, relationIdToScanMap, tablelist[0])
      ensures stack != [] ==>
                && |stack| == 1 && stackTopLevel == levellist[0]
                && stack[0].level == levellist[0] && stack[0].distributeIndex == 0
                && Shaped(stack[0].plan, Leaf(0),
                          Env(relationIdAndTableName, relationIdToScanMap, tablelist, distributeHints, EdgesOf(joinConstraintList)))
                && StackInvariant(relationIdAndTableName, relationIdToScanMap, tablelist, stack, starts, 1, used)
    {
      ghost var pairs, scans := relationIdAndTableName, relationIdToScanMap;
      ghost var env := Env(pairs, scans, tablelist, distributeHints, EdgesOf(joinConstraintList));
      RemainingAllEmpty(filters);
      stackTopLevel := levellist[0];
      var leaf;
      leaf, used := ReadLeaf(0, old(filters), {}, env);
      if leaf.None? {
        return [], [], stackTopLevel, used;
      }
      PushStack(pairs, scans, tablelist, [], [], 0, 1, Frame(stackTopLevel, leaf.value, 0), used, used);
      stack := [Frame(stackTopLevel, leaf.value, 0)];
      starts := [0];
    }

    /**
     * isConditionJoinTypeMatched: walks the conditions, stopping at the first
     * one whose recorded join kind is incompatible (Some(false)) or missing
     * (None, the NullPointerException).
     */
    method IsConditionJoinTypeMatched(conditions: seq<Expr>, joinType: JoinType) returns (r: Option<bool>)
      ensures r == ConditionsMatched(conditions, conditionJoinType, joinType)
    {
      for i := 0 to |conditions|
        invariant ConditionsMatched(conditions, conditionJoinType, joinType) ==
                  ConditionsMatched(conditions[i..], conditionJoinType, joinType)
      {
        assert conditions[i..][1..] == conditions[i + 1..];
        var condition := conditions[i];
        if condition !in conditionJoinType {
          return None;
        }
        var originalJoinType := conditionJoinType[condition];
        if !Compatible(originalJoinType, joinType) {
          return Some(false);
        }
      }
      return Some(true);
    }

    /** getJoinHint: the directive stored at the index, now marked as used by the hint, or a NONE directive. */
    method GetJoinHint(index: nat) returns (h: DistributeHint)
      modifies this
      ensures index !in old(distributeHints) ==>
                h == DistributeHint(NONE, false, SUCCESS) && Snapshot() == old(Snapshot())
      ensures index in old(distributeHints) ==>
                h == old(distributeHints)[index].(successInLeading := true) &&
                Snapshot() == old(Snapshot()).(distributeHints := old(distributeHints)[index := h])
    {
      if index !in distributeHints {
        return DistributeHint(NONE, false, SUCCESS);
      }
      distributeHints := distributeHints[index := distributeHints[index].(successInLeading := true)];
      return distributeHints[index];
    }

    /**
     * getJoinConditions: removes the filters covered by the two children's
     * bitmaps and returns their predicates, scanning from the end.
     */
    method GetJoinConditions(left: Plan, right: Plan) returns (conditions: seq<Expr>)
      modifies this
      ensures conditions == JoinConditions(old(filters), GetBitmap(left) + GetBitmap(right))
      ensures Snapshot() == old(Snapshot()).(filters := Remaining(old(filters), GetBitmap(left) + GetBitmap(right)))
    {
      ghost var fs := filters;
      conditions := [];
      var i := |filters|;
      while i > 0
        invariant 0 <= i <= |fs|
        invariant filters == fs[..i] + Remaining(fs[i..], GetBitmap(left) + GetBitmap(right))
        invariant conditions == JoinConditions(fs[i..], GetBitmap(left) + GetBitmap(right))
        invariant Snapshot() == old(Snapshot()).(filters := filters)
      {
        i := i - 1;
        var tablesBitMap := GetBitmap(left) + GetBitmap(right);
        ExtractAt(fs, i, tablesBitMap, filters);
        if filters[i].bitmap <= tablesBitMap {
          conditions := conditions + [filters[i].expr];
          filters := filters[..i] + filters[i + 1..];
        }
      }
      assert fs[0..] == fs;
    }

    /**
     * makeFilterPlanIfExist: removes the filters covered by the scan's
     * bitmap and wraps the scan in a filter with their predicates, if any.
     */
    method MakeFilterPlanIfExist(scan: Plan) returns (p: Plan)
      modifies this
      ensures p == (if JoinConditions(old(filters), GetBitmap(scan)) == [] then scan
                    else Filter(Conjuncts(JoinConditions(old(filters), GetBitmap(scan))), scan))
      ensures Snapshot() == old(Snapshot()).(filters := Remaining(old(filters), GetBitmap(scan)))
    {
      ghost var fs := filters;
      var bitmap := GetBitmap(scan);
      var newConjuncts: set<Expr> := {};
      ghost var taken: seq<Expr> := [];
      var i := |filters|;
      while i > 0
        invariant 0 <= i <= |fs|
        invariant filters == fs[..i] + Remaining(fs[i..], bitmap)
        invariant taken == JoinConditions(fs[i..], bitmap)
        invariant newConjuncts == Conjuncts(taken)
        invariant Snapshot() == old(Snapshot()).(filters := filters)
      {
        i := i - 1;
        ExtractAt(fs, i, bitmap, filters);
        if filters[i].bitmap <= bitmap {
          ConjunctsSnoc(taken, filters[i].expr);
          newConjuncts := newConjuncts + {filters[i].expr};
          taken := taken + [filters[i].expr];
          filters := filters[..i] + filters[i + 1..];
        }
      }
      assert fs[0..] == fs;
      if newConjuncts == {} {
        return scan;
      } else {
        return Filter(newConjuncts, scan);
      }
    }
  }

  /**
   * The LeadingHint constructor: None when a "}" finds no open brace (the
   * EmptyStackException of Stack.pop).
   */
  method NewLeadingHint(parameters: seq<string>, originalString: string) returns (h: Option<LeadingHint>)
    ensures h.None? <==> HintParser.Parse(parameters).None?
    ensures h.Some? ==>
              && fresh(h.value) && h.value.Valid()
              && h.value.parameters == parameters && h.value.originalString == originalString
              && HintParser.Result(HintParser.Parse(parameters).value) ==
                   HintParser.ParsedHint(h.value.tablelist, h.value.levellist, h.value.distributeHints)
              && h.value.Snapshot().status == SUCCESS
  {
    var parsed := HintParser.ParseParameters(parameters);
    if parsed.None? {
      return None;
    }
    HintParser.ParseInvariant(parameters);
    var hint := new LeadingHint(parameters, originalString, parsed.value);
    return Some(hint);
  }
}
