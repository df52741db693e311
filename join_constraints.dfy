/**
 * Join constraints discovered by the join-graph phase, and the resolver that
 * LeadingHint.getJoinConstraint runs over them for one candidate join.
 *
 * The resolver is specified by `Resolve`, a left-to-right scan over the
 * constraint list in which every constraint gets a `Verdict` (`Classify`)
 * computed from the left, right and combined bitmaps alone.  The lemmas below
 * characterise the outcome of the scan in terms of those verdicts.
 */
module JoinConstraints {
  import opened JoinTypes
  import opened Plans
  import opened Wrappers

  /** The immutable part of a join constraint. */
  datatype Edge = Edge(
    joinType: JoinType,
    leftHand: RelationBitmap,
    rightHand: RelationBitmap,
    minLeftHand: RelationBitmap,
    minRightHand: RelationBitmap,
    lhsStrict: bool)

  /** A join constraint: the discovered edge and the mutable orientation flag. */
  class JoinConstraint {
    const edge: Edge
    var reversed: bool

    constructor (edge: Edge)
      ensures this.edge == edge && !reversed
    {
      this.edge := edge;
      reversed := false;
    }
  }

  function EdgesOf(cs: seq<JoinConstraint>): (es: seq<Edge>)
    ensures |es| == |cs|
    ensures forall i :: 0 <= i < |cs| ==> es[i] == cs[i].edge
  {
    seq(|cs|, i requires 0 <= i < |cs| => cs[i].edge)
  }

  /** What one constraint contributes to the scan of getJoinConstraint. */
  datatype Verdict =
    | Skip            // `continue`: the constraint says nothing about this join
    | FullOuterMatch  // a full outer join whose hands are exactly the two sides: stop the scan
    | Direct          // minLeftHand within left, minRightHand within right
    | Swapped         // minLeftHand within right, minRightHand within left
    | SemiDirect      // a semi join whose rightHand is exactly the right side
    | SemiReversed    // a semi join whose rightHand is exactly the left side
    | Violation       // the join would break the constraint: fail at once
    | MustBeLeft      // the join is legal only if it turns out to be a strict left join

  predicate IsMatch(v: Verdict) {
    v.FullOuterMatch? || v.Direct? || v.Swapped? || v.SemiDirect? || v.SemiReversed?
  }

  /** A verdict that lets the scan go on without recording a match. */
  predicate IsQuiet(v: Verdict) {
    v.Skip? || v.MustBeLeft?
  }

  /** The verdict of one constraint, branch for branch as in getJoinConstraint. */
  function Classify(e: Edge, join: RelationBitmap, left: RelationBitmap, right: RelationBitmap): (v: Verdict)
    ensures v.FullOuterMatch? ==> e.joinType.IsFullOuterJoin() && {left, right} == {e.leftHand, e.rightHand}
    ensures v.Direct? ==> e.minLeftHand <= left && e.minRightHand <= right
    ensures v.Swapped? ==> e.minLeftHand <= right && e.minRightHand <= left
    ensures v.SemiDirect? ==> e.joinType.IsSemiJoin() && e.rightHand == right
    ensures v.SemiReversed? ==> e.joinType.IsSemiJoin() && e.rightHand == left
    ensures v.MustBeLeft? ==> e.joinType.IsLeftJoin()
  {
    if e.joinType.IsFullOuterJoin() then
      if (left == e.leftHand && right == e.rightHand) || (right == e.leftHand && left == e.rightHand)
      then FullOuterMatch
      else Skip
    else if e.minRightHand * join == {} then Skip
    else if join <= e.minRightHand then Skip
    else if e.minLeftHand <= left && e.minRightHand <= left then Skip
    else if e.minLeftHand <= right && e.minRightHand <= right then Skip
    // the first semi-join guard tests a subset relation and its negation, so it never holds
    else if e.joinType.IsSemiJoin() && e.rightHand <= left && !(e.rightHand <= left) then Skip
    else if e.joinType.IsSemiJoin() && e.rightHand <= right && e.rightHand != right then Skip
    else if e.minLeftHand <= left && e.minRightHand <= right then Direct
    else if e.minLeftHand <= right && e.minRightHand <= left then Swapped
    else if e.joinType.IsSemiJoin() && e.rightHand == right then SemiDirect
    else if e.joinType.IsSemiJoin() && e.rightHand == left then SemiReversed
    else if left * e.minRightHand != {} && right * e.minRightHand != {} then Skip
    else if !e.joinType.IsLeftJoin() || join * e.minLeftHand != {} then Violation
    else MustBeLeft
  }

  /** Result of getJoinConstraint: (null, false), (null, true) or (constraint, true). */
  datatype Outcome = Failed | NoMatch | Matched(index: nat, reversed: bool)

  /** The scan's local variables: matchedJoinConstraint, reversed, mustBeLeftjoin. */
  datatype ScanState = ScanState(matched: Option<nat>, reversed: bool, mustBeLeft: bool)

  const StartState := ScanState(None, false, false)

  /** A left join whose left side must match exactly. */
  predicate IsStrictLeft(e: Edge) {
    e.joinType.IsLeftJoin() && e.lhsStrict
  }

  /** The checks after the loop. */
  function Finish(es: seq<Edge>, st: ScanState): (o: Outcome)
    requires st.matched.Some? ==> st.matched.value < |es|
    ensures o.NoMatch? <==> st.matched.None? && !st.mustBeLeft
    ensures o.Matched? ==> st.matched == Some(o.index) && o.reversed == st.reversed
  {
    if st.mustBeLeft && (st.matched.None? || !IsStrictLeft(es[st.matched.value])) then Failed
    else if st.matched.None? then NoMatch
    else Matched(st.matched.value, st.reversed)
  }

  /** The scan from constraint i on, in state st. */
  function ResolveFrom(es: seq<Edge>, join: RelationBitmap, left: RelationBitmap, right: RelationBitmap,
                       i: nat, st: ScanState): (o: Outcome)
    requires i <= |es|
    requires st.matched.Some? ==> st.matched.value < i
    ensures o.Matched? ==> o.index < |es|
    decreases |es| - i
  {
    if i == |es| then Finish(es, st)
    else
      var v := Classify(es[i], join, left, right);
      if v.Skip? then ResolveFrom(es, join, left, right, i + 1, st)
      else if v.MustBeLeft? then ResolveFrom(es, join, left, right, i + 1, st.(mustBeLeft := true))
      else if v.Violation? then Failed
      else if st.matched.Some? then Failed
      else if v.FullOuterMatch? then Finish(es, ScanState(Some(i), false, st.mustBeLeft))
      else ResolveFrom(es, join, left, right, i + 1, ScanState(Some(i), v.Swapped? || v.SemiReversed?, st.mustBeLeft))
  }

  /** getJoinConstraint(join, left, right) over the constraint list es. */
  function Resolve(es: seq<Edge>, join: RelationBitmap, left: RelationBitmap, right: RelationBitmap): (o: Outcome)
    ensures o.Matched? ==> o.index < |es|
  {
    ResolveFrom(es, join, left, right, 0, StartState)
  }

  /** Every verdict in [a, b) lets the scan continue without a match. */
  ghost predicate QuietBetween(es: seq<Edge>, join: RelationBitmap, left: RelationBitmap, right: RelationBitmap, a: nat, b: nat)
    requires b <= |es|
  {
    forall p :: a <= p < b ==> IsQuiet(Classify(es[p], join, left, right))
  }

  ghost predicate MustBeLeftBetween(es: seq<Edge>, join: RelationBitmap, left: RelationBitmap, right: RelationBitmap, a: nat, b: nat)
    requires b <= |es|
  {
    exists p :: a <= p < b && Classify(es[p], join, left, right).MustBeLeft?
  }

  /** The scan ends in a match it had already recorded. */
  lemma {:induction false} ResolveFromKeepsMatch(es: seq<Edge>, join: RelationBitmap, left: RelationBitmap, right: RelationBitmap,
                                                 i: nat, st: ScanState, k: nat, rev: bool)
    requires i <= |es| && st.matched.Some? && st.matched.value < i
    requires ResolveFrom(es, join, left, right, i, st) == Matched(k, rev)
    ensures k == st.matched.value && rev == st.reversed
    ensures QuietBetween(es, join, left, right, i, |es|)
    ensures st.mustBeLeft || MustBeLeftBetween(es, join, left, right, i, |es|) ==> IsStrictLeft(es[k])
    decreases |es| - i
  {
    if i < |es| {
      var v := Classify(es[i], join, left, right);
      var st' := if v.MustBeLeft? then st.(mustBeLeft := true) else st;
      ResolveFromKeepsMatch(es, join, left, right, i + 1, st', k, rev);
      if MustBeLeftBetween(es, join, left, right, i, |es|) {
        var p :| i <= p < |es| && Classify(es[p], join, left, right).MustBeLeft?;
        if p > i {
          assert MustBeLeftBetween(es, join, left, right, i + 1, |es|);
        }
      }
    }
  }

  /** The scan, started without a match, ends in the first match it meets. */
  lemma {:induction false} ResolveFromFindsMatch(es: seq<Edge>, join: RelationBitmap, left: RelationBitmap, right: RelationBitmap,
                                                 i: nat, st: ScanState, k: nat, rev: bool)
    requires i <= |es| && st.matched.None?
    requires ResolveFrom(es, join, left, right, i, st) == Matched(k, rev)
    ensures i <= k < |es|
    ensures QuietBetween(es, join, left, right, i, k)
    ensures IsMatch(Classify(es[k], join, left, right))
    ensures rev == (Classify(es[k], join, left, right).Swapped? || Classify(es[k], join, left, right).SemiReversed?)
    ensures !Classify(es[k], join, left, right).FullOuterMatch? ==> QuietBetween(es, join, left, right, k + 1, |es|)
    ensures var end := if Classify(es[k], join, left, right).FullOuterMatch? then k else |es|;
            st.mustBeLeft || MustBeLeftBetween(es, join, left, right, i, end) ==> IsStrictLeft(es[k])
    decreases |es| - i
  {
    var v := Classify(es[i], join, left, right);
    if v.Skip? || v.MustBeLeft? {
      var st' := if v.MustBeLeft? then st.(mustBeLeft := true) else st;
      ResolveFromFindsMatch(es, join, left, right, i + 1, st', k, rev);
      var end := if Classify(es[k], join, left, right).FullOuterMatch? then k else |es|;
      if MustBeLeftBetween(es, join, left, right, i, end) {
        var p :| i <= p < end && Classify(es[p], join, left, right).MustBeLeft?;
        if p > i {
          assert MustBeLeftBetween(es, join, left, right, i + 1, end);
        }
      }
    } else if !v.FullOuterMatch? {
      var st' := ScanState(Some(i), v.Swapped? || v.SemiReversed?, st.mustBeLeft);
      ResolveFromKeepsMatch(es, join, left, right, i + 1, st', k, rev);
      if MustBeLeftBetween(es, join, left, right, i, |es|) {
        var p :| i <= p < |es| && Classify(es[p], join, left, right).MustBeLeft?;
        if p > i {
          assert MustBeLeftBetween(es, join, left, right, i + 1, |es|);
        }
      }
    }
  }

  /**
   * A unique match: getJoinConstraint returns (c, true) only for a constraint
   * that hits one of the match branches, with no other match and no violation
   * anywhere in the part of the list it scanned; `reversed` is set exactly for
   * the swapped subset test and the reversed semi join; a pending
   * must-be-left-join requirement is met by a strict left join.
   */
  lemma ResolveMatched(es: seq<Edge>, join: RelationBitmap, left: RelationBitmap, right: RelationBitmap, k: nat, rev: bool)
    requires Resolve(es, join, left, right) == Matched(k, rev)
    ensures k < |es| && IsMatch(Classify(es[k], join, left, right))
    ensures rev == (Classify(es[k], join, left, right).Swapped? || Classify(es[k], join, left, right).SemiReversed?)
    ensures Classify(es[k], join, left, right).FullOuterMatch? ==> !rev
    ensures QuietBetween(es, join, left, right, 0, k)
    ensures !Classify(es[k], join, left, right).FullOuterMatch? ==> QuietBetween(es, join, left, right, k + 1, |es|)
    ensures var end := if Classify(es[k], join, left, right).FullOuterMatch? then k else |es|;
            MustBeLeftBetween(es, join, left, right, 0, end) ==> IsStrictLeft(es[k])
  {
    ResolveFromFindsMatch(es, join, left, right, 0, StartState, k, rev);
  }

  lemma {:induction false} ResolveFromNoMatch(es: seq<Edge>, join: RelationBitmap, left: RelationBitmap, right: RelationBitmap,
                                              i: nat, st: ScanState)
    requires i <= |es| && (st.matched.Some? ==> st.matched.value < i)
    ensures ResolveFrom(es, join, left, right, i, st) == NoMatch <==>
            st.matched.None? && !st.mustBeLeft &&
            forall p :: i <= p < |es| ==> Classify(es[p], join, left, right).Skip?
    decreases |es| - i
  {
    if i < |es| {
      var v := Classify(es[i], join, left, right);
      if v.Skip? {
        ResolveFromNoMatch(es, join, left, right, i + 1, st);
      } else if v.MustBeLeft? {
        ResolveFromNoMatch(es, join, left, right, i + 1, st.(mustBeLeft := true));
      } else if !v.Violation? && st.matched.None? && !v.FullOuterMatch? {
        var st' := ScanState(Some(i), v.Swapped? || v.SemiReversed?, st.mustBeLeft);
        ResolveFromNoMatch(es, join, left, right, i + 1, st');
      }
    }
  }

  /**
   * getJoinConstraint returns (null, true), so that the caller picks an inner
   * or cross join, exactly when every constraint is skipped.
   */
  lemma ResolveNoMatch(es: seq<Edge>, join: RelationBitmap, left: RelationBitmap, right: RelationBitmap)
    ensures Resolve(es, join, left, right) == NoMatch <==>
            forall p :: 0 <= p < |es| ==> Classify(es[p], join, left, right).Skip?
  {
    ResolveFromNoMatch(es, join, left, right, 0, StartState);
  }

  /**
   * The failure cases: two constraints that both hit a match branch before
   * any full outer match, a violated constraint before any full outer match,
   * and a must-be-left-join requirement whose match is not a strict left join
   * all give (null, false).
   */
  lemma ResolveFails(es: seq<Edge>, join: RelationBitmap, left: RelationBitmap, right: RelationBitmap)
    ensures forall p, q :: 0 <= p < q < |es| &&
              IsMatch(Classify(es[p], join, left, right)) && !Classify(es[p], join, left, right).FullOuterMatch? &&
              IsMatch(Classify(es[q], join, left, right)) &&
              (forall x :: 0 <= x < p ==> !Classify(es[x], join, left, right).FullOuterMatch?)
              ==> Resolve(es, join, left, right) == Failed
    ensures forall p :: 0 <= p < |es| && Classify(es[p], join, left, right).Violation? &&
              (forall x :: 0 <= x < p ==> !Classify(es[x], join, left, right).FullOuterMatch?)
              ==> Resolve(es, join, left, right) == Failed
    ensures forall p :: 0 <= p < |es| && Classify(es[p], join, left, right).MustBeLeft? &&
              (forall x :: 0 <= x < p ==> !Classify(es[x], join, left, right).FullOuterMatch?) &&
              (forall x :: 0 <= x < |es| && IsMatch(Classify(es[x], join, left, right)) ==> !IsStrictLeft(es[x]))
              ==> Resolve(es, join, left, right) == Failed
  {
    var o := Resolve(es, join, left, right);
    ResolveNoMatch(es, join, left, right);
    if o.Matched? {
      ResolveMatched(es, join, left, right, o.index, o.reversed);
      var k := o.index;
      var vk := Classify(es[k], join, left, right);
      forall p | 0 <= p < |es| && IsMatch(Classify(es[p], join, left, right)) && !Classify(es[p], join, left, right).FullOuterMatch? &&
                 (forall x :: 0 <= x < p ==> !Classify(es[x], join, left, right).FullOuterMatch?)
        ensures p == k && forall q :: p < q < |es| ==> !IsMatch(Classify(es[q], join, left, right))
      {
      }
      forall p | 0 <= p < |es| && Classify(es[p], join, left, right).MustBeLeft? &&
                 (forall x :: 0 <= x < p ==> !Classify(es[x], join, left, right).FullOuterMatch?)
        ensures IsStrictLeft(es[k])
      {
        var end := if vk.FullOuterMatch? then k else |es|;
        assert p < end;
        assert MustBeLeftBetween(es, join, left, right, 0, end);
      }
    }
  }

  /** Exchanging the two sides turns a direct match into a swapped one and back. */
  function Mirror(v: Verdict): Verdict {
    match v
    case Direct => Swapped
    case Swapped => Direct
    case SemiDirect => SemiReversed
    case SemiReversed => SemiDirect
    case _ => v
  }

  predicate NoSemiJoin(es: seq<Edge>) {
    forall i :: 0 <= i < |es| ==> !es[i].joinType.IsSemiJoin()
  }

  /** For disjoint sides and a constraint that is not a semi join, the verdict is mirror-symmetric. */
  lemma ClassifySymmetric(e: Edge, join: RelationBitmap, left: RelationBitmap, right: RelationBitmap)
    requires left * right == {}
    requires !e.joinType.IsSemiJoin()
    ensures Classify(e, join, right, left) == Mirror(Classify(e, join, left, right))
  {
    if e.minLeftHand <= left && e.minRightHand <= right && e.minLeftHand <= right && e.minRightHand <= left {
      assert e.minRightHand <= left * right;
    }
  }

  /** The join type computeJoinType derives from a resolver outcome. */
  function JoinTypeOf(es: seq<Edge>, o: Outcome, conditionsEmpty: bool): JoinType
    requires o.Matched? ==> o.index < |es|
  {
    if o.Matched? then
      if o.reversed then es[o.index].joinType.Swap() else es[o.index].joinType
    else if conditionsEmpty then CROSS_JOIN
    else INNER_JOIN
  }

  function MirrorState(st: ScanState): ScanState {
    if st.matched.Some? then st.(reversed := !st.reversed) else st
  }

  /** Two outcomes related by exchanging the sides of the join. */
  predicate Mirrored(es: seq<Edge>, o: Outcome, o': Outcome)
    requires o.Matched? ==> o.index < |es|
    requires o'.Matched? ==> o'.index < |es|
  {
    && o.Failed? == o'.Failed?
    && o.NoMatch? == o'.NoMatch?
    && (o.Matched? ==> o'.Matched? && o'.index == o.index && JoinTypeOf(es, o', true) == JoinTypeOf(es, o, true).Swap())
  }

  lemma {:induction false} ResolveFromSymmetric(es: seq<Edge>, join: RelationBitmap, left: RelationBitmap, right: RelationBitmap,
                                                i: nat, st: ScanState)
    requires left * right == {} && NoSemiJoin(es)
    requires i <= |es| && (st.matched.Some? ==> st.matched.value < i && !es[st.matched.value].joinType.IsFullOuterJoin())
    ensures Mirrored(es, ResolveFrom(es, join, left, right, i, st), ResolveFrom(es, join, right, left, i, MirrorState(st)))
    decreases |es| - i
  {
    if i == |es| {
      if st.matched.Some? {
        SwapInvolution(es[st.matched.value].joinType);
      }
    } else {
      var v := Classify(es[i], join, left, right);
      ClassifySymmetric(es[i], join, left, right);
      var v' := Classify(es[i], join, right, left);
      assert v' == Mirror(v);
      var st0 := MirrorState(st);
      if v.Skip? {
        ResolveFromSymmetric(es, join, left, right, i + 1, st);
      } else if v.MustBeLeft? {
        assert MirrorState(st.(mustBeLeft := true)) == st0.(mustBeLeft := true);
        ResolveFromSymmetric(es, join, left, right, i + 1, st.(mustBeLeft := true));
      } else if v.Violation? || st.matched.Some? {
        assert ResolveFrom(es, join, left, right, i, st) == Failed;
        assert ResolveFrom(es, join, right, left, i, st0) == Failed;
      } else if v.FullOuterMatch? {
        SwapInvolution(es[i].joinType);
      } else {
        var st' := ScanState(Some(i), v.Swapped? || v.SemiReversed?, st.mustBeLeft);
        assert ResolveFrom(es, join, left, right, i, st) == ResolveFrom(es, join, left, right, i + 1, st');
        assert ResolveFrom(es, join, right, left, i, st0) == ResolveFrom(es, join, right, left, i + 1, MirrorState(st'));
        ResolveFromSymmetric(es, join, left, right, i + 1, st');
      }
    }
  }

  /**
   * Symmetry: for disjoint sides and constraints that are not semi joins,
   * resolving (right, left) fails or falls back to inner/cross exactly when
   * resolving (left, right) does, and a matched join gets the swapped kind.
   */
  lemma ResolveSymmetric(es: seq<Edge>, left: RelationBitmap, right: RelationBitmap)
    requires left * right == {} && NoSemiJoin(es)
    ensures Mirrored(es, Resolve(es, left + right, left, right), Resolve(es, left + right, right, left))
  {
    ResolveFromSymmetric(es, left + right, left, right, 0, StartState);
  }

  /**
   * The semi-join guard that can never hold breaks the symmetry: a left semi
   * join constraint whose rightHand is a strict part of the left side matches
   * reversed, while with the sides exchanged it is skipped.
   */
  lemma SemiJoinAsymmetric()
    ensures var e := Edge(LEFT_SEMI_JOIN, {1}, {2}, {1}, {2}, false);
            Resolve([e], {1, 2, 3}, {2, 3}, {1}) == Matched(0, true) &&
            Resolve([e], {1, 2, 3}, {1}, {2, 3}) == NoMatch
  {
    var e := Edge(LEFT_SEMI_JOIN, {1}, {2}, {1}, {2}, false);
    var one: set<nat>, two: set<nat>, twoThree: set<nat> := {1}, {2}, {2, 3};
    assert 1 !in twoThree && 2 !in one && 3 !in two;
    assert Classify(e, {1, 2, 3}, twoThree, one) == Swapped;
    assert Classify(e, {1, 2, 3}, one, twoThree) == Skip;
  }
}
