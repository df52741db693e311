/**
 * Join kinds, hint statuses and distribution directives used by the leading
 * join-order hint.  The optimizer's own JoinType enumeration and Hint base
 * class are not part of this model; what follows states the behaviour the
 * hint engine relies on.
 */
module JoinTypes {

  /** The logical join kinds a discovered join constraint can carry. */
  datatype JoinType =
    | INNER_JOIN
    | CROSS_JOIN
    | LEFT_OUTER_JOIN
    | RIGHT_OUTER_JOIN
    | FULL_OUTER_JOIN
    | LEFT_SEMI_JOIN
    | RIGHT_SEMI_JOIN
    | LEFT_ANTI_JOIN
    | RIGHT_ANTI_JOIN
  {
    /** The join kind obtained by exchanging the two children. */
    function Swap(): (t: JoinType)
      ensures t.IsLeftJoin() <==> IsRightJoin()
      ensures t.IsRightJoin() <==> IsLeftJoin()
    {
      match this
      case INNER_JOIN => INNER_JOIN
      case CROSS_JOIN => CROSS_JOIN
      case LEFT_OUTER_JOIN => RIGHT_OUTER_JOIN
      case RIGHT_OUTER_JOIN => LEFT_OUTER_JOIN
      case FULL_OUTER_JOIN => FULL_OUTER_JOIN
      case LEFT_SEMI_JOIN => RIGHT_SEMI_JOIN
      case RIGHT_SEMI_JOIN => LEFT_SEMI_JOIN
      case LEFT_ANTI_JOIN => RIGHT_ANTI_JOIN
      case RIGHT_ANTI_JOIN => LEFT_ANTI_JOIN
    }

    /** Joins that keep every row of their left child, or filter it by the right one. */
    predicate IsLeftJoin() {
      this == LEFT_OUTER_JOIN || this == LEFT_SEMI_JOIN || this == LEFT_ANTI_JOIN
    }

    predicate IsRightJoin() {
      this == RIGHT_OUTER_JOIN || this == RIGHT_SEMI_JOIN || this == RIGHT_ANTI_JOIN
    }

    predicate IsSemiJoin() {
      this == LEFT_SEMI_JOIN || this == RIGHT_SEMI_JOIN
    }

    predicate IsAntiJoin() {
      this == LEFT_ANTI_JOIN || this == RIGHT_ANTI_JOIN
    }

    predicate IsFullOuterJoin() {
      this == FULL_OUTER_JOIN
    }

    predicate IsOneSideOuterJoin() {
      this == LEFT_OUTER_JOIN || this == RIGHT_OUTER_JOIN
    }
  }

  /** Swapping twice gives back the original kind, and swapping keeps the family. */
  lemma SwapInvolution(t: JoinType)
    ensures t.Swap().Swap() == t
    ensures t.Swap().IsSemiJoin() == t.IsSemiJoin()
    ensures t.Swap().IsAntiJoin() == t.IsAntiJoin()
    ensures t.Swap().IsOneSideOuterJoin() == t.IsOneSideOuterJoin()
    ensures t.Swap().IsFullOuterJoin() == t.IsFullOuterJoin()
    ensures t.Swap() == t <==> t in {INNER_JOIN, CROSS_JOIN, FULL_OUTER_JOIN}
  {
  }

  /**
   * The relation used by LeadingHint.isConditionJoinTypeMatched between the
   * join kind a predicate came from and the kind computed for a new join.
   */
  predicate Compatible(original: JoinType, computed: JoinType) {
    || original == computed
    || (original.IsOneSideOuterJoin() && computed.IsOneSideOuterJoin())
    || (original.IsSemiJoin() && computed.IsSemiJoin())
    || (original.IsAntiJoin() && computed.IsAntiJoin())
  }

  /** Compatibility ignores the orientation of either join kind. */
  lemma CompatibleUnderSwap(original: JoinType, computed: JoinType)
    ensures Compatible(original, computed) <==> Compatible(original, computed.Swap())
    ensures Compatible(original, computed) <==> Compatible(original.Swap(), computed)
    ensures Compatible(original, computed) <==> Compatible(computed, original)
  {
  }

  /** Status of a hint (the Hint base class): it starts as SUCCESS. */
  datatype HintStatus = SUCCESS | UNUSED | SYNTAX_ERROR

  /** Physical distribution requested for the right child of a join. */
  datatype DistributeType = NONE | SHUFFLE_RIGHT | BROADCAST_RIGHT

  /**
   * A distribution directive: its type, whether the leading hint attached it
   * to a join, and its own hint status.
   */
  datatype DistributeHint = DistributeHint(distributeType: DistributeType, successInLeading: bool, status: HintStatus)
}
