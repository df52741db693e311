/**
 * Relation bitmaps and the abstract logical plans that the leading hint
 * assembles.  A relation bitmap is the set of relation ids it covers:
 * LongBitmap.or is union, LongBitmap.isSubset(a, b) is a <= b,
 * LongBitmap.isOverlap(a, b) is a * b != {} and LongBitmap.set(b, i) is b + {i}.
 */
module Plans {
  import opened JoinTypes

  type RelationId = nat
  type RelationBitmap = set<RelationId>

  /** A filter predicate; its contents are opaque to the hint engine. */
  datatype Expr = Conjunct(id: nat)

  /** The plan shapes the hint engine creates or looks through. */
  datatype Plan =
    | Relation(relationId: RelationId)
    | SubQueryAlias(relationId: RelationId)
    | Project(child: Plan)
    | Filter(conjuncts: set<Expr>, child: Plan)
    | Join(joinType: JoinType, hint: DistributeHint, conditions: seq<Expr>, left: Plan, right: Plan, bitmap: RelationBitmap)

  /** LeadingHint.getBitmap: the relations below a plan, as recorded on its nodes. */
  function GetBitmap(p: Plan): (b: RelationBitmap)
    ensures WellFormed(p) ==> b != {}
    decreases p, 1
  {
    match p
    case Relation(id) => {id}
    case SubQueryAlias(id) => {id}
    case Project(c) => GetBitmap(c)
    case Filter(_, c) => GetBitmap(c)
    case Join(_, _, _, _, _, b) => b
  }

  /** Every join node records the union of its children's bitmaps. */
  ghost predicate WellFormed(p: Plan)
    decreases p, 0
  {
    match p
    case Relation(_) => true
    case SubQueryAlias(_) => true
    case Project(c) => WellFormed(c)
    case Filter(_, c) => WellFormed(c)
    case Join(_, _, _, l, r, b) => WellFormed(l) && WellFormed(r) && b == GetBitmap(l) + GetBitmap(r)
  }

  /**
   * The units a plan joins, left to right: joins are flattened, filters are
   * looked through, every other node is one unit.
   */
  function Units(p: Plan): seq<Plan> {
    match p
    case Join(_, _, _, l, r, _) => Units(l) + Units(r)
    case Filter(_, c) => Units(c)
    case _ => [p]
  }

  /** Concatenation of the units of a list of plans. */
  function UnitsOf(ps: seq<Plan>): seq<Plan> {
    if ps == [] then [] else UnitsOf(ps[..|ps| - 1]) + Units(ps[|ps| - 1])
  }

  /** The union of the bitmaps of a list of plans. */
  function BitmapOf(ps: seq<Plan>): RelationBitmap {
    if ps == [] then {} else BitmapOf(ps[..|ps| - 1]) + GetBitmap(ps[|ps| - 1])
  }

  lemma {:induction false} BitmapOfAppend(a: seq<Plan>, b: seq<Plan>)
    ensures BitmapOf(a + b) == BitmapOf(a) + BitmapOf(b)
    decreases |b|
  {
    if b == [] {
      assert a + b == a;
    } else {
      assert (a + b)[..|a + b| - 1] == a + b[..|b| - 1];
      BitmapOfAppend(a, b[..|b| - 1]);
    }
  }

  lemma {:induction false} UnitsOfAppend(a: seq<Plan>, b: seq<Plan>)
    ensures UnitsOf(a + b) == UnitsOf(a) + UnitsOf(b)
    decreases |b|
  {
    if b == [] {
      assert a + b == a;
    } else {
      assert (a + b)[..|a + b| - 1] == a + b[..|b| - 1];
      UnitsOfAppend(a, b[..|b| - 1]);
    }
  }

  /**
   * Bitmap coverage: in a well-formed plan the bitmap at the root is the union
   * of the bitmaps of the units it joins.
   */
  lemma {:induction false} BitmapCoversUnits(p: Plan)
    requires WellFormed(p)
    ensures GetBitmap(p) == BitmapOf(Units(p))
  {
    match p
    case Join(_, _, _, l, r, _) =>
      BitmapCoversUnits(l);
      BitmapCoversUnits(r);
      BitmapOfAppend(Units(l), Units(r));
    case Filter(_, c) =>
      BitmapCoversUnits(c);
    case _ =>
      assert [p][..0] == [];
  }

  /** Wrapping a plan in a filter changes neither its bitmap nor its units. */
  lemma FilterIsTransparent(conjuncts: set<Expr>, p: Plan)
    ensures GetBitmap(Filter(conjuncts, p)) == GetBitmap(p)
    ensures Units(Filter(conjuncts, p)) == Units(p)
    ensures WellFormed(Filter(conjuncts, p)) == WellFormed(p)
  {
  }
}
