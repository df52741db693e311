/**
 * The join tree that generateLeadingJoinPlan builds, as a function of the
 * level list alone: the same stack machine run on tree skeletons, where a
 * leaf names its position in the table list and a join names the index of
 * the distribute directive it reads.
 */
module JoinShapes {
  /** The skeleton of a join tree. */
  datatype Shape = Leaf(table: nat) | Node(hint: nat, left: Shape, right: Shape)

  /** One stack entry: (level, (skeleton, distribute index)). */
  datatype ShapeFrame = ShapeFrame(level: int, shape: Shape, distributeIndex: nat)

  /** The stack and stackTopLevel between two tables. */
  datatype Machine = Machine(stack: seq<ShapeFrame>, level: int)

  /**
   * stackTopLevel after one join, when `index` is the position of the next
   * table: a positive level drops by one at the end of the list, or when the
   * next table sits at a lower level.
   */
  function Lowered(levels: seq<int>, index: nat, level: int): (l: int)
    ensures l == level || (l == level - 1 && level > 0)
  {
    if level > 0 && (index >= |levels| || level > levels[index]) then level - 1 else level
  }

  /**
   * The inner loop and the push after it: while the top frame has the
   * current level, pop it and join its tree, on the left, with the current
   * one; the join reads the directive at `dist`, and the next one reads the
   * popped frame's.
   */
  function Reduce(levels: seq<int>, index: nat, stack: seq<ShapeFrame>, level: int, cur: Shape, dist: nat): (m: Machine)
    ensures 0 < |m.stack| <= |stack| + 1
    decreases |stack|
  {
    if |stack| == 0 || stack[|stack| - 1].level != level then Machine(stack + [ShapeFrame(level, cur, dist)], level)
    else
      var top := stack[|stack| - 1];
      Reduce(levels, index, stack[..|stack| - 1], Lowered(levels, index, level), Node(dist, top.shape, cur), top.distributeIndex)
  }

  /** One pass of the inner loop when the top frame has the current level. */
  lemma ReduceUnfold(levels: seq<int>, index: nat, stack: seq<ShapeFrame>, level: int, cur: Shape, dist: nat)
    requires |stack| > 0 && stack[|stack| - 1].level == level
    ensures Reduce(levels, index, stack, level, cur, dist) ==
            Reduce(levels, index, stack[..|stack| - 1], Lowered(levels, index, level),
                   Node(dist, stack[|stack| - 1].shape, cur), stack[|stack| - 1].distributeIndex)
  {
  }

  /**
   * Reading table `index`: at the current level it is reduced with the
   * frames below, otherwise it is pushed with its level and index + 1.
   */
  function ReadStep(levels: seq<int>, index: nat, m: Machine): (m': Machine)
    requires index < |levels|
    ensures |m'.stack| > 0
  {
    if levels[index] == m.level then Reduce(levels, index + 1, m.stack, m.level, Leaf(index), index)
    else Machine(m.stack + [ShapeFrame(levels[index], Leaf(index), index + 1)], levels[index])
  }

  /** The machine once tables 0 .. n-1 have been read; the first table is pushed with distribute index 0. */
  function MachineAt(levels: seq<int>, n: nat): (m: Machine)
    requires 1 <= n <= |levels|
    ensures |m.stack| > 0
    decreases n
  {
    if n == 1 then Machine([ShapeFrame(levels[0], Leaf(0), 0)], levels[0])
    else ReadStep(levels, n - 1, MachineAt(levels, n - 1))
  }

  /** The tree on top of the stack once every table has been read. */
  function AssembledShape(levels: seq<int>): Shape
    requires |levels| > 0
  {
    var m := MachineAt(levels, |levels|);
    m.stack[|m.stack| - 1].shape
  }

  /** The left-deep chain over tables 0 .. k whose join adding table j reads directive j. */
  function LeftDeep(k: nat): Shape {
    if k == 0 then Leaf(0) else Node(k, LeftDeep(k - 1), Leaf(k))
  }

  /** The left-deep chain over tables 1 .. k, as inside "{t2 ... tn}". */
  function InnerChain(k: nat): Shape
    requires k >= 1
  {
    if k == 1 then Leaf(1) else Node(k, InnerChain(k - 1), Leaf(k))
  }

  /** With every table at level 0 the stack holds one frame, the chain so far. */
  lemma {:induction false} FlatMachine(levels: seq<int>, n: nat)
    requires 1 <= n <= |levels| && forall i :: 0 <= i < |levels| ==> levels[i] == 0
    ensures MachineAt(levels, n) == Machine([ShapeFrame(0, LeftDeep(n - 1), 0)], 0)
    decreases n
  {
    if n > 1 {
      FlatMachine(levels, n - 1);
      var s := [ShapeFrame(0, LeftDeep(n - 2), 0)];
      assert s[..0] == [];
      assert Lowered(levels, n, 0) == 0;
      assert Reduce(levels, n, s, 0, Leaf(n - 1), n - 1) == Reduce(levels, n, [], 0, LeftDeep(n - 1), 0);
    }
  }

  /** "t1 t2 ... tn" builds ((t1 ⋈ t2) ⋈ ...) ⋈ tn, the join adding table k reading directive k. */
  lemma FlatLevelsBuildLeftDeep(levels: seq<int>)
    requires |levels| > 0 && forall i :: 0 <= i < |levels| ==> levels[i] == 0
    ensures AssembledShape(levels) == LeftDeep(|levels| - 1)
  {
    FlatMachine(levels, |levels|);
  }

  /** The levels of "t1 {t2 ... tn}": 0 for the first table, 1 for the rest. */
  predicate BracedTail(levels: seq<int>) {
    |levels| > 0 && levels[0] == 0 && forall i :: 1 <= i < |levels| ==> levels[i] == 1
  }

  /** Inside the braces the stack holds t1's frame and the inner chain so far. */
  lemma {:induction false} BracedMachine(levels: seq<int>, n: nat)
    requires BracedTail(levels) && 2 <= n < |levels|
    ensures MachineAt(levels, n) == Machine([ShapeFrame(0, Leaf(0), 0), ShapeFrame(1, InnerChain(n - 1), 2)], 1)
    decreases n
  {
    if n > 2 {
      BracedMachine(levels, n - 1);
      var s := [ShapeFrame(0, Leaf(0), 0), ShapeFrame(1, InnerChain(n - 2), 2)];
      assert s[..1] == [ShapeFrame(0, Leaf(0), 0)];
      assert Lowered(levels, n, 1) == 1;
      assert InnerChain(n - 1) == Node(n - 1, InnerChain(n - 2), Leaf(n - 1));
      assert Reduce(levels, n, s, 1, Leaf(n - 1), n - 1) == Reduce(levels, n, s[..1], 1, InnerChain(n - 1), 2);
    }
  }

  /**
   * "t1 {t2 ... tn}" with n >= 3 builds t1 ⋈ (((t2 ⋈ t3) ⋈ ...) ⋈ tn); the
   * outer join reads directive 2, the index stored with t2's frame.
   */
  lemma BracedTailBuildsRightJoin(levels: seq<int>)
    requires BracedTail(levels) && |levels| >= 3
    ensures AssembledShape(levels) == Node(2, Leaf(0), InnerChain(|levels| - 1))
  {
    var n := |levels|;
    BracedMachine(levels, n - 1);
    var s := [ShapeFrame(0, Leaf(0), 0), ShapeFrame(1, InnerChain(n - 2), 2)];
    assert s[..1] == [ShapeFrame(0, Leaf(0), 0)];
    assert s[..1][..0] == [];
    assert Lowered(levels, n, 1) == 0 && Lowered(levels, n, 0) == 0;
    assert InnerChain(n - 1) == Node(n - 1, InnerChain(n - 2), Leaf(n - 1));
    assert Reduce(levels, n, s, 1, Leaf(n - 1), n - 1) == Reduce(levels, n, s[..1], 0, InnerChain(n - 1), 2);
    assert Reduce(levels, n, s[..1], 0, InnerChain(n - 1), 2)
        == Reduce(levels, n, [], 0, Node(2, Leaf(0), InnerChain(n - 1)), 0);
  }

  /** "t1 {t2}" leaves a single table on top of the stack: the cast to a join fails. */
  lemma SingleBracedTableIsLeaf()
    ensures AssembledShape([0, 1]) == Leaf(1)
  {
    assert MachineAt([0, 1], 2) == Machine([ShapeFrame(0, Leaf(0), 0), ShapeFrame(1, Leaf(1), 2)], 1);
  }
}
