/**
 * The pending filters of a leading hint and their extraction: a filter is
 * attached to the first scan or join whose bitmap covers the relations the
 * filter refers to, and is then removed from the pending list.
 */
module FilterScope {
  import opened Plans

  /** One entry of the `filters` list: the relations a predicate uses, and the predicate. */
  datatype PendingFilter = PendingFilter(bitmap: RelationBitmap, expr: Expr)

  predicate CoveredBy(f: PendingFilter, b: RelationBitmap) {
    f.bitmap <= b
  }

  /** The filters that stay pending after extracting those covered by b, in their order. */
  function Remaining(fs: seq<PendingFilter>, b: RelationBitmap): (r: seq<PendingFilter>)
    ensures |r| <= |fs|
    ensures forall i :: 0 <= i < |r| ==> !CoveredBy(r[i], b)
  {
    if fs == [] then []
    else (if CoveredBy(fs[0], b) then [] else [fs[0]]) + Remaining(fs[1..], b)
  }

  /**
   * The predicates extracted for bitmap b, in the order getJoinConditions
   * returns them: it scans the list from its end.
   */
  function JoinConditions(fs: seq<PendingFilter>, b: RelationBitmap): (r: seq<Expr>)
    ensures |r| + |Remaining(fs, b)| == |fs|
  {
    if fs == [] then []
    else JoinConditions(fs[1..], b) + (if CoveredBy(fs[0], b) then [fs[0].expr] else [])
  }

  /** The predicates of a list of filters. */
  function Exprs(fs: seq<PendingFilter>): seq<Expr> {
    if fs == [] then [] else [fs[0].expr] + Exprs(fs[1..])
  }

  /** The predicates of a list, as the set a filter node holds. */
  function Conjuncts(es: seq<Expr>): (r: set<Expr>)
    ensures r == {} <==> es == []
  {
    if es == [] then {} else Conjuncts(es[..|es| - 1]) + {es[|es| - 1]}
  }

  lemma ConjunctsSnoc(es: seq<Expr>, e: Expr)
    ensures Conjuncts(es + [e]) == Conjuncts(es) + {e}
  {
    assert (es + [e])[..|es|] == es;
  }

  lemma {:induction false} ConjunctsMembers(es: seq<Expr>)
    ensures forall e :: e in Conjuncts(es) <==> e in es
  {
    if es != [] {
      ConjunctsMembers(es[..|es| - 1]);
      assert es == es[..|es| - 1] + [es[|es| - 1]];
    }
  }

  /** Extraction loses nothing: returned plus remaining is the original list. */
  lemma {:induction false} ExtractionConserves(fs: seq<PendingFilter>, b: RelationBitmap)
    ensures multiset(Exprs(fs)) == multiset(Exprs(Remaining(fs, b))) + multiset(JoinConditions(fs, b))
  {
    if fs != [] {
      var rest := fs[1..];
      ExtractionConserves(rest, b);
      ExtractionStep(fs, b);
    }
  }

  /** The head of the list goes either to the remaining filters or to the extracted predicates. */
  lemma ExtractionStep(fs: seq<PendingFilter>, b: RelationBitmap)
    requires fs != []
    ensures multiset(Exprs(fs)) == multiset{fs[0].expr} + multiset(Exprs(fs[1..]))
    ensures CoveredBy(fs[0], b) ==>
              multiset(Exprs(Remaining(fs, b))) == multiset(Exprs(Remaining(fs[1..], b))) &&
              multiset(JoinConditions(fs, b)) == multiset(JoinConditions(fs[1..], b)) + multiset{fs[0].expr}
    ensures !CoveredBy(fs[0], b) ==>
              multiset(Exprs(Remaining(fs, b))) == multiset{fs[0].expr} + multiset(Exprs(Remaining(fs[1..], b))) &&
              JoinConditions(fs, b) == JoinConditions(fs[1..], b)
  {
    var x, rest := fs[0].expr, fs[1..];
    assert Exprs(fs) == [x] + Exprs(rest);
    var r := Remaining(rest, b);
    if CoveredBy(fs[0], b) {
      assert Remaining(fs, b) == r by {
        assert Remaining(fs, b) == [] + r;
      }
      assert JoinConditions(fs, b) == JoinConditions(rest, b) + [x];
    } else {
      assert Remaining(fs, b) == [fs[0]] + r;
      assert ([fs[0]] + r)[1..] == r;
      assert Exprs([fs[0]] + r) == [x] + Exprs(r);
    }
  }

  /** A filter stays pending exactly when it is in the list and not covered. */
  lemma {:induction false} RemainingMembers(fs: seq<PendingFilter>, b: RelationBitmap)
    ensures forall f :: f in Remaining(fs, b) <==> f in fs && !CoveredBy(f, b)
  {
    if fs != [] {
      RemainingMembers(fs[1..], b);
      assert forall f :: f in fs <==> f == fs[0] || f in fs[1..];
    }
  }

  /** Extraction keeps the relative order: it distributes over concatenation. */
  lemma {:induction false} RemainingAppend(a: seq<PendingFilter>, c: seq<PendingFilter>, b: RelationBitmap)
    ensures Remaining(a + c, b) == Remaining(a, b) + Remaining(c, b)
  {
    if a == [] {
      assert a + c == c;
    } else {
      assert (a + c)[1..] == a[1..] + c;
      RemainingAppend(a[1..], c, b);
    }
  }

  /** A second extraction with the same or a smaller bitmap finds nothing. */
  lemma {:induction false} ExtractionExhausts(fs: seq<PendingFilter>, b: RelationBitmap, b': RelationBitmap)
    requires b' <= b
    ensures Remaining(Remaining(fs, b), b') == Remaining(fs, b)
    ensures JoinConditions(Remaining(fs, b), b') == []
  {
    if fs != [] {
      ExtractionExhausts(fs[1..], b, b');
      var head := if CoveredBy(fs[0], b) then [] else [fs[0]];
      RemainingAppend(head, Remaining(fs[1..], b), b');
    }
  }

  /**
   * One step of the backwards scan of getJoinConditions and
   * makeFilterPlanIfExist at position i: the list still holds fs[..i + 1]
   * followed by what stays of fs[i + 1..]; dropping position i when it is
   * covered leaves fs[..i] followed by what stays of fs[i..].
   */
  lemma ExtractAt(fs: seq<PendingFilter>, i: nat, b: RelationBitmap, filters: seq<PendingFilter>)
    requires i < |fs| && filters == fs[..i + 1] + Remaining(fs[i + 1..], b)
    ensures i < |filters| && filters[i] == fs[i]
    ensures CoveredBy(fs[i], b) ==>
              && filters[..i] + filters[i + 1..] == fs[..i] + Remaining(fs[i..], b)
              && JoinConditions(fs[i..], b) == JoinConditions(fs[i + 1..], b) + [fs[i].expr]
    ensures !CoveredBy(fs[i], b) ==>
              && filters == fs[..i] + Remaining(fs[i..], b)
              && JoinConditions(fs[i..], b) == JoinConditions(fs[i + 1..], b)
  {
    assert fs[i..][1..] == fs[i + 1..];
    assert fs[..i + 1] == fs[..i] + [fs[i]];
    if CoveredBy(fs[i], b) {
      assert filters[..i] == fs[..i];
      assert filters[i + 1..] == Remaining(fs[i + 1..], b);
    }
  }

  /** The filters not covered by any bitmap of `used`, in their order. */
  function RemainingAll(fs: seq<PendingFilter>, used: set<RelationBitmap>): seq<PendingFilter> {
    if fs == [] then []
    else (if exists b :: b in used && CoveredBy(fs[0], b) then [] else [fs[0]]) + RemainingAll(fs[1..], used)
  }

  /** Successive extractions: removing the filters covered by b from what is left adds b to the used bitmaps. */
  lemma {:induction false} RemainingAllStep(fs: seq<PendingFilter>, used: set<RelationBitmap>, b: RelationBitmap)
    ensures Remaining(RemainingAll(fs, used), b) == RemainingAll(fs, used + {b})
  {
    if fs != [] {
      RemainingAllStep(fs[1..], used, b);
      var head := if exists c :: c in used && CoveredBy(fs[0], c) then [] else [fs[0]];
      RemainingAppend(head, RemainingAll(fs[1..], used), b);
    }
  }

  lemma {:induction false} RemainingAllEmpty(fs: seq<PendingFilter>)
    ensures RemainingAll(fs, {}) == fs
  {
    if fs != [] {
      RemainingAllEmpty(fs[1..]);
    }
  }

  /** No filter left pending is covered by a bitmap that was used for extraction. */
  lemma {:induction false} RemainingAllExcludes(fs: seq<PendingFilter>, used: set<RelationBitmap>, b: RelationBitmap)
    requires b in used
    ensures forall f :: f in RemainingAll(fs, used) ==> f in fs && !CoveredBy(f, b)
  {
    if fs != [] {
      RemainingAllExcludes(fs[1..], used, b);
    }
  }
}
