/**
 * The leading hint's registry of (relation id, table name) pairs
 * (relationIdAndTableName), as values.  The class LeadingHint keeps the
 * list in a field and its methods are proved against these functions.
 */
module RelationRegistry {
  import opened Plans
  import opened Wrappers

  /** One entry of relationIdAndTableName. */
  datatype IdName = IdName(relationId: RelationId, tableName: string)

  /** findRelationIdAndTableName: the id of the first pair named `name`. */
  function Find(pairs: seq<IdName>, name: string): (r: Option<RelationId>)
    ensures r.Some? ==> IdName(r.value, name) in pairs
    ensures r.None? ==> name !in TableNames(pairs)
  {
    if pairs == [] then None
    else if pairs[0].tableName == name then Some(pairs[0].relationId)
    else Find(pairs[1..], name)
  }

  /**
   * Find answers None exactly when no pair has the name, and otherwise the id
   * of the first pair that has it.
   */
  lemma {:induction false} FindSpec(pairs: seq<IdName>, name: string)
    ensures Find(pairs, name).None? <==> forall i :: 0 <= i < |pairs| ==> pairs[i].tableName != name
    ensures Find(pairs, name).Some? ==>
              exists i :: 0 <= i < |pairs| && pairs[i] == IdName(Find(pairs, name).value, name) &&
                          forall j :: 0 <= j < i ==> pairs[j].tableName != name
  {
    if pairs != [] {
      if pairs[0].tableName == name {
        assert pairs[0] == IdName(pairs[0].relationId, name);
      } else {
        FindSpec(pairs[1..], name);
        assert forall i :: 0 < i < |pairs| ==> pairs[i] == pairs[1..][i - 1];
        if Find(pairs, name).Some? {
          var i :| 0 <= i < |pairs[1..]| && pairs[1..][i] == IdName(Find(pairs, name).value, name) &&
                   forall j :: 0 <= j < i ==> pairs[1..][j].tableName != name;
          assert pairs[i + 1] == IdName(Find(pairs, name).value, name);
        }
      }
    }
  }

  /**
   * putRelationIdAndTableName: every pair with the given relation id gets the
   * new table name; when there is none, the pair is appended.
   */
  function PutById(pairs: seq<IdName>, p: IdName): (r: seq<IdName>)
    ensures |pairs| <= |r| <= |pairs| + 1
    ensures forall i :: 0 <= i < |pairs| && pairs[i].relationId != p.relationId ==> r[i] == pairs[i]
    ensures forall i :: 0 <= i < |r| && r[i].relationId == p.relationId ==> r[i] == p
  {
    var updated := seq(|pairs|, i requires 0 <= i < |pairs| =>
                         if pairs[i].relationId == p.relationId then IdName(pairs[i].relationId, p.tableName) else pairs[i]);
    if exists i :: 0 <= i < |pairs| && pairs[i].relationId == p.relationId then updated else updated + [p]
  }

  /**
   * updateRelationIdByTableName: every pair with the given table name gets the
   * new relation id; when there is none, the pair is appended.
   */
  function UpdateByName(pairs: seq<IdName>, p: IdName): (r: seq<IdName>)
    ensures |pairs| <= |r| <= |pairs| + 1
    ensures forall i :: 0 <= i < |pairs| && pairs[i].tableName != p.tableName ==> r[i] == pairs[i]
    ensures forall i :: 0 <= i < |r| && r[i].tableName == p.tableName ==> r[i] == p
  {
    var updated := seq(|pairs|, i requires 0 <= i < |pairs| =>
                         if pairs[i].tableName == p.tableName then IdName(p.relationId, pairs[i].tableName) else pairs[i]);
    if exists i :: 0 <= i < |pairs| && pairs[i].tableName == p.tableName then updated else updated + [p]
  }

  function Ids(pairs: seq<IdName>): set<RelationId> {
    set i | 0 <= i < |pairs| :: pairs[i].relationId
  }

  function TableNames(pairs: seq<IdName>): set<string> {
    set i | 0 <= i < |pairs| :: pairs[i].tableName
  }

  /** Relation ids are unique in the list (the comment of findRelationIdAndTableName). */
  ghost predicate UniqueIds(pairs: seq<IdName>) {
    forall i, j :: 0 <= i < j < |pairs| ==> pairs[i].relationId != pairs[j].relationId
  }

  /**
   * After putting (id, name), the id is registered under that name only, no
   * other pair changed, and ids stay unique.
   */
  lemma PutByIdRegisters(pairs: seq<IdName>, p: IdName)
    ensures var r := PutById(pairs, p);
            && Ids(r) == Ids(pairs) + {p.relationId}
            && (forall i :: 0 <= i < |r| && r[i].relationId == p.relationId ==> r[i].tableName == p.tableName)
            && (forall i :: 0 <= i < |pairs| && pairs[i].relationId != p.relationId ==> r[i] == pairs[i])
            && (UniqueIds(pairs) ==> UniqueIds(r))
  {
    var r := PutById(pairs, p);
    if exists i :: 0 <= i < |pairs| && pairs[i].relationId == p.relationId {
      var k :| 0 <= k < |pairs| && pairs[k].relationId == p.relationId;
      assert r[k].relationId == p.relationId;
    } else {
      assert r[|pairs|] == p;
    }
    assert forall i :: 0 <= i < |pairs| ==> r[i].relationId == pairs[i].relationId;
  }

  /** Updating by name adds that name to the table names and no other. */
  lemma UpdateByNameNames(pairs: seq<IdName>, p: IdName)
    ensures TableNames(UpdateByName(pairs, p)) == TableNames(pairs) + {p.tableName}
  {
    var r := UpdateByName(pairs, p);
    assert forall i :: 0 <= i < |pairs| ==> r[i].tableName == pairs[i].tableName;
    if exists i :: 0 <= i < |pairs| && pairs[i].tableName == p.tableName {
      var k :| 0 <= k < |pairs| && pairs[k].tableName == p.tableName;
      assert r[k].tableName == p.tableName;
    } else {
      assert r[|pairs|] == p;
    }
  }

  /** After updating by name, looking the name up gives the new relation id. */
  lemma {:induction false} UpdateByNameThenFind(pairs: seq<IdName>, p: IdName)
    ensures Find(UpdateByName(pairs, p), p.tableName) == Some(p.relationId)
    ensures TableNames(UpdateByName(pairs, p)) == TableNames(pairs) + {p.tableName}
  {
    var r := UpdateByName(pairs, p);
    UpdateByNameNames(pairs, p);
    assert p.tableName in TableNames(r);
    FindSpec(r, p.tableName);
  }

  /** The table list names some table twice (hasSameName). */
  predicate HasDuplicate(names: seq<string>) {
    exists i, j :: 0 <= i < j < |names| && names[i] == names[j]
  }

  /** The relation ids found for the given names. */
  function FoundIds(pairs: seq<IdName>, names: seq<string>): RelationBitmap {
    set i | 0 <= i < |names| && Find(pairs, names[i]).Some? :: Find(pairs, names[i]).value
  }

  /** The position of the first name that is not registered, if any. */
  function FirstMissing(pairs: seq<IdName>, names: seq<string>): (r: Option<nat>)
    ensures r.None? <==> forall i :: 0 <= i < |names| ==> Find(pairs, names[i]).Some?
    ensures r.Some? ==> r.value < |names| && Find(pairs, names[r.value]).None? &&
                        forall i :: 0 <= i < r.value ==> Find(pairs, names[i]).Some?
  {
    if names == [] then None
    else if Find(pairs, names[0]).None? then Some(0)
    else
      var r := FirstMissing(pairs, names[1..]);
      if r.None? then
        assert forall i :: 0 < i < |names| ==> names[i] == names[1..][i - 1];
        None
      else
        assert forall i :: 0 < i <= r.value ==> names[i] == names[1..][i - 1];
        Some(r.value + 1)
  }

  /** The bitmap of a fully registered list is the set of ids the names resolve to. */
  lemma FoundIdsAppend(pairs: seq<IdName>, names: seq<string>, name: string)
    requires Find(pairs, name).Some?
    ensures FoundIds(pairs, names + [name]) == FoundIds(pairs, names) + {Find(pairs, name).value}
  {
    var ns := names + [name];
    assert ns[|names|] == name;
    forall x | x in FoundIds(pairs, ns) ensures x in FoundIds(pairs, names) + {Find(pairs, name).value} {
      var i :| 0 <= i < |ns| && Find(pairs, ns[i]).Some? && Find(pairs, ns[i]).value == x;
      if i < |names| {
        assert ns[i] == names[i];
      }
    }
    forall x | x in FoundIds(pairs, names) ensures x in FoundIds(pairs, ns) {
      var i :| 0 <= i < |names| && Find(pairs, names[i]).Some? && Find(pairs, names[i]).value == x;
      assert ns[i] == names[i];
    }
  }

  /** With unique relation ids, different registered names resolve to different ids. */
  lemma FindInjective(pairs: seq<IdName>, a: string, b: string)
    requires UniqueIds(pairs) && a != b
    requires Find(pairs, a).Some? && Find(pairs, b).Some?
    ensures Find(pairs, a).value != Find(pairs, b).value
  {
    FindSpec(pairs, a);
    FindSpec(pairs, b);
    var p :| 0 <= p < |pairs| && pairs[p] == IdName(Find(pairs, a).value, a);
    var q :| 0 <= q < |pairs| && pairs[q] == IdName(Find(pairs, b).value, b);
    assert p != q;
  }

  /**
   * With unique relation ids, a table list without duplicates whose names are
   * all registered yields a bitmap with exactly one relation per table.
   */
  lemma {:induction false} FoundIdsSize(pairs: seq<IdName>, names: seq<string>)
    requires UniqueIds(pairs) && !HasDuplicate(names)
    requires FirstMissing(pairs, names).None?
    ensures |FoundIds(pairs, names)| == |names|
  {
    if names == [] {
      assert FoundIds(pairs, names) == {};
    } else {
      var init, last := names[..|names| - 1], names[|names| - 1];
      assert names == init + [last];
      forall i, j | 0 <= i < j < |init| ensures init[i] != init[j] {
        assert init[i] == names[i] && init[j] == names[j];
      }
      assert forall i :: 0 <= i < |init| ==> init[i] == names[i];
      FoundIdsSize(pairs, init);
      FoundIdsAppend(pairs, init, last);
      var id := Find(pairs, last).value;
      forall i | 0 <= i < |init| && Find(pairs, init[i]).Some? ensures Find(pairs, init[i]).value != id {
        assert init[i] == names[i] != names[|names| - 1];
        FindInjective(pairs, init[i], last);
      }
    }
  }
}
