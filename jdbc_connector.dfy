/**
 * The column-type checks of the JDBC connector of the backend: the table of
 * Java type names each Doris slot type accepts, the cast-index registries
 * kept for JSONB, HLL and BITMAP columns, the pairing of materialized slots
 * with the column types the executor reports, and the reader parameters
 * handed to the Java scanner.
 */
module JdbcConnectors {
  import opened Wrappers
  import opened Separators

  /**
   * The slot types the type check distinguishes; the last group stands for
   * the types that reach its default branch.
   */
  datatype PrimitiveType =
    | TYPE_BOOLEAN
    | TYPE_TINYINT | TYPE_SMALLINT | TYPE_INT
    | TYPE_BIGINT | TYPE_LARGEINT
    | TYPE_FLOAT | TYPE_DOUBLE
    | TYPE_CHAR | TYPE_VARCHAR | TYPE_STRING
    | TYPE_DATE | TYPE_DATEV2 | TYPE_TIMEV2 | TYPE_DATETIME | TYPE_DATETIMEV2
    | TYPE_DECIMALV2 | TYPE_DECIMAL32 | TYPE_DECIMAL64 | TYPE_DECIMAL128I | TYPE_DECIMAL256
    | TYPE_ARRAY
    | TYPE_JSONB | TYPE_HLL | TYPE_OBJECT
    | TYPE_NULL | TYPE_BINARY | TYPE_TIME | TYPE_STRUCT | TYPE_MAP | TYPE_VARIANT
    | TYPE_QUANTILE_STATE | TYPE_AGG_STATE | TYPE_IPV4 | TYPE_IPV6

  /**
   * What the connector reads of a slot descriptor.  typeDebugString is the
   * type's debug_string() and jniType is JniConnector::get_jni_type of the
   * type; neither function is part of this model.
   */
  datatype SlotDescriptor = SlotDescriptor(
    colName: string,
    slotType: PrimitiveType,
    typeDebugString: string,
    jniType: string,
    isNullable: bool,
    isMaterialized: bool)

  datatype Status = OK | InternalError(message: string)

  /** The table type of the connection; only NEBULA changes what query does. */
  datatype TableType = NEBULA | MYSQL | ORACLE | POSTGRESQL | SQLSERVER | CLICKHOUSE

  predicate IsCharType(t: PrimitiveType) {
    t.TYPE_CHAR? || t.TYPE_VARCHAR? || t.TYPE_STRING?
  }

  predicate IsDecimalType(t: PrimitiveType) {
    t.TYPE_DECIMALV2? || t.TYPE_DECIMAL32? || t.TYPE_DECIMAL64? || t.TYPE_DECIMAL128I? || t.TYPE_DECIMAL256?
  }

  /** The slot types with a case of their own in the type check. */
  predicate Listed(t: PrimitiveType) {
    !(t.TYPE_NULL? || t.TYPE_BINARY? || t.TYPE_TIME? || t.TYPE_STRUCT? || t.TYPE_MAP? || t.TYPE_VARIANT? ||
      t.TYPE_QUANTILE_STATE? || t.TYPE_AGG_STATE? || t.TYPE_IPV4? || t.TYPE_IPV6?)
  }

  /** _check_type's decision: whether a column of Java type typeStr may fill a slot of type t. */
  function Accepts(t: PrimitiveType, typeStr: string): (ok: bool)
    ensures IsCharType(t) ==> ok
  {
    match t
    case TYPE_BOOLEAN =>
      typeStr == "java.lang.Boolean" || typeStr == "java.lang.Byte" || typeStr == "java.lang.Integer"
    case TYPE_TINYINT | TYPE_SMALLINT | TYPE_INT =>
      typeStr == "java.lang.Short" || typeStr == "java.lang.Integer" || typeStr == "java.math.BigDecimal" ||
      typeStr == "java.lang.Byte" || typeStr == "com.clickhouse.data.value.UnsignedByte" ||
      typeStr == "com.clickhouse.data.value.UnsignedShort" || typeStr == "java.lang.Long"
    case TYPE_BIGINT | TYPE_LARGEINT =>
      typeStr == "java.lang.Long" || typeStr == "java.math.BigDecimal" || typeStr == "java.math.BigInteger" ||
      typeStr == "java.lang.String" || typeStr == "com.clickhouse.data.value.UnsignedInteger" ||
      typeStr == "com.clickhouse.data.value.UnsignedLong"
    case TYPE_FLOAT =>
      typeStr == "java.lang.Float" || typeStr == "java.math.BigDecimal"
    case TYPE_DOUBLE =>
      typeStr == "java.lang.Double" || typeStr == "java.math.BigDecimal"
    case TYPE_CHAR | TYPE_VARCHAR | TYPE_STRING =>
      true
    case TYPE_DATE | TYPE_DATEV2 | TYPE_TIMEV2 | TYPE_DATETIME | TYPE_DATETIMEV2 =>
      typeStr == "java.sql.Timestamp" || typeStr == "java.time.LocalDateTime" || typeStr == "java.sql.Date" ||
      typeStr == "java.time.LocalDate" || typeStr == "oracle.sql.TIMESTAMP" || typeStr == "java.time.OffsetDateTime"
    case TYPE_DECIMALV2 | TYPE_DECIMAL32 | TYPE_DECIMAL64 | TYPE_DECIMAL128I | TYPE_DECIMAL256 =>
      typeStr == "java.math.BigDecimal"
    case TYPE_ARRAY =>
      typeStr == "java.sql.Array" || typeStr == "java.lang.String" || typeStr == "java.lang.Object"
    case TYPE_JSONB =>
      typeStr == "java.lang.String" || typeStr == "org.postgresql.util.PGobject"
    case TYPE_HLL =>
      typeStr == "java.lang.String"
    case TYPE_OBJECT =>
      typeStr == "java.lang.String"
    case _ =>
      false
  }

  /** BOOLEAN slots take Boolean, Byte and Integer columns only. */
  lemma BooleanRow(typeStr: string)
    ensures Accepts(TYPE_BOOLEAN, typeStr) <==>
              typeStr == "java.lang.Boolean" || typeStr == "java.lang.Byte" || typeStr == "java.lang.Integer"
  {
  }

  /** Decimal slots take BigDecimal columns only. */
  lemma DecimalRows(t: PrimitiveType, typeStr: string)
    requires IsDecimalType(t)
    ensures Accepts(t, typeStr) <==> typeStr == "java.math.BigDecimal"
  {
  }

  /** Character slots take any column. */
  lemma CharRows(t: PrimitiveType, typeStr: string)
    requires IsCharType(t)
    ensures Accepts(t, typeStr)
  {
  }

  /** Slot types without a case of their own take no column. */
  lemma DefaultRow(t: PrimitiveType, typeStr: string)
    requires !Listed(t)
    ensures !Accepts(t, typeStr)
  {
  }

  /** Exactly the character types accept every Java type; all others reject the empty type name. */
  lemma AcceptsEverythingIffCharType(t: PrimitiveType)
    ensures (forall typeStr :: Accepts(t, typeStr)) <==> IsCharType(t)
  {
    if IsCharType(t) {
      forall typeStr ensures Accepts(t, typeStr) {
        CharRows(t, typeStr);
      }
    } else {
      assert !Accepts(t, "");
    }
  }

  /** The slot types that a "java.lang.String" column may fill. */
  lemma JavaStringFills(t: PrimitiveType)
    ensures Accepts(t, "java.lang.String") <==>
              t in {TYPE_BIGINT, TYPE_LARGEINT, TYPE_CHAR, TYPE_VARCHAR, TYPE_STRING,
                    TYPE_ARRAY, TYPE_JSONB, TYPE_HLL, TYPE_OBJECT}
  {
  }

  /** The message of a rejected column. */
  function ErrorMessage(typeStr: string, slot: SlotDescriptor): (m: string)
    ensures "Fail to convert jdbc type of " + typeStr <= m
    ensures |m| > |typeStr| + |slot.typeDebugString| + |slot.colName|
  {
    "Fail to convert jdbc type of " + typeStr + " to doris type " + slot.typeDebugString +
    " on column: " + slot.colName +
    ". You need to check this column type between external table and doris table."
  }

  // ---------------------------------------------------------------------
  // Cast-index registries
  // ---------------------------------------------------------------------

  /**
   * One kind of string-cast bookkeeping: _map_column_idx_to_cast_idx_* (index),
   * the nullability of each _input_*_string_types entry (types) and of each
   * str_*_cols column created from it (cols).
   */
  datatype CastRegistry = CastRegistry(index: map<nat, nat>, types: seq<bool>, cols: seq<bool>)

  const EmptyRegistry := CastRegistry(map[], [], [])

  /** The registries of the three kinds that are read as strings and cast afterwards. */
  datatype CastRegistries = CastRegistries(json: CastRegistry, hll: CastRegistry, bitmap: CastRegistry)

  datatype CastKind = JsonCast | HllCast | BitmapCast

  function CastKindOf(t: PrimitiveType): Option<CastKind> {
    match t
    case TYPE_JSONB => Some(JsonCast)
    case TYPE_HLL => Some(HllCast)
    case TYPE_OBJECT => Some(BitmapCast)
    case _ => None
  }

  function Reg(c: CastRegistries, kind: CastKind): CastRegistry {
    match kind
    case JsonCast => c.json
    case HllCast => c.hll
    case BitmapCast => c.bitmap
  }

  /**
   * Registration of an accepted column: the column maps to the next cast
   * index, a string type of the slot's nullability is appended, and a column
   * is created from the type at that index.
   */
  function Register(reg: CastRegistry, columnIndex: nat, nullable: bool): (r: CastRegistry)
    ensures columnIndex in r.index && r.index[columnIndex] == |reg.types|
    ensures r.types == reg.types + [nullable] && r.cols == reg.cols + [nullable]
    ensures forall k :: k in reg.index && k != columnIndex ==> k in r.index && r.index[k] == reg.index[k]
  {
    var index := reg.index[columnIndex := |reg.types|];
    var types := reg.types + [nullable];
    CastRegistry(index, types, reg.cols + [types[index[columnIndex]]])
  }

  /** The registration an accepted slot causes, if its type is one of the three kinds. */
  function Apply(c: CastRegistries, slot: SlotDescriptor, columnIndex: nat): (r: CastRegistries)
    ensures forall kind :: CastKindOf(slot.slotType) != Some(kind) ==> Reg(r, kind) == Reg(c, kind)
    ensures forall kind :: CastKindOf(slot.slotType) == Some(kind) ==>
              Reg(r, kind) == Register(Reg(c, kind), columnIndex, slot.isNullable)
  {
    match CastKindOf(slot.slotType)
    case None => c
    case Some(JsonCast) => c.(json := Register(c.json, columnIndex, slot.isNullable))
    case Some(HllCast) => c.(hll := Register(c.hll, columnIndex, slot.isNullable))
    case Some(BitmapCast) => c.(bitmap := Register(c.bitmap, columnIndex, slot.isNullable))
  }

  /**
   * A registry is consistent when there is one column per type, each with the
   * type's nullability, and the column map points to distinct existing types.
   */
  ghost predicate Consistent(reg: CastRegistry) {
    && |reg.cols| == |reg.types|
    && (forall i :: 0 <= i < |reg.cols| ==> reg.cols[i] == reg.types[i])
    && (forall k :: k in reg.index ==> reg.index[k] < |reg.types|)
    && (forall k, l :: k in reg.index && l in reg.index && k != l ==> reg.index[k] != reg.index[l])
  }

  /**
   * Registering a column keeps the registry consistent, maps the column to
   * the previous number of types, grows the types and the columns by one entry
   * of the slot's nullability, and leaves every other column's entry alone.
   */
  lemma RegisterSpec(reg: CastRegistry, columnIndex: nat, nullable: bool)
    requires Consistent(reg)
    ensures var r := Register(reg, columnIndex, nullable);
            && Consistent(r)
            && r.index[columnIndex] == |reg.types|
            && r.types == reg.types + [nullable] && r.cols == reg.cols + [nullable]
            && r.types[r.index[columnIndex]] == nullable
            && (forall k :: k in reg.index && k != columnIndex ==> k in r.index && r.index[k] == reg.index[k])
  {
  }

  lemma ApplyOtherKinds(c: CastRegistries, slot: SlotDescriptor, columnIndex: nat, kind: CastKind)
    ensures Reg(Apply(c, slot, columnIndex), kind) ==
              if CastKindOf(slot.slotType) == Some(kind) then Register(Reg(c, kind), columnIndex, slot.isNullable)
              else Reg(c, kind)
  {
  }

  // ---------------------------------------------------------------------
  // Materialized slots and the column-type check
  // ---------------------------------------------------------------------

  /** The positions of the materialized slots, in order. */
  function Materialized(slots: seq<SlotDescriptor>): (r: seq<nat>)
    ensures |r| <= |slots|
    ensures forall k :: 0 <= k < |r| ==> r[k] < |slots|
  {
    if slots == [] then []
    else
      var init := slots[..|slots| - 1];
      Materialized(init) + (if slots[|slots| - 1].isMaterialized then [|slots| - 1] else [])
  }

  /**
   * The materialized positions are increasing, each names a materialized
   * slot, and every materialized slot is among them.
   */
  lemma {:induction false} MaterializedSpec(slots: seq<SlotDescriptor>)
    ensures forall i, j :: 0 <= i < j < |Materialized(slots)| ==> Materialized(slots)[i] < Materialized(slots)[j]
    ensures forall k :: 0 <= k < |Materialized(slots)| ==> slots[Materialized(slots)[k]].isMaterialized
    ensures forall i :: 0 <= i < |slots| && slots[i].isMaterialized ==> i in Materialized(slots)
  {
    if slots != [] {
      var init := slots[..|slots| - 1];
      MaterializedSpec(init);
      var m0, n := Materialized(init), |slots| - 1;
      var m := Materialized(slots);
      assert forall i :: 0 <= i < |init| ==> init[i] == slots[i];
      if slots[n].isMaterialized {
        assert m == m0 + [n];
        assert m[|m0|] == n;
      } else {
        assert m == m0;
      }
      forall i, j | 0 <= i < j < |m| ensures m[i] < m[j] {
        if j < |m0| {
          assert m[i] == m0[i] && m[j] == m0[j];
        } else {
          assert m[i] == m0[i] < |init|;
        }
      }
      forall k | 0 <= k < |m| ensures slots[m[k]].isMaterialized {
        if k < |m0| {
          assert m[k] == m0[k] && init[m0[k]].isMaterialized;
        }
      }
      forall i | 0 <= i < |slots| && slots[i].isMaterialized ensures i in m {
        if i < n {
          assert i in m0;
        } else {
          assert m[|m0|] == n;
        }
      }
    }
  }

  lemma {:induction false} MaterializedPrefix(slots: seq<SlotDescriptor>, n: nat)
    requires n <= |slots|
    ensures |Materialized(slots[..n])| <= |Materialized(slots)|
    decreases |slots| - n
  {
    if n < |slots| {
      assert slots[..n + 1][..n] == slots[..n];
      MaterializedPrefix(slots, n + 1);
    } else {
      assert slots[..n] == slots;
    }
  }

  /** One check of _check_column_type: a materialized column and the type reported for it. */
  datatype Check = Check(columnIndex: nat, slot: SlotDescriptor, typeStr: string)

  /** The checks of the slots, the k-th materialized slot against the k-th reported type. */
  function Checks(slots: seq<SlotDescriptor>, types: seq<string>): (cs: seq<Check>)
    requires |Materialized(slots)| <= |types|
    ensures |cs| == |Materialized(slots)|
  {
    if slots == [] then []
    else
      var init, last := slots[..|slots| - 1], slots[|slots| - 1];
      Checks(init, types) + (if last.isMaterialized then [Check(|slots| - 1, last, types[|Materialized(init)|])] else [])
  }

  /** Reading one more slot adds its check when it is materialized. */
  lemma ChecksStep(slots: seq<SlotDescriptor>, types: seq<string>, n: nat)
    requires n < |slots| && |Materialized(slots[..n + 1])| <= |types|
    ensures |Materialized(slots[..n])| <= |types|
    ensures Materialized(slots[..n + 1]) == Materialized(slots[..n]) + (if slots[n].isMaterialized then [n] else [])
    ensures Checks(slots[..n + 1], types) ==
              Checks(slots[..n], types) +
              (if slots[n].isMaterialized then [Check(n, slots[n], types[|Materialized(slots[..n])|])] else [])
  {
    assert slots[..n + 1][..n] == slots[..n];
  }

  /** The k-th check pairs the k-th materialized slot, at its position, with the k-th reported type. */
  lemma {:induction false} ChecksPairing(slots: seq<SlotDescriptor>, types: seq<string>)
    requires |Materialized(slots)| <= |types|
    ensures var m, cs := Materialized(slots), Checks(slots, types);
            && |cs| == |m|
            && forall k :: 0 <= k < |cs| ==> cs[k] == Check(m[k], slots[m[k]], types[k])
  {
    if slots != [] {
      var init := slots[..|slots| - 1];
      ChecksPairing(init, types);
      assert forall i :: 0 <= i < |init| ==> init[i] == slots[i];
    }
  }

  /**
   * The state after running the checks in order: the status and the
   * registries.  The first rejected check stops the run.
   */
  function Run(c: CastRegistries, cs: seq<Check>): (CastRegistries, Status) {
    if cs == [] then (c, OK)
    else
      var (c', s) := Run(c, cs[..|cs| - 1]);
      if s != OK then (c', s) else CheckOne(c', cs[|cs| - 1])
  }

  /** The table accepts the type reported for the check's column. */
  predicate Accepted(x: Check) {
    Accepts(x.slot.slotType, x.typeStr)
  }

  /** One check: registration when the table accepts the type, the column's error otherwise. */
  function CheckOne(c: CastRegistries, x: Check): (r: (CastRegistries, Status))
    ensures r.1 == OK ==> r.0 == Apply(c, x.slot, x.columnIndex)
    ensures r.1 != OK ==> r.0 == c && r.1 == InternalError(ErrorMessage(x.typeStr, x.slot))
  {
    if Accepted(x) then (Apply(c, x.slot, x.columnIndex), OK)
    else (c, InternalError(ErrorMessage(x.typeStr, x.slot)))
  }

  lemma RunStep(c: CastRegistries, cs: seq<Check>, x: Check)
    ensures Run(c, cs + [x]) == if Run(c, cs).1 != OK then Run(c, cs) else CheckOne(Run(c, cs).0, x)
  {
    assert (cs + [x])[..|cs|] == cs;
  }

  /** The run over one more slot, given a successful run over the slots before it. */
  lemma RunSlotStep(c0: CastRegistries, c: CastRegistries, slots: seq<SlotDescriptor>, types: seq<string>, n: nat)
    requires n < |slots| && |Materialized(slots)| <= |types|
    requires |Materialized(slots[..n])| <= |types|
    requires Run(c0, Checks(slots[..n], types)) == (c, OK)
    ensures var m, slot := |Materialized(slots[..n])|, slots[n];
            && |Materialized(slots[..n + 1])| == m + (if slot.isMaterialized then 1 else 0) <= |types|
            && Run(c0, Checks(slots[..n + 1], types)) ==
                 if !slot.isMaterialized then (c, OK) else CheckOne(c, Check(n, slot, types[m]))
  {
    MaterializedPrefix(slots, n + 1);
    ChecksStep(slots, types, n);
    if slots[n].isMaterialized {
      RunStep(c0, Checks(slots[..n], types), Check(n, slots[n], types[|Materialized(slots[..n])|]));
    } else {
      assert Checks(slots[..n + 1], types) == Checks(slots[..n], types);
    }
  }

  /** Every check of the list is accepted. */
  predicate AllAccepted(cs: seq<Check>) {
    forall k :: 0 <= k < |cs| ==> Accepted(cs[k])
  }

  /** The k-th check is the first one the table rejects. */
  predicate FirstRejected(cs: seq<Check>, k: int) {
    0 <= k < |cs| && !Accepted(cs[k]) && AllAccepted(cs[..k])
  }

  /**
   * The run succeeds exactly when every check is accepted, and otherwise
   * reports the first rejected one.
   */
  lemma {:induction false} RunStatus(c: CastRegistries, cs: seq<Check>)
    ensures Run(c, cs).1 == OK <==> AllAccepted(cs)
    ensures Run(c, cs).1 != OK ==>
              exists k :: FirstRejected(cs, k) && Run(c, cs).1 == InternalError(ErrorMessage(cs[k].typeStr, cs[k].slot))
  {
    if cs != [] {
      var init, last := cs[..|cs| - 1], cs[|cs| - 1];
      RunStatus(c, init);
      assert cs == init + [last];
      RunStep(c, init, last);
      if Run(c, init).1 != OK {
        var k :| FirstRejected(init, k) && Run(c, init).1 == InternalError(ErrorMessage(init[k].typeStr, init[k].slot));
        FirstRejectedExtends(init, last, k);
        assert !Accepted(cs[k]);
      } else if !Accepted(last) {
        assert cs[..|init|] == init;
        assert FirstRejected(cs, |init|);
      } else {
        AllAcceptedExtends(init, last);
      }
    }
  }

  lemma FirstRejectedExtends(cs: seq<Check>, x: Check, k: int)
    requires FirstRejected(cs, k)
    ensures FirstRejected(cs + [x], k) && (cs + [x])[k] == cs[k]
  {
    assert (cs + [x])[..k] == cs[..k];
  }

  lemma AllAcceptedExtends(cs: seq<Check>, x: Check)
    requires AllAccepted(cs) && Accepted(x)
    ensures AllAccepted(cs + [x])
  {
    forall k | 0 <= k < |cs + [x]| ensures Accepted((cs + [x])[k]) {
      if k < |cs| {
        assert (cs + [x])[k] == cs[k];
      }
    }
  }

  /** The number of checks whose slot type is of the given cast kind. */
  function CountKind(cs: seq<Check>, kind: CastKind): nat {
    if cs == [] then 0
    else CountKind(cs[..|cs| - 1], kind) + (if CastKindOf(cs[|cs| - 1].slot.slotType) == Some(kind) then 1 else 0)
  }

  /** The checked columns are at distinct positions. */
  predicate DistinctColumns(cs: seq<Check>) {
    forall i, j :: 0 <= i < j < |cs| ==> cs[i].columnIndex != cs[j].columnIndex
  }

  /**
   * A successful run keeps each registry consistent, grows it by one type per
   * column of its kind, and leaves every such column mapped to a cast index
   * whose type has the column's nullability.
   */
  lemma {:induction false} RunRegisters(c: CastRegistries, cs: seq<Check>, kind: CastKind)
    requires Consistent(Reg(c, kind)) && DistinctColumns(cs)
    requires Run(c, cs).1 == OK
    ensures Consistent(Reg(Run(c, cs).0, kind))
    ensures |Reg(Run(c, cs).0, kind).types| == |Reg(c, kind).types| + CountKind(cs, kind)
    ensures forall k :: 0 <= k < |cs| && CastKindOf(cs[k].slot.slotType) == Some(kind) ==>
              cs[k].columnIndex in Reg(Run(c, cs).0, kind).index &&
              Reg(Run(c, cs).0, kind).types[Reg(Run(c, cs).0, kind).index[cs[k].columnIndex]] == cs[k].slot.isNullable
  {
    if cs != [] {
      var init, last := cs[..|cs| - 1], cs[|cs| - 1];
      assert cs == init + [last];
      RunStep(c, init, last);
      assert DistinctColumns(init) by {
        assert forall k :: 0 <= k < |init| ==> init[k] == cs[k];
      }
      RunRegisters(c, init, kind);
      assert Run(c, cs).0 == Apply(Run(c, init).0, last.slot, last.columnIndex);
      ApplyOtherKinds(Run(c, init).0, last.slot, last.columnIndex, kind);
      ApplyRegisters(Reg(c, kind), Reg(Run(c, init).0, kind), Reg(Run(c, cs).0, kind), init, last, kind);
    }
  }

  /**
   * Applying one more check, at a column not checked before, to a registry
   * that holds the earlier checks' columns extends it by that column.
   */
  lemma ApplyRegisters(start: CastRegistry, reg: CastRegistry, after: CastRegistry, init: seq<Check>, last: Check, kind: CastKind)
    requires DistinctColumns(init + [last])
    requires Consistent(reg)
    requires |reg.types| == |start.types| + CountKind(init, kind)
    requires forall k :: 0 <= k < |init| && CastKindOf(init[k].slot.slotType) == Some(kind) ==>
               init[k].columnIndex in reg.index && reg.types[reg.index[init[k].columnIndex]] == init[k].slot.isNullable
    requires after == if CastKindOf(last.slot.slotType) == Some(kind) then Register(reg, last.columnIndex, last.slot.isNullable) else reg
    ensures Consistent(after)
    ensures |after.types| == |start.types| + CountKind(init + [last], kind)
    ensures forall k :: 0 <= k < |init + [last]| && CastKindOf((init + [last])[k].slot.slotType) == Some(kind) ==>
              (init + [last])[k].columnIndex in after.index &&
              after.types[after.index[(init + [last])[k].columnIndex]] == (init + [last])[k].slot.isNullable
  {
    var cs := init + [last];
    assert cs[..|init|] == init;
    if CastKindOf(last.slot.slotType) == Some(kind) {
      RegisterSpec(reg, last.columnIndex, last.slot.isNullable);
      forall k | 0 <= k < |cs| && CastKindOf(cs[k].slot.slotType) == Some(kind)
        ensures cs[k].columnIndex in after.index && after.types[after.index[cs[k].columnIndex]] == cs[k].slot.isNullable
      {
        if k < |init| {
          assert cs[k] == init[k];
          assert cs[k].columnIndex != last.columnIndex;
        }
      }
    } else {
      forall k | 0 <= k < |cs| && CastKindOf(cs[k].slot.slotType) == Some(kind)
        ensures cs[k].columnIndex in after.index && after.types[after.index[cs[k].columnIndex]] == cs[k].slot.isNullable
      {
        assert k < |init| && cs[k] == init[k];
      }
    }
  }

  /** The run stops at its first rejected check: further checks change nothing. */
  lemma {:induction false} RunFailureIsFinal(c: CastRegistries, slots: seq<SlotDescriptor>, types: seq<string>, p: nat)
    requires p <= |slots| && |Materialized(slots)| <= |types|
    requires |Materialized(slots[..p])| <= |types|
    requires Run(c, Checks(slots[..p], types)).1 != OK
    ensures Run(c, Checks(slots, types)) == Run(c, Checks(slots[..p], types))
    decreases |slots| - p
  {
    if p < |slots| {
      MaterializedPrefix(slots, p + 1);
      ChecksStep(slots, types, p);
      if slots[p].isMaterialized {
        RunStep(c, Checks(slots[..p], types), Check(p, slots[p], types[|Materialized(slots[..p])|]));
      } else {
        assert Checks(slots[..p + 1], types) == Checks(slots[..p], types);
      }
      RunFailureIsFinal(c, slots, types, p + 1);
    } else {
      assert slots[..p] == slots;
    }
  }

  // ---------------------------------------------------------------------
  // Reader parameters
  // ---------------------------------------------------------------------

  /** The four strings _get_reader_params hands to the Java scanner. */
  datatype ReaderParams = ReaderParams(isNullable: string, replaceString: string, requiredFields: string, columnsTypes: string)

  function NullableFlag(slot: SlotDescriptor): string {
    if slot.isNullable then "true" else "false"
  }

  /** The cast a column is read for: bitmap, hll, jsonb, or none. */
  function ReplaceType(slot: SlotDescriptor): string {
    match slot.slotType
    case TYPE_OBJECT => "bitmap"
    case TYPE_HLL => "hll"
    case TYPE_JSONB => "jsonb"
    case _ => "not_replace"
  }

  /** The type the scanner reads a column as: a string for the three cast kinds. */
  function JniType(slot: SlotDescriptor): string {
    if CastKindOf(slot.slotType).Some? then "string" else slot.jniType
  }

  /** The entries of the materialized slots only. */
  function NullableFlags(slots: seq<SlotDescriptor>): seq<string> {
    if slots == [] then []
    else
      var last := slots[|slots| - 1];
      NullableFlags(slots[..|slots| - 1]) + (if last.isMaterialized then [NullableFlag(last)] else [])
  }

  function ReplaceTypes(slots: seq<SlotDescriptor>): seq<string> {
    if slots == [] then []
    else
      var last := slots[|slots| - 1];
      ReplaceTypes(slots[..|slots| - 1]) + (if last.isMaterialized then [ReplaceType(last)] else [])
  }

  /** The entries of all slots. */
  function ColNames(slots: seq<SlotDescriptor>): seq<string> {
    seq(|slots|, i requires 0 <= i < |slots| => slots[i].colName)
  }

  function JniTypes(slots: seq<SlotDescriptor>): seq<string> {
    seq(|slots|, i requires 0 <= i < |slots| => JniType(slots[i]))
  }

  /** Reading one more slot extends each of the four strings. */
  lemma ReaderStep(slots: seq<SlotDescriptor>, i: nat)
    requires i < |slots|
    ensures var s, prefix, slot := slots[..i], slots[..i + 1], slots[i];
            && Terminated(NullableFlags(prefix), ',') ==
                 (if slot.isMaterialized then Terminated(NullableFlags(s), ',') + NullableFlag(slot) + "," else Terminated(NullableFlags(s), ','))
            && Terminated(ReplaceTypes(prefix), ',') ==
                 (if slot.isMaterialized then Terminated(ReplaceTypes(s), ',') + ReplaceType(slot) + "," else Terminated(ReplaceTypes(s), ','))
            && Join(ColNames(prefix), ',') == Join(ColNames(s), ',') + (if i != 0 then "," else "") + slot.colName
            && Join(JniTypes(prefix), '#') == Join(JniTypes(s), '#') + (if i != 0 then "#" else "") + JniType(slot)
  {
    TerminatedStep(slots, i);
    JoinedStep(slots, i);
  }

  /** The materialized-slot strings grow by the slot's entry and a comma, or not at all. */
  lemma TerminatedStep(slots: seq<SlotDescriptor>, i: nat)
    requires i < |slots|
    ensures var s, prefix, slot := slots[..i], slots[..i + 1], slots[i];
            && Terminated(NullableFlags(prefix), ',') ==
                 (if slot.isMaterialized then Terminated(NullableFlags(s), ',') + NullableFlag(slot) + "," else Terminated(NullableFlags(s), ','))
            && Terminated(ReplaceTypes(prefix), ',') ==
                 (if slot.isMaterialized then Terminated(ReplaceTypes(s), ',') + ReplaceType(slot) + "," else Terminated(ReplaceTypes(s), ','))
  {
    var s, prefix := slots[..i], slots[..i + 1];
    assert prefix[..i] == s;
    var flags, repl := NullableFlags(s), ReplaceTypes(s);
    if slots[i].isMaterialized {
      assert NullableFlags(prefix) == flags + [NullableFlag(slots[i])];
      assert (flags + [NullableFlag(slots[i])])[..|flags|] == flags;
      assert ReplaceTypes(prefix) == repl + [ReplaceType(slots[i])];
      assert (repl + [ReplaceType(slots[i])])[..|repl|] == repl;
    } else {
      assert NullableFlags(prefix) == flags;
      assert ReplaceTypes(prefix) == repl;
    }
  }

  /** The all-slot strings grow by a separator, unless empty, and the slot's entry. */
  lemma JoinedStep(slots: seq<SlotDescriptor>, i: nat)
    requires i < |slots|
    ensures var s, prefix, slot := slots[..i], slots[..i + 1], slots[i];
            && Join(ColNames(prefix), ',') == Join(ColNames(s), ',') + (if i != 0 then "," else "") + slot.colName
            && Join(JniTypes(prefix), '#') == Join(JniTypes(s), '#') + (if i != 0 then "#" else "") + JniType(slot)
  {
    var s, prefix := slots[..i], slots[..i + 1];
    assert ColNames(prefix)[..i] == ColNames(s);
    assert JniTypes(prefix)[..i] == JniTypes(s);
    if i == 0 {
      assert |ColNames(prefix)| == 1 && |JniTypes(prefix)| == 1;
    }
  }

  /**
   * The per-materialized-slot entries: one per materialized slot, the k-th
   * describing the k-th materialized slot.
   */
  lemma MaterializedEntries(slots: seq<SlotDescriptor>)
    ensures var m := Materialized(slots);
            && |NullableFlags(slots)| == |m| && |ReplaceTypes(slots)| == |m|
            && (forall k :: 0 <= k < |m| ==>
                  NullableFlags(slots)[k] == NullableFlag(slots[m[k]]) &&
                  ReplaceTypes(slots)[k] == ReplaceType(slots[m[k]]))
  {
    NullableEntries(slots);
    ReplaceEntries(slots);
  }

  lemma {:induction false} NullableEntries(slots: seq<SlotDescriptor>)
    ensures var m := Materialized(slots);
            && |NullableFlags(slots)| == |m|
            && forall k :: 0 <= k < |m| ==> NullableFlags(slots)[k] == NullableFlag(slots[m[k]])
  {
    if slots != [] {
      var init := slots[..|slots| - 1];
      NullableEntries(init);
      var m0, f0 := Materialized(init), NullableFlags(init);
      var last := slots[|slots| - 1];
      if last.isMaterialized {
        assert Materialized(slots) == m0 + [|slots| - 1];
        assert NullableFlags(slots) == f0 + [NullableFlag(last)];
        forall k | 0 <= k < |m0| ensures NullableFlags(slots)[k] == NullableFlag(slots[Materialized(slots)[k]]) {
          assert slots[m0[k]] == init[m0[k]];
        }
      } else {
        assert Materialized(slots) == m0;
        assert NullableFlags(slots) == f0;
        forall k | 0 <= k < |m0| ensures NullableFlags(slots)[k] == NullableFlag(slots[m0[k]]) {
          assert slots[m0[k]] == init[m0[k]];
        }
      }
    }
  }

  lemma {:induction false} ReplaceEntries(slots: seq<SlotDescriptor>)
    ensures var m := Materialized(slots);
            && |ReplaceTypes(slots)| == |m|
            && forall k :: 0 <= k < |m| ==> ReplaceTypes(slots)[k] == ReplaceType(slots[m[k]])
  {
    if slots != [] {
      var init := slots[..|slots| - 1];
      ReplaceEntries(init);
      var m0, f0 := Materialized(init), ReplaceTypes(init);
      var last := slots[|slots| - 1];
      if last.isMaterialized {
        assert Materialized(slots) == m0 + [|slots| - 1];
        assert ReplaceTypes(slots) == f0 + [ReplaceType(last)];
        forall k | 0 <= k < |m0| ensures ReplaceTypes(slots)[k] == ReplaceType(slots[Materialized(slots)[k]]) {
          assert slots[m0[k]] == init[m0[k]];
        }
      } else {
        assert Materialized(slots) == m0;
        assert ReplaceTypes(slots) == f0;
        forall k | 0 <= k < |m0| ensures ReplaceTypes(slots)[k] == ReplaceType(slots[m0[k]]) {
          assert slots[m0[k]] == init[m0[k]];
        }
      }
    }
  }

  /** The per-materialized-slot entries never contain the comma that terminates them. */
  lemma EntriesAreCommaFree(slots: seq<SlotDescriptor>)
    ensures Free(NullableFlags(slots), ',') && Free(ReplaceTypes(slots), ',')
  {
    MaterializedEntries(slots);
    FreeMeans(NullableFlags(slots), ',');
    FreeMeans(ReplaceTypes(slots), ',');
    var m := Materialized(slots);
    forall k | 0 <= k < |m|
      ensures ',' !in NullableFlags(slots)[k] && ',' !in ReplaceTypes(slots)[k]
    {
      EntryIsCommaFree(slots[m[k]]);
    }
  }

  lemma EntryIsCommaFree(slot: SlotDescriptor)
    ensures ',' !in NullableFlag(slot) && ',' !in ReplaceType(slot)
  {
    assert NullableFlag(slot) == "true" || NullableFlag(slot) == "false";
    assert ReplaceType(slot) == "bitmap" || ReplaceType(slot) == "hll" ||
           ReplaceType(slot) == "jsonb" || ReplaceType(slot) == "not_replace";
  }

  /**
   * What the scanner reads back: the comma-terminated lists split into one
   * entry per materialized slot and a final empty field.
   */
  lemma ReaderParamsReadBack(slots: seq<SlotDescriptor>)
    ensures var m := Materialized(slots);
            var nullable, replace := Split(Terminated(NullableFlags(slots), ','), ','),
                                     Split(Terminated(ReplaceTypes(slots), ','), ',');
            && |nullable| == |m| + 1 && |replace| == |m| + 1
            && nullable[|m|] == "" && replace[|m|] == ""
            && (forall k :: 0 <= k < |m| ==>
                  nullable[k] == NullableFlag(slots[m[k]]) && replace[k] == ReplaceType(slots[m[k]]))
  {
    MaterializedEntries(slots);
    EntriesAreCommaFree(slots);
    TerminatedRoundTrip(NullableFlags(slots), ',');
    TerminatedRoundTrip(ReplaceTypes(slots), ',');
  }

  /**
   * The joined lists of all slots split back into the column names and the
   * JNI types, when there is at least one slot and no entry contains its
   * separator.
   */
  lemma JoinedParamsReadBack(slots: seq<SlotDescriptor>)
    requires |slots| > 0
    ensures Free(ColNames(slots), ',') ==> Split(Join(ColNames(slots), ','), ',') == ColNames(slots)
    ensures Free(JniTypes(slots), '#') ==> Split(Join(JniTypes(slots), '#'), '#') == JniTypes(slots)
  {
    if Free(ColNames(slots), ',') {
      JoinRoundTrip(ColNames(slots), ',');
    }
    if Free(JniTypes(slots), '#') {
      JoinRoundTrip(JniTypes(slots), '#');
    }
  }

  // ---------------------------------------------------------------------
  // The connector
  // ---------------------------------------------------------------------

  class JdbcConnector {
    var isOpen: bool
    const slots: seq<SlotDescriptor>
    const tableType: TableType
    var jsonCasts: CastRegistry
    var hllCasts: CastRegistry
    var bitmapCasts: CastRegistry

    ghost function Casts(): CastRegistries
      reads this
    {
      CastRegistries(jsonCasts, hllCasts, bitmapCasts)
    }

    constructor(slots: seq<SlotDescriptor>, tableType: TableType)
      ensures this.slots == slots && this.tableType == tableType && !isOpen
      ensures Casts() == CastRegistries(EmptyRegistry, EmptyRegistry, EmptyRegistry)
    {
      this.slots := slots;
      this.tableType := tableType;
      isOpen := false;
      jsonCasts, hllCasts, bitmapCasts := EmptyRegistry, EmptyRegistry, EmptyRegistry;
    }

    /** The end of open: the executor is set up (through JNI, not modelled) and the connector is open. */
    method Open()
      modifies this
      ensures isOpen && Casts() == old(Casts())
    {
      isOpen := true;
    }

    /** query's count of the materialized slots. */
    method CountMaterialized() returns (n: nat)
      ensures n == |Materialized(slots)|
    {
      n := 0;
      for i := 0 to |slots|
        invariant n == |Materialized(slots[..i])|
      {
        assert slots[..i + 1][..i] == slots[..i];
        if slots[i].isMaterialized {
          n := n + 1;
        }
      }
      assert slots[..|slots|] == slots;
    }

    /**
     * _check_type: an error naming both types and the column when the table
     * rejects typeStr; otherwise OK, and a JSONB, HLL or OBJECT column is
     * registered for its cast.  A rejected column registers nothing.
     */
    method CheckType(slot: SlotDescriptor, typeStr: string, columnIndex: nat) returns (s: Status)
      modifies this
      ensures (Casts(), s) == CheckOne(old(Casts()), Check(columnIndex, slot, typeStr))
      ensures isOpen == old(isOpen)
    {
      if !Accepts(slot.slotType, typeStr) {
        return InternalError(ErrorMessage(typeStr, slot));
      }
      match CastKindOf(slot.slotType) {
        case None =>
        case Some(JsonCast) =>
          jsonCasts := Register(jsonCasts, columnIndex, slot.isNullable);
        case Some(HllCast) =>
          hllCasts := Register(hllCasts, columnIndex, slot.isNullable);
        case Some(BitmapCast) =>
          bitmapCasts := Register(bitmapCasts, columnIndex, slot.isNullable);
      }
      return OK;
    }

    /**
     * _check_column_type: each materialized slot is checked against the next
     * reported column type; the first rejection ends the check.  The
     * executor reports one type per result column, which query has compared
     * with the number of materialized slots.
     */
    method CheckColumnType(types: seq<string>) returns (s: Status)
      requires |Materialized(slots)| <= |types|
      modifies this
      ensures (Casts(), s) == Run(old(Casts()), Checks(slots, types))
      ensures isOpen == old(isOpen)
    {
      var materializedColumnIndex := 0;
      for columnIndex := 0 to |slots|
        invariant materializedColumnIndex == |Materialized(slots[..columnIndex])| <= |types|
        invariant (Casts(), OK) == Run(old(Casts()), Checks(slots[..columnIndex], types))
        invariant isOpen == old(isOpen)
      {
        s := CheckSlot(types, columnIndex, materializedColumnIndex, old(Casts()));
        if s != OK {
          RunFailureIsFinal(old(Casts()), slots, types, columnIndex + 1);
          return;
        }
        if slots[columnIndex].isMaterialized {
          materializedColumnIndex := materializedColumnIndex + 1;
        }
      }
      assert slots[..|slots|] == slots;
      return OK;
    }

    /**
     * One iteration of _check_column_type's loop: a slot that is not
     * materialized is skipped; a materialized one is checked against the
     * next reported type, extending the run of the checks by one.
     */
    method CheckSlot(types: seq<string>, n: nat, m: nat, ghost c0: CastRegistries) returns (s: Status)
      requires n < |slots| && |Materialized(slots)| <= |types|
      requires m == |Materialized(slots[..n])| <= |types|
      requires (Casts(), OK) == Run(c0, Checks(slots[..n], types))
      modifies this
      ensures |Materialized(slots[..n + 1])| == m + (if slots[n].isMaterialized then 1 else 0) <= |types|
      ensures (Casts(), s) == Run(c0, Checks(slots[..n + 1], types))
      ensures isOpen == old(isOpen)
    {
      RunSlotStep(c0, Casts(), slots, types, n);
      var slot := slots[n];
      if !slot.isMaterialized {
        return OK;
      }
      s := CheckType(slot, types[m], n);
    }

    /**
     * query: an error before open, an error when the executor returns a
     * different number of columns than there are materialized slots, and
     * otherwise the column-type check, which NEBULA tables skip.
     * columnCount and types are the executor's answers.
     */
    method Query(columnCount: int, types: seq<string>) returns (s: Status)
      requires columnCount == |Materialized(slots)| ==> |types| == columnCount
      modifies this
      ensures !old(isOpen) ==> s == InternalError("Query before open of JdbcConnector.") && Casts() == old(Casts())
      ensures old(isOpen) && columnCount != |Materialized(slots)| ==>
                s == InternalError("input and output column num not equal of jdbc query.") && Casts() == old(Casts())
      ensures old(isOpen) && columnCount == |Materialized(slots)| && tableType == NEBULA ==>
                s == OK && Casts() == old(Casts())
      ensures old(isOpen) && columnCount == |Materialized(slots)| && tableType != NEBULA ==>
                (Casts(), s) == Run(old(Casts()), Checks(slots, types))
      ensures isOpen == old(isOpen)
    {
      if !isOpen {
        return InternalError("Query before open of JdbcConnector.");
      }
      var materializeNum := CountMaterialized();
      if columnCount != materializeNum {
        return InternalError("input and output column num not equal of jdbc query.");
      }
      if tableType != NEBULA {
        s := CheckColumnType(types);
        if s != OK {
          return;
        }
      }
      return OK;
    }

    /**
     * _get_reader_params: nullability and cast kind of each materialized
     * slot, each followed by ","; the names and the JNI types of all slots,
     * joined by "," and "#".
     */
    method GetReaderParams() returns (p: ReaderParams)
      ensures p == ReaderParams(Terminated(NullableFlags(slots), ','), Terminated(ReplaceTypes(slots), ','),
                                Join(ColNames(slots), ','), Join(JniTypes(slots), '#'))
    {
      var columnsNullable, columnsReplaceString, requiredFields, columnsTypes := "", "", "", "";
      for i := 0 to |slots|
        invariant columnsNullable == Terminated(NullableFlags(slots[..i]), ',')
        invariant columnsReplaceString == Terminated(ReplaceTypes(slots[..i]), ',')
        invariant requiredFields == Join(ColNames(slots[..i]), ',')
        invariant columnsTypes == Join(JniTypes(slots[..i]), '#')
      {
        ReaderStep(slots, i);
        var slot := slots[i];
        if slot.isMaterialized {
          columnsNullable := columnsNullable + NullableFlag(slot) + ",";
          columnsReplaceString := columnsReplaceString + ReplaceType(slot) + ",";
        }
        requiredFields := requiredFields + (if i != 0 then "," else "") + slot.colName;
        columnsTypes := columnsTypes + (if i != 0 then "#" else "") + JniType(slot);
      }
      assert slots[..|slots|] == slots;
      return ReaderParams(columnsNullable, columnsReplaceString, requiredFields, columnsTypes);
    }
  }
}
