/**
 * The token parser of the LeadingHint constructor: it turns the hint's
 * parameters (table names, "{", "}", "shuffle", "broadcast") into the table
 * list, a parallel list of nesting levels and the distribution directives
 * keyed by the number of tables read before them.
 */
module HintParser {
  import opened JoinTypes
  import opened Wrappers

  /** The constructor's loop variables and the lists it fills. */
  datatype ParseState = ParseState(
    level: int,
    brace: seq<bool>,                      // the brace stack, top at the end
    last: string,                          // lastParameter
    tables: seq<string>,                   // tablelist
    levels: seq<int>,                      // levellist
    directives: map<nat, DistributeHint>)  // distributeHints

  const Initial := ParseState(0, [], "", [], [], map[])

  predicate IsKeyword(token: string) {
    token == "{" || token == "}" || token == "shuffle" || token == "broadcast"
  }

  function DirectiveType(token: string): DistributeType {
    if token == "shuffle" then SHUFFLE_RIGHT else BROADCAST_RIGHT
  }

  /** One iteration of the constructor's loop; None when "}" meets an empty brace stack. */
  function Step(st: ParseState, token: string): Option<ParseState> {
    if token == "{" then
      if st.last == "}" then Some(st.(level := st.level + 2, brace := st.brace + [true], last := token))
      else Some(st.(level := st.level + 1, brace := st.brace + [false], last := token))
    else if token == "}" then
      if st.brace == [] then None
      else
        var top := st.brace[|st.brace| - 1];
        Some(st.(level := if top then st.level - 2 else st.level - 1,
                 brace := st.brace[..|st.brace| - 1], last := token))
    else if token == "shuffle" || token == "broadcast" then
      Some(st.(directives := st.directives[|st.tables| := DistributeHint(DirectiveType(token), false, SUCCESS)],
               last := token))
    else
      Some(st.(tables := st.tables + [token], levels := st.levels + [st.level], last := token))
  }

  /** The state after the constructor's loop has consumed all of `tokens`. */
  function Parse(tokens: seq<string>): (r: Option<ParseState>)
    ensures r.Some? ==> |r.value.tables| == |r.value.levels|
  {
    if tokens == [] then Some(Initial)
    else
      match Parse(tokens[..|tokens| - 1])
      case None => None
      case Some(st) => Step(st, tokens[|tokens| - 1])
  }

  /** What the constructor keeps: the table list, the level list and the directives. */
  datatype ParsedHint = ParsedHint(tables: seq<string>, levels: seq<int>, directives: map<nat, DistributeHint>)

  function Result(st: ParseState): ParsedHint {
    ParsedHint(st.tables, st.levels, st.directives)
  }

  /**
   * The loop of the LeadingHint constructor.  None stands for the
   * EmptyStackException that "}" raises when no brace is open.
   */
  method ParseParameters(parameters: seq<string>) returns (r: Option<ParsedHint>)
    ensures r.None? <==> Parse(parameters).None?
    ensures r.Some? ==> r.value == Result(Parse(parameters).value)
  {
    var level := 0;
    var brace: seq<bool> := [];
    var lastParameter := "";
    var tables: seq<string> := [];
    var levels: seq<int> := [];
    var directives: map<nat, DistributeHint> := map[];
    for i := 0 to |parameters|
      invariant Parse(parameters[..i]) == Some(ParseState(level, brace, lastParameter, tables, levels, directives))
    {
      assert parameters[..i + 1][..i] == parameters[..i];
      var parameter := parameters[i];
      if parameter == "{" {
        if lastParameter == "}" {
          level := level + 2;
          brace := brace + [true];
        } else {
          level := level + 1;
          brace := brace + [false];
        }
      } else if parameter == "}" {
        if brace == [] {
          ParseFailureIsFinal(parameters, i + 1);
          return None;
        }
        if brace[|brace| - 1] {
          level := level - 2;
        } else {
          level := level - 1;
        }
        brace := brace[..|brace| - 1];
      } else if parameter == "shuffle" {
        directives := directives[|tables| := DistributeHint(SHUFFLE_RIGHT, false, SUCCESS)];
      } else if parameter == "broadcast" {
        directives := directives[|tables| := DistributeHint(BROADCAST_RIGHT, false, SUCCESS)];
      } else {
        tables := tables + [parameter];
        levels := levels + [level];
      }
      lastParameter := parameter;
    }
    assert parameters[..|parameters|] == parameters;
    return Some(ParsedHint(tables, levels, directives));
  }

  /** Once a prefix fails, the whole token list fails. */
  lemma {:induction false} ParseFailureIsFinal(tokens: seq<string>, p: nat)
    requires p <= |tokens| && Parse(tokens[..p]).None?
    ensures Parse(tokens).None?
    decreases |tokens| - p
  {
    if p < |tokens| {
      assert tokens[..p + 1][..p] == tokens[..p];
      ParseFailureIsFinal(tokens, p + 1);
    } else {
      assert tokens[..p] == tokens;
    }
  }

  /** The level a brace stack stands for: 2 per `true` entry, 1 per `false` entry. */
  function Weight(brace: seq<bool>): (w: nat)
    ensures w >= |brace|
  {
    if brace == [] then 0 else Weight(brace[..|brace| - 1]) + (if brace[|brace| - 1] then 2 else 1)
  }

  /** The non-keyword tokens, in order. */
  function Names(tokens: seq<string>): seq<string> {
    if tokens == [] then []
    else Names(tokens[..|tokens| - 1]) + (if IsKeyword(tokens[|tokens| - 1]) then [] else [tokens[|tokens| - 1]])
  }

  function Count(tokens: seq<string>, t: string): nat {
    if tokens == [] then 0 else Count(tokens[..|tokens| - 1], t) + (if tokens[|tokens| - 1] == t then 1 else 0)
  }

  /**
   * The constructor's invariants: the table and level lists have equal length,
   * the tables are the non-keyword tokens in order, `level` is the weight of
   * the brace stack (so never negative), the stack holds one entry per
   * unmatched "{", and every directive key is at most the number of tables.
   */
  lemma ParseInvariant(tokens: seq<string>)
    requires Parse(tokens).Some?
    ensures |Parse(tokens).value.tables| == |Parse(tokens).value.levels|
    ensures Parse(tokens).value.tables == Names(tokens)
    ensures Parse(tokens).value.level == Weight(Parse(tokens).value.brace) >= 0
    ensures |Parse(tokens).value.brace| == Count(tokens, "{") - Count(tokens, "}")
    ensures forall k :: 0 <= k < |Parse(tokens).value.levels| ==> Parse(tokens).value.levels[k] >= 0
    ensures forall k :: k in Parse(tokens).value.directives ==> k <= |Parse(tokens).value.tables|
  {
    ParseTables(tokens);
    ParseLevels(tokens);
  }

  /** The table list: the non-keyword tokens, with directive keys at most its length. */
  lemma {:induction false} ParseTables(tokens: seq<string>)
    requires Parse(tokens).Some?
    ensures |Parse(tokens).value.tables| == |Parse(tokens).value.levels|
    ensures Parse(tokens).value.tables == Names(tokens)
    ensures forall k :: k in Parse(tokens).value.directives ==> k <= |Parse(tokens).value.tables|
  {
    if tokens != [] {
      var prefix, token := tokens[..|tokens| - 1], tokens[|tokens| - 1];
      ParseTables(prefix);
      var st := Parse(prefix).value;
      var st' := Parse(tokens).value;
      assert Step(st, token) == Some(st');
      if IsKeyword(token) {
        assert Names(tokens) == Names(prefix);
        assert st'.tables == st.tables;
      } else {
        assert Names(tokens) == Names(prefix) + [token];
        assert st'.tables == st.tables + [token] && st'.directives == st.directives;
      }
    }
  }

  /** The level bookkeeping: level is the weight of the brace stack, one entry per unmatched "{". */
  lemma {:induction false} ParseLevels(tokens: seq<string>)
    requires Parse(tokens).Some?
    ensures Parse(tokens).value.level == Weight(Parse(tokens).value.brace) >= 0
    ensures |Parse(tokens).value.brace| == Count(tokens, "{") - Count(tokens, "}")
    ensures forall k :: 0 <= k < |Parse(tokens).value.levels| ==> Parse(tokens).value.levels[k] >= 0
  {
    if tokens != [] {
      var prefix, token := tokens[..|tokens| - 1], tokens[|tokens| - 1];
      ParseLevels(prefix);
      var st := Parse(prefix).value;
      var st' := Parse(tokens).value;
      assert Step(st, token) == Some(st');
      assert Count(tokens, "{") == Count(prefix, "{") + (if token == "{" then 1 else 0);
      assert Count(tokens, "}") == Count(prefix, "}") + (if token == "}" then 1 else 0);
      if token == "{" {
        assert st'.brace[..|st'.brace| - 1] == st.brace;
        assert st'.levels == st.levels;
      } else if token == "}" {
        assert st.brace == st'.brace + [st.brace[|st.brace| - 1]];
        assert st'.levels == st.levels;
      } else if IsKeyword(token) {
        assert st'.brace == st.brace && st'.level == st.level && st'.levels == st.levels;
      } else {
        assert st'.brace == st.brace && st'.level == st.level && st'.levels == st.levels + [st.level];
      }
    }
  }

  /** The parse fails exactly when some prefix closes more braces than it opens. */
  lemma {:induction false} ParseFailsIffUnderflow(tokens: seq<string>)
    ensures Parse(tokens).None? <==>
            exists p :: 0 < p <= |tokens| && Count(tokens[..p], "}") > Count(tokens[..p], "{")
  {
    if tokens != [] {
      var n := |tokens|;
      var prefix := tokens[..n - 1];
      ParseFailsIffUnderflow(prefix);
      assert tokens[..n] == tokens;
      forall p | 0 < p <= n - 1 ensures tokens[..p] == prefix[..p] { }
      if Parse(prefix).Some? {
        ParseInvariant(prefix);
        assert tokens[..n][..n - 1] == prefix;
        if Parse(tokens).None? {
          assert Count(tokens[..n], "}") > Count(tokens[..n], "{");
        } else {
          ParseInvariant(tokens);
          forall p | 0 < p <= n ensures Count(tokens[..p], "}") <= Count(tokens[..p], "{") {
            if p < n {
              assert tokens[..p] == prefix[..p];
            }
          }
        }
      } else {
        var p :| 0 < p <= n - 1 && Count(prefix[..p], "}") > Count(prefix[..p], "{");
        assert Count(tokens[..p], "}") > Count(tokens[..p], "{");
      }
    }
  }

  /** When every brace is closed again the level is back to 0. */
  lemma BalancedLevelIsZero(tokens: seq<string>)
    requires Parse(tokens).Some?
    requires Count(tokens, "{") == Count(tokens, "}")
    ensures Parse(tokens).value.level == 0
    ensures Parse(tokens).value.brace == []
  {
    ParseInvariant(tokens);
  }

  /**
   * The directive stored under key k: that of the last "shuffle" or
   * "broadcast" token read while exactly k tables had been read.
   */
  function DirectiveAt(tokens: seq<string>, k: nat): Option<DistributeType> {
    if tokens == [] then None
    else
      var prefix, t := tokens[..|tokens| - 1], tokens[|tokens| - 1];
      if (t == "shuffle" || t == "broadcast") && |Names(prefix)| == k then Some(DirectiveType(t))
      else DirectiveAt(prefix, k)
  }

  /** The directive map holds exactly the last directive read at each table count, later ones overwriting earlier ones. */
  lemma {:induction false} DirectivesAreLastAtEachCount(tokens: seq<string>)
    requires Parse(tokens).Some?
    ensures var ds := Parse(tokens).value.directives;
            forall k: nat :: (k in ds <==> DirectiveAt(tokens, k).Some?) &&
                             (k in ds ==> ds[k] == DistributeHint(DirectiveAt(tokens, k).value, false, SUCCESS))
  {
    if tokens != [] {
      var prefix := tokens[..|tokens| - 1];
      DirectivesAreLastAtEachCount(prefix);
      ParseInvariant(prefix);
    }
  }

  /** The first two tokens of "t1 [ shuffle t2" are both read as tables at level 0. */
  lemma BracketPrefix()
    ensures Parse(["t1", "["]) == Some(Initial.(tables := ["t1", "["], levels := [0, 0], last := "["))
  {
    assert "t1" != "{" && "t1" != "}" && "t1" != "shuffle" && "t1" != "broadcast";
    assert "[" != "{" && "[" != "}" && "[" != "shuffle" && "[" != "broadcast";
    var s1 := Initial.(tables := ["t1"], levels := [0], last := "t1");
    var r1 := Step(Initial, "t1");
    assert r1.value.tables == [] + ["t1"] == ["t1"] && r1.value.levels == [] + [0] == [0];
    assert r1 == Some(s1);
    assert ["t1"][..0] == [];
    assert Parse(["t1"]) == Some(s1);
    var r2 := Step(s1, "[");
    assert r2.value.tables == ["t1"] + ["["] == ["t1", "["] && r2.value.levels == [0] + [0] == [0, 0];
    assert ["t1", "["][..1] == ["t1"];
  }

  /**
   * The loop takes "[" for a table name: "t1 [ shuffle t2" gives the tables
   * t1, "[" and t2, and the directive is keyed by 2, the number of tables
   * read before it.
   */
  lemma BracketIsTable()
    ensures var tokens := ["t1", "[", "shuffle", "t2"];
            && Parse(tokens).Some?
            && Parse(tokens).value.tables == ["t1", "[", "t2"]
            && Parse(tokens).value.directives == map[2 := DistributeHint(SHUFFLE_RIGHT, false, SUCCESS)]
  {
    var tokens := ["t1", "[", "shuffle", "t2"];
    BracketPrefix();
    assert "t2" != "{" && "t2" != "}" && "t2" != "shuffle" && "t2" != "broadcast";
    var s2 := Initial.(tables := ["t1", "["], levels := [0, 0], last := "[");
    var s3 := s2.(directives := map[2 := DistributeHint(SHUFFLE_RIGHT, false, SUCCESS)], last := "shuffle");
    assert ["t1", "[", "shuffle"][..2] == ["t1", "["];
    assert Parse(["t1", "[", "shuffle"]) == Some(s3);
    assert tokens[..3] == ["t1", "[", "shuffle"];
    var s4 := Step(s3, "t2").value;
    assert s4.tables == ["t1", "["] + ["t2"] == ["t1", "[", "t2"];
    assert Parse(tokens) == Some(s4);
  }
}
