/**
 * `QueryBuilder`: SQL text for one table, built from a data frame's columns
 * and a list of WHERE columns.  Every identifier is wrapped in double quotes
 * as it is (nothing is escaped) and every value is a `?` placeholder.
 */
module QueryBuilder {
  import opened Wrappers
  import opened Text

  /** The pandas dtype families the builder distinguishes. */
  datatype DType = IntegerDtype | FloatDtype | BoolDtype | OtherDtype(name: string)

  datatype Column = Column(name: string, dtype: DType)

  /** A data frame as the builder sees it: its columns in order, and its rows with every value as text. */
  datatype Frame = Frame(columns: seq<Column>, rows: seq<seq<string>>)

  /** The Python exceptions `query` can raise. */
  datatype QueryError =
    | KeyError(key: string)  // an unknown query type
    | TypeError              // a template called with the wrong arguments, or iterating a missing column list
    | AttributeError         // JOIN_SELECT without a data frame

  /** `_sqlite_type` */
  function SqliteType(d: DType): (t: string)
    ensures t in ["INTEGER", "REAL", "BOOLEAN", "TEXT"]
    ensures (t == "INTEGER" <==> d.IntegerDtype?) && (t == "REAL" <==> d.FloatDtype?)
    ensures (t == "BOOLEAN" <==> d.BoolDtype?) && (t == "TEXT" <==> d.OtherDtype?)
  {
    match d
    case IntegerDtype => "INTEGER"
    case FloatDtype => "REAL"
    case BoolDtype => "BOOLEAN"
    case OtherDtype(_) => "TEXT"
  }

  function Quote(name: string): string
  {
    "\"" + name + "\""
  }

  function Names(df: Frame): (names: seq<string>)
    ensures |names| == |df.columns| && forall k :: 0 <= k < |names| ==> names[k] == df.columns[k].name
  {
    seq(|df.columns|, k requires 0 <= k < |df.columns| => df.columns[k].name)
  }

  function Quoted(names: seq<string>): (qs: seq<string>)
    ensures |qs| == |names| && forall k :: 0 <= k < |qs| ==> qs[k] == Quote(names[k])
  {
    seq(|names|, k requires 0 <= k < |names| => Quote(names[k]))
  }

  /** `"col" TYPE` for every column, in column order. */
  function ColumnDefs(df: Frame): seq<string>
  {
    seq(|df.columns|, k requires 0 <= k < |df.columns| => Quote(df.columns[k].name) + " " + SqliteType(df.columns[k].dtype))
  }

  /** `"col" = ?` for every column, each prefixed with `qualifier`. */
  function Conditions(qualifier: string, cols: seq<string>): seq<string>
  {
    seq(|cols|, k requires 0 <= k < |cols| => qualifier + Quote(cols[k]) + " = ?")
  }

  function Placeholders(n: nat): seq<string>
  {
    seq(n, _ => "?")
  }

  /**
   * `_create`: a complete statement that takes no parameters when neither the
   * table name nor a column name holds a placeholder.
   */
  function Create(table: string, df: Frame): (r: string)
    ensures EndsStatement(r)
    ensures '?' !in table && PlainAll(Names(df)) ==> Count(r, '?') == 0
  {
    var defs := Join(", ", ColumnDefs(df));
    var q := "CREATE TABLE IF NOT EXISTS " + Quote(table) + " (" + defs + ");";
    assert '?' !in table && PlainAll(Names(df)) ==> Count(q, '?') == 0 by {
      if '?' !in table && PlainAll(Names(df)) {
        CountColumnDefs(df);
        CountJoin(", ", ColumnDefs(df), '?');
        CountQuote(table);
        CountGaps("CREATE TABLE IF NOT EXISTS ", Quote(table), " (", defs, ");", "", "");
        assert q == "CREATE TABLE IF NOT EXISTS " + Quote(table) + " (" + defs + ");" + "" + "";
      }
    }
    q
  }

  /** `_drop`: a complete statement without parameters. */
  function Drop(table: string): (r: string)
    ensures EndsStatement(r)
    ensures '?' !in table ==> Count(r, '?') == 0
  {
    var q := "DROP TABLE IF EXISTS " + Quote(table) + ";";
    assert '?' !in table ==> Count(q, '?') == 0 by {
      if '?' !in table {
        CountTemplate("DROP TABLE IF EXISTS ", table, "", "");
        assert q == "DROP TABLE IF EXISTS " + Quote(table) + "" + "" + ";";
      }
    }
    q
  }

  /** `_insert`: exactly one placeholder per column, for the row values `insert_df` binds. */
  function Insert(table: string, df: Frame): (r: string)
    ensures EndsStatement(r)
    ensures '?' !in table && PlainAll(Names(df)) ==> Count(r, '?') == |df.columns|
  {
    var cols := Join(", ", Quoted(Names(df)));
    var marks := Join(", ", Placeholders(|df.columns|));
    var q := "INSERT INTO " + Quote(table) + " (" + cols + ") VALUES (" + marks + ");";
    assert '?' !in table && PlainAll(Names(df)) ==> Count(q, '?') == |df.columns| by {
      if '?' !in table && PlainAll(Names(df)) {
        ColumnListPlain(Names(df));
        PlaceholderList(|df.columns|);
        InsertCount(table, cols, marks);
      }
    }
    q
  }

  /** `_select_all`: a complete statement without parameters. */
  function SelectAll(table: string): (r: string)
    ensures EndsStatement(r)
    ensures '?' !in table ==> Count(r, '?') == 0
  {
    var q := "SELECT * FROM " + Quote(table) + ";";
    assert '?' !in table ==> Count(q, '?') == 0 by {
      if '?' !in table {
        CountTemplate("SELECT * FROM ", table, "", "");
        assert q == "SELECT * FROM " + Quote(table) + "" + "" + ";";
      }
    }
    q
  }

  /** `_select_where`: exactly one placeholder per WHERE column. */
  function SelectWhere(table: string, where: seq<string>): (r: string)
    ensures EndsStatement(r)
    ensures '?' !in table && PlainAll(where) ==> Count(r, '?') == |where|
  {
    var clause := Join(" AND ", Conditions("", where));
    var q := "SELECT * FROM " + Quote(table) + " WHERE " + clause + ";";
    assert '?' !in table && PlainAll(where) ==> Count(q, '?') == |where| by {
      if '?' !in table && PlainAll(where) {
        ConditionList("", where);
        CountTemplate("SELECT * FROM ", table, " WHERE ", clause);
      }
    }
    q
  }

  /** The columns `_update` sets: those not among the WHERE columns, in column order. */
  function SetColumns(names: seq<string>, where: seq<string>): seq<string>
  {
    if names == [] then []
    else (if names[0] in where then [] else [names[0]]) + SetColumns(names[1..], where)
  }

  /** The columns that are also WHERE columns, in column order. */
  function KeyColumns(names: seq<string>, where: seq<string>): seq<string>
  {
    if names == [] then []
    else (if names[0] in where then [names[0]] else []) + KeyColumns(names[1..], where)
  }

  /** `_update`: one placeholder per column it sets, then one per WHERE column. */
  function Update(table: string, df: Frame, where: seq<string>): (r: string)
    ensures EndsStatement(r)
    ensures '?' !in table && PlainAll(Names(df)) && PlainAll(where) ==>
              Count(r, '?') == |SetColumns(Names(df), where)| + |where|
  {
    var sets := SetColumns(Names(df), where);
    var setClause := Join(", ", Conditions("", sets));
    var whereClause := Join(" AND ", Conditions("", where));
    var q := "UPDATE " + Quote(table) + " SET " + setClause + " WHERE " + whereClause + ";";
    assert '?' !in table && PlainAll(Names(df)) && PlainAll(where) ==> Count(q, '?') == |sets| + |where| by {
      if '?' !in table && PlainAll(Names(df)) && PlainAll(where) {
        SetColumnsPlain(Names(df), where);
        ConditionList("", where);
        assert Count(setClause, '?') == |sets| by {
          CountConditions("", sets);
          CountJoin(", ", Conditions("", sets), '?');
        }
        CountQuote(table);
        CountGaps("UPDATE ", Quote(table), " SET ", setClause, " WHERE ", whereClause, ";");
      }
    }
    q
  }

  /** `_delete`: exactly one placeholder per WHERE column. */
  function Delete(table: string, where: seq<string>): (r: string)
    ensures EndsStatement(r)
    ensures '?' !in table && PlainAll(where) ==> Count(r, '?') == |where|
  {
    var clause := Join(" AND ", Conditions("", where));
    var q := "DELETE FROM " + Quote(table) + " WHERE " + clause + ";";
    assert '?' !in table && PlainAll(where) ==> Count(q, '?') == |where| by {
      if '?' !in table && PlainAll(where) {
        ConditionList("", where);
        CountTemplate("DELETE FROM ", table, " WHERE ", clause);
      }
    }
    q
  }

  /** How an f-string renders an optional text: `None` when it is missing. */
  function Show(s: Option<string>): string
  {
    if s.Some? then s.value else "None"
  }

  /**
   * `_join_select`: fails without a data frame (it has no columns to read);
   * otherwise one placeholder per WHERE column, the WHERE clause being added
   * only when the WHERE columns are given and non-empty.
   */
  function JoinSelect(table: string, df: Option<Frame>, joinTable: Option<string>, joinCondition: Option<string>,
                      where: Option<seq<string>>): (r: Result<string, QueryError>)
    ensures r.Failure? <==> df.None?
    ensures r.Failure? ==> r.error == AttributeError
    ensures r.Success? ==> EndsStatement(r.value)
    ensures r.Success? && '?' !in table && '?' !in Show(joinTable) && '?' !in Show(joinCondition)
            && PlainAll(Names(df.value)) && (where.Some? ==> PlainAll(where.value)) ==>
              Count(r.value, '?') == if where.Some? then |where.value| else 0
  {
    if df.None? then Failure(AttributeError)
    else
      var qualifier := table + ".";
      var cols := Join(", ", QualifiedColumns(qualifier, df.value));
      var query := "SELECT " + cols + " FROM " + Quote(table) + " JOIN " + Quote(Show(joinTable)) + " ON " + Show(joinCondition);
      var plain := '?' !in table && '?' !in Show(joinTable) && '?' !in Show(joinCondition)
                   && PlainAll(Names(df.value)) && (where.Some? ==> PlainAll(where.value));
      assert plain ==> Count(query, '?') == 0 by {
        if plain {
          QualifiedListPlain(qualifier, df.value);
          CountQuote(table);
          CountQuote(Show(joinTable));
          CountHead("SELECT ", cols, " FROM ", Quote(table), " JOIN ", Quote(Show(joinTable)), " ON ", Show(joinCondition));
        }
      }
      if where.Some? && where.value != [] then
        var clause := Join(" AND ", Conditions(qualifier, where.value));
        var q := query + " WHERE " + clause + ";";
        assert plain ==> Count(q, '?') == |where.value| by {
          if plain {
            ConditionList(qualifier, where.value);
            CountTail(query, " WHERE ", clause, ";");
          }
        }
        Success(q)
      else
        var q := query + ";";
        assert plain ==> Count(q, '?') == 0 by {
          if plain {
            CountTail(query, " WHERE ", "", ";");
          }
        }
        Success(q)
  }

  /** The query types of the constructor's table. */
  const Kinds: set<string> := {"CREATE", "DROP", "INSERT", "SELECT_ALL", "SELECT_WHERE", "UPDATE", "DELETE", "JOIN_SELECT"}

  predicate EndsStatement(q: string)
  {
    |q| > 0 && q[|q| - 1] == ';'
  }

  /**
   * `query`: JOIN_SELECT always goes to its template; any other type is
   * looked up first, then called with the data frame and the WHERE columns
   * when a data frame is given and with nothing otherwise.
   */
  function Query(table: string, queryType: string, df: Option<Frame>, where: Option<seq<string>>,
                 joinTable: Option<string>, joinCondition: Option<string>): (r: Result<string, QueryError>)
    ensures r.Success? ==> EndsStatement(r.value)
    ensures r == Failure(KeyError(queryType)) <==> queryType !in Kinds
    ensures queryType == "JOIN_SELECT" ==> (r.Failure? <==> df.None?)
    ensures queryType in Kinds && queryType != "JOIN_SELECT" ==>
              (r == Failure(TypeError) <==>
                 (df.Some? && (queryType in {"DROP", "SELECT_ALL"}
                               || (queryType in {"SELECT_WHERE", "UPDATE", "DELETE"} && where.None?)))
                 || (df.None? && queryType !in {"DROP", "SELECT_ALL"}))
    ensures queryType == "JOIN_SELECT" ==> r == JoinSelect(table, df, joinTable, joinCondition, where)
    ensures df.Some? && queryType == "CREATE" ==> r == Success(Create(table, df.value))
    ensures df.Some? && queryType == "INSERT" ==> r == Success(Insert(table, df.value))
    ensures df.Some? && where.Some? && queryType == "SELECT_WHERE" ==> r == Success(SelectWhere(table, where.value))
    ensures df.Some? && where.Some? && queryType == "UPDATE" ==> r == Success(Update(table, df.value, where.value))
    ensures df.Some? && where.Some? && queryType == "DELETE" ==> r == Success(Delete(table, where.value))
    ensures df.None? && queryType == "DROP" ==> r == Success(Drop(table))
    ensures df.None? && queryType == "SELECT_ALL" ==> r == Success(SelectAll(table))
  {
    if queryType == "JOIN_SELECT" then JoinSelect(table, df, joinTable, joinCondition, where)
    else if queryType !in Kinds then Failure(KeyError(queryType))
    else if df.Some? then
      if queryType == "CREATE" then Success(Create(table, df.value))
      else if queryType == "INSERT" then Success(Insert(table, df.value))
      else if queryType == "DROP" || queryType == "SELECT_ALL" then Failure(TypeError)
      else if where.None? then Failure(TypeError)
      else if queryType == "SELECT_WHERE" then Success(SelectWhere(table, where.value))
      else if queryType == "UPDATE" then Success(Update(table, df.value, where.value))
      else Success(Delete(table, where.value))
    else if queryType == "DROP" then Success(Drop(table))
    else if queryType == "SELECT_ALL" then Success(SelectAll(table))
    else Failure(TypeError)
  }

  // ---------------------------------------------------------------------
  // Placeholder counts

  /** No placeholder character in any of the texts. */
  predicate PlainAll(names: seq<string>)
  {
    forall k :: 0 <= k < |names| ==> '?' !in names[k]
  }

  lemma CountQuote(name: string)
    requires '?' !in name
    ensures Count(Quote(name), '?') == 0
  {
    CountAbsent(Quote(name), '?');
  }

  lemma {:induction false} CountConditions(qualifier: string, cols: seq<string>)
    requires '?' !in qualifier && PlainAll(cols)
    ensures CountAll(Conditions(qualifier, cols), '?') == |cols|
    decreases |cols|
  {
    if cols != [] {
      var c := Conditions(qualifier, cols);
      assert c[1..] == Conditions(qualifier, cols[1..]);
      CountConditions(qualifier, cols[1..]);
      CountQuote(cols[0]);
      CountAbsent(qualifier + Quote(cols[0]) + " = ", '?');
      assert Count("?", '?') == 1;
      CountAppend(qualifier + Quote(cols[0]) + " = ", "?", '?');
      assert c[0] == qualifier + Quote(cols[0]) + " = " + "?";
    }
  }

  lemma {:induction false} CountPlaceholders(n: nat)
    ensures CountAll(Placeholders(n), '?') == n
    decreases n
  {
    if n > 0 {
      assert Placeholders(n)[1..] == Placeholders(n - 1);
      assert Placeholders(n)[0] == "?";
      CountPlaceholders(n - 1);
    }
  }

  lemma {:induction false} CountQuoted(names: seq<string>)
    requires PlainAll(names)
    ensures CountAll(Quoted(names), '?') == 0
    decreases |names|
  {
    if names != [] {
      assert Quoted(names)[1..] == Quoted(names[1..]);
      CountQuote(names[0]);
      CountQuoted(names[1..]);
    }
  }

  /** Texts none of which holds a placeholder hold none together. */
  lemma {:induction false} CountAllAbsent(parts: seq<string>)
    requires forall k :: 0 <= k < |parts| ==> '?' !in parts[k]
    ensures CountAll(parts, '?') == 0
    decreases |parts|
  {
    if parts != [] {
      CountNone(parts[0]);
      CountAllAbsent(parts[1..]);
    }
  }

  /** Column definitions hold no placeholder when the column names hold none. */
  lemma CountColumnDefs(df: Frame)
    requires PlainAll(Names(df))
    ensures CountAll(ColumnDefs(df), '?') == 0
  {
    var defs := ColumnDefs(df);
    forall k | 0 <= k < |defs| ensures '?' !in defs[k] {
      assert Names(df)[k] == df.columns[k].name;
      assert SqliteType(df.columns[k].dtype) in ["INTEGER", "REAL", "BOOLEAN", "TEXT"];
    }
    CountAllAbsent(defs);
  }

  lemma CountConcat(a: string, b: string)
    ensures Count(a + b, '?') == Count(a, '?') + Count(b, '?')
  {
    CountAppend(a, b, '?');
  }

  lemma CountNone(s: string)
    requires '?' !in s
    ensures Count(s, '?') == 0
  {
    CountAbsent(s, '?');
  }

  /** Placeholders in a text made of seven pieces are those of the pieces. */
  lemma CountSeven(a: string, b: string, c: string, d: string, e: string, f: string, g: string)
    ensures Count(a + b + c + d + e + f + g, '?')
            == Count(a, '?') + Count(b, '?') + Count(c, '?') + Count(d, '?') + Count(e, '?') + Count(f, '?') + Count(g, '?')
  {
    CountConcat(a, b);
    CountConcat(a + b, c);
    CountConcat(a + b + c, d);
    CountConcat(a + b + c + d, e);
    CountConcat(a + b + c + d + e, f);
    CountConcat(a + b + c + d + e + f, g);
  }

  /** Placeholders in `pre + Quote(table) + mid + body + ";"` when `pre`, `mid` and the table name hold none. */
  lemma CountTemplate(pre: string, table: string, mid: string, body: string)
    requires '?' !in pre && '?' !in table && '?' !in mid
    ensures Count(pre + Quote(table) + mid + body + ";", '?') == Count(body, '?')
  {
    CountQuote(table);
    CountNone(pre);
    CountNone(mid);
    CountNone(";");
    CountConcat(pre, Quote(table));
    CountConcat(pre + Quote(table), mid);
    CountConcat(pre + Quote(table) + mid, body);
    CountConcat(pre + Quote(table) + mid + body, ";");
  }

  lemma ColumnListPlain(names: seq<string>)
    requires PlainAll(names)
    ensures Count(Join(", ", Quoted(names)), '?') == 0
  {
    CountQuoted(names);
    CountJoin(", ", Quoted(names), '?');
  }

  lemma PlaceholderList(n: nat)
    ensures Count(Join(", ", Placeholders(n)), '?') == n
  {
    CountPlaceholders(n);
    CountJoin(", ", Placeholders(n), '?');
  }

  lemma InsertCount(table: string, cols: string, marks: string)
    requires '?' !in table
    ensures Count("INSERT INTO " + Quote(table) + " (" + cols + ") VALUES (" + marks + ");", '?') == Count(cols, '?') + Count(marks, '?')
  {
    CountQuote(table);
    CountGaps("INSERT INTO ", Quote(table), " (", cols, ") VALUES (", marks, ");");
  }

  /** Placeholders in seven pieces whose first, second, third, fifth and last hold none. */
  lemma CountGaps(a: string, b: string, c: string, d: string, e: string, f: string, g: string)
    requires '?' !in a && Count(b, '?') == 0 && '?' !in c && '?' !in e && '?' !in g
    ensures Count(a + b + c + d + e + f + g, '?') == Count(d, '?') + Count(f, '?')
  {
    CountNone(a);
    CountNone(c);
    CountNone(e);
    CountNone(g);
    CountSeven(a, b, c, d, e, f, g);
  }

  lemma {:induction false} SetColumnsPlain(names: seq<string>, where: seq<string>)
    requires PlainAll(names)
    ensures PlainAll(SetColumns(names, where))
    decreases |names|
  {
    if names != [] {
      SetColumnsPlain(names[1..], where);
    }
  }

  lemma {:induction false} CountQualified(qualifier: string, names: seq<string>)
    requires '?' !in qualifier && PlainAll(names)
    ensures CountAll(seq(|names|, k requires 0 <= k < |names| => qualifier + Quote(names[k])), '?') == 0
    decreases |names|
  {
    if names != [] {
      var qs := seq(|names|, k requires 0 <= k < |names| => qualifier + Quote(names[k]));
      assert qs[1..] == seq(|names[1..]|, k requires 0 <= k < |names[1..]| => qualifier + Quote(names[1..][k]));
      CountQuote(names[0]);
      CountAbsent(qs[0], '?');
      CountQualified(qualifier, names[1..]);
    }
  }

  function QualifiedColumns(qualifier: string, df: Frame): seq<string>
  {
    seq(|df.columns|, k requires 0 <= k < |df.columns| => qualifier + Quote(df.columns[k].name))
  }

  lemma QualifiedListPlain(qualifier: string, df: Frame)
    requires '?' !in qualifier && PlainAll(Names(df))
    ensures Count(Join(", ", QualifiedColumns(qualifier, df)), '?') == 0
  {
    var cols := QualifiedColumns(qualifier, df);
    var names := Names(df);
    var other := seq(|names|, k requires 0 <= k < |names| => qualifier + Quote(names[k]));
    assert forall k :: 0 <= k < |cols| ==> cols[k] == other[k];
    assert cols == other;
    CountQualified(qualifier, names);
    CountJoin(", ", cols, '?');
  }

  lemma ConditionList(qualifier: string, cols: seq<string>)
    requires '?' !in qualifier && PlainAll(cols)
    ensures Count(Join(" AND ", Conditions(qualifier, cols)), '?') == |cols|
  {
    CountConditions(qualifier, cols);
    CountJoin(" AND ", Conditions(qualifier, cols), '?');
  }

  /** A text of eight pieces none of which holds a placeholder holds none. */
  lemma CountHead(a: string, b: string, c: string, d: string, e: string, f: string, g: string, h: string)
    requires '?' !in a && Count(b, '?') == 0 && '?' !in c && Count(d, '?') == 0
    requires '?' !in e && Count(f, '?') == 0 && '?' !in g && '?' !in h
    ensures Count(a + b + c + d + e + f + g + h, '?') == 0
  {
    CountGaps(a, b, c, d, e, f, g);
    CountNone(h);
    CountConcat(a + b + c + d + e + f + g, h);
  }

  /** Placeholders after a placeholder-free query: those of the clause, or none without one. */
  lemma CountTail(query: string, keyword: string, clause: string, semicolon: string)
    requires Count(query, '?') == 0 && '?' !in keyword && '?' !in semicolon
    ensures Count(query + keyword + clause + semicolon, '?') == Count(clause, '?')
    ensures Count(query + semicolon, '?') == 0
  {
    CountNone(keyword);
    CountNone(semicolon);
    CountConcat(query, keyword);
    CountConcat(query + keyword, clause);
    CountConcat(query + keyword + clause, semicolon);
    CountConcat(query, semicolon);
  }

  // ---------------------------------------------------------------------
  // Column lists

  /** The SET and WHERE-matched columns partition the data frame's columns. */
  lemma {:induction false} UpdatePartition(names: seq<string>, where: seq<string>)
    ensures multiset(SetColumns(names, where)) + multiset(KeyColumns(names, where)) == multiset(names)
    ensures forall n :: n in SetColumns(names, where) <==> n in names && n !in where
    ensures forall n :: n in KeyColumns(names, where) <==> n in names && n in where
    decreases |names|
  {
    if names != [] {
      UpdatePartition(names[1..], where);
      assert names == [names[0]] + names[1..];
    }
  }

  /** Separating the column list of `_insert` at `", "` gives the quoted column names back. */
  lemma InsertColumnsRoundTrip(df: Frame)
    requires |df.columns| >= 1
    requires forall k :: 0 <= k < |df.columns| ==> ',' !in df.columns[k].name
    ensures Split(Join(", ", Quoted(Names(df))), ", ") == Quoted(Names(df))
  {
    var qs := Quoted(Names(df));
    forall k | 0 <= k < |qs| ensures (", ")[0] !in qs[k] {
      assert qs[k] == "\"" + df.columns[k].name + "\"";
    }
    SplitJoin(qs, ", ");
  }

  /** Separating the column definitions of `_create` at `", "` gives one definition per column back. */
  lemma CreateColumnsRoundTrip(df: Frame)
    requires |df.columns| >= 1
    requires forall k :: 0 <= k < |df.columns| ==> ',' !in df.columns[k].name
    ensures Split(Join(", ", ColumnDefs(df)), ", ") == ColumnDefs(df)
  {
    var defs := ColumnDefs(df);
    forall k | 0 <= k < |defs| ensures (", ")[0] !in defs[k] {
      var t := SqliteType(df.columns[k].dtype);
      assert ',' !in t;
      assert defs[k] == "\"" + df.columns[k].name + "\"" + " " + t;
    }
    SplitJoin(defs, ", ");
  }

  /** The quoted name sits at a fixed place in a text around it, and can be read back from there. */
  lemma QuoteReadBack(pre: string, name: string, post: string)
    ensures |pre + Quote(name) + post| == |pre| + |name| + 2 + |post|
    ensures (pre + Quote(name) + post)[|pre| + 1..|pre| + 1 + |name|] == name
  {
    var full := pre + Quote(name) + post;
    assert full == pre + "\"" + name + "\"" + post;
    assert forall k :: 0 <= k < |name| ==> full[|pre| + 1 + k] == name[k];
  }

  /** `_drop` and `_select_all` are fixed templates: the table name can be read back from either. */
  lemma TemplatesInjective(t1: string, t2: string)
    ensures Drop(t1) == Drop(t2) ==> t1 == t2
    ensures SelectAll(t1) == SelectAll(t2) ==> t1 == t2
  {
    QuoteReadBack("DROP TABLE IF EXISTS ", t1, ";");
    QuoteReadBack("DROP TABLE IF EXISTS ", t2, ";");
    QuoteReadBack("SELECT * FROM ", t1, ";");
    QuoteReadBack("SELECT * FROM ", t2, ";");
  }
}
