/**
 * The SQL text `copyRemoteRows` sends for each table it copies: a
 * `SELECT *` with an optional `LIMIT`, and an `INSERT` whose column list
 * and `?` placeholder list are built from the remote table's column names.
 * Running the statements is not modelled; the column names the remote
 * cursor reports are a parameter.
 */
module CopyRemoteDb {
  import opened Wrappers
  import opened Strings

  /** The tables copied, in order. */
  const CopiedTables: seq<string> := ["event_subset", "raw_loc_subset"]

  /** `" LIMIT {}".format(limit)`, or nothing when there is no limit. */
  function LimStr(limit: Option<int>): string {
    match limit
    case None => ""
    case Some(n) => " LIMIT " + IntToString(n)
  }

  /** The clause reads back as the limit it was built from. */
  lemma LimStrReadsBack(limit: Option<int>)
    ensures limit.None? <==> LimStr(limit) == ""
    ensures limit.Some? ==>
      |LimStr(limit)| > 7 && LimStr(limit)[..7] == " LIMIT " && ParseInt(LimStr(limit)[7..]) == limit
  {
    if limit.Some? {
      ParseIntToString(limit.value);
      var r := LimStr(limit);
      assert r[7..] == IntToString(limit.value);
      assert |r[7..]| >= 1 by {
        assert ParseInt(r[7..]).Some?;
      }
    }
  }

  /** `'(' + ','.join(colNames) + ')'`. */
  function ColStr(colNames: seq<string>): string {
    "(" + Join(colNames, ',') + ")"
  }

  /** The text between the parentheses of a column list. */
  function Inside(s: string): string
    requires |s| >= 2
  {
    s[1..|s| - 1]
  }

  /** A column list is parenthesised, and names free of commas split back out of it. */
  lemma ColStrReadsBack(colNames: seq<string>)
    ensures |ColStr(colNames)| >= 2
    ensures ColStr(colNames)[0] == '(' && ColStr(colNames)[|ColStr(colNames)| - 1] == ')'
    ensures Inside(ColStr(colNames)) == Join(colNames, ',')
    ensures |colNames| >= 1 && (forall k :: 0 <= k < |colNames| ==> ',' !in colNames[k]) ==>
      Split(Inside(ColStr(colNames)), ',') == colNames
  {
    var s := ColStr(colNames);
    assert s[1..|s| - 1] == Join(colNames, ',');
    if |colNames| >= 1 && (forall k :: 0 <= k < |colNames| ==> ',' !in colNames[k]) {
      SplitJoin(colNames, ',');
    }
  }

  /** `s * n` for a string. */
  function Repeat(s: string, n: nat): (r: string)
    ensures |r| == |s| * n
  {
    if n == 0 then "" else s + Repeat(s, n - 1)
  }

  /** `s[:-1]`: all but the last character; the empty string stays empty. */
  function DropLast(s: string): (r: string)
    ensures |s| == 0 ==> r == ""
    ensures |s| > 0 ==> s == r + [s[|s| - 1]]
  {
    if |s| == 0 then s else s[..|s| - 1]
  }

  /** `'(' + ('?,' * nCols)[:-1] + ')'`. */
  function ValStr(nCols: nat): string {
    "(" + DropLast(Repeat("?,", nCols)) + ")"
  }

  /** One `?` for each column. */
  function Placeholders(nCols: nat): (r: seq<string>)
    ensures |r| == nCols && forall k :: 0 <= k < nCols ==> r[k] == "?"
  {
    seq(nCols, _ => "?")
  }

  /** The value list is the column list of one `?` per column. */
  lemma {:induction false} ValStrIsPlaceholders(nCols: nat)
    ensures ValStr(nCols) == ColStr(Placeholders(nCols))
  {
    PlaceholdersJoined(nCols);
  }

  /** `('?,' * n)[:-1]` is the `?`s joined by commas. */
  lemma {:induction false} PlaceholdersJoined(nCols: nat)
    ensures DropLast(Repeat("?,", nCols)) == Join(Placeholders(nCols), ',')
    decreases nCols
  {
    if nCols >= 2 {
      PlaceholdersJoined(nCols - 1);
      var rest := Repeat("?,", nCols - 1);
      assert Repeat("?,", nCols) == "?," + rest;
      assert DropLast("?," + rest) == "?," + DropLast(rest);
      assert Placeholders(nCols)[1..] == Placeholders(nCols - 1);
    } else if nCols == 1 {
      assert Repeat("?,", 1) == "?,";
    }
  }

  /** The value list of a table with columns splits back into exactly one `?` per column; with none it is `()`. */
  lemma ValStrReadsBack(nCols: nat)
    ensures ValStr(0) == "()"
    ensures |ValStr(nCols)| >= 2
    ensures nCols >= 1 ==> Split(Inside(ValStr(nCols)), ',') == Placeholders(nCols)
  {
    ValStrIsPlaceholders(nCols);
    ColStrReadsBack(Placeholders(nCols));
  }

  /** `"SELECT * FROM " + table + limStr`. */
  function SelectStatement(table: string, limit: Option<int>): string {
    "SELECT * FROM " + table + LimStr(limit)
  }

  /** `"INSERT INTO " + table + colStr + " VALUES " + valStr`. */
  function InsertStatement(table: string, colNames: seq<string>): string {
    "INSERT INTO " + table + ColStr(colNames) + " VALUES " + ValStr(|colNames|)
  }

  /** The insert names the table, then as many placeholders as there are columns. */
  lemma InsertStatementShape(table: string, colNames: seq<string>)
    ensures var s := InsertStatement(table, colNames);
      var c := ColStr(colNames);
      var v := ValStr(|colNames|);
      |s| == 12 + |table| + |c| + 8 + |v| &&
      s[..12] == "INSERT INTO " && s[12..12 + |table|] == table &&
      s[12 + |table|..12 + |table| + |c|] == c &&
      s[12 + |table| + |c|..12 + |table| + |c| + 8] == " VALUES " &&
      s[12 + |table| + |c| + 8..] == v && v == ColStr(Placeholders(|colNames|))
  {
    ValStrIsPlaceholders(|colNames|);
  }

  /**
   * The loop of `copyRemoteRows` over the copied tables: for each, the
   * select it runs and the insert it runs with the columns the remote
   * cursor then reports for that table.
   */
  method CopyRemoteRows(limit: Option<int>, colNames: seq<seq<string>>) returns (statements: seq<(string, string)>)
    requires |colNames| == |CopiedTables|
    ensures |statements| == |CopiedTables|
    ensures forall i :: 0 <= i < |CopiedTables| ==>
      statements[i] == (SelectStatement(CopiedTables[i], limit), InsertStatement(CopiedTables[i], colNames[i]))
  {
    var limStr := if limit.None? then "" else " LIMIT " + IntToString(limit.value);
    statements := [];
    for i := 0 to |CopiedTables|
      invariant |statements| == i
      invariant forall j :: 0 <= j < i ==>
        statements[j] == (SelectStatement(CopiedTables[j], limit), InsertStatement(CopiedTables[j], colNames[j]))
    {
      var table := CopiedTables[i];
      var select := "SELECT * FROM " + table + limStr;
      var nCols := |colNames[i]|;
      var colStr := "(" + Join(colNames[i], ',') + ")";
      var valStr := "(" + DropLast(Repeat("?,", nCols)) + ")";
      statements := statements + [(select, "INSERT INTO " + table + colStr + " VALUES " + valStr)];
    }
  }
}
