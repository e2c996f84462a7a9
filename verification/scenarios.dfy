/**
 Whole sessions worked through the model: the files on disk, the answers
 typed and the query the script writes.
 */
module Scenarios {
  import opened Prompt
  import opened Text
  import opened Datasets
  import opened Select
  import opened Join
  import opened Pipeline

  /** One table; two of its columns typed with stray spaces; no DISTINCT. */
  lemma TwoColumnsOfOneTable(files: Files, lines: seq<string>, p: string, a: string, b: string, query: string)
    requires p == "t" && a == "id" && b == "name"
    requires files == map[p := [a, b, "age"]]
    requires lines == [" " + p + " ", "n", a + " , " + b]
    requires query == "SELECT id, name FROM t;"
    ensures FinalSql(1, files, lines) == Some(query)
  {
    OneTableSession(files, lines, p, a, b);
    OneTableQueryText(p, a, b, query);
  }

  lemma OneTableSession(files: Files, lines: seq<string>, p: string, a: string, b: string)
    requires p == "t" && a == "id" && b == "name"
    requires files == map[p := [a, b, "age"]]
    requires lines == [" " + p + " ", "n", a + " , " + b]
    ensures FinalSql(1, files, lines) == Some("SELECT " + a + ", " + b + " FROM " + p + ";")
  {
    OneTableAnswers(lines, p, a, b);
    PlainName(a);
    PlainName(b);
    OneTableHolds(files, p, a, b);
    PairFromOneTable(files, lines, p, a, b);
  }

  /** How the three answers of the session read. */
  lemma OneTableAnswers(lines: seq<string>, p: string, a: string, b: string)
    requires p == "t"
    requires lines == [" " + p + " ", "n", a + " , " + b]
    ensures |lines| == 3 && Trim(lines[0]) == p && !WantsDistinct(lines[1]) && lines[2] == a + " , " + b
  {
    assert lines[0] == " " + p + " " && lines[1] == "n";
    StripsOneSpace(lines[0], p);
    NotDistinct(lines[1]);
  }

  lemma OneTableHolds(files: Files, p: string, a: string, b: string)
    requires files == map[p := [a, b, "age"]]
    ensures p in files && a in files[p] && b in files[p]
  {
    assert files[p] == [a, b, "age"];
    assert files[p][0] == a && files[p][1] == b;
  }

  /** A column name with no space or comma in it. */
  predicate Plain(w: string) {
    |w| > 0 && !IsSpace(w[0]) && !IsSpace(w[|w| - 1]) && ' ' !in w && ',' !in w
  }

  lemma PlainName(w: string)
    requires w == "id" || w == "name"
    ensures Plain(w)
  {
  }

  lemma OneTableQueryText(p: string, a: string, b: string, query: string)
    requires p == "t" && a == "id" && b == "name"
    requires query == "SELECT id, name FROM t;"
    ensures query == "SELECT " + a + ", " + b + " FROM " + p + ";"
  {
  }

  /** The query for one table whose name is typed first, a plain answer to
      DISTINCT, and two of its columns typed around a comma. */
  lemma PairFromOneTable(files: Files, lines: seq<string>, p: string, a: string, b: string)
    requires p in files && a in files[p] && b in files[p]
    requires |a| > 0 && |b| > 0 && !IsSpace(a[0]) && !IsSpace(b[|b| - 1])
    requires ' ' !in a && ',' !in a && ' ' !in b && ',' !in b
    requires |lines| == 3 && Trim(lines[0]) == p && !WantsDistinct(lines[1]) && lines[2] == a + " , " + b
    ensures FinalSql(1, files, lines) == Some("SELECT " + a + ", " + b + " FROM " + p + ";")
  {
    var c := [Dataset(p, files[p])];
    LoadsFirst(files, lines, p);
    SelectsPair(c, lines[1..], a, b);
    SingleTableQuery(files, lines, c, lines[1..], "SELECT " + a + ", " + b + " FROM " + p + ";");
  }

  lemma LoadsFirst(files: Files, lines: seq<string>, p: string)
    requires p in files && |lines| > 0 && Trim(lines[0]) == p
    ensures LoadDatasets(1, files, lines) == Some(Reply([Dataset(p, files[p])], lines[1..]))
  {
    ReadableAnswerStored([], 0, files, lines);
    assert Insert([], p, files[p]) == [Dataset(p, files[p])];
  }

  /** With one dataset the query is the select text. */
  lemma SingleTableQuery(files: Files, lines: seq<string>, c: Collection, rest: seq<string>, text: string)
    requires LoadDatasets(1, files, lines) == Some(Reply(c, rest))
    requires |c| > 0 && BuildSelect(c, rest).Some? && BuildSelect(c, rest).value.value == text
    ensures FinalSql(1, files, lines) == Some(text)
  {
  }

  /** A one-character name with one space on each side strips to the name. */
  lemma StripsOneSpace(s: string, p: string)
    requires |p| == 1 && !IsSpace(p[0]) && s == " " + p + " "
    ensures Trim(s) == p
  {
    assert s[1..] == p + " ";
    assert TrimStart(s[1..]) == s[1..];
    assert (p + " ")[..1] == p;
    assert TrimEnd(p + " ") == p;
  }

  lemma NotDistinct(s: string)
    requires s == "n"
    ensures !WantsDistinct(s)
  {
    assert s[0] == 'n' && !IsSpace('n');
    assert Trim(s) == s;
    assert Lower(s)[0] == 'n';
  }

  /** The select step for a plain answer to DISTINCT and an answer naming
      two columns of the base table. */
  lemma SelectsPair(c: Collection, lines: seq<string>, a: string, b: string)
    requires |c| == 1 && a in c[0].columns && b in c[0].columns
    requires |a| > 0 && |b| > 0 && !IsSpace(a[0]) && !IsSpace(b[|b| - 1])
    requires ' ' !in a && ',' !in a && ' ' !in b && ',' !in b
    requires |lines| == 2 && !WantsDistinct(lines[0]) && lines[1] == a + " , " + b
    ensures BuildSelect(c, lines) == Some(Reply("SELECT " + a + ", " + b + " FROM " + c[0].prefix + ";", []))
  {
    ChoosesPair(c[0].columns, lines[1..], a, b);
    ListsPair([a, b]);
    SelectsChosenPair(c, lines, a, b);
  }

  lemma ChoosesPair(table: Columns, lines: seq<string>, a: string, b: string)
    requires a in table && b in table
    requires |a| > 0 && |b| > 0 && !IsSpace(a[0]) && !IsSpace(b[|b| - 1])
    requires ' ' !in a && ',' !in a && ' ' !in b && ',' !in b
    requires lines == [a + " , " + b]
    ensures ChooseColumns(table, lines) == Some(Reply([a, b], []))
  {
    ParsesPair(lines[0], a, b);
    ChoosesOnlyAnswer(table, lines, [a, b]);
  }

  lemma SelectsChosenPair(c: Collection, lines: seq<string>, a: string, b: string)
    requires |c| == 1 && |lines| == 2 && !WantsDistinct(lines[0])
    requires ChooseColumns(c[0].columns, lines[1..]) == Some(Reply([a, b], []))
    requires ColumnList([a, b]) == a + ", " + b
    ensures BuildSelect(c, lines) == Some(Reply("SELECT " + a + ", " + b + " FROM " + c[0].prefix + ";", []))
  {
    PlainSelect(c, lines, Reply([a, b], []));
    var cl := ColumnList([a, b]);
    assert BuildSelect(c, lines) == Some(Reply("SELECT " + cl + " FROM " + c[0].prefix + ";", []));
    Regroup("SELECT ", cl, a, b, " FROM ", c[0].prefix, ";");
  }

  lemma Regroup(x: string, cl: string, a: string, b: string, f: string, p: string, e: string)
    requires cl == a + ", " + b
    ensures x + cl + f + p + e == x + a + ", " + b + f + p + e
  {
  }

  /** Without DISTINCT the select text is `SELECT <columns> FROM <base>;`. */
  lemma PlainSelect(c: Collection, lines: seq<string>, chosen: Reply<seq<string>>)
    requires |c| > 0 && |lines| > 0 && !WantsDistinct(lines[0])
    requires ChooseColumns(c[0].columns, lines[1..]) == Some(chosen)
    ensures BuildSelect(c, lines)
              == Some(Reply("SELECT " + ColumnList(chosen.value) + " FROM " + c[0].prefix + ";", chosen.rest))
  {
    assert "SELECT " + "" == "SELECT ";
  }

  lemma ListsPair(cols: seq<string>)
    requires |cols| == 2
    ensures ColumnList(cols) == cols[0] + ", " + cols[1]
  {
    assert cols != Wildcard;
    assert cols[1..] == [cols[1]];
    assert JoinWith(cols[1..], ", ") == cols[1];
  }

  /** An only answer whose columns all exist is chosen. */
  lemma ChoosesOnlyAnswer(table: Columns, lines: seq<string>, cols: seq<string>)
    requires |lines| == 1 && ParseColumns(lines[0]) == cols
    requires forall i :: 0 <= i < |cols| ==> cols[i] in table
    ensures ChooseColumns(table, lines) == Some(Reply(cols, []))
  {
    assert AnswerAccepted(table, lines[0]) by {
      NoInvalidColumns(cols, table);
    }
    assert FirstAccepted(lines, ColumnsFit(table)) == Some(0) by {
      FitMeans(table, lines[0]);
    }
    assert lines[1..] == [];
  }

  /** Two plain column names typed around a comma with a space on each side
      parse to those two names. */
  lemma ParsesPair(s: string, a: string, b: string)
    requires |a| > 0 && |b| > 0 && !IsSpace(a[0]) && !IsSpace(b[|b| - 1])
    requires ' ' !in a && ',' !in a && ' ' !in b && ',' !in b
    requires s == a + " , " + b
    ensures ParseColumns(s) == [a, b]
  {
    assert s[0] == a[0] && s[|s| - 1] == b[|b| - 1];
    assert Trim(s) == s;
    SpacesRemoved(s, a, " ", ",", b);
    var parts := [a, b];
    assert parts[1..] == [b];
    assert JoinWith(parts, [',']) == a + "," + b;
    SplitJoin(parts, ',');
  }

  lemma SpacesRemoved(s: string, a: string, sp: string, comma: string, b: string)
    requires ' ' !in a && ' ' !in b && sp == " " && comma == ","
    requires s == a + sp + comma + sp + b
    ensures Remove(s, ' ') == a + comma + b
  {
    assert Remove(sp, ' ') == [] by { assert sp[1..] == []; }
    assert Remove(comma, ' ') == comma by { RemoveAbsent(comma, ' '); }
    assert Remove(a + sp, ' ') == a by { RemoveAppend(a, sp, ' '); RemoveAbsent(a, ' '); }
    assert Remove(a + sp + comma, ' ') == a + comma by { RemoveAppend(a + sp, comma, ' '); }
    assert Remove(a + sp + comma + sp, ' ') == a + comma by { RemoveAppend(a + sp + comma, sp, ' '); }
    RemoveAppend(a + sp + comma + sp, b, ' ');
    RemoveAbsent(b, ' ');
  }

  /** Two tables joined on the column they share; DISTINCT; every column. */
  lemma OrdersWithCustomers(files: Files, lines: seq<string>, p: string, q: string, k: string)
    requires p == "orders" && q == "customers" && k == "cust_id"
    requires files == map[p := ["order_id", k], q := [k, "name"]]
    requires lines == [p, q, "y", "", k, k]
    ensures FinalSql(2, files, lines)
              == Some("SELECT DISTINCT * FROM " + p + "\nLEFT JOIN " + q + " \n\tON " + p + "." + k + " = " + q + "." + k + ";")
  {
    TableName(p);
    TableName(q);
    TableName(k);
    assert |p| != |q|;
    OrdersAnswers(lines, p, q, k, "y");
    Distinct(lines[2]);
    OrdersFiles(files, p, q, k);
    JoinOnSharedColumn(files, lines, p, q, k);
  }

  /** A name that starts and ends with a lower-case letter is read as it is. */
  lemma TableName(w: string)
    requires |w| > 0 && 'a' <= w[0] <= 'z' && 'a' <= w[|w| - 1] <= 'z'
    ensures Trim(w) == w && w[|w| - 1] != ';'
  {
  }

  lemma OrdersAnswers(lines: seq<string>, p: string, q: string, k: string, y: string)
    requires y == "y"
    requires lines == [p, q, y, "", k, k]
    ensures |lines| == 6
    ensures lines[0] == p && lines[1] == q && lines[2] == y && lines[4] == k && lines[5] == k
    ensures lines[3] == ""
  {
  }

  lemma Distinct(s: string)
    requires s == "y"
    ensures WantsDistinct(s)
  {
    assert s[0] == 'y' && !IsSpace('y');
    assert Trim(s) == s;
  }

  lemma OrdersFiles(files: Files, p: string, q: string, k: string)
    requires p != q
    requires files == map[p := ["order_id", k], q := [k, "name"]]
    ensures p in files && q in files && k in files[p] && k in files[q]
  {
    assert files[p][1] == k && files[q][0] == k;
  }

  /** Two tables typed first, DISTINCT, all columns, and the same column
      named on both sides of the one join. */
  lemma JoinOnSharedColumn(files: Files, lines: seq<string>, p: string, q: string, k: string)
    requires p in files && q in files && p != q && |p| > 0 && p[|p| - 1] != ';'
    requires k in files[p] && k in files[q]
    requires |lines| == 6
    requires Trim(lines[0]) == p && Trim(lines[1]) == q && Trim(lines[4]) == k && Trim(lines[5]) == k
    requires WantsDistinct(lines[2]) && Blank(lines[3])
    ensures FinalSql(2, files, lines)
              == Some("SELECT DISTINCT * FROM " + p + "\nLEFT JOIN " + q + " \n\tON " + p + "." + k + " = " + q + "." + k + ";")
  {
    JoinOnSharedColumnParts(files, lines, p, q, k);
    JoinText(p, q, k);
  }

  lemma JoinOnSharedColumnParts(files: Files, lines: seq<string>, p: string, q: string, k: string)
    requires p in files && q in files && p != q
    requires k in files[p] && k in files[q]
    requires |lines| == 6
    requires Trim(lines[0]) == p && Trim(lines[1]) == q && Trim(lines[4]) == k && Trim(lines[5]) == k
    requires WantsDistinct(lines[2]) && Blank(lines[3])
    ensures FinalSql(2, files, lines)
              == Some(StripTrailing("SELECT DISTINCT * FROM " + p + ";", ';') + Clauses(p, [JoinOn(q, k, k)]) + ";")
  {
    var c := [Dataset(p, files[p]), Dataset(q, files[q])];
    LoadsTwo(files, lines, p, q);
    DistinctEverything(c, lines[2..]);
    assert lines[2..][2..] == lines[4..];
    JoinsOnce(c[0], c[1], lines[4..], k);
    assert c[1..] == [c[1]];
    TwoTableQuery(files, lines, c, lines[2..], "SELECT DISTINCT * FROM " + p + ";", lines[4..], [JoinOn(q, k, k)]);
  }

  /** With two datasets the query is the select text, its semicolons
      replaced by the join clauses and one ";". */
  lemma TwoTableQuery(files: Files, lines: seq<string>, c: Collection, rest: seq<string>, select: string,
                      rest': seq<string>, js: seq<JoinOn>)
    requires LoadDatasets(2, files, lines) == Some(Reply(c, rest)) && |c| == 2
    requires BuildSelect(c, rest) == Some(Reply(select, rest'))
    requires ChooseJoins(c[0], c[1..], rest').Some? && ChooseJoins(c[0], c[1..], rest').value.value == js
    ensures FinalSql(2, files, lines) == Some(StripTrailing(select, ';') + Clauses(c[0].prefix, js) + ";")
  {
    SeveralDatasetsAreJoined(2, files, lines);
  }

  /** The text of a query with one join, put together. */
  lemma JoinText(p: string, q: string, k: string)
    requires |p| > 0 && p[|p| - 1] != ';'
    ensures StripTrailing("SELECT DISTINCT * FROM " + p + ";", ';') + Clauses(p, [JoinOn(q, k, k)]) + ";"
              == "SELECT DISTINCT * FROM " + p + "\nLEFT JOIN " + q + " \n\tON " + p + "." + k + " = " + q + "." + k + ";"
  {
    var head := "SELECT DISTINCT * FROM " + p;
    assert head[|head| - 1] == p[|p| - 1];
    StripTrailingOne(head, ';');
    OneClause(p, JoinOn(q, k, k));
    Assoc(head, "\nLEFT JOIN ", q, " \n\tON ", p, ".", k, " = ", q, ".", k);
  }

  lemma OneClause(p: string, j: JoinOn)
    ensures Clauses(p, [j]) == Clause(p, j)
  {
    assert [j][1..] == [];
  }

  lemma Assoc(h: string, a: string, b: string, c: string, d: string, e: string, f: string, g: string,
              i: string, j: string, l: string)
    ensures h + (a + b + c + d + e + f + g + i + j + l) + ";" == h + a + b + c + d + e + f + g + i + j + l + ";"
  {
  }

  lemma LoadsTwo(files: Files, lines: seq<string>, p: string, q: string)
    requires p in files && q in files && p != q
    requires |lines| >= 2 && Trim(lines[0]) == p && Trim(lines[1]) == q
    ensures LoadDatasets(2, files, lines)
              == Some(Reply([Dataset(p, files[p]), Dataset(q, files[q])], lines[2..]))
  {
    LoadsTwoLoop(files, lines, p, q);
  }

  lemma LoadsTwoLoop(files: Files, lines: seq<string>, p: string, q: string)
    requires p in files && q in files && p != q
    requires |lines| >= 2 && Trim(lines[0]) == p && Trim(lines[1]) == q
    ensures LoadMore([], 2, files, lines)
              == Some(Reply([Dataset(p, files[p]), Dataset(q, files[q])], lines[2..]))
  {
    LoadsSecond(files, lines, p, q);
    LoadsFirstOfMany(files, lines, p);
  }

  lemma LoadsSecond(files: Files, lines: seq<string>, p: string, q: string)
    requires p in files && q in files && p != q
    requires |lines| >= 2 && Trim(lines[1]) == q
    ensures LoadMore([Dataset(p, files[p])], 1, files, lines[1..])
              == Some(Reply([Dataset(p, files[p]), Dataset(q, files[q])], lines[2..]))
  {
    LoadsLast(files, lines[1..], Dataset(p, files[p]), q);
    assert lines[1..][1..] == lines[2..];
  }

  lemma LoadsFirstOfMany(files: Files, lines: seq<string>, p: string)
    requires p in files && |lines| >= 1 && Trim(lines[0]) == p
    ensures LoadMore([], 2, files, lines) == LoadMore([Dataset(p, files[p])], 1, files, lines[1..])
  {
    ReadableAnswerStored([], 1, files, lines);
    assert Insert([], p, files[p]) == [Dataset(p, files[p])];
  }

  lemma LoadsLast(files: Files, lines: seq<string>, d: Dataset, q: string)
    requires d.prefix in files && d.columns == files[d.prefix] && d.prefix != q
    requires q in files && |lines| >= 1 && Trim(lines[0]) == q
    ensures LoadMore([d], 1, files, lines) == Some(Reply([d, Dataset(q, files[q])], lines[1..]))
  {
    OneLoaded(d, files);
    ReadableAnswerStored([d], 0, files, lines);
    InsertSecond(d, q, files[q]);
    var next := Insert([d], q, files[q]);
    assert LoadMore(next, 0, files, lines[1..]) == Some(Reply(next, lines[1..]));
  }

  lemma OneLoaded(d: Dataset, files: Files)
    requires d.prefix in files && d.columns == files[d.prefix]
    ensures LoadedFrom([d], files) && NoDuplicates(Keys([d]))
  {
    assert Keys([d]) == [d.prefix] by { assert [d][1..] == []; }
  }

  lemma InsertSecond(d: Dataset, q: string, cols: Columns)
    requires d.prefix != q
    ensures Insert([d], q, cols) == [d, Dataset(q, cols)]
  {
    assert [d][1..] == [];
    assert Insert([d], q, cols) == [d] + [Dataset(q, cols)];
  }

  /** DISTINCT and a blank column answer select every column. */
  lemma DistinctEverything(c: Collection, lines: seq<string>)
    requires |c| > 0 && |lines| >= 2 && WantsDistinct(lines[0]) && Blank(lines[1])
    ensures BuildSelect(c, lines) == Some(Reply("SELECT DISTINCT * FROM " + c[0].prefix + ";", lines[2..]))
  {
    BlankChoosesAll(c[0].columns, lines[1..]);
    assert lines[1..][1..] == lines[2..];
    var s, d, w, f := "SELECT ", "DISTINCT ", ColumnList(Wildcard), " FROM ";
    assert w == "*";
    DistinctHead(s, d, w, f);
    HeadRegroup(s, d, w, f, c[0].prefix, ";", "SELECT DISTINCT * FROM ");
  }

  lemma DistinctHead(s: string, d: string, w: string, f: string)
    requires s == "SELECT " && d == "DISTINCT " && w == "*" && f == " FROM "
    ensures s + d + w + f == "SELECT DISTINCT * FROM "
  {
  }

  lemma HeadRegroup(s: string, d: string, w: string, f: string, p: string, e: string, h: string)
    requires s + d + w + f == h
    ensures s + d + w + f + p + e == h + p + e
  {
  }

  /** A blank column answer is accepted as every column. */
  lemma BlankChoosesAll(table: Columns, lines: seq<string>)
    requires |lines| >= 1 && Blank(lines[0])
    ensures ChooseColumns(table, lines) == Some(Reply(Wildcard, lines[1..]))
  {
    assert AnswerAccepted(table, lines[0]);
    FitMeans(table, lines[0]);
    assert FirstAccepted(lines, ColumnsFit(table)) == Some(0);
  }

  /** One join whose two answers name a column both tables have. */
  lemma JoinsOnce(base: Dataset, other: Dataset, lines: seq<string>, k: string)
    requires k in base.columns && k in other.columns
    requires |lines| == 2 && Trim(lines[0]) == k && Trim(lines[1]) == k
    ensures ChooseJoins(base, [other], lines) == Some(Reply([JoinOn(other.prefix, k, k)], []))
  {
    var j := JoinOn(other.prefix, k, k);
    assert AskJoinColumns(base, other, lines) == Some(Reply(j, [])) by {
      assert lines[2..] == [];
    }
    assert ChooseJoins(base, [other][1..], []) == Some(Reply([], [])) by {
      assert [other][1..] == [];
    }
    assert [j] + [] == [j];
  }
}
