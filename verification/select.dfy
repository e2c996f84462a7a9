/**
 `build_sql_select`: the DISTINCT question, the column-list loop and the
 `SELECT ... FROM <base>;` template, over the first-inserted dataset.
 */
module Select {
  import opened Prompt
  import opened Text
  import opened Datasets

  /** The column list that stands for "all columns". */
  const Wildcard: seq<string> := ["*"]

  /** `distinct_input.strip().lower() == "y"`: DISTINCT is chosen exactly
      by a stripped `y` or `Y`. */
  predicate WantsDistinct(answer: string)
    ensures WantsDistinct(answer) <==> Trim(answer) == "y" || Trim(answer) == "Y"
  {
    LowerIsY(Trim(answer));
    Lower(Trim(answer)) == "y"
  }

  /** The keyword the DISTINCT answer puts after `SELECT `. */
  function DistinctKeyword(answer: string): (d: string)
    ensures d == if Trim(answer) == "y" || Trim(answer) == "Y" then "DISTINCT " else ""
  {
    if WantsDistinct(answer) then "DISTINCT " else ""
  }

  /** Parses one answer to the column prompt: a blank answer is the
      wildcard; otherwise every space (interior ones included) is deleted and
      the text is cut at each comma. A literal `*` parses to the wildcard too. */
  function ParseColumns(line: string): (cols: seq<string>)
    ensures Blank(line) ==> cols == Wildcard
    ensures forall i :: 0 <= i < |cols| ==> ' ' !in cols[i] && ',' !in cols[i]
  {
    var text := Trim(line);
    if text == "" then Wildcard
    else
      var pieces := Split(Remove(text, ' '), ',');
      SplitKeepsAbsent(Remove(text, ' '), ',', ' ');
      pieces
  }

  /** An answer that is `*` once stripped parses to the wildcard, exactly as
      a blank answer does. */
  lemma StarIsWildcard(line: string)
    requires Trim(line) == "*"
    ensures ParseColumns(line) == Wildcard
  {
    RemoveAbsent("*", ' ');
    SplitNoSeparator("*", ',');
  }

  /** A non-blank answer gives one column more than it has commas, and the
      columns joined with "," give back the stripped answer without its
      spaces. */
  lemma ParseColumnsShape(line: string)
    requires !Blank(line)
    ensures |ParseColumns(line)| == multiset(Remove(Trim(line), ' '))[','] + 1
    ensures JoinWith(ParseColumns(line), ",") == Remove(Trim(line), ' ')
  {
    JoinSplit(Remove(Trim(line), ' '), ',');
  }

  /** A character missing from a text is missing from each piece of its split. */
  lemma {:induction false} SplitKeepsAbsent(s: string, sep: char, d: char)
    requires d !in s
    ensures forall i :: 0 <= i < |Split(s, sep)| ==> d !in Split(s, sep)[i]
    decreases |s|
  {
    if |s| > 0 {
      SplitKeepsAbsent(s[1..], sep, d);
      assert s[0] != d;
    }
  }

  /** `[col for col in columns if col not in df.columns]`. */
  function InvalidColumns(requested: seq<string>, table: Columns): (bad: seq<string>)
    ensures |bad| <= |requested|
    decreases |requested|
  {
    if |requested| == 0 then []
    else
      var rest := InvalidColumns(requested[1..], table);
      if requested[0] in table then rest else [requested[0]] + rest
  }

  /** The reported columns are exactly the requested ones the table lacks. */
  lemma {:induction false} InvalidColumnsExactly(requested: seq<string>, table: Columns)
    ensures forall c :: c in InvalidColumns(requested, table) <==> c in requested && c !in table
    decreases |requested|
  {
    if |requested| > 0 {
      InvalidColumnsExactly(requested[1..], table);
      assert requested == [requested[0]] + requested[1..];
    }
  }

  /** The invalid list keeps request order: it distributes over
      concatenation of requests. */
  lemma {:induction false} InvalidColumnsAppend(a: seq<string>, b: seq<string>, table: Columns)
    ensures InvalidColumns(a + b, table) == InvalidColumns(a, table) + InvalidColumns(b, table)
    decreases |a|
  {
    if |a| > 0 {
      InvalidColumnsAppend(a[1..], b, table);
      assert (a + b)[0] == a[0] && (a + b)[1..] == a[1..] + b;
    } else {
      assert a + b == b;
    }
  }

  /** A parsed request is accepted when it is the wildcard or every column it
      names is a column of the base table. */
  predicate Accepts(cols: seq<string>, table: Columns) {
    cols == Wildcard || InvalidColumns(cols, table) == []
  }

  lemma NoInvalidColumns(cols: seq<string>, table: Columns)
    ensures InvalidColumns(cols, table) == [] <==> forall i :: 0 <= i < |cols| ==> cols[i] in table
  {
    InvalidColumnsExactly(cols, table);
    var bad := InvalidColumns(cols, table);
    if bad != [] {
      assert bad[0] in bad;
    } else {
      forall i | 0 <= i < |cols| ensures cols[i] in table {
        assert cols[i] in cols;
      }
    }
  }

  /** An answer to the column prompt is accepted when its parse is. */
  predicate AnswerAccepted(table: Columns, line: string) {
    Accepts(ParseColumns(line), table)
  }

  function ColumnsFit(table: Columns): string -> bool {
    line => AnswerAccepted(table, line)
  }

  /** The column loop: the first answer whose parse is accepted, together
      with the answers typed after it. */
  function ChooseColumns(table: Columns, lines: seq<string>): (r: Option<Reply<seq<string>>>)
    ensures r.Some? ==> Accepts(r.value.value, table)
    ensures r.Some? ==> exists i :: 0 <= i < |lines| && r.value.value == ParseColumns(lines[i])
                          && r.value.rest == lines[i + 1..]
                          && forall j :: 0 <= j < i ==> !AnswerAccepted(table, lines[j])
    ensures r.None? <==> forall j :: 0 <= j < |lines| ==> !AnswerAccepted(table, lines[j])
  {
    var found := FirstAccepted(lines, ColumnsFit(table));
    FitMeansAccepted(table, lines, found);
    match found
    case None => None
    case Some(i) => Some(Reply(ParseColumns(lines[i]), lines[i + 1..]))
  }

  lemma FitMeansAccepted(table: Columns, lines: seq<string>, found: Option<nat>)
    requires found == FirstAccepted(lines, ColumnsFit(table))
    ensures found.Some? ==> found.value < |lines| && AnswerAccepted(table, lines[found.value])
    ensures found.Some? ==> forall j :: 0 <= j < found.value ==> !AnswerAccepted(table, lines[j])
    ensures found.None? <==> forall j :: 0 <= j < |lines| ==> !AnswerAccepted(table, lines[j])
  {
    forall j | 0 <= j < |lines| ensures ColumnsFit(table)(lines[j]) == AnswerAccepted(table, lines[j]) {
      FitMeans(table, lines[j]);
    }
  }

  lemma FitMeans(table: Columns, line: string)
    ensures ColumnsFit(table)(line) == AnswerAccepted(table, line)
  {
  }

  /** The column part of the query: the entries separated by ", ", or `*`.
      Either way it opens with the first chosen name. */
  function ColumnList(cols: seq<string>): (r: string)
    ensures |cols| > 0 ==> cols[0] <= r
  {
    if cols == Wildcard then "*" else JoinWith(cols, ", ")
  }

  /** Reading the column part back (deleting spaces, cutting at commas) gives
      the columns that were chosen. */
  lemma ColumnListRoundTrip(cols: seq<string>)
    requires |cols| >= 1
    requires forall i :: 0 <= i < |cols| ==> ' ' !in cols[i] && ',' !in cols[i]
    ensures Split(Remove(ColumnList(cols), ' '), ',') == cols
  {
    if cols == Wildcard {
      SplitNoSeparator("*", ',');
      RemoveAbsent("*", ' ');
    } else {
      RemoveSpacesJoin(cols);
      SplitJoin(cols, ',');
    }
  }

  /** The whole select step, reading the DISTINCT answer and then the column
      answers from `lines`. The base table must exist: the script fails on an
      empty collection. */
  function BuildSelect(c: Collection, lines: seq<string>): (r: Option<Reply<string>>)
    requires |c| > 0
    ensures r.Some? <==> |lines| > 0 && ChooseColumns(c[0].columns, lines[1..]).Some?
    ensures r.Some? ==>
              var chosen := ChooseColumns(c[0].columns, lines[1..]).value;
              && r.value.rest == chosen.rest
              && r.value.value == "SELECT " + (if WantsDistinct(lines[0]) then "DISTINCT " else "")
                                  + ColumnList(chosen.value) + " FROM " + c[0].prefix + ";"
  {
    if |lines| == 0 then None
    else
      var distinct := DistinctKeyword(lines[0]);
      match ChooseColumns(c[0].columns, lines[1..])
      case None => None
      case Some(Reply(cols, rest)) =>
        Some(Reply("SELECT " + distinct + ColumnList(cols) + " FROM " + c[0].prefix + ";", rest))
  }

  /** An accepted column answer ends the loop with its parse. */
  lemma AcceptedAnswerTaken(table: Columns, line: string, lines: seq<string>)
    requires AnswerAccepted(table, line)
    ensures ChooseColumns(table, [line] + lines) == Some(Reply(ParseColumns(line), lines))
  {
    FitMeans(table, line);
    assert ([line] + lines)[0] == line && ([line] + lines)[1..] == lines;
  }

  /** A rejected column answer is skipped without a trace. */
  lemma RejectedAnswerSkipped(table: Columns, bad: string, lines: seq<string>)
    requires !AnswerAccepted(table, bad)
    ensures ChooseColumns(table, [bad] + lines) == ChooseColumns(table, lines)
  {
    FitMeans(table, bad);
    RejectedLineSkipped(bad, lines, ColumnsFit(table));
    var found := FirstAccepted(lines, ColumnsFit(table));
    if found.Some? {
      var i := found.value;
      assert ([bad] + lines)[i + 1] == lines[i];
      assert ([bad] + lines)[i + 2..] == lines[i + 1..];
    }
  }

  /** A rejected column answer leaves the select step unchanged: the
      DISTINCT answer is not asked again and the query is built from the
      next acceptable answer. */
  lemma RejectedColumnsIgnored(c: Collection, answer: string, bad: string, lines: seq<string>)
    requires |c| > 0
    requires !AnswerAccepted(c[0].columns, bad)
    ensures BuildSelect(c, [answer, bad] + lines) == BuildSelect(c, [answer] + lines)
  {
    RejectedAnswerSkipped(c[0].columns, bad, lines);
    TwoThenRest(answer, bad, lines);
    SameChoiceSameSelect(c, answer, [bad] + lines, lines);
  }

  /** The select step depends only on the DISTINCT answer and on the outcome
      of the column loop. */
  lemma SameChoiceSameSelect(c: Collection, answer: string, long: seq<string>, short: seq<string>)
    requires |c| > 0
    requires ChooseColumns(c[0].columns, long) == ChooseColumns(c[0].columns, short)
    ensures BuildSelect(c, [answer] + long) == BuildSelect(c, [answer] + short)
  {
    assert ([answer] + long)[1..] == long;
    assert ([answer] + short)[1..] == short;
  }
}
