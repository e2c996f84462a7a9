/**
 The script's top level: load the datasets, build the SELECT from the base
 one, and add the joins when more than one dataset was asked for. Every
 answer the user types is one line of `lines`, read in order by each step.
 */
module Pipeline {
  import opened Prompt
  import opened Text
  import opened Datasets
  import opened Select
  import opened Join

  /** The SQL text the script writes to its output file, for `n` datasets.
      With `n` not positive no dataset is loaded and the select step fails
      for want of a base table, so there is no query. */
  function FinalSql(n: int, files: Files, lines: seq<string>): (r: Option<string>)
    ensures r.Some? ==> n >= 1
    ensures r.Some? ==> "SELECT " <= r.value
    ensures r.Some? ==> r.value[|r.value| - 1] == ';'
  {
    match LoadDatasets(n, files, lines)
    case None => None
    case Some(Reply(c, rest)) =>
      if |c| == 0 then None else Query(n > 1, c, rest)
  }

  /** The select text, joined when more than one dataset was asked for. */
  function Query(joined: bool, c: Collection, lines: seq<string>): (r: Option<string>)
    requires |c| > 0
    ensures r.Some? ==> "SELECT " <= r.value
    ensures r.Some? ==> r.value[|r.value| - 1] == ';'
  {
    match BuildSelect(c, lines)
    case None => None
    case Some(Reply(select, rest)) =>
      SelectShape(c, lines);
      if joined then
        match JoinSql(c, select, rest)
        case None => None
        case Some(Reply(sql, _)) =>
          PrefixTransitive("SELECT ", StripTrailing(select, ';'), sql);
          Some(sql)
      else Some(select)
  }

  /** Asking for no dataset (or a negative number of them) never yields a
      query, whatever is typed. */
  lemma NoDatasetNoQuery(n: int, files: Files, lines: seq<string>)
    requires n <= 0
    ensures FinalSql(n, files, lines) == None
  {
  }

  /** A select text starts with `SELECT ` and ends with ";", and keeps
      `SELECT ` when its trailing semicolons are stripped. */
  lemma SelectShape(c: Collection, lines: seq<string>)
    requires |c| > 0 && BuildSelect(c, lines).Some?
    ensures var select := BuildSelect(c, lines).value.value;
            && "SELECT " <= select && select[|select| - 1] == ';'
            && "SELECT " <= StripTrailing(select, ';')
  {
    SelectKeepsKeyword(c, lines);
  }

  lemma PrefixTransitive(a: string, b: string, c: string)
    requires a <= b && b <= c
    ensures a <= c
  {
    assert c[..|b|][..|a|] == c[..|a|];
  }

  /** Stripping the trailing semicolons of a select text keeps `SELECT `. */
  lemma SelectKeepsKeyword(c: Collection, lines: seq<string>)
    requires |c| > 0 && BuildSelect(c, lines).Some?
    ensures "SELECT " <= StripTrailing(BuildSelect(c, lines).value.value, ';')
  {
    KeywordSurvives(if WantsDistinct(lines[0]) then "DISTINCT " else "",
                    ColumnList(ChooseColumns(c[0].columns, lines[1..]).value.value), " FROM ", c[0].prefix, ";");
  }

  /** The keyword in front of a text that ends in ";" survives `rstrip`. */
  lemma KeywordSurvives(d: string, cl: string, f: string, p: string, e: string)
    ensures "SELECT " <= StripTrailing("SELECT " + d + cl + f + p + e, ';')
  {
    assert "SELECT " + d + cl + f + p + e == "SELECT " + (d + cl + f + p + e);
    StripTrailingKeepsPrefix("SELECT ", d + cl + f + p + e, ';');
  }

  /** With one dataset the query is the select text exactly as built. */
  lemma OneDatasetIsSelect(files: Files, lines: seq<string>)
    requires LoadDatasets(1, files, lines).Some?
    ensures var loaded := LoadDatasets(1, files, lines).value;
            && |loaded.value| == 1
            && FinalSql(1, files, lines) ==
                 match BuildSelect(loaded.value, loaded.rest)
                 case None => None
                 case Some(Reply(select, _)) => Some(select)
  {
    var loaded := LoadDatasets(1, files, lines).value;
    LoadedQuery(1, files, lines);
    UnjoinedQuery(loaded.value, loaded.rest);
  }

  /** With several datasets the query is the select text with its trailing
      semicolons replaced by the join clauses and one ";". */
  lemma SeveralDatasetsAreJoined(n: int, files: Files, lines: seq<string>)
    requires n > 1
    requires LoadDatasets(n, files, lines).Some?
    requires BuildSelect(LoadDatasets(n, files, lines).value.value, LoadDatasets(n, files, lines).value.rest).Some?
    ensures var loaded := LoadDatasets(n, files, lines).value;
            var select := BuildSelect(loaded.value, loaded.rest).value;
            FinalSql(n, files, lines) ==
              match ChooseJoins(loaded.value[0], loaded.value[1..], select.rest)
              case None => None
              case Some(Reply(js, _)) =>
                Some(StripTrailing(select.value, ';') + Clauses(loaded.value[0].prefix, js) + ";")
  {
    var loaded := LoadDatasets(n, files, lines).value;
    LoadedQuery(n, files, lines);
    JoinedQuery(loaded.value, loaded.rest);
  }

  /** Once the datasets are loaded the query depends only on them, on the
      answers left and on whether more than one dataset was asked for. */
  lemma LoadedQuery(n: int, files: Files, lines: seq<string>)
    requires LoadDatasets(n, files, lines).Some? && n >= 1
    ensures var loaded := LoadDatasets(n, files, lines).value;
            && |loaded.value| > 0
            && FinalSql(n, files, lines) == Query(n > 1, loaded.value, loaded.rest)
  {
  }

  lemma UnjoinedQuery(c: Collection, lines: seq<string>)
    requires |c| > 0
    ensures Query(false, c, lines) ==
              match BuildSelect(c, lines)
              case None => None
              case Some(Reply(select, _)) => Some(select)
  {
  }

  lemma JoinedQuery(c: Collection, lines: seq<string>)
    requires |c| > 0 && BuildSelect(c, lines).Some?
    ensures var select := BuildSelect(c, lines).value;
            Query(true, c, lines) ==
              match ChooseJoins(c[0], c[1..], select.rest)
              case None => None
              case Some(Reply(js, _)) =>
                Some(StripTrailing(select.value, ';') + Clauses(c[0].prefix, js) + ";")
  {
  }

  /** Typing the same prefix for both of two datasets stores one dataset,
      so the query gets no join: only the select text's trailing semicolons
      are collapsed to one. */
  lemma DuplicatePrefixJoinsNothing(files: Files, first: string, second: string, lines: seq<string>)
    requires Trim(first) in files && Trim(second) == Trim(first)
    ensures FinalSql(2, files, [first, second] + lines) ==
              match BuildSelect([Dataset(Trim(first), files[Trim(first)])], lines)
              case None => None
              case Some(Reply(select, _)) => Some(StripTrailing(select, ';') + ";")
  {
    var c := [Dataset(Trim(first), files[Trim(first)])];
    DuplicatePrefixLoadsOne(files, first, second, lines);
    LoadedQuery(2, files, [first, second] + lines);
    if BuildSelect(c, lines).Some? {
      JoinedQuery(c, lines);
      assert c[1..] == [];
      var s := StripTrailing(BuildSelect(c, lines).value.value, ';');
      assert s + Clauses(c[0].prefix, []) == s;
    }
  }

  /** The second answer overwrites the first entry with the same file. */
  lemma DuplicatePrefixLoadsOne(files: Files, first: string, second: string, lines: seq<string>)
    requires Trim(first) in files && Trim(second) == Trim(first)
    ensures LoadDatasets(2, files, [first, second] + lines)
              == Some(Reply([Dataset(Trim(first), files[Trim(first)])], lines))
  {
    var p := Trim(first);
    var d := [Dataset(p, files[p])];
    var all := [first, second] + lines;
    TwoThenRest(first, second, lines);
    assert all[0] == first && all[1..] == [second] + lines;
    ReadableAnswerStored([], 1, files, all);
    assert Insert([], p, files[p]) == d;
    assert ([second] + lines)[0] == second && ([second] + lines)[1..] == lines;
    ReadableAnswerStored(d, 0, files, [second] + lines);
    assert Insert(d, p, files[p]) == d;
  }
}
