/**
 `build_sql_join`: strips the trailing semicolons of the select text, asks
 for a pair of join columns for every dataset after the base one, in
 insertion order, appends one LEFT JOIN clause per pair and ends the text
 with a single ";".
 */
module Join {
  import opened Prompt
  import opened Text
  import opened Datasets

  /** One validated join: `table` is joined to the base table on
      `<base>.baseCol = table.joinCol`. */
  datatype JoinOn = JoinOn(table: string, baseCol: string, joinCol: string)

  /** One LEFT JOIN clause on a line of its own. Its template brings in no
      `;`: the clause holds one only when one of the names does. */
  function Clause(base: string, j: JoinOn): (r: string)
    ensures "\nLEFT JOIN " + j.table <= r
    ensures ';' in r <==> ';' in base || ';' in j.table || ';' in j.baseCol || ';' in j.joinCol
  {
    "\nLEFT JOIN " + j.table + " \n\tON " + base + "." + j.baseCol + " = " + j.table + "." + j.joinCol
  }

  /** The clauses for `js`, in order. */
  function Clauses(base: string, js: seq<JoinOn>): string
    decreases |js|
  {
    if |js| == 0 then "" else Clause(base, js[0]) + Clauses(base, js[1..])
  }

  /** The inner `while True` loop for one joined dataset: a base column
      answer not in the base table is rejected on its own; a join column
      answer not in the joined table rejects the pair and the loop starts
      again at the base column. */
  function AskJoinColumns(base: Dataset, other: Dataset, lines: seq<string>): (r: Option<Reply<JoinOn>>)
    ensures r.Some? ==> && r.value.value.table == other.prefix
                        && r.value.value.baseCol in base.columns
                        && r.value.value.joinCol in other.columns
    ensures r.Some? ==> |r.value.rest| + 2 <= |lines| && Unread(r.value.rest, lines)
    decreases |lines|
  {
    if |lines| == 0 then None
    else
      var baseCol := Trim(lines[0]);
      if baseCol !in base.columns then
        var r := AskJoinColumns(base, other, lines[1..]);
        UnreadAfterSkip(if r.Some? then r.value.rest else [], lines, 1);
        r
      else if |lines| == 1 then None
      else
        var joinCol := Trim(lines[1]);
        if joinCol !in other.columns then
          var r := AskJoinColumns(base, other, lines[2..]);
          UnreadAfterSkip(if r.Some? then r.value.rest else [], lines, 2);
          r
        else
          UnreadAfterSkip(lines[2..], lines, 2);
          Some(Reply(JoinOn(other.prefix, baseCol, joinCol), lines[2..]))
  }

  /** Two answers naming a base column and a column of the joined table
      are taken as the pair, and reading goes on after them. */
  lemma AcceptedPairTaken(base: Dataset, other: Dataset, good: string, fits: string, lines: seq<string>)
    requires Trim(good) in base.columns && Trim(fits) in other.columns
    ensures AskJoinColumns(base, other, [good, fits] + lines)
              == Some(Reply(JoinOn(other.prefix, Trim(good), Trim(fits)), lines))
  {
    var l := [good, fits] + lines;
    assert l[0] == good && l[1] == fits;
    assert l[2..] == lines;
  }

  /** A base column answer the base table lacks changes nothing. */
  lemma RejectedBaseColumnSkipped(base: Dataset, other: Dataset, bad: string, lines: seq<string>)
    requires Trim(bad) !in base.columns
    ensures AskJoinColumns(base, other, [bad] + lines) == AskJoinColumns(base, other, lines)
  {
    assert ([bad] + lines)[1..] == lines;
  }

  /** A join column answer the joined table lacks discards the pair, and the
      next answer is read as a base column again. */
  lemma RejectedJoinColumnRestarts(base: Dataset, other: Dataset, good: string, bad: string, lines: seq<string>)
    requires Trim(good) in base.columns && Trim(bad) !in other.columns
    ensures AskJoinColumns(base, other, [good, bad] + lines) == AskJoinColumns(base, other, lines)
  {
    var l := [good, bad] + lines;
    assert l[0] == good && l[1] == bad;
    assert l[2..] == lines;
  }

  /** `for join_table in tables[1:]`: one validated join per dataset after
      the base, in insertion order. */
  function ChooseJoins(base: Dataset, others: seq<Dataset>, lines: seq<string>): (r: Option<Reply<seq<JoinOn>>>)
    ensures r.Some? ==> |r.value.value| == |others|
    ensures r.Some? ==> forall i :: 0 <= i < |others| ==>
              && r.value.value[i].table == others[i].prefix
              && r.value.value[i].baseCol in base.columns
              && r.value.value[i].joinCol in others[i].columns
    ensures r.Some? ==> Unread(r.value.rest, lines)
    ensures |others| == 0 ==> r == Some(Reply([], lines))
    decreases |others|
  {
    if |others| == 0 then Some(Reply([], lines))
    else
      match AskJoinColumns(base, others[0], lines)
      case None => None
      case Some(Reply(j, rest)) =>
        match ChooseJoins(base, others[1..], rest)
        case None => None
        case Some(Reply(js, rest')) =>
          ChooseJoinsCons(base, others, j, js);
          UnreadTransitive(rest', rest, lines);
          Some(Reply([j] + js, rest'))
  }

  lemma ChooseJoinsCons(base: Dataset, others: seq<Dataset>, j: JoinOn, js: seq<JoinOn>)
    requires |others| > 0 && |js| == |others| - 1
    requires j.table == others[0].prefix && j.baseCol in base.columns && j.joinCol in others[0].columns
    requires forall i :: 0 <= i < |js| ==>
              && js[i].table == others[1..][i].prefix
              && js[i].baseCol in base.columns
              && js[i].joinCol in others[1..][i].columns
    ensures forall i :: 0 <= i < |others| ==>
              && ([j] + js)[i].table == others[i].prefix
              && ([j] + js)[i].baseCol in base.columns
              && ([j] + js)[i].joinCol in others[i].columns
  {
    forall i | 1 <= i < |others|
      ensures ([j] + js)[i] == js[i - 1] && others[i] == others[1..][i - 1]
    {
    }
  }

  /** The join text: the select text without its trailing semicolons, one
      clause per joined dataset with the base table on the left, then one
      ";". With a single dataset there is nothing to join and only the
      semicolons change. */
  function JoinSql(c: Collection, select: string, lines: seq<string>): (r: Option<Reply<string>>)
    requires |c| > 0
    ensures r.Some? <==> ChooseJoins(c[0], c[1..], lines).Some?
    ensures r.Some? ==> StripTrailing(select, ';') <= r.value.value
    ensures r.Some? ==> |r.value.value| > 0 && r.value.value[|r.value.value| - 1] == ';'
    ensures |c| == 1 ==> r == Some(Reply(StripTrailing(select, ';') + ";", lines))
  {
    match ChooseJoins(c[0], c[1..], lines)
    case None => None
    case Some(Reply(js, rest)) =>
      var text := StripTrailing(select, ';') + Clauses(c[0].prefix, js);
      assert |c| == 1 ==> js == [] && text == StripTrailing(select, ';');
      Some(Reply(text + ";", rest))
  }

  /** The loop of `build_sql_join` from the point where `sql` has been
      built and `others` remain to be joined. */
  function JoinFrom(base: Dataset, sql: string, others: seq<Dataset>, lines: seq<string>): Option<Reply<string>>
    decreases |others|
  {
    if |others| == 0 then Some(Reply(sql + ";", lines))
    else
      match AskJoinColumns(base, others[0], lines)
      case None => None
      case Some(Reply(j, rest)) =>
        JoinFrom(base, sql + Clause(base.prefix, j), others[1..], rest)
  }

  /** A rejected base column answer leaves the text unchanged while any
      dataset is being joined, whatever has been built so far. */
  lemma RejectedBaseColumnKeepsText(base: Dataset, sql: string, others: seq<Dataset>, bad: string, lines: seq<string>)
    requires |others| > 0 && Trim(bad) !in base.columns
    ensures JoinFrom(base, sql, others, [bad] + lines) == JoinFrom(base, sql, others, lines)
  {
    RejectedBaseColumnSkipped(base, others[0], bad, lines);
  }

  /** A rejected join column answer leaves the text unchanged while any
      dataset is being joined, and the next answer is read as a base column. */
  lemma RejectedJoinColumnKeepsText(base: Dataset, sql: string, others: seq<Dataset>, good: string, bad: string,
                                    lines: seq<string>)
    requires |others| > 0 && Trim(good) in base.columns && Trim(bad) !in others[0].columns
    ensures JoinFrom(base, sql, others, [good, bad] + lines) == JoinFrom(base, sql, others, lines)
  {
    RejectedJoinColumnRestarts(base, others[0], good, bad, lines);
  }

  /** A rejected base column answer for the first dataset joined leaves the
      joined text unchanged; `RejectedBaseColumnKeepsText` covers every later
      one. */
  lemma RejectedBaseColumnIgnored(c: Collection, select: string, bad: string, lines: seq<string>)
    requires |c| > 1 && Trim(bad) !in c[0].columns
    ensures JoinSql(c, select, [bad] + lines) == JoinSql(c, select, lines)
  {
    RejectedBaseColumnSkipped(c[0], c[1], bad, lines);
    SameFirstJoinSameChoice(c[0], c[1..], [bad] + lines, lines);
  }

  /** A rejected join column answer for the first dataset joined leaves the
      joined text unchanged, and the next answer is read as a base column;
      `RejectedJoinColumnKeepsText` covers every later one. */
  lemma RejectedJoinColumnIgnored(c: Collection, select: string, good: string, bad: string, lines: seq<string>)
    requires |c| > 1 && Trim(good) in c[0].columns && Trim(bad) !in c[1].columns
    ensures JoinSql(c, select, [good, bad] + lines) == JoinSql(c, select, lines)
  {
    RejectedJoinColumnRestarts(c[0], c[1], good, bad, lines);
    SameFirstJoinSameChoice(c[0], c[1..], [good, bad] + lines, lines);
  }

  lemma SameFirstJoinSameChoice(base: Dataset, others: seq<Dataset>, a: seq<string>, b: seq<string>)
    requires |others| > 0
    requires AskJoinColumns(base, others[0], a) == AskJoinColumns(base, others[0], b)
    ensures ChooseJoins(base, others, a) == ChooseJoins(base, others, b)
  {
  }

  /** Growing the text clause by clause gives the text built from all the
      chosen joins at once. */
  lemma {:induction false} JoinFromChosen(base: Dataset, sql: string, others: seq<Dataset>, lines: seq<string>)
    ensures JoinFrom(base, sql, others, lines) ==
              match ChooseJoins(base, others, lines)
              case None => None
              case Some(Reply(js, rest)) => Some(Reply(sql + Clauses(base.prefix, js) + ";", rest))
    decreases |others|
  {
    if |others| == 0 {
      assert sql + Clauses(base.prefix, []) == sql;
    } else {
      match AskJoinColumns(base, others[0], lines)
      case None =>
      case Some(Reply(j, rest)) =>
        JoinFromChosen(base, sql + Clause(base.prefix, j), others[1..], rest);
        match ChooseJoins(base, others[1..], rest)
        case None =>
        case Some(Reply(js, rest')) =>
          assert ([j] + js)[0] == j && ([j] + js)[1..] == js;
          assert sql + Clause(base.prefix, j) + Clauses(base.prefix, js)
              == sql + Clauses(base.prefix, [j] + js);
      }
  }

  lemma JoinSqlByLoop(c: Collection, select: string, lines: seq<string>)
    requires |c| > 0
    ensures JoinSql(c, select, lines) == JoinFrom(c[0], StripTrailing(select, ';'), c[1..], lines)
  {
    JoinFromChosen(c[0], StripTrailing(select, ';'), c[1..], lines);
  }

  /** `build_sql_join` as the script runs it: a string grown clause by
      clause. It computes exactly `JoinSql`. */
  method BuildJoin(c: Collection, select: string, lines: seq<string>) returns (r: Option<Reply<string>>)
    requires |c| > 0
    ensures r == JoinSql(c, select, lines)
  {
    var head := StripTrailing(select, ';');
    var sql := head;
    var rest := lines;
    var k := 1;
    while k < |c|
      invariant 1 <= k <= |c|
      invariant JoinFrom(c[0], sql, c[k..], rest) == JoinFrom(c[0], head, c[1..], lines)
    {
      assert c[k..][0] == c[k] && c[k..][1..] == c[k + 1..];
      var step := AskJoinColumns(c[0], c[k], rest);
      if step.None? {
        JoinSqlByLoop(c, select, lines);
        return None;
      }
      sql := sql + Clause(c[0].prefix, step.value.value);
      rest := step.value.rest;
      k := k + 1;
    }
    assert c[k..] == [];
    JoinSqlByLoop(c, select, lines);
    r := Some(Reply(sql + ";", rest));
  }
}
