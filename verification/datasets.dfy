/**
 The datasets the user registers, and the loop that registers them
 (`source_exctration` in the script). A dataset is reduced to its prefix and
 the ordered names of its columns: row data is never read by the query
 builder. The collection is a Python dict from prefix to dataset, so it is
 modelled as an insertion-ordered association list whose insert overwrites
 an existing key in place.
 */
module Datasets {
  import opened Prompt
  import Text

  type Columns = seq<string>

  datatype Dataset = Dataset(prefix: string, columns: Columns)

  type Collection = seq<Dataset>

  /** `list(dfs.keys())`, in insertion order. */
  function Keys(c: Collection): (ks: seq<string>)
    ensures |ks| == |c|
    ensures forall i :: 0 <= i < |c| ==> ks[i] == c[i].prefix
    decreases |c|
  {
    if |c| == 0 then [] else [c[0].prefix] + Keys(c[1..])
  }

  predicate NoDuplicates(ks: seq<string>) {
    forall i, j :: 0 <= i < j < |ks| ==> ks[i] != ks[j]
  }

  /** `dfs.get(p)`: the columns stored under prefix `p`. */
  function Lookup(c: Collection, p: string): (r: Option<Columns>)
    ensures r.Some? <==> p in Keys(c)
    decreases |c|
  {
    if |c| == 0 then None
    else if c[0].prefix == p then Some(c[0].columns)
    else Lookup(c[1..], p)
  }

  /** `dfs[p] = cols`: a new prefix is appended at the end; a known prefix
      keeps its position and only its columns change. */
  function Insert(c: Collection, p: string, cols: Columns): (r: Collection)
    ensures Keys(r) == if p in Keys(c) then Keys(c) else Keys(c) + [p]
    ensures Lookup(r, p) == Some(cols)
    ensures forall q :: q != p ==> Lookup(r, q) == Lookup(c, q)
    decreases |c|
  {
    if |c| == 0 then [Dataset(p, cols)]
    else if c[0].prefix == p then [Dataset(p, cols)] + c[1..]
    else
      var tail := Insert(c[1..], p, cols);
      InsertBehind(c, p, cols, tail);
      [c[0]] + tail
  }

  /** Inserting behind a first entry with another prefix keeps that entry in
      front. */
  lemma InsertBehind(c: Collection, p: string, cols: Columns, tail: Collection)
    requires |c| > 0 && c[0].prefix != p
    requires Keys(tail) == if p in Keys(c[1..]) then Keys(c[1..]) else Keys(c[1..]) + [p]
    requires Lookup(tail, p) == Some(cols)
    requires forall q :: q != p ==> Lookup(tail, q) == Lookup(c[1..], q)
    ensures Keys([c[0]] + tail) == if p in Keys(c) then Keys(c) else Keys(c) + [p]
    ensures Lookup([c[0]] + tail, p) == Some(cols)
    ensures forall q :: q != p ==> Lookup([c[0]] + tail, q) == Lookup(c, q)
  {
    var r := [c[0]] + tail;
    assert r[1..] == tail;
    assert Keys(r) == [c[0].prefix] + Keys(tail);
    assert Keys(c) == [c[0].prefix] + Keys(c[1..]);
  }

  /** The first-inserted entry, the base table of the query, never changes
      once the collection is non-empty. */
  lemma InsertKeepsBase(c: Collection, p: string, cols: Columns)
    ensures |c| > 0 ==> Insert(c, p, cols)[0].prefix == c[0].prefix
  {
    if |c| > 0 {
      assert Keys(Insert(c, p, cols))[0] == Keys(c)[0];
    }
  }

  lemma InsertKeepsKeysUnique(c: Collection, p: string, cols: Columns)
    requires NoDuplicates(Keys(c))
    ensures NoDuplicates(Keys(Insert(c, p, cols)))
  {
  }

  /** The files the loader can read: `raw/<prefix>.csv` exists and pandas
      reads it, with this header. */
  type Files = map<string, Columns>

  /** A typed prefix line is accepted when its stripped text names a
      readable file. */
  function Readable(files: Files): string -> bool {
    line => Text.Trim(line) in files
  }

  /** Every entry holds exactly the header of the file its prefix names. */
  predicate LoadedFrom(c: Collection, files: Files) {
    forall i :: 0 <= i < |c| ==> c[i].prefix in files && c[i].columns == files[c[i].prefix]
  }

  /** Storing a freshly read file keeps every entry equal to its file. */
  lemma InsertLoaded(c: Collection, p: string, files: Files)
    requires p in files && LoadedFrom(c, files) && NoDuplicates(Keys(c))
    ensures LoadedFrom(Insert(c, p, files[p]), files)
  {
    var next := Insert(c, p, files[p]);
    InsertKeepsKeysUnique(c, p, files[p]);
    forall j | 0 <= j < |next|
      ensures next[j].prefix in files && next[j].columns == files[next[j].prefix]
    {
      var q := next[j].prefix;
      assert Keys(next)[j] == q;
      LookupFinds(next, j);
      if q != p {
        assert q in Keys(c);
        var jj :| 0 <= jj < |c| && Keys(c)[jj] == q;
        LookupFinds(c, jj);
      }
    }
  }

  /** Runs `k` more iterations of the loader loop on top of `acc`. */
  function LoadMore(acc: Collection, k: nat, files: Files, lines: seq<string>): (r: Option<Reply<Collection>>)
    requires LoadedFrom(acc, files) && NoDuplicates(Keys(acc))
    ensures r.Some? ==> LoadedFrom(r.value.value, files) && NoDuplicates(Keys(r.value.value))
    ensures r.Some? ==> |acc| <= |r.value.value| <= |acc| + k
    ensures r.Some? && |acc| > 0 ==> r.value.value[0].prefix == acc[0].prefix
    ensures r.Some? && (k > 0 || |acc| > 0) ==> |r.value.value| > 0
    ensures r.Some? ==> Unread(r.value.rest, lines)
    decreases k
  {
    if k == 0 then Some(Reply(acc, lines))
    else
      match FirstAccepted(lines, Readable(files))
      case None => None
      case Some(i) =>
        var p := Text.Trim(lines[i]);
        var next := Insert(acc, p, files[p]);
        InsertKeepsKeysUnique(acc, p, files[p]);
        InsertLoaded(acc, p, files);
        InsertKeepsBase(acc, p, files[p]);
        var r := LoadMore(next, k - 1, files, lines[i + 1..]);
        UnreadAfterSkip(if r.Some? then r.value.rest else [], lines, i + 1);
        r
  }

  /** A readable answer is stored at once and the loop goes on with the
      answers after it. */
  lemma ReadableAnswerStored(acc: Collection, k: nat, files: Files, lines: seq<string>)
    requires LoadedFrom(acc, files) && NoDuplicates(Keys(acc))
    requires |lines| > 0 && Text.Trim(lines[0]) in files
    ensures var p := Text.Trim(lines[0]);
            && LoadedFrom(Insert(acc, p, files[p]), files) && NoDuplicates(Keys(Insert(acc, p, files[p])))
            && LoadMore(acc, k + 1, files, lines) == LoadMore(Insert(acc, p, files[p]), k, files, lines[1..])
  {
    var p := Text.Trim(lines[0]);
    InsertKeepsKeysUnique(acc, p, files[p]);
    InsertLoaded(acc, p, files);
    assert FirstAccepted(lines, Readable(files)) == Some(0) by {
      assert Readable(files)(lines[0]);
    }
  }

  /** A prefix naming no readable file is skipped without a trace: the loop
      asks again for the same dataset. */
  lemma UnreadableAnswerSkipped(acc: Collection, k: nat, files: Files, bad: string, lines: seq<string>)
    requires LoadedFrom(acc, files) && NoDuplicates(Keys(acc))
    requires Text.Trim(bad) !in files
    ensures LoadMore(acc, k + 1, files, [bad] + lines) == LoadMore(acc, k + 1, files, lines)
  {
    RejectedLineSkipped(bad, lines, Readable(files));
    var found := FirstAccepted(lines, Readable(files));
    if found.Some? {
      var i := found.value;
      assert ([bad] + lines)[i + 1] == lines[i];
      assert ([bad] + lines)[i + 2..] == lines[i + 1..];
    }
  }

  /** With unique keys, looking up the key at position `j` finds entry `j`. */
  lemma {:induction false} LookupFinds(c: Collection, j: nat)
    requires j < |c| && NoDuplicates(Keys(c))
    ensures Lookup(c, c[j].prefix) == Some(c[j].columns)
    decreases j
  {
    if j > 0 {
      assert Keys(c)[0] != Keys(c)[j];
      assert NoDuplicates(Keys(c[1..])) by {
        forall a, b | 0 <= a < b < |c| - 1 ensures Keys(c[1..])[a] != Keys(c[1..])[b] {
          assert Keys(c)[a + 1] != Keys(c)[b + 1];
        }
      }
      LookupFinds(c[1..], j - 1);
    }
  }

  /** `source_exctration(n)`: `range(0, n)` runs no iteration when `n` is not
      positive. */
  function LoadDatasets(n: int, files: Files, lines: seq<string>): (r: Option<Reply<Collection>>)
    ensures r.Some? ==> LoadedFrom(r.value.value, files) && NoDuplicates(Keys(r.value.value))
    ensures r.Some? ==> |r.value.value| <= (if n < 0 then 0 else n)
    ensures r.Some? && n > 0 ==> |r.value.value| > 0
    ensures r.Some? ==> Unread(r.value.rest, lines)
  {
    LoadMore([], if n < 0 then 0 else n, files, lines)
  }

  /** The base table is the first prefix the user typed that names a
      readable file, whatever is typed afterwards. */
  lemma BaseIsFirstReadable(n: int, files: Files, lines: seq<string>)
    requires n > 0
    requires LoadDatasets(n, files, lines).Some?
    ensures FirstAccepted(lines, Readable(files)).Some?
    ensures LoadDatasets(n, files, lines).value.value[0].prefix
              == Text.Trim(lines[FirstAccepted(lines, Readable(files)).value])
  {
  }
}
