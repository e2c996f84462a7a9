/**
 The handful of Python string operations the query builder relies on:
 `str.strip()`, `str.lower()`, `str.replace(" ", "")`, `str.split(",")`,
 `sep.join(parts)` and `str.rstrip(";")`, each stated over `seq<char>`.
 */
module Text {

  /** The characters Python's `str.isspace()` accepts, which is what the
      argument-less `str.strip()` removes. */
  predicate IsSpace(c: char) {
    || ('\t' <= c <= '\r')
    || ('\U{1C}' <= c <= ' ')
    || c == '\U{85}' || c == '\U{A0}' || c == '\U{1680}'
    || ('\U{2000}' <= c <= '\U{200A}')
    || c == '\U{2028}' || c == '\U{2029}' || c == '\U{202F}'
    || c == '\U{205F}' || c == '\U{3000}'
  }

  /** True iff every character of `s` is whitespace (so `s.strip()` is empty). */
  predicate Blank(s: string) {
    forall k :: 0 <= k < |s| ==> IsSpace(s[k])
  }

  /** `s.lstrip()` */
  function TrimStart(s: string): (r: string)
    ensures |r| <= |s| && r == s[|s| - |r|..]
    ensures forall k :: 0 <= k < |s| - |r| ==> IsSpace(s[k])
    ensures |r| > 0 ==> !IsSpace(r[0])
    decreases |s|
  {
    if |s| > 0 && IsSpace(s[0]) then TrimStart(s[1..]) else s
  }

  /** `s.rstrip()` */
  function TrimEnd(s: string): (r: string)
    ensures |r| <= |s| && r == s[..|r|]
    ensures forall k :: |r| <= k < |s| ==> IsSpace(s[k])
    ensures |r| > 0 ==> !IsSpace(r[|r| - 1])
    decreases |s|
  {
    if |s| > 0 && IsSpace(s[|s| - 1]) then TrimEnd(s[..|s| - 1]) else s
  }

  /** `s.strip()`: the result neither starts nor ends with whitespace, and it
      is empty exactly when `s` is blank; `TrimKeepsMiddle` adds that it is
      the slice of `s` between two blank ends. */
  function Trim(s: string): (r: string)
    ensures |r| <= |s|
    ensures |s| > 0 && !IsSpace(s[0]) && !IsSpace(s[|s| - 1]) ==> r == s
    ensures |r| > 0 ==> !IsSpace(r[0]) && !IsSpace(r[|r| - 1])
    ensures r == [] <==> Blank(s)
  {
    var left := TrimStart(s);
    var r := TrimEnd(left);
    TrimBlank(s, left, r);
    TrimEnds(s, left, r);
    r
  }

  /** What `strip()` keeps is the middle of `s`: only whitespace lies before
      it and after it. */
  lemma TrimKeepsMiddle(s: string)
    ensures BlankAround(s, Trim(s))
  {
    TrimMiddle(s, TrimStart(s), Trim(s));
  }

  /** `r` is a slice of `s` with only whitespace before it and after it. */
  predicate BlankAround(s: string, r: string) {
    exists i :: 0 <= i <= |s| - |r| && r == s[i..i + |r|] && Blank(s[..i]) && Blank(s[i + |r|..])
  }

  lemma TrimMiddle(s: string, left: string, r: string)
    requires left == TrimStart(s) && r == TrimEnd(left)
    ensures BlankAround(s, r)
  {
    MiddleFromEnds(s, |s| - |left|, left, r);
  }

  /** A slice with whitespace on both sides of it, stated index by index. */
  lemma MiddleFromEnds(s: string, i: nat, left: string, r: string)
    requires i <= |s| && left == s[i..] && forall k :: 0 <= k < i ==> IsSpace(s[k])
    requires |r| <= |left| && r == left[..|r|] && forall k :: |r| <= k < |left| ==> IsSpace(left[k])
    ensures BlankAround(s, r)
  {
    BlankSlice(s, 0, i);
    BlankSlice(left, |r|, |left|);
    MiddleOfSlice(s, i, left, r);
  }

  lemma BlankSlice(s: string, lo: nat, hi: nat)
    requires lo <= hi <= |s|
    requires forall k :: lo <= k < hi ==> IsSpace(s[k])
    ensures Blank(s[lo..hi])
  {
    forall k | 0 <= k < hi - lo ensures IsSpace(s[lo..hi][k]) {
      assert s[lo..hi][k] == s[lo + k];
    }
  }

  /** `r`, a prefix of the suffix `left` of `s`, sits in `s` at `i`. */
  lemma MiddleOfSlice(s: string, i: nat, left: string, r: string)
    requires i <= |s| && left == s[i..] && |r| <= |left| && r == left[..|r|]
    requires Blank(s[0..i]) && Blank(left[|r|..|left|])
    ensures BlankAround(s, r)
  {
    assert s[0..i] == s[..i];
    assert left[|r|..|left|] == s[i + |r|..];
    assert r == s[i..i + |r|];
  }

  lemma TrimEnds(s: string, left: string, r: string)
    requires left == TrimStart(s) && r == TrimEnd(left)
    ensures |s| > 0 && !IsSpace(s[0]) && !IsSpace(s[|s| - 1]) ==> r == s
    ensures |r| > 0 ==> !IsSpace(r[0]) && !IsSpace(r[|r| - 1])
  {
    if |r| > 0 {
      assert r[0] == left[0];
    }
  }

  lemma TrimBlank(s: string, left: string, r: string)
    requires left == TrimStart(s) && r == TrimEnd(left)
    ensures r == [] <==> Blank(s)
  {
    var off := |s| - |left|;
    if r == [] {
      assert left == [];
    } else {
      assert r[0] == left[0];
      assert left[0] == s[off];
    }
  }

  /** Python's `str.lower()` restricted to ASCII letters. */
  function LowerChar(c: char): char {
    if 'A' <= c <= 'Z' then (c as int + 32) as char else c
  }

  function Lower(s: string): (r: string)
    ensures |r| == |s|
    ensures forall k :: 0 <= k < |s| ==> r[k] == LowerChar(s[k])
  {
    seq(|s|, k requires 0 <= k < |s| => LowerChar(s[k]))
  }

  /** The only texts that lower-case to "y" are "y" and "Y". */
  lemma LowerIsY(s: string)
    ensures Lower(s) == "y" <==> s == "y" || s == "Y"
  {
    if Lower(s) == "y" {
      assert |s| == 1;
      assert LowerChar(s[0]) == 'y';
      assert s == [s[0]];
    }
  }

  /** `s.replace([c], "")`: drop every occurrence of `c`. */
  function Remove(s: string, c: char): (r: string)
    ensures c !in r
    ensures forall d :: d != c ==> multiset(r)[d] == multiset(s)[d]
    decreases |s|
  {
    if |s| == 0 then ""
    else
      assert s == [s[0]] + s[1..];
      (if s[0] == c then "" else [s[0]]) + Remove(s[1..], c)
  }

  lemma {:induction false} RemoveAppend(a: string, b: string, c: char)
    ensures Remove(a + b, c) == Remove(a, c) + Remove(b, c)
    decreases |a|
  {
    if |a| > 0 {
      assert (a + b)[1..] == a[1..] + b;
      RemoveAppend(a[1..], b, c);
    } else {
      assert a + b == b;
    }
  }

  lemma {:induction false} RemoveAbsent(s: string, c: char)
    requires c !in s
    ensures Remove(s, c) == s
    decreases |s|
  {
    if |s| > 0 {
      RemoveAbsent(s[1..], c);
      assert s == [s[0]] + s[1..];
    }
  }

  /** `sep.join(parts)`: the text opens with the first part. */
  function JoinWith(parts: seq<string>, sep: string): (r: string)
    ensures |parts| > 0 ==> parts[0] <= r
    decreases |parts|
  {
    if |parts| == 0 then ""
    else if |parts| == 1 then parts[0]
    else parts[0] + sep + JoinWith(parts[1..], sep)
  }

  /** A joined text closes with the last part. */
  lemma {:induction false} JoinWithLast(parts: seq<string>, sep: string)
    ensures |parts| > 0 ==> var r, last := JoinWith(parts, sep), parts[|parts| - 1];
                            |last| <= |r| && r[|r| - |last|..] == last
    decreases |parts|
  {
    if |parts| > 1 {
      JoinWithLast(parts[1..], sep);
      var tail := JoinWith(parts[1..], sep);
      assert parts[|parts| - 1] == parts[1..][|parts| - 2];
      assert (parts[0] + sep + tail)[|parts[0] + sep + tail| - |tail|..] == tail;
    }
  }

  /** `s.split(sep)` for a one-character separator: one piece more than there
      are separators, and no piece contains the separator. */
  function Split(s: string, sep: char): (r: seq<string>)
    ensures |r| == multiset(s)[sep] + 1
    ensures forall i :: 0 <= i < |r| ==> sep !in r[i]
    decreases |s|
  {
    if |s| == 0 then [""]
    else
      var rest := Split(s[1..], sep);
      assert s == [s[0]] + s[1..];
      if s[0] == sep then [""] + rest
      else [[s[0]] + rest[0]] + rest[1..]
  }

  /** Joining the pieces of a split back with the separator gives the text. */
  lemma {:induction false} JoinSplit(s: string, sep: char)
    ensures JoinWith(Split(s, sep), [sep]) == s
    decreases |s|
  {
    if |s| > 0 {
      JoinSplit(s[1..], sep);
      JoinSplitStep(s, sep);
    }
  }

  /** One step of `JoinSplit`: the first character either is a separator or
      starts the first piece. */
  lemma JoinSplitStep(s: string, sep: char)
    requires |s| > 0 && JoinWith(Split(s[1..], sep), [sep]) == s[1..]
    ensures JoinWith(Split(s, sep), [sep]) == s
  {
    if s[0] == sep {
      JoinSplitAtSeparator(s, sep, Split(s[1..], sep));
    } else {
      JoinSplitInPiece(s, sep, Split(s[1..], sep));
    }
  }

  lemma JoinSplitAtSeparator(s: string, sep: char, rest: seq<string>)
    requires |s| > 0 && s[0] == sep && rest == Split(s[1..], sep) && JoinWith(rest, [sep]) == s[1..]
    ensures JoinWith(Split(s, sep), [sep]) == s
  {
    assert Split(s, sep) == [""] + rest;
    JoinCons("", rest, [sep]);
    assert "" + [sep] + s[1..] == s;
  }

  lemma JoinSplitInPiece(s: string, sep: char, rest: seq<string>)
    requires |s| > 0 && s[0] != sep && rest == Split(s[1..], sep) && JoinWith(rest, [sep]) == s[1..]
    ensures JoinWith(Split(s, sep), [sep]) == s
  {
    assert Split(s, sep) == [[s[0]] + rest[0]] + rest[1..];
    JoinExtendFirst([s[0]], rest, [sep]);
    assert [s[0]] + s[1..] == s;
  }

  lemma JoinCons(head: string, parts: seq<string>, sep: string)
    requires |parts| >= 1
    ensures JoinWith([head] + parts, sep) == head + sep + JoinWith(parts, sep)
  {
    assert ([head] + parts)[1..] == parts;
  }

  /** Growing the first piece grows the joined text at its front. */
  lemma JoinExtendFirst(x: string, parts: seq<string>, sep: string)
    requires |parts| >= 1
    ensures JoinWith([x + parts[0]] + parts[1..], sep) == x + JoinWith(parts, sep)
  {
    var r := [x + parts[0]] + parts[1..];
    if |parts| > 1 {
      assert r[1..] == parts[1..];
      assert x + parts[0] + sep + JoinWith(parts[1..], sep) == x + (parts[0] + sep + JoinWith(parts[1..], sep));
    }
  }

  lemma {:induction false} SplitNoSeparator(s: string, sep: char)
    requires sep !in s
    ensures Split(s, sep) == [s]
  {
    var r := Split(s, sep);
    assert multiset(s)[sep] == 0;
    JoinSplit(s, sep);
  }

  lemma {:induction false} SplitAfterFirst(a: string, b: string, sep: char)
    requires sep !in a
    ensures Split(a + [sep] + b, sep) == [a] + Split(b, sep)
    decreases |a|
  {
    if |a| == 0 {
      assert a + [sep] + b == [sep] + b;
      assert ([sep] + b)[1..] == b;
    } else {
      assert (a + [sep] + b)[1..] == a[1..] + [sep] + b;
      SplitAfterFirst(a[1..], b, sep);
      assert [a[0]] + a[1..] == a;
    }
  }

  /** Splitting undoes joining, as long as no piece contains the separator. */
  lemma {:induction false} SplitJoin(parts: seq<string>, sep: char)
    requires |parts| >= 1
    requires forall i :: 0 <= i < |parts| ==> sep !in parts[i]
    ensures Split(JoinWith(parts, [sep]), sep) == parts
    decreases |parts|
  {
    if |parts| == 1 {
      SplitNoSeparator(parts[0], sep);
    } else {
      SplitJoin(parts[1..], sep);
      SplitAfterFirst(parts[0], JoinWith(parts[1..], [sep]), sep);
      assert [parts[0]] + parts[1..] == parts;
    }
  }

  /** Deleting spaces from a ", "-joined list of space-free pieces gives the
      ","-joined list. */
  lemma {:induction false} RemoveSpacesJoin(parts: seq<string>)
    requires forall i :: 0 <= i < |parts| ==> ' ' !in parts[i]
    ensures Remove(JoinWith(parts, ", "), ' ') == JoinWith(parts, ",")
    decreases |parts|
  {
    if |parts| == 1 {
      RemoveAbsent(parts[0], ' ');
    } else if |parts| > 1 {
      RemoveSpacesJoin(parts[1..]);
      RemoveAbsent(parts[0], ' ');
      RemoveAppend(parts[0] + ", ", JoinWith(parts[1..], ", "), ' ');
      RemoveAppend(parts[0], ", ", ' ');
      assert Remove(", ", ' ') == ",";
    }
  }

  /** `s.rstrip([c])`: the longest prefix of `s` that does not end in `c`;
      everything cut off is `c`. */
  function StripTrailing(s: string, c: char): (r: string)
    ensures r <= s
    ensures |r| == 0 || r[|r| - 1] != c
    ensures forall k :: |r| <= k < |s| ==> s[k] == c
    decreases |s|
  {
    if |s| > 0 && s[|s| - 1] == c then StripTrailing(s[..|s| - 1], c) else s
  }

  /** A prefix that ends in some other character survives `rstrip`. */
  lemma StripTrailingKeepsPrefix(a: string, b: string, c: char)
    requires |a| > 0 && a[|a| - 1] != c
    ensures a <= StripTrailing(a + b, c)
  {
    assert (a + b)[|a| - 1] == a[|a| - 1];
  }

  /** `rstrip` takes exactly the one trailing `c` off a text that otherwise
      ends in another character. */
  lemma StripTrailingOne(a: string, c: char)
    requires |a| > 0 && a[|a| - 1] != c
    ensures StripTrailing(a + [c], c) == a
  {
    StripTrailingKeepsPrefix(a, [c], c);
  }
}
