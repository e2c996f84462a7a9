/**
 The "prompt, validate, re-prompt" loop that every interactive step of the
 script runs. The user's answers are a finite sequence of input lines; a loop
 either finds an acceptable line or runs out of lines (the script itself
 would keep prompting, or stop on end of input, and never produce a query).
 */
module Prompt {

  datatype Option<+T> = None | Some(value: T)

  /** What a prompt loop produced, together with the input lines it left
      unread for the prompts that follow. */
  datatype Reply<+T> = Reply(value: T, rest: seq<string>)

  /** `rest` is what remains of `lines` once some leading lines are read. */
  predicate Unread(rest: seq<string>, lines: seq<string>) {
    |rest| <= |lines| && rest == lines[|lines| - |rest|..]
  }

  lemma UnreadTransitive(a: seq<string>, b: seq<string>, c: seq<string>)
    requires Unread(a, b) && Unread(b, c)
    ensures Unread(a, c)
  {
    assert c[|c| - |b|..][|b| - |a|..] == c[|c| - |a|..];
  }

  lemma UnreadAfterSkip(rest: seq<string>, lines: seq<string>, k: nat)
    requires k <= |lines|
    ensures Unread(rest, lines[k..]) ==> Unread(rest, lines)
  {
    if Unread(rest, lines[k..]) {
      assert lines[k..][|lines| - k - |rest|..] == lines[|lines| - |rest|..];
    }
  }

  /** Two answers typed before `lines`, read one at a time. */
  lemma TwoThenRest<T>(a: T, b: T, lines: seq<T>)
    ensures [a, b] + lines == [a] + ([b] + lines)
  {
  }

  /** Index of the first line `ok` accepts: every earlier line was rejected,
      and there is no such index only when every line is rejected. */
  function FirstAccepted<T>(inputs: seq<T>, ok: T -> bool): (r: Option<nat>)
    ensures r.Some? ==> r.value < |inputs| && ok(inputs[r.value])
    ensures r.Some? ==> forall j :: 0 <= j < r.value ==> !ok(inputs[j])
    ensures r.None? <==> forall j :: 0 <= j < |inputs| ==> !ok(inputs[j])
    decreases |inputs|
  {
    if |inputs| == 0 then None
    else if ok(inputs[0]) then Some(0)
    else
      match FirstAccepted(inputs[1..], ok)
      case None => None
      case Some(i) => Some(i + 1)
  }

  /** A rejected line is skipped without a trace: the loop answers as if it
      had never been typed. */
  lemma {:induction false} RejectedLineSkipped<T>(bad: T, inputs: seq<T>, ok: T -> bool)
    requires !ok(bad)
    ensures FirstAccepted([bad] + inputs, ok).Some? <==> FirstAccepted(inputs, ok).Some?
    ensures FirstAccepted(inputs, ok).Some? ==>
              FirstAccepted([bad] + inputs, ok).value == FirstAccepted(inputs, ok).value + 1
  {
    assert ([bad] + inputs)[1..] == inputs;
  }
}
