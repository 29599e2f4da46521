/** Assembling the text sent to the language model: a fixed preamble, the
    symbol's text, a fixed instruction block, and the enclosing bodies
    joined by newlines inside a pair of triple back-quote fences. */
module Prompt {

  /** The preamble. It is followed by the symbol with no space in between. */
  const Goal: string := "I want a list of suggestions to rename the symbol"

  /** The instruction block that follows the symbol, trailing spaces and
      blank lines included. */
  const ReturnAndWarnings: string :=
    "to follow best practices in readability. \n\nThe list should be separated on a new line and organized from the best fitting rename to the worst fitting rename. \nKeep your results at 5 suggestions max.\n\nYou must infer what best practices would be based on the context provided below. That would include based on \nprogramming names and up to date libraries in addition to the context given. You are given the complete context of \nthis symbol. If you are not confident return only one answer that is the same as the symbol name given to you. If you \nare given function arguments in addition to the symbol only rename the symbol.\n\nThe following is additional context to help you rename:\n\n"

  const Fence: string := "```"

  /** `parts.join(sep)`: the parts in order with `sep` between neighbours.
      The joined text begins with the first part and ends with the last. */
  function Join(parts: seq<string>, sep: string): (r: string)
    ensures parts == [] ==> r == ""
    ensures |parts| >= 1 ==> parts[0] <= r
    ensures |parts| >= 1 ==> |parts[|parts| - 1]| <= |r| && r[|r| - |parts[|parts| - 1]|..] == parts[|parts| - 1]
    decreases |parts|
  {
    if parts == [] then ""
    else if |parts| == 1 then parts[0]
    else parts[0] + sep + Join(parts[1..], sep)
  }

  /** Splitting at every occurrence of `sep`, the inverse of joining. */
  function Split(s: string, sep: char): (r: seq<string>)
    ensures |r| >= 1
    decreases |s|
  {
    if s == [] then [""]
    else
      var rest := Split(s[1..], sep);
      if s[0] == sep then [""] + rest
      else [[s[0]] + rest[0]] + rest[1..]
  }

  /** The sum of the lengths of the parts. */
  function TotalLength(parts: seq<string>): nat
  {
    if parts == [] then 0 else |parts[0]| + TotalLength(parts[1..])
  }

  /** The prompt built from the symbol's text and the enclosing bodies: it
      opens with the preamble directly followed by the symbol's text and the
      instructions, and closes with a fence. */
  function BuildPrompt(symbolToRename: string, bodies: seq<string>): (r: string)
    ensures Goal + symbolToRename + ReturnAndWarnings + Fence <= r
    ensures |r| >= |Goal| + |symbolToRename| + |ReturnAndWarnings| + 2 * |Fence|
    ensures r[|r| - |Fence|..] == Fence
  {
    Goal + symbolToRename + ReturnAndWarnings + Fence + Join(bodies, "\n") + Fence
  }

  /** The symbol's text read back from a prompt, given its length. */
  function PromptSymbol(prompt: string, n: nat): string
    requires |Goal| + n <= |prompt|
  {
    prompt[|Goal|..|Goal| + n]
  }

  /** The fenced body read back from a prompt, given the symbol's length. */
  function PromptBody(prompt: string, n: nat): string
    requires |Goal| + n + |ReturnAndWarnings| + 2 * |Fence| <= |prompt|
  {
    prompt[|Goal| + n + |ReturnAndWarnings| + |Fence|..|prompt| - |Fence|]
  }

  /** Joining inserts the separator once between each pair of neighbours and
      nowhere else: its length is that of the parts plus `n - 1` separators. */
  lemma {:induction false} JoinLength(parts: seq<string>, sep: string)
    requires |parts| >= 1
    ensures |Join(parts, sep)| == TotalLength(parts) + (|parts| - 1) * |sep|
    decreases |parts|
  {
    if |parts| > 1 {
      JoinLength(parts[1..], sep);
      calc {
        |Join(parts, sep)|;
        |parts[0]| + |sep| + |Join(parts[1..], sep)|;
        |parts[0]| + |sep| + TotalLength(parts[1..]) + (|parts| - 2) * |sep|;
        { assert (|parts| - 2) * |sep| + |sep| == (|parts| - 1) * |sep|; }
        TotalLength(parts) + (|parts| - 1) * |sep|;
      }
    }
  }

  /** A string without the separator splits into itself alone. */
  lemma {:induction false} SplitWithoutSeparator(s: string, sep: char)
    requires sep !in s
    ensures Split(s, sep) == [s]
    decreases |s|
  {
    if s != [] {
      SplitWithoutSeparator(s[1..], sep);
      assert [s[0]] + s[1..] == s;
    }
  }

  /** Splitting `a`, a separator and `b`, where `a` has no separator, gives
      `a` followed by the pieces of `b`. */
  lemma {:induction false} SplitAtFirstSeparator(a: string, sep: char, b: string)
    requires sep !in a
    ensures Split(a + [sep] + b, sep) == [a] + Split(b, sep)
    decreases |a|
  {
    var s := a + [sep] + b;
    if a == [] {
      assert s[1..] == b;
    } else {
      assert s[1..] == a[1..] + [sep] + b;
      SplitAtFirstSeparator(a[1..], sep, b);
      assert [a[0]] + a[1..] == a;
    }
  }

  /** Joining parts that do not contain the separator with that separator
      and splitting the result gives the parts back: each of the `n - 1`
      separators in the joined text is one inserted by the join. */
  lemma {:induction false} SplitJoin(parts: seq<string>, sep: char)
    requires |parts| >= 1
    requires forall i :: 0 <= i < |parts| ==> sep !in parts[i]
    ensures Split(Join(parts, [sep]), sep) == parts
    decreases |parts|
  {
    if |parts| == 1 {
      SplitWithoutSeparator(parts[0], sep);
    } else {
      SplitJoin(parts[1..], sep);
      SplitAtFirstSeparator(parts[0], sep, Join(parts[1..], [sep]));
      assert [parts[0]] + parts[1..] == parts;
    }
  }

  /** Where each piece of `a + b + c + d + j + d` lies, whatever the pieces. */
  lemma {:induction false} Layout(a: string, b: string, c: string, d: string, j: string)
    ensures var x := a + b + c + d + j + d;
      && |x| == |a| + |b| + |c| + 2 * |d| + |j|
      && x[..|a|] == a
      && x[|a|..|a| + |b|] == b
      && x[|a| + |b|..|a| + |b| + |c|] == c
      && x[|a| + |b| + |c| + |d|..|x| - |d|] == j
      && x[|x| - |d|..] == d
  {
    var head := a + b + c;
    var x := head + d + j + d;
    assert x[..|head|] == head;
    assert head[..|a|] == a;
    assert head[|a|..|a| + |b|] == b;
    assert head[|a| + |b|..] == c;
  }

  /** The prompt consists of the preamble, the symbol's text, the
      instructions and the fenced body, and the symbol's text and the joined
      bodies can be read back from it. */
  lemma PromptParts(symbolToRename: string, bodies: seq<string>)
    ensures var prompt := BuildPrompt(symbolToRename, bodies);
      && |prompt| == |Goal| + |symbolToRename| + |ReturnAndWarnings| + 2 * |Fence| + |Join(bodies, "\n")|
      && prompt[..|Goal|] == Goal
      && PromptSymbol(prompt, |symbolToRename|) == symbolToRename
      && prompt[|Goal| + |symbolToRename|..|Goal| + |symbolToRename| + |ReturnAndWarnings|] == ReturnAndWarnings
      && PromptBody(prompt, |symbolToRename|) == Join(bodies, "\n")
      && prompt[|prompt| - |Fence|..] == Fence
  {
    Layout(Goal, symbolToRename, ReturnAndWarnings, Fence, Join(bodies, "\n"));
  }

  /** Two prompts for symbols of the same length are equal only if the
      symbols are equal and the joined bodies are equal. */
  lemma PromptInjective(s1: string, b1: seq<string>, s2: string, b2: seq<string>)
    requires |s1| == |s2|
    requires BuildPrompt(s1, b1) == BuildPrompt(s2, b2)
    ensures s1 == s2 && Join(b1, "\n") == Join(b2, "\n")
  {
    PromptParts(s1, b1);
    PromptParts(s2, b2);
  }

  /** With `n >= 1` bodies none of which contains a newline, the fenced body
      of the prompt splits at its newlines back into exactly those bodies. */
  lemma PromptBodiesRecovered(symbolToRename: string, bodies: seq<string>)
    requires |bodies| >= 1
    requires forall i :: 0 <= i < |bodies| ==> '\n' !in bodies[i]
    ensures Split(PromptBody(BuildPrompt(symbolToRename, bodies), |symbolToRename|), '\n') == bodies
  {
    PromptParts(symbolToRename, bodies);
    SplitJoin(bodies, '\n');
  }
}
