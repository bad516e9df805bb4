/** Byte-string helpers shared by the two writers: Go's `strings.ReplaceAll`
    for a one-byte needle, and the view of a text as newline-terminated
    lines (what `fmt.Fprintln` produces). */
module Text {
  import opened Bytes

  /** `strings.ReplaceAll(s, needle, repl)` where `needle` is a single byte:
      every occurrence is replaced, left to right, and nothing else changes. */
  function ReplaceAll(s: Bytes, needle: Byte, repl: Bytes): (r: Bytes)
    ensures needle !in s ==> r == s
    ensures |r| >= |s| || |repl| == 0
  {
    if s == [] then []
    else (if s[0] == needle then repl else [s[0]]) + ReplaceAll(s[1..], needle, repl)
  }

  /** Replacing in a one-byte string. */
  lemma ReplaceOne(c: Byte, needle: Byte, repl: Bytes)
    ensures ReplaceAll([c], needle, repl) == if c == needle then repl else [c]
  {
    assert [c][1..] == [];
  }

  lemma NoneToReplace(s: Bytes, needle: Byte, repl: Bytes)
    requires needle !in s
    ensures ReplaceAll(s, needle, repl) == s
  {
  }

  /** `input` holds `whole`, which is `head + rest`, at `pos`: it holds
      `head` there, then `rest`. */
  lemma SliceSplit(input: Bytes, pos: nat, whole: Bytes, head: Bytes, rest: Bytes)
    requires whole == head + rest && pos + |whole| <= |input|
    requires input[pos..pos + |whole|] == whole
    ensures input[pos..pos + |head|] == head
    ensures input[pos + |head|..pos + |head| + |rest|] == rest
  {
    assert input[pos..pos + |whole|][..|head|] == head;
    assert input[pos..pos + |whole|][|head|..] == rest;
  }

  /** Replacing distributes over concatenation. */
  lemma {:induction false} ReplaceAllAppend(a: Bytes, b: Bytes, needle: Byte, repl: Bytes)
    ensures ReplaceAll(a + b, needle, repl) == ReplaceAll(a, needle, repl) + ReplaceAll(b, needle, repl)
    decreases |a|
  {
    if a == [] {
      assert a + b == b;
    } else {
      assert (a + b)[1..] == a[1..] + b;
      ReplaceAllAppend(a[1..], b, needle, repl);
    }
  }

  /** A chain of `ReplaceAll` calls, one per (needle, replacement) pair, in
      order. */
  function ReplaceEach(s: Bytes, subs: seq<(Byte, Bytes)>): Bytes
    decreases |subs|
  {
    if subs == [] then s
    else ReplaceEach(ReplaceAll(s, subs[0].0, subs[0].1), subs[1..])
  }

  /** A chain of replacements distributes over concatenation. */
  lemma {:induction false} ReplaceEachAppend(a: Bytes, b: Bytes, subs: seq<(Byte, Bytes)>)
    ensures ReplaceEach(a + b, subs) == ReplaceEach(a, subs) + ReplaceEach(b, subs)
    decreases |subs|
  {
    if subs != [] {
      var (needle, repl) := subs[0];
      ReplaceAllAppend(a, b, needle, repl);
      ReplaceEachAppend(ReplaceAll(a, needle, repl), ReplaceAll(b, needle, repl), subs[1..]);
    }
  }

  /** The text of a sequence of lines, each followed by a newline, as
      repeated `Fprintln` calls write them. */
  function Unlines(ls: seq<Bytes>): Bytes
  {
    if ls == [] then [] else ls[0] + "\n" + Unlines(ls[1..])
  }

  lemma OneLine(a: Bytes)
    ensures Unlines([a]) == a + "\n"
  {
    assert [a][1..] == [];
  }

  /** Offset of the first newline in `s`, or |s| when there is none. */
  function LineEnd(s: Bytes): (k: nat)
    ensures k <= |s|
    ensures forall j :: 0 <= j < k ==> s[j] != '\n'
    ensures k < |s| ==> s[k] == '\n'
  {
    if s == [] || s[0] == '\n' then 0 else 1 + LineEnd(s[1..])
  }

  /** The lines of a text: the pieces between newlines; a final piece with no
      newline after it counts as a line when it is not empty. */
  function Lines(s: Bytes): seq<Bytes>
    decreases |s|
  {
    if s == [] then []
    else
      var k := LineEnd(s);
      if k == |s| then [s] else [s[..k]] + Lines(s[k + 1..])
  }

  /** True when no line holds a newline byte. */
  predicate SingleLines(ls: seq<Bytes>) {
    forall k :: 0 <= k < |ls| ==> '\n' !in ls[k]
  }

  lemma SingleLinesAppend(a: seq<Bytes>, b: seq<Bytes>)
    requires SingleLines(a) && SingleLines(b)
    ensures SingleLines(a + b)
  {
    forall k | 0 <= k < |a + b|
      ensures '\n' !in (a + b)[k]
    {
      if k < |a| {
        assert (a + b)[k] == a[k];
      } else {
        assert (a + b)[k] == b[k - |a|];
      }
    }
  }

  /** Writing lines and splitting the text again gives back the lines. */
  lemma {:induction false} LinesOfUnlines(ls: seq<Bytes>)
    requires SingleLines(ls)
    ensures Lines(Unlines(ls)) == ls
  {
    if ls != [] {
      var s := Unlines(ls);
      var l := ls[0];
      assert s == l + ("\n" + Unlines(ls[1..]));
      LineEndAt(l, "\n" + Unlines(ls[1..]));
      assert s[..|l|] == l;
      assert s[|l| + 1..] == Unlines(ls[1..]);
      LinesOfUnlines(ls[1..]);
    }
  }

  /** The first newline after a newline-free prefix is just past it. */
  lemma {:induction false} LineEndAt(l: Bytes, rest: Bytes)
    requires '\n' !in l
    requires |rest| > 0 && rest[0] == '\n'
    ensures LineEnd(l + rest) == |l|
    decreases |l|
  {
    if l != [] {
      assert (l + rest)[1..] == l[1..] + rest;
      LineEndAt(l[1..], rest);
    } else {
      assert l + rest == rest;
    }
  }

  /** Line writing distributes over concatenation. */
  lemma {:induction false} UnlinesAppend(a: seq<Bytes>, b: seq<Bytes>)
    ensures Unlines(a + b) == Unlines(a) + Unlines(b)
    decreases |a|
  {
    if a == [] {
      assert a + b == b;
    } else {
      assert (a + b)[1..] == a[1..] + b;
      UnlinesAppend(a[1..], b);
    }
  }

  /** Written lines start with the first two lines and end with the last
      one; three lines are written as exactly those three. */
  lemma UnlinesFrame(ls: seq<Bytes>)
    requires |ls| >= 3
    ensures var prefix := ls[0] + "\n" + ls[1] + "\n";
      |Unlines(ls)| >= |prefix| && Unlines(ls)[..|prefix|] == prefix
    ensures var suffix := ls[|ls| - 1] + "\n";
      |Unlines(ls)| >= |suffix| && Unlines(ls)[|Unlines(ls)| - |suffix|..] == suffix
    ensures |ls| == 3 ==> Unlines(ls) == ls[0] + "\n" + ls[1] + "\n" + ls[2] + "\n"
  {
    var head := ls[..2];
    var body := ls[2..|ls| - 1];
    var last := [ls[|ls| - 1]];
    assert ls == head + body + last;
    UnlinesAppend(head + body, last);
    UnlinesAppend(head, body);
    assert head[1..] == [ls[1]];
    OneLine(ls[1]);
    OneLine(ls[|ls| - 1]);
    assert Unlines(head) == ls[0] + "\n" + ls[1] + "\n";
    if |ls| == 3 {
      assert Unlines(body) == [];
    }
  }
}
