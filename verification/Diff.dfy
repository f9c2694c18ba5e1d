/** internal/commands/text/diff.go: texts as lines, and a line diff with as many kept lines as there can be. */
module Diff {

  datatype DiffLine = DiffLine(text: string, hasNewline: bool)

  // ------------------------------------------------------------------- lines

  function Rejoined(lines: seq<DiffLine>): string {
    if lines == [] then "" else lines[0].text + (if lines[0].hasNewline then "\n" else "") + Rejoined(lines[1..])
  }

  /** Lines as they can come from a text: no line break inside, and only the last line may lack its own,
      in which case it is not empty. */
  ghost predicate Proper(lines: seq<DiffLine>) {
    forall k | 0 <= k < |lines| ::
      '\n' !in lines[k].text && (!lines[k].hasNewline ==> k == |lines| - 1 && lines[k].text != "")
  }

  function BreakAt(s: string): (k: nat)
    ensures k <= |s| && '\n' !in s[..k] && (k < |s| ==> s[k] == '\n')
  {
    if s == "" || s[0] == '\n' then 0
    else
      var k := 1 + BreakAt(s[1..]);
      assert s[..k] == [s[0]] + s[1..][..k - 1];
      k
  }

  /** strings.SplitAfter at line breaks; the last part is empty when the text ends in one. */
  function SplitAfter(s: string): (parts: seq<string>)
    ensures parts != []
    decreases |s|
  {
    var k := BreakAt(s);
    if k == |s| then [s] else [s[..k + 1]] + SplitAfter(s[k + 1..])
  }

  function LineOf(part: string): DiffLine {
    if part != "" && part[|part| - 1] == '\n' then DiffLine(part[..|part| - 1], true) else DiffLine(part, false)
  }

  function LinesOf(parts: seq<string>): seq<DiffLine> {
    if parts == [] then []
    else (if parts[0] == "" then [] else [LineOf(parts[0])]) + LinesOf(parts[1..])
  }

  /** The lines of a text. */
  function Lines(s: string): seq<DiffLine> {
    LinesOf(SplitAfter(s))
  }

  lemma BreakOf(head: string, tail: string)
    requires '\n' !in head
    ensures BreakAt(head + "\n" + tail) == |head| && BreakAt(head) == |head|
  {
    var s := head + "\n" + tail;
    assert s[|head|] == '\n' && s[..|head|] == head;
    assert forall k | 0 <= k < |head| :: s[k] == head[k];
    assert forall k | |head| < k <= |s| :: s[..k][|head|] == s[|head|];
  }

  lemma LinesOfFirst(part: string, rest: seq<string>)
    ensures LinesOf([part] + rest) == (if part == "" then [] else [LineOf(part)]) + LinesOf(rest)
  {
    assert ([part] + rest)[1..] == rest;
  }

  lemma UnbrokenText(s: string)
    requires '\n' !in s
    ensures Lines(s) == if s == "" then [] else [DiffLine(s, false)]
  {
    BreakOf(s, "");
    assert SplitAfter(s) == [s];
    LinesOfFirst(s, []);
    assert [s] + [] == [s];
    assert s != "" ==> s[|s| - 1] in s;
    hide LinesOf, SplitAfter;
  }

  lemma BrokenText(head: string, tail: string)
    requires '\n' !in head
    ensures Lines(head + "\n" + tail) == [DiffLine(head, true)] + Lines(tail)
  {
    var s, part := head + "\n" + tail, head + "\n";
    BreakOf(head, tail);
    assert s[..|head| + 1] == part && s[|head| + 1..] == tail;
    assert SplitAfter(s) == [part] + SplitAfter(tail);
    hide SplitAfter, BreakAt;
    LinesOfFirst(part, SplitAfter(tail));
    assert part[..|part| - 1] == head && part[|part| - 1] == '\n';
    hide LinesOf;
    assert LineOf(part) == DiffLine(head, true);
  }

  lemma LinesStep(s: string)
    ensures var k := BreakAt(s);
      && (k == |s| ==> Lines(s) == if s == "" then [] else [DiffLine(s, false)])
      && (k < |s| ==> Lines(s) == [DiffLine(s[..k], true)] + Lines(s[k + 1..]))
  {
    var k := BreakAt(s);
    hide BreakAt, Lines;
    if k == |s| {
      assert s[..|s|] == s;
      UnbrokenText(s);
    } else {
      assert s == s[..k] + "\n" + s[k + 1..];
      BrokenText(s[..k], s[k + 1..]);
    }
  }

  /** Splitting a text into lines and rejoining them restores it, a missing final line break included. */
  lemma {:induction false} RejoinLines(s: string)
    ensures Rejoined(Lines(s)) == s && Proper(Lines(s))
    decreases |s|
  {
    var k := BreakAt(s);
    LinesStep(s);
    if k < |s| {
      RejoinLines(s[k + 1..]);
      var rest := Lines(s[k + 1..]);
      assert Lines(s)[1..] == rest;
      assert s == s[..k] + "\n" + s[k + 1..];
      forall j | 0 <= j < |Lines(s)| ensures '\n' !in Lines(s)[j].text
        && (!Lines(s)[j].hasNewline ==> j == |Lines(s)| - 1 && Lines(s)[j].text != "")
      {
        if j > 0 {
          assert Lines(s)[j] == rest[j - 1];
        }
      }
    } else if s != "" {
      assert s[..|s|] == s && Rejoined([]) == "";
      assert Lines(s)[1..] == [];
    }
  }

  /** There is no other way to see a text as lines. */
  lemma {:induction false} LinesUnique(lines: seq<DiffLine>)
    requires Proper(lines)
    ensures Lines(Rejoined(lines)) == lines
    decreases |lines|
  {
    var s := Rejoined(lines);
    LinesStep(s);
    if lines != [] {
      var head, rest := lines[0], lines[1..];
      BreakOf(head.text, Rejoined(rest));
      if head.hasNewline {
        assert s == head.text + "\n" + Rejoined(rest);
        assert s[..|head.text|] == head.text && s[|head.text| + 1..] == Rejoined(rest);
        forall k | 0 <= k < |rest| ensures rest[k] == lines[k + 1] {}
        LinesUnique(rest);
        assert lines == [head] + rest;
      } else {
        assert rest == [] && s == head.text + "" + "";
        assert s == head.text && lines == [head];
      }
    }
  }

  method SplitDiffLines(s: string) returns (lines: seq<DiffLine>)
    ensures lines == Lines(s)
  {
    if s == "" {
      LinesStep(s);
      return [];
    }
    var parts := SplitAfter(s);
    lines := [];
    for k := 0 to |parts|
      invariant lines + LinesOf(parts[k..]) == Lines(s)
    {
      assert parts[k..][1..] == parts[k + 1..];
      if parts[k] != "" {
        lines := lines + [LineOf(parts[k])];
      }
    }
  }

  // ----------------------------------------------------------------- scripts

  datatype DiffOp = Kept(line: DiffLine) | Removed(oldLine: DiffLine) | Added(newLine: DiffLine)

  /** What is left of a script without its additions. */
  function OldSide(ops: seq<DiffOp>): seq<DiffLine> {
    if ops == [] then []
    else
      var last := ops[|ops| - 1];
      OldSide(ops[..|ops| - 1]) + (if last.Kept? then [last.line] else if last.Removed? then [last.oldLine] else [])
  }

  /** What is left of a script without its removals. */
  function NewSide(ops: seq<DiffOp>): seq<DiffLine> {
    if ops == [] then []
    else
      var last := ops[|ops| - 1];
      NewSide(ops[..|ops| - 1]) + (if last.Kept? then [last.line] else if last.Added? then [last.newLine] else [])
  }

  function KeptLines(ops: seq<DiffOp>): seq<DiffLine> {
    if ops == [] then []
    else
      var last := ops[|ops| - 1];
      KeptLines(ops[..|ops| - 1]) + (if last.Kept? then [last.line] else [])
  }

  /** The positions at which c is found in a, in order. */
  ghost predicate Embeds(c: seq<DiffLine>, a: seq<DiffLine>, at: seq<nat>) {
    && |at| == |c|
    && (forall k | 0 <= k < |at| :: at[k] < |a| && a[at[k]] == c[k])
    && forall j, k | 0 <= j < k < |at| :: at[j] < at[k]
  }

  ghost predicate IsSubsequence(c: seq<DiffLine>, a: seq<DiffLine>) {
    exists at :: Embeds(c, a, at)
  }

  /** What the table is filled with: the best number of lines to keep from the i-th old and j-th new line on. */
  ghost function Best(a: seq<DiffLine>, b: seq<DiffLine>, i: nat, j: nat): nat
    requires i <= |a| && j <= |b|
    decreases |a| - i + |b| - j
  {
    if i == |a| || j == |b| then 0
    else if a[i] == b[j] then 1 + Best(a, b, i + 1, j + 1)
    else if Best(a, b, i + 1, j) >= Best(a, b, i, j + 1) then Best(a, b, i + 1, j)
    else Best(a, b, i, j + 1)
  }

  method DiffLineOps(a: seq<DiffLine>, b: seq<DiffLine>) returns (ops: seq<DiffOp>)
    ensures OldSide(ops) == a && NewSide(ops) == b && |KeptLines(ops)| == Best(a, b, 0, 0)
  {
    var m, n := |a|, |b|;
    var dp := new nat[m + 1, n + 1]((i, j) => 0);
    var i := m;
    while i > 0
      invariant 0 <= i <= m
      invariant forall r, c | i <= r <= m && 0 <= c <= n :: dp[r, c] == Best(a, b, r, c)
      invariant forall r | 0 <= r < i :: dp[r, n] == 0
    {
      i := i - 1;
      var j := n;
      while j > 0
        invariant 0 <= j <= n
        invariant forall r, c | i < r <= m && 0 <= c <= n :: dp[r, c] == Best(a, b, r, c)
        invariant forall c | j <= c <= n :: dp[i, c] == Best(a, b, i, c)
        invariant forall r | 0 <= r < i :: dp[r, n] == 0
      {
        j := j - 1;
        if a[i] == b[j] {
          dp[i, j] := dp[i + 1, j + 1] + 1;
        } else if dp[i + 1, j] >= dp[i, j + 1] {
          dp[i, j] := dp[i + 1, j];
        } else {
          dp[i, j] := dp[i, j + 1];
        }
      }
    }
    ops := Walk(a, b, dp);
  }

  lemma Appended(ops: seq<DiffOp>, op: DiffOp)
    ensures OldSide(ops + [op]) ==
      OldSide(ops) + (if op.Kept? then [op.line] else if op.Removed? then [op.oldLine] else [])
    ensures NewSide(ops + [op]) ==
      NewSide(ops) + (if op.Kept? then [op.line] else if op.Added? then [op.newLine] else [])
    ensures KeptLines(ops + [op]) == KeptLines(ops) + if op.Kept? then [op.line] else []
  {
    assert (ops + [op])[..|ops|] == ops;
  }

  /** Where the walk stands: what is behind it on both sides is in the script, and so many lines are kept that
      the best number can still be reached. */
  ghost predicate Walked(a: seq<DiffLine>, b: seq<DiffLine>, ops: seq<DiffOp>, i: nat, j: nat) {
    && i <= |a| && j <= |b| && OldSide(ops) == a[..i] && NewSide(ops) == b[..j]
    && |KeptLines(ops)| + Best(a, b, i, j) == Best(a, b, 0, 0)
  }

  /** The three ways on from there. */
  lemma WalkOn(a: seq<DiffLine>, b: seq<DiffLine>, ops: seq<DiffOp>, i: nat, j: nat)
    requires Walked(a, b, ops, i, j)
    ensures i < |a| && j < |b| && a[i] == b[j] ==> Walked(a, b, ops + [Kept(a[i])], i + 1, j + 1)
    ensures j < |b| && (i == |a| || (a[i] != b[j] && Best(a, b, i, j + 1) > Best(a, b, i + 1, j))) ==>
      Walked(a, b, ops + [Added(b[j])], i, j + 1)
    ensures i < |a| && (j == |b| || (a[i] != b[j] && Best(a, b, i, j + 1) <= Best(a, b, i + 1, j))) ==>
      Walked(a, b, ops + [Removed(a[i])], i + 1, j)
  {
    if i < |a| {
      Appended(ops, Removed(a[i]));
      Appended(ops, Kept(a[i]));
    }
    if j < |b| {
      Appended(ops, Added(b[j]));
    }
    hide OldSide, NewSide, KeptLines;
  }

  lemma WalkEnds(a: seq<DiffLine>, b: seq<DiffLine>, ops: seq<DiffOp>)
    requires Walked(a, b, ops, |a|, |b|)
    ensures OldSide(ops) == a && NewSide(ops) == b && |KeptLines(ops)| == Best(a, b, 0, 0)
  {
    assert a[..|a|] == a && b[..|b|] == b;
  }

  /** Follows the table from its first cell, appending one operation at a time. */
  method Walk(a: seq<DiffLine>, b: seq<DiffLine>, dp: array2<nat>) returns (ops: seq<DiffOp>)
    requires dp.Length0 == |a| + 1 && dp.Length1 == |b| + 1
    requires forall r, c | 0 <= r <= |a| && 0 <= c <= |b| :: dp[r, c] == Best(a, b, r, c)
    ensures OldSide(ops) == a && NewSide(ops) == b && |KeptLines(ops)| == Best(a, b, 0, 0)
  {
    var m, n := |a|, |b|;
    ops := [];
    var i, j := 0, 0;
    assert Walked(a, b, ops, i, j);
    hide Walked, Best;
    while i < m || j < n
      invariant 0 <= i <= m && 0 <= j <= n && Walked(a, b, ops, i, j)
      decreases m - i + n - j
    {
      WalkOn(a, b, ops, i, j);
      if i < m && j < n && a[i] == b[j] {
        ops := ops + [Kept(a[i])];
        i, j := i + 1, j + 1;
      } else if j < n && (i == m || dp[i, j + 1] > dp[i + 1, j]) {
        ops := ops + [Added(b[j])];
        j := j + 1;
      } else {
        ops := ops + [Removed(a[i])];
        i := i + 1;
      }
    }
    WalkEnds(a, b, ops);
  }

  // -------------------------------------------------------------- optimality

  /** No common subsequence of what is left of both sides is longer than the table says. */
  lemma {:induction false} BestBounds(a: seq<DiffLine>, b: seq<DiffLine>, i: nat, j: nat, c: seq<DiffLine>,
    at: seq<nat>, bt: seq<nat>)
    requires i <= |a| && j <= |b| && Embeds(c, a, at) && Embeds(c, b, bt)
    requires c != [] ==> i <= at[0] && j <= bt[0]
    ensures |c| <= Best(a, b, i, j)
    decreases |a| - i + |b| - j
  {
    if c != [] {
      if a[i] == b[j] {
        assert Embeds(c[1..], a, at[1..]) && Embeds(c[1..], b, bt[1..]);
        BestBounds(a, b, i + 1, j + 1, c[1..], at[1..], bt[1..]);
      } else if at[0] > i {
        BestBounds(a, b, i + 1, j, c, at, bt);
      } else {
        BestBounds(a, b, i, j + 1, c, at, bt);
      }
    }
  }

  lemma ExtendEmbedding(c: seq<DiffLine>, a: seq<DiffLine>, at: seq<nat>, line: DiffLine)
    requires Embeds(c, a, at)
    ensures Embeds(c, a + [line], at) && Embeds(c + [line], a + [line], at + [|a|])
  {
    assert forall k | 0 <= k < |at| :: (a + [line])[at[k]] == a[at[k]];
  }

  /** The kept lines are a common subsequence of both sides of a script. */
  lemma {:induction false} KeptIsCommon(ops: seq<DiffOp>) returns (at: seq<nat>, bt: seq<nat>)
    ensures Embeds(KeptLines(ops), OldSide(ops), at) && Embeds(KeptLines(ops), NewSide(ops), bt)
    decreases |ops|
  {
    if ops == [] {
      return [], [];
    }
    var front, last := ops[..|ops| - 1], ops[|ops| - 1];
    at, bt := KeptIsCommon(front);
    match last
    case Kept(line) =>
      ExtendEmbedding(KeptLines(front), OldSide(front), at, line);
      ExtendEmbedding(KeptLines(front), NewSide(front), bt, line);
      at, bt := at + [|OldSide(front)|], bt + [|NewSide(front)|];
    case Removed(line) => ExtendEmbedding(KeptLines(front), OldSide(front), at, line);
    case Added(line) => ExtendEmbedding(KeptLines(front), NewSide(front), bt, line);
  }

  /** The number of lines a script removes or adds. */
  function Edits(ops: seq<DiffOp>): int {
    |ops| - |KeptLines(ops)|
  }

  lemma {:induction false} SidesCount(ops: seq<DiffOp>)
    ensures Edits(ops) == |OldSide(ops)| + |NewSide(ops)| - 2 * |KeptLines(ops)|
    decreases |ops|
  {
    if ops != [] {
      SidesCount(ops[..|ops| - 1]);
    }
  }

  /** A script that keeps as many lines as the table says keeps a longest common subsequence, and no script
      between the same texts gets by with fewer edits. */
  lemma ScriptIsMinimal(a: seq<DiffLine>, b: seq<DiffLine>, ops: seq<DiffOp>)
    requires OldSide(ops) == a && NewSide(ops) == b && |KeptLines(ops)| == Best(a, b, 0, 0)
    ensures IsSubsequence(KeptLines(ops), a) && IsSubsequence(KeptLines(ops), b)
    ensures forall c | IsSubsequence(c, a) && IsSubsequence(c, b) :: |c| <= |KeptLines(ops)|
    ensures forall other | OldSide(other) == a && NewSide(other) == b :: Edits(ops) <= Edits(other)
  {
    var at, bt := KeptIsCommon(ops);
    forall c | IsSubsequence(c, a) && IsSubsequence(c, b) ensures |c| <= |KeptLines(ops)| {
      var ct :| Embeds(c, a, ct);
      var dt :| Embeds(c, b, dt);
      BestBounds(a, b, 0, 0, c, ct, dt);
    }
    SidesCount(ops);
    forall other | OldSide(other) == a && NewSide(other) == b ensures Edits(ops) <= Edits(other) {
      var et, ft := KeptIsCommon(other);
      BestBounds(a, b, 0, 0, KeptLines(other), et, ft);
      SidesCount(other);
    }
  }

  // ---------------------------------------------------------------- the hunk

  const NO_NEWLINE := "\\ No newline at end of file"

  function LineIn(op: DiffOp): DiffLine {
    match op
    case Kept(line) => line
    case Removed(line) => line
    case Added(line) => line
  }

  function Prefix(op: DiffOp): char {
    match op
    case Kept(_) => ' '
    case Removed(_) => '-'
    case Added(_) => '+'
  }

  /** The printed lines of an operation. */
  function PrintedOp(op: DiffOp): seq<string> {
    [[Prefix(op)] + LineIn(op).text] + if LineIn(op).hasNewline then [] else [NO_NEWLINE]
  }

  function Printed(ops: seq<DiffOp>): seq<string> {
    if ops == [] then [] else PrintedOp(ops[0]) + Printed(ops[1..])
  }

  function Terminated(lines: seq<string>): string {
    if lines == [] then "" else lines[0] + "\n" + Terminated(lines[1..])
  }

  /** An operation as it is printed. */
  lemma PrintedText(op: DiffOp)
    ensures var (sign, line) := (match op
        case Kept(line) => (" ", line)
        case Removed(line) => ("-", line)
        case Added(line) => ("+", line));
      Terminated(PrintedOp(op)) ==
        sign + line.text + "\n" + if line.hasNewline then "" else "\\ No newline at end of file\n"
  {
    assert PrintedOp(op)[1..] == if LineIn(op).hasNewline then [] else [NO_NEWLINE];
    assert Terminated([NO_NEWLINE]) == NO_NEWLINE + "\n" + Terminated([]);
  }

  /** Reading printed lines back. */
  function Parsed(lines: seq<string>): seq<DiffOp>
    decreases |lines|
  {
    if lines == [] || lines[0] == "" then []
    else
      var bare := |lines| > 1 && lines[1] != "" && lines[1][0] == '\\';
      var line := DiffLine(lines[0][1..], !bare);
      [if lines[0][0] == ' ' then Kept(line) else if lines[0][0] == '-' then Removed(line) else Added(line)]
        + Parsed(lines[if bare then 2 else 1..])
  }

  lemma ParseOne(op: DiffOp, rest: seq<string>)
    requires rest != [] ==> rest[0] != "" && rest[0][0] != '\\'
    ensures Parsed(PrintedOp(op) + rest) == [op] + Parsed(rest)
  {
    var lines, line := PrintedOp(op) + rest, LineIn(op);
    assert lines[0] == [Prefix(op)] + line.text && lines[0][1..] == line.text;
    if line.hasNewline {
      assert lines[1..] == rest;
    } else {
      assert NO_NEWLINE[0] == '\\';
      assert lines[1] == NO_NEWLINE && lines[2..] == rest;
    }
  }

  lemma {:induction false} ParsePrinted(ops: seq<DiffOp>)
    ensures Parsed(Printed(ops)) == ops
    ensures ops != [] ==> Printed(ops) != [] && Printed(ops)[0] != "" && Printed(ops)[0][0] == Prefix(ops[0])
    decreases |ops|
  {
    if ops != [] {
      ParsePrinted(ops[1..]);
      hide Parsed;
      ParseOne(ops[0], Printed(ops[1..]));
      assert Printed(ops)[0] == PrintedOp(ops[0])[0];
      assert ops == [ops[0]] + ops[1..];
    }
  }

  lemma {:induction false} TerminatedConcat(a: seq<string>, b: seq<string>)
    ensures Terminated(a + b) == Terminated(a) + Terminated(b)
    decreases |a|
  {
    if a == [] {
      assert a + b == b;
    } else {
      TerminatedConcat(a[1..], b);
      assert (a + b)[1..] == a[1..] + b;
    }
  }

  /** The header counts and the body of the single hunk a diff is printed as. */
  method CreateUnifiedDiff(oldText: string, newText: string)
    returns (oldStart: nat, oldCount: nat, newStart: nat, newCount: nat, ops: seq<DiffOp>, body: string)
    ensures oldCount == |Lines(oldText)| && newCount == |Lines(newText)|
    ensures oldStart == (if oldText == "" then 0 else 1) && newStart == (if newText == "" then 0 else 1)
    ensures OldSide(ops) == Lines(oldText) && NewSide(ops) == Lines(newText)
    ensures |KeptLines(ops)| == Best(Lines(oldText), Lines(newText), 0, 0)
    ensures body == Terminated(Printed(ops))
  {
    var oldLines := SplitDiffLines(oldText);
    var newLines := SplitDiffLines(newText);
    ops := DiffLineOps(oldLines, newLines);
    RejoinLines(oldText);
    RejoinLines(newText);
    oldStart := if |oldLines| == 0 then 0 else 1;
    newStart := if |newLines| == 0 then 0 else 1;
    oldCount, newCount := |oldLines|, |newLines|;
    body := WriteBody(ops);
  }

  method WriteBody(ops: seq<DiffOp>) returns (body: string)
    ensures body == Terminated(Printed(ops))
  {
    body := "";
    assert ops[0..] == ops;
    for k := 0 to |ops|
      invariant body + Terminated(Printed(ops[k..])) == Terminated(Printed(ops))
    {
      hide PrintedOp;
      assert ops[k..][0] == ops[k] && ops[k..][1..] == ops[k + 1..];
      TerminatedConcat(PrintedOp(ops[k]), Printed(ops[k + 1..]));
      body := WriteDiffLine(body, ops[k]);
    }
  }

  method WriteDiffLine(out: string, op: DiffOp) returns (more: string)
    ensures more == out + Terminated(PrintedOp(op))
  {
    var line := LineIn(op);
    more := out + [Prefix(op)] + line.text + "\n";
    assert PrintedOp(op)[1..] == if line.hasNewline then [] else [NO_NEWLINE];
    assert Terminated([NO_NEWLINE]) == NO_NEWLINE + "\n" + Terminated([]);
    if !line.hasNewline {
      more := more + NO_NEWLINE + "\n";
    }
  }

  /** The body as lines again. */
  lemma {:induction false} TerminatedLines(lines: seq<string>)
    requires forall k | 0 <= k < |lines| :: '\n' !in lines[k]
    ensures |Lines(Terminated(lines))| == |lines|
    ensures forall k | 0 <= k < |lines| :: Lines(Terminated(lines))[k] == DiffLine(lines[k], true)
    decreases |lines|
  {
    var s := Terminated(lines);
    LinesStep(s);
    if lines != [] {
      BreakOf(lines[0], Terminated(lines[1..]));
      assert s[..|lines[0]|] == lines[0] && s[|lines[0]| + 1..] == Terminated(lines[1..]);
      TerminatedLines(lines[1..]);
    }
  }

  lemma {:induction false} SidesHold(ops: seq<DiffOp>, k: nat)
    requires k < |ops|
    ensures LineIn(ops[k]) in OldSide(ops) || LineIn(ops[k]) in NewSide(ops)
    decreases |ops|
  {
    if k < |ops| - 1 {
      SidesHold(ops[..|ops| - 1], k);
      assert ops[..|ops| - 1][k] == ops[k];
    }
  }

  lemma {:induction false} PrintedTexts(ops: seq<DiffOp>, k: nat)
    requires (forall j | 0 <= j < |ops| :: '\n' !in LineIn(ops[j]).text) && k < |Printed(ops)|
    ensures '\n' !in Printed(ops)[k]
    decreases |ops|
  {
    var head := PrintedOp(ops[0]);
    if k >= |head| {
      assert Printed(ops)[k] == Printed(ops[1..])[k - |head|];
      PrintedTexts(ops[1..], k - |head|);
    } else {
      assert Printed(ops)[k] == head[k];
      assert forall c | c in [Prefix(ops[0])] + LineIn(ops[0]).text :: c == Prefix(ops[0]) || c in LineIn(ops[0]).text;
    }
  }

  /** The script read back from a printed body. */
  function ReadBack(body: string): seq<DiffOp> {
    Parsed(seq(|Lines(body)|, k requires 0 <= k < |Lines(body)| => Lines(body)[k].text))
  }

  /** The printed body alone determines both texts, to the last line break. */
  lemma BodyRestoresTexts(oldText: string, newText: string, ops: seq<DiffOp>)
    requires OldSide(ops) == Lines(oldText) && NewSide(ops) == Lines(newText)
    ensures var read := ReadBack(Terminated(Printed(ops)));
      Rejoined(OldSide(read)) == oldText && Rejoined(NewSide(read)) == newText
  {
    RejoinLines(oldText);
    RejoinLines(newText);
    forall j | 0 <= j < |ops| ensures '\n' !in LineIn(ops[j]).text { SidesHold(ops, j); }
    forall k | 0 <= k < |Printed(ops)| ensures '\n' !in Printed(ops)[k] { PrintedTexts(ops, k); }
    TerminatedLines(Printed(ops));
    var body := Terminated(Printed(ops));
    assert seq(|Lines(body)|, k requires 0 <= k < |Lines(body)| => Lines(body)[k].text) == Printed(ops);
    ParsePrinted(ops);
  }
}
