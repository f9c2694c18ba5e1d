/** Slash-separated names, modelled as sequences of components; the name "." is the empty sequence. */
module Paths {

  type Path = seq<string>

  const ROOT: Path := []

  /** The components io/fs.ValidPath accepts. */
  predicate ValidComponent(c: string) {
    c != "" && c != "." && c != ".." && '/' !in c
  }

  predicate ValidName(p: Path) {
    forall c | c in p :: ValidComponent(c)
  }

  /** path.Dir, with "." as its own parent. */
  function Parent(p: Path): Path {
    if p == ROOT then ROOT else p[..|p| - 1]
  }

  /** path.Join(directory, path.Base(name)); the base of "." is ".", which Join drops. */
  function Child(directory: Path, name: Path): Path {
    if name == ROOT then directory else directory + [name[|name| - 1]]
  }

  /** The test the sources write as q == p || strings.HasPrefix(q, p+"/"). */
  predicate Within(p: Path, q: Path) {
    p == q || (p != ROOT && p <= q)
  }

  // ---------------------------------------------------------------- text form

  /** The text of a name: components joined by slashes, "." for the root. */
  function Text(p: Path): string {
    if p == ROOT then "." else Joined(p)
  }

  function Joined(p: Path): string
    requires p != ROOT
  {
    if |p| == 1 then p[0] else p[0] + "/" + Joined(p[1..])
  }

  lemma SlashFreeHeads(c: string, d: string, x: string, y: string)
    requires '/' !in c && '/' !in d
    ensures c + "/" + x <= d + "/" + y <==> c == d && x <= y
    ensures !(c + "/" + x <= d)
  {
    var left, right := c + "/" + x, d + "/" + y;
    assert left[|c|] == '/' && right[|d|] == '/';
    assert forall k | 0 <= k < |c| :: left[k] == c[k] != '/';
    assert forall k | 0 <= k < |d| :: right[k] == d[k] != '/';
    if left <= right {
      assert left[|c|] == right[|c|] && (|d| < |left| ==> left[|d|] == right[|d|]);
      assert |c| == |d|;
      assert c == left[..|c|] == right[..|c|] == d;
      assert x == left[|c| + 1..] && y == right[|d| + 1..];
    }
  }

  /** On joined components the textual prefix test is the proper sequence prefix. */
  lemma {:induction false} JoinedPrefix(p: Path, q: Path)
    requires ValidName(p) && ValidName(q) && p != ROOT && q != ROOT
    ensures Joined(p) + "/" <= Joined(q) <==> p < q
    decreases |p|
  {
    var c, d := p[0], q[0];
    assert c in p && d in q;
    var x := if |p| == 1 then "" else Joined(p[1..]) + "/";
    assert Joined(p) + "/" == c + "/" + x;
    if |q| == 1 {
      SlashFreeHeads(c, d, x, "");
    } else {
      var y := Joined(q[1..]);
      SlashFreeHeads(c, d, x, y);
      assert Joined(q) == d + "/" + y;
      if |p| == 1 {
        assert p < q <==> c == d;
      } else {
        assert forall e | e in p[1..] :: e in p;
        assert forall e | e in q[1..] :: e in q;
        JoinedPrefix(p[1..], q[1..]);
        assert p == [c] + p[1..] && q == [d] + q[1..];
        assert p < q <==> c == d && p[1..] < q[1..];
      }
    }
  }

  /** The correspondence the model rests on: HasPrefix(q, p+"/") on texts is "properly below" on
      component sequences, and nothing is textually below ".". */
  lemma TextPrefix(p: Path, q: Path)
    requires ValidName(p) && ValidName(q)
    ensures Text(p) + "/" <= Text(q) <==> p != ROOT && p < q
  {
    if p != ROOT && q != ROOT {
      JoinedPrefix(p, q);
    } else if q != ROOT {
      assert q[0] in q;
      assert "." + "/" + "" == Text(p) + "/";
      SlashFreeHeads(".", q[0], "", if |q| == 1 then "" else Joined(q[1..]));
    } else if p != ROOT {
      assert p[0] in p;
    }
  }

  /** What the sources test to find a name at or below another. */
  lemma WithinText(p: Path, q: Path)
    requires ValidName(p) && ValidName(q)
    ensures Within(p, q) <==> Text(p) == Text(q) || Text(p) + "/" <= Text(q)
  {
    TextPrefix(p, q);
    if Text(p) == Text(q) {
      TextInjective(p, q);
    }
  }

  // ------------------------------------------------------------ reading names

  /** The parts of a text between its slashes. */
  function Split(text: string): (parts: seq<string>)
    ensures parts != []
    decreases |text|
  {
    var k := SlashAt(text);
    if k == |text| then [text] else [text[..k]] + Split(text[k + 1..])
  }

  function SlashAt(text: string): (k: nat)
    ensures k <= |text| && '/' !in text[..k] && (k < |text| ==> text[k] == '/')
  {
    if text == "" || text[0] == '/' then 0
    else
      var k := 1 + SlashAt(text[1..]);
      assert text[..k] == [text[0]] + text[1..][..k - 1];
      k
  }

  /** io/fs.ValidPath. */
  predicate ValidPath(text: string) {
    text == "." || forall c | c in Split(text) :: c != "" && c != "." && c != ".."
  }

  lemma SlashAfter(head: string, tail: string)
    requires '/' !in head
    ensures SlashAt(head + "/" + tail) == |head| && SlashAt(head) == |head|
    ensures (head + "/" + tail)[..|head|] == head && (head + "/" + tail)[|head| + 1..] == tail
  {
    var text := head + "/" + tail;
    assert text[|head|] == '/';
    assert forall k | 0 <= k < |head| :: text[k] == head[k];
    assert forall k | |head| < k <= |text| :: text[..k][|head|] == text[|head|];
  }

  /** Joined components are read back as they were. */
  lemma {:induction false} SplitJoined(p: Path)
    requires p != ROOT && forall c | c in p :: '/' !in c
    ensures Split(Joined(p)) == p
    decreases |p|
  {
    assert p[0] in p;
    if |p| == 1 {
      SlashAfter(p[0], "");
    } else {
      assert forall c | c in p[1..] :: c in p;
      SplitJoined(p[1..]);
      SlashAfter(p[0], Joined(p[1..]));
      assert p == [p[0]] + p[1..];
    }
  }

  /** And every text is its parts, joined. */
  lemma {:induction false} JoinedSplit(text: string)
    ensures Joined(Split(text)) == text && forall c | c in Split(text) :: '/' !in c
    decreases |text|
  {
    var k := SlashAt(text);
    if k == |text| {
      assert text[..k] == text;
    } else {
      JoinedSplit(text[k + 1..]);
      assert text == text[..k] + "/" + text[k + 1..];
      assert Split(text)[1..] == Split(text[k + 1..]);
    }
  }

  lemma TextInjective(p: Path, q: Path)
    requires ValidName(p) && ValidName(q) && Text(p) == Text(q)
    ensures p == q
  {
    assert (p != ROOT ==> p[0] in p) && (q != ROOT ==> q[0] in q);
    if p != ROOT {
      SplitJoined(p);
    }
    if q != ROOT {
      SplitJoined(q);
    }
    DotAlone(p);
    DotAlone(q);
  }

  /** Only the root is written ".". */
  lemma DotAlone(p: Path)
    requires ValidName(p)
    ensures Text(p) == "." <==> p == ROOT
  {
    if p != ROOT {
      assert p[0] in p;
      if |p| > 1 {
        assert p[1] in p;
        assert p[0] != "" && |Joined(p)| >= |p[0]| + 1 && |p[1..]| > 0;
        assert Joined(p)[|p[0]|] == '/';
      }
    }
  }

  /** The names of the model are exactly the texts io/fs.ValidPath accepts. */
  lemma NamesAreTexts(text: string)
    ensures ValidPath(text) <==> exists p :: ValidName(p) && Text(p) == text
  {
    if text == "." {
      assert Text(ROOT) == text && ValidName(ROOT);
    } else {
      JoinedSplit(text);
      if ValidPath(text) {
        assert ValidName(Split(text)) && Text(Split(text)) == text;
      }
      if p :| ValidName(p) && Text(p) == text {
        SplitJoined(p);
      }
    }
  }

  // ---------------------------------------------------------- lexical cleaning

  /** A symbolic-link target: the components of its text, and whether the text starts with a slash. */
  datatype Target = Target(absolute: bool, parts: seq<string>)

  const NO_TARGET := Target(false, [""])

  /** path.Clean applied to the stack followed by further parts; a rooted name never climbs above "/". */
  function Clean(rooted: bool, stack: Path, parts: seq<string>): Path
    decreases |parts|
  {
    if parts == [] then stack
    else if parts[0] == "" || parts[0] == "." then Clean(rooted, stack, parts[1..])
    else if parts[0] != ".." then Clean(rooted, stack + [parts[0]], parts[1..])
    else if stack != [] && stack[|stack| - 1] != ".." then Clean(rooted, stack[..|stack| - 1], parts[1..])
    else if rooted then Clean(rooted, stack, parts[1..])
    else Clean(rooted, stack + [".."], parts[1..])
  }

  /** The name path resolution restarts with after meeting a link at cur with rest still to walk. */
  function Redirect(cur: Path, target: Target, rest: Path): Path {
    (if target.absolute then Clean(true, [], target.parts)
     else Clean(false, Parent(cur), target.parts)) + rest
  }

  // ------------------------------------------------------------- small facts

  lemma PrefixOfParent(p: Path, q: Path)
    requires p < q
    ensures p <= Parent(q)
  {
    assert p == q[..|p|] && q[..|q| - 1][..|p|] == q[..|p|];
  }

  lemma ChildParent(directory: Path, name: Path)
    requires name != ROOT
    ensures Child(directory, name) != ROOT && Parent(Child(directory, name)) == directory
  {
    assert Child(directory, name)[..|directory|] == directory;
  }
}
