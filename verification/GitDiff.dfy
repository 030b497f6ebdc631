/**
 * `GitDiff`: reads the output of `git diff` for one file a line at a time.
 * In the head part it picks the file names from the `diff` line and the
 * revisions from the `index` line; once both are known it reads hunks: a
 * `@@ ` line opens a hunk and every other line is added to the last one.
 */
module DiffParser {
  import opened JsString

  /** `Hunk`: a hunk header and the lines read after it. Only its body is updated in place. */
  class Hunk {
    const head: string
    var body: seq<string>

    constructor (line: string)
      ensures head == line && body == []
    {
      head := line;
      body := [];
    }

    function GetHead(): string {
      head
    }

    function GetBody(): seq<string>
      reads this
    {
      body
    }
  }

  datatype DiffState = HeadState | HunkState

  /** The contents of one hunk. */
  datatype HunkView = HunkView(head: string, body: seq<string>)

  /** The contents of a list of hunks, in order. */
  function HunkViews(hs: seq<Hunk>): (r: seq<HunkView>)
    reads hs
    ensures |r| == |hs|
    ensures forall i :: 0 <= i < |hs| ==> r[i] == HunkView(hs[i].head, hs[i].body)
  {
    if hs == [] then []
    else HunkViews(hs[..|hs| - 1]) + [HunkView(hs[|hs| - 1].head, hs[|hs| - 1].body)]
  }

  /** Everything a `GitDiff` holds, with each hunk by its contents. */
  datatype DiffView = DiffView(
    state: DiffState,
    fromFile: string,
    toFile: string,
    fromRev: string,
    toRev: string,
    hunks: seq<HunkView>)

  const Initial := DiffView(HeadState, "", "", "", "", [])

  /** The end of every head line that does not return early: once a file and a revision are
      known, hunks follow. */
  function Settle(v: DiffView): DiffView {
    if |v.fromFile| > 0 && |v.fromRev| > 0 then v.(state := HunkState) else v
  }

  /** A line of the head part. A `diff` line with fewer than four space-separated fields, or
      an `index` line with fewer than three fields or without `..` in its second, returns
      before anything changes. */
  function HeadLine(v: DiffView, line: string): (r: DiffView)
    ensures r.hunks == v.hunks
    ensures r.state != v.state ==> r.state == HunkState && |r.fromFile| > 0 && |r.fromRev| > 0
  {
    if StartsWith(line, "diff") then
      var list := Split(line, " ");
      if |list| < 4 then v
      else Settle(v.(fromFile := list[2], toFile := list[3]))
    else if StartsWith(line, "index") then
      var list := Split(line, " ");
      if |list| < 3 then v
      else
        var revs := Split(list[1], "..");
        if |revs| < 2 then v
        else Settle(v.(fromRev := revs[0], toRev := revs[1]))
    else Settle(v)
  }

  /** A line of the hunk part: a `@@ ` line opens a hunk, any other line goes to the body of
      the last hunk, or nowhere when there is none. */
  function HunkLine(v: DiffView, line: string): (r: DiffView)
    ensures r == v.(hunks := r.hunks)
    ensures |v.hunks| <= |r.hunks| <= |v.hunks| + 1
  {
    if StartsWith(line, "@@ ") then v.(hunks := v.hunks + [HunkView(line, [])])
    else if |v.hunks| > 0 then
      var last := v.hunks[|v.hunks| - 1];
      v.(hunks := v.hunks[..|v.hunks| - 1] + [last.(body := last.body + [line])])
    else v
  }

  /** `append(line)` as a function of the whole state. */
  function Step(v: DiffView, line: string): (r: DiffView)
    ensures v.state == HunkState ==> r.state == HunkState
    ensures v.state == HeadState ==> r.hunks == v.hunks
  {
    match v.state
    case HeadState => HeadLine(v, line)
    case HunkState => HunkLine(v, line)
  }

  /** `append` on each line in turn. */
  function StepAll(v: DiffView, lines: seq<string>): DiffView {
    if lines == [] then v else Step(StepAll(v, lines[..|lines| - 1]), lines[|lines| - 1])
  }

  class GitDiff {
    var state: DiffState
    var fromFile: string
    var toFile: string
    var fromRev: string
    var toRev: string
    var hunks: seq<Hunk>

    /** No hunk is listed twice, so adding to the last one leaves the others alone. */
    ghost predicate Valid()
      reads this
    {
      forall i, j :: 0 <= i < j < |hunks| ==> hunks[i] != hunks[j]
    }

    function View(): DiffView
      reads this, hunks
    {
      DiffView(state, fromFile, toFile, fromRev, toRev, HunkViews(hunks))
    }

    /** In the head part, with no files, no revisions and no hunks. */
    constructor ()
      ensures Valid() && View() == Initial
    {
      state := HeadState;
      fromFile := "";
      toFile := "";
      fromRev := "";
      toRev := "";
      hunks := [];
    }

    function GetHunks(): seq<Hunk>
      reads this
    {
      hunks
    }

    /** `append(line)`. */
    method Append(line: string)
      requires Valid()
      modifies this, hunks
      ensures Valid() && View() == Step(old(View()), line)
      ensures forall h :: h in hunks ==> h in old(hunks) || fresh(h)
    {
      if state == HeadState {
        ReadHeadLine(line);
      } else {
        ReadHunkLine(line);
      }
    }

    /** The head branch of `append`. */
    method ReadHeadLine(line: string)
      requires state == HeadState
      modifies this
      ensures hunks == old(hunks) && View() == HeadLine(old(View()), line)
    {
      if StartsWith(line, "diff") {
        ReadDiffLine(line);
      } else if StartsWith(line, "index") {
        ReadIndexLine(line);
      } else {
        SettleState();
      }
    }

    /** A `diff` line: the files are fields 2 and 3. */
    method ReadDiffLine(line: string)
      requires StartsWith(line, "diff")
      modifies this
      ensures hunks == old(hunks) && View() == HeadLine(old(View()), line)
    {
      var list := Split(line, " ");
      if |list| < 4 {
        return;
      }
      fromFile := list[2];
      toFile := list[3];
      SettleState();
    }

    /** An `index` line: the revisions are the two sides of `..` in field 1. */
    method ReadIndexLine(line: string)
      requires !StartsWith(line, "diff") && StartsWith(line, "index")
      modifies this
      ensures hunks == old(hunks) && View() == HeadLine(old(View()), line)
    {
      var list := Split(line, " ");
      if |list| < 3 {
        return;
      }
      var revs := Split(list[1], "..");
      if |revs| < 2 {
        return;
      }
      fromRev := revs[0];
      toRev := revs[1];
      SettleState();
    }

    /** The end of `append` in the head part. */
    method SettleState()
      modifies this
      ensures hunks == old(hunks) && View() == Settle(old(View()))
    {
      if |fromFile| > 0 && |fromRev| > 0 {
        state := HunkState;
      }
    }

    /** The hunk branch of `append`. */
    method ReadHunkLine(line: string)
      requires Valid()
      modifies this, hunks
      ensures Valid() && View() == HunkLine(old(View()), line)
      ensures forall h :: h in hunks ==> h in old(hunks) || fresh(h)
    {
      if StartsWith(line, "@@ ") {
        OpenHunk(line);
      } else if |hunks| > 0 {
        AddToLastHunk(line);
      }
    }

    /** `this.hunks.push(new Hunk(line))` */
    method OpenHunk(line: string)
      requires Valid()
      modifies this
      ensures Valid() && View() == old(View()).(hunks := old(View()).hunks + [HunkView(line, [])])
      ensures forall h :: h in hunks ==> h in old(hunks) || fresh(h)
    {
      var hunk := new Hunk(line);
      hunks := hunks + [hunk];
      assert HunkViews(hunks) == old(HunkViews(hunks)) + [HunkView(line, [])];
    }

    /** `hunk.body.push(line)` on the last hunk. */
    method AddToLastHunk(line: string)
      requires Valid() && |hunks| > 0 && !StartsWith(line, "@@ ")
      modifies hunks
      ensures Valid() && View() == HunkLine(old(View()), line)
    {
      var n := |hunks| - 1;
      var hunk := hunks[n];
      ghost var before := HunkViews(hunks);
      hunk.body := hunk.body + [line];
      assert HunkViews(hunks) == before[..n] + [before[n].(body := before[n].body + [line])] by {
        forall i | 0 <= i < n
          ensures hunks[i].body == old(hunks[i].body)
        {
          assert hunks[i] != hunks[n];
        }
      }
    }
  }

  // ------------------------------------------------------------------
  // Properties

  /** A `diff --git a b` line with space-free paths gives the two files, and moves on to the
      hunks when a revision is already known. */
  lemma DiffGitLine(v: DiffView, a: string, b: string)
    requires v.state == HeadState && ' ' !in a && ' ' !in b
    ensures var w := Step(v, "diff --git " + a + " " + b);
      w == Settle(v.(fromFile := a, toFile := b)) &&
      (w.state == HunkState <==> a != [] && v.fromRev != [])
  {
    DiffGitFields(a, b);
  }

  lemma DiffGitFields(a: string, b: string)
    requires ' ' !in a && ' ' !in b
    ensures Split("diff --git " + a + " " + b, " ") == ["diff", "--git", a, b]
  {
    var pre := "diff" + [' '] + "--git" + [' '];
    assert "diff --git " == pre;
    assert "diff --git " + a + " " + b == pre + (a + [' '] + b);
    SplitTwoThen("diff", "--git", a + [' '] + b, ' ');
    SplitAfter(a, ' ', b);
    SplitWithout(b, ' ');
  }

  /** A `diff` line with fewer than three spaces has fewer than four fields: it changes
      nothing, not even the state. */
  lemma ShortDiffLine(v: DiffView, line: string)
    requires v.state == HeadState && StartsWith(line, "diff") && CountChar(line, ' ') < 3
    ensures Step(v, line) == v
  {
    SplitCount(line, ' ');
  }

  /** `index A..B rest` with space- and dot-free revisions gives the two revisions. */
  lemma IndexLine(v: DiffView, a: string, b: string, rest: string)
    requires v.state == HeadState
    requires ' ' !in a && ' ' !in b && '.' !in a && '.' !in b
    ensures var w := Step(v, "index " + a + ".." + b + " " + rest);
      w == Settle(v.(fromRev := a, toRev := b)) &&
      (w.state == HunkState <==> v.fromFile != [] && a != [])
  {
    var range := a + ".." + b;
    var line := "index " + a + ".." + b + " " + rest;
    assert line == "index" + [' '] + range + [' '] + rest;
    NotStartsWith(line, "diff");
    assert StartsWith(line, "index");
    RangeSplit(a, b);
    SplitTwoThen("index", range, rest, ' ');
    assert Split(line, " ")[1] == range;
  }

  /** `A..B` with dot-free and space-free `A` and `B` holds no space and splits on `..` into
      `A` and `B`. */
  lemma RangeSplit(a: string, b: string)
    requires ' ' !in a && ' ' !in b && '.' !in a && '.' !in b
    ensures ' ' !in a + ".." + b && Split(a + ".." + b, "..") == [a, b]
  {
    var range := a + ".." + b;
    assert forall i :: 0 <= i < |range| ==> range[i] != ' ' by {
      forall i | 0 <= i < |range| ensures range[i] != ' ' {
        if i < |a| {
          assert range[i] == a[i];
        } else if i >= |a| + 2 {
          assert range[i] == b[i - |a| - 2];
        }
      }
    }
    assert range[|a|..|a| + 2] == "..";
    assert forall i :: 0 <= i < |a| ==> range[i] != '.' by {
      forall i | 0 <= i < |a| ensures range[i] != '.' {
        assert range[i] == a[i];
      }
    }
    IndexOfFirstChar(range, "..", 0, |a|);
    assert range[|a| + 2..] == b && range[..|a|] == a;
    forall i | 0 <= i < |b| ensures !OccursAt(b, "..", i) {
      NotOccurs(b, "..", i);
    }
  }

  /** An `index` line whose second field holds no `..` changes nothing. */
  lemma IndexWithoutRange(v: DiffView, line: string)
    requires v.state == HeadState && StartsWith(line, "index") && !StartsWith(line, "diff")
    requires var list := Split(line, " "); |list| >= 3 && forall i :: !OccursAt(list[1], "..", i)
    ensures Step(v, line) == v
  {
  }

  /** Hunks come only after a file and a revision: a state that is in the hunk part has both,
      and every line keeps it so; the hunk part is never left. */
  lemma HunkPartKept(v: DiffView, line: string)
    requires v.state == HunkState ==> v.fromFile != [] && v.fromRev != []
    ensures var w := Step(v, line);
      (w.state == HunkState ==> w.fromFile != [] && w.fromRev != []) &&
      (v.state == HunkState ==> w.state == HunkState)
  {
  }

  /** The head part never touches the hunks, and the hunk part never touches the head
      fields. */
  lemma PartsSeparate(v: DiffView, line: string)
    ensures var w := Step(v, line);
      (v.state == HeadState ==> w.hunks == v.hunks) &&
      (v.state == HunkState ==> w == v.(hunks := w.hunks))
  {
  }

  /** Hunks are only added or grown: none is removed, every header stays, every body is
      kept as a prefix, and all but the last hunk are left exactly as they were. */
  lemma HunksOnlyGrow(v: DiffView, line: string)
    ensures var w := Step(v, line);
      |v.hunks| <= |w.hunks| <= |v.hunks| + 1 &&
      (forall i :: 0 <= i < |v.hunks| ==> w.hunks[i].head == v.hunks[i].head && v.hunks[i].body <= w.hunks[i].body) &&
      (forall i :: 0 <= i < |v.hunks| - 1 ==> w.hunks[i] == v.hunks[i])
  {
    var w := Step(v, line);
    if v.state == HunkState && !StartsWith(line, "@@ ") && |v.hunks| > 0 {
      var n := |v.hunks| - 1;
      assert w.hunks == v.hunks[..n] + [v.hunks[n].(body := v.hunks[n].body + [line])];
      assert forall i :: 0 <= i < n ==> w.hunks[i] == v.hunks[i];
    }
  }

  /** Reading a `@@ ` line and then lines that start no hunk, in the hunk part, adds one hunk
      with that header whose body is exactly those lines, in order. */
  lemma {:induction false} ReadOneHunk(v: DiffView, head: string, body: seq<string>)
    requires v.state == HunkState && StartsWith(head, "@@ ")
    requires forall i :: 0 <= i < |body| ==> !StartsWith(body[i], "@@ ")
    ensures StepAll(v, [head] + body) == v.(hunks := v.hunks + [HunkView(head, body)])
    decreases |body|
  {
    var lines := [head] + body;
    if body == [] {
      assert lines[..0] == [];
    } else {
      var n := |body| - 1;
      ReadOneHunk(v, head, body[..n]);
      assert lines[..|lines| - 1] == [head] + body[..n];
      var u := v.(hunks := v.hunks + [HunkView(head, body[..n])]);
      assert |u.hunks| - 1 == |v.hunks|;
      assert u.hunks[..|v.hunks|] == v.hunks;
      assert body[..n] + [body[n]] == body;
    }
  }
}
