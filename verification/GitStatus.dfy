/**
 * `GitStatus`: reads the output of `git status` one line at a time. A header
 * line selects the section the following lines belong to; inside a section
 * the parser picks out the current branch, the upstream branch with the
 * behind/ahead counts, and the staged, unstaged and untracked files.
 */
module StatusParser {
  import opened JsString

  /** The section being read; `NoSection` is the empty state before any header. */
  datatype StatusState = NoSection | Branch | Update | Staged | Unstaged | Untracked

  datatype TrackedFile = TrackedFile(status: string, file: string)

  /** The section headers, in the order they are tried. */
  const StatusHeaders: seq<(StatusState, string)> := [
    (Branch, "On branch"),
    (Update, "Your branch"),
    (Staged, "Changes to be committed:"),
    (Unstaged, "Changes not staged for commit:"),
    (Untracked, "Untracked files:")
  ]

  /** Where the first quote of a `Your branch` line stands, for each of its forms. */
  const UpToDateOffset := 31
  const BehindOffset := 22
  const AheadOffset := 24
  const DivergedOffset := 16

  /** Everything a `GitStatus` holds. The counts are JavaScript numbers: `None` is NaN. */
  datatype StatusView = StatusView(
    state: StatusState,
    currentBranch: string,
    remoteBranch: string,
    behind: Option<int>,
    ahead: Option<int>,
    staged: seq<TrackedFile>,
    unstaged: seq<TrackedFile>,
    untracked: seq<string>)

  const Initial := StatusView(NoSection, "", "", Some(-1), Some(-1), [], [], [])

  /** The section of the first header, in order, that starts the line. */
  function HeaderState(headers: seq<(StatusState, string)>, line: string): (r: Option<StatusState>)
    ensures r.None? <==> forall k :: 0 <= k < |headers| ==> !StartsWith(line, headers[k].1)
    ensures r.Some? ==> exists k :: (0 <= k < |headers| && StartsWith(line, headers[k].1) &&
      headers[k].0 == r.value && forall j :: 0 <= j < k ==> !StartsWith(line, headers[j].1))
  {
    if headers == [] then None
    else if StartsWith(line, headers[0].1) then Some(headers[0].0)
    else
      var r := HeaderState(headers[1..], line);
      assert r.Some? ==> exists k :: (1 <= k < |headers| && StartsWith(line, headers[k].1) &&
        headers[k].0 == r.value && forall j :: 0 <= j < k ==> !StartsWith(line, headers[j].1)) by {
        if r.Some? {
          var k :| 0 <= k < |headers[1..]| && StartsWith(line, headers[1..][k].1) &&
            headers[1..][k].0 == r.value && forall j :: 0 <= j < k ==> !StartsWith(line, headers[1..][j].1);
          assert forall j :: 1 <= j < k + 1 ==> headers[j] == headers[1..][j - 1];
        }
      }
      r
  }

  /** The state after reading `line`: the first header that starts it, or the old state. */
  function NextState(state: StatusState, line: string): (r: StatusState)
    ensures r == state || r != NoSection
  {
    match HeaderState(StatusHeaders, line)
    case Some(s) => s
    case None => state
  }

  /** A file line of the staged or unstaged section: the status runs from after the tab to
      the first ':', the path starts at index 13. */
  function TrackedFileOf(line: string): (r: TrackedFile)
    ensures |r.file| <= |line| && r.file == line[|line| - |r.file|..]
    ensures |line| <= 13 ==> r.file == []
  {
    TrackedFile(Substring(line, 1, IndexOf(line, ":")), SubstringFrom(line, 13))
  }

  /** A `Your branch ...` line: the upstream is between the first two quotes; where the first
      quote stands tells which form the line has. Only the upstream and the counts change. */
  function YourBranch(v: StatusView, line: string): (r: StatusView)
    ensures r == v.(remoteBranch := r.remoteBranch, behind := r.behind, ahead := r.ahead)
  {
    var start := IndexOf(line, "'");
    var end := IndexOf(line, "'", start + 1);
    var v := v.(remoteBranch := Substring(line, start + 1, end));
    if start == UpToDateOffset then v.(behind := Some(0), ahead := Some(0))
    else if start == BehindOffset then
      var behindStart := IndexOf(line, "by");
      var behindEnd := IndexOf(line, "commit", behindStart);
      v.(behind := ParseInt(Substring(line, behindStart + 3, behindEnd - 1)), ahead := Some(0))
    else if start == AheadOffset then
      var aheadStart := IndexOf(line, "by");
      var aheadEnd := IndexOf(line, "commit", aheadStart);
      v.(behind := Some(0), ahead := ParseInt(Substring(line, aheadStart + 3, aheadEnd - 1)))
    else v
  }

  /** A `Your branch` line read as evidently intended: the count is the number after the
      first "by" that follows the upstream's closing quote, not the first "by" of the line. */
  function YourBranchIntended(v: StatusView, line: string): (r: StatusView)
    ensures r == v.(remoteBranch := r.remoteBranch, behind := r.behind, ahead := r.ahead)
  {
    var start := IndexOf(line, "'");
    var end := IndexOf(line, "'", start + 1);
    var v := v.(remoteBranch := Substring(line, start + 1, end));
    if start == UpToDateOffset then v.(behind := Some(0), ahead := Some(0))
    else if start == BehindOffset then
      var behindStart := IndexOf(line, "by", end);
      var behindEnd := IndexOf(line, "commit", behindStart);
      v.(behind := ParseInt(Substring(line, behindStart + 3, behindEnd - 1)), ahead := Some(0))
    else if start == AheadOffset then
      var aheadStart := IndexOf(line, "by", end);
      var aheadEnd := IndexOf(line, "commit", aheadStart);
      v.(behind := Some(0), ahead := ParseInt(Substring(line, aheadStart + 3, aheadEnd - 1)))
    else v
  }

  /** The `and have A and B different commits each` line of a diverged branch: only the
      counts change. */
  function AndHave(v: StatusView, line: string): (r: StatusView)
    ensures r == v.(behind := r.behind, ahead := r.ahead)
  {
    var aheadEnd := IndexOf(line, "and", 9);
    var ahead := ParseInt(Substring(line, 9, aheadEnd - 1));
    var behindStart := aheadEnd + 4;
    var behindEnd := IndexOf(line, "different", behindStart);
    v.(ahead := ahead, behind := ParseInt(Substring(line, behindStart, behindEnd - 1)))
  }

  lemma AndHaveFields(v: StatusView, line: string)
    ensures var aheadEnd := IndexOf(line, "and", 9);
      AndHave(v, line) == v.(ahead := ParseInt(Substring(line, 9, aheadEnd - 1)),
        behind := ParseInt(Substring(line, aheadEnd + 4, IndexOf(line, "different", aheadEnd + 4) - 1)))
  {}

  /** A line of the `update` section. */
  function UpdateLine(v: StatusView, line: string): (r: StatusView)
    ensures r == v.(remoteBranch := r.remoteBranch, behind := r.behind, ahead := r.ahead)
  {
    if StartsWith(line, "Your branch") then YourBranch(v, line)
    else if v.behind == Some(-1) && v.ahead == Some(-1) && StartsWith(line, "and have") then AndHave(v, line)
    else v
  }

  /** A line read within the section `v.state`, once the section has been chosen. */
  function WithinSection(v: StatusView, line: string): (r: StatusView)
    ensures r.state == v.state
    ensures v.staged <= r.staged && v.unstaged <= r.unstaged && v.untracked <= r.untracked
  {
    match v.state
    case Branch =>
      if StartsWith(line, "On branch") then v.(currentBranch := SubstringFrom(line, 10)) else v
    case Update => UpdateLine(v, line)
    case Staged =>
      if StartsWith(line, "\t") then v.(staged := v.staged + [TrackedFileOf(line)]) else v
    case Unstaged =>
      if StartsWith(line, "\t") then v.(unstaged := v.unstaged + [TrackedFileOf(line)]) else v
    case Untracked =>
      if StartsWith(line, "\t") then v.(untracked := v.untracked + [SubstringFrom(line, 1)]) else v
    case NoSection => v
  }

  /** `append(line)` as a function of the whole state. */
  function Step(v: StatusView, line: string): (r: StatusView)
    ensures r.state == v.state || r.state != NoSection
    ensures v.staged <= r.staged && v.unstaged <= r.unstaged && v.untracked <= r.untracked
  {
    WithinSection(v.(state := NextState(v.state, line)), line)
  }

  class GitStatus {
    var state: StatusState
    var currentBranch: string
    var remoteBranch: string
    var behindCommit: Option<int>
    var aheadCommit: Option<int>
    var stagedFiles: seq<TrackedFile>
    var unstagedFiles: seq<TrackedFile>
    var untrackedFiles: seq<string>

    function View(): StatusView
      reads this
    {
      StatusView(state, currentBranch, remoteBranch, behindCommit, aheadCommit,
        stagedFiles, unstagedFiles, untrackedFiles)
    }

    /** No section yet, no branches, both counts -1, no files. */
    constructor ()
      ensures View() == Initial
    {
      state := NoSection;
      currentBranch := "";
      remoteBranch := "";
      behindCommit := Some(-1);
      aheadCommit := Some(-1);
      stagedFiles := [];
      unstagedFiles := [];
      untrackedFiles := [];
    }

    function GetCurrentBranch(): string
      reads this
    {
      currentBranch
    }

    function GetRemoteBranch(): string
      reads this
    {
      remoteBranch
    }

    function GetCommitCounts(): (Option<int>, Option<int>)
      reads this
    {
      (behindCommit, aheadCommit)
    }

    function GetStagedFiles(): seq<TrackedFile>
      reads this
    {
      stagedFiles
    }

    function GetUnstagedFiles(): seq<TrackedFile>
      reads this
    {
      unstagedFiles
    }

    function GetUntrackedFiles(): seq<string>
      reads this
    {
      untrackedFiles
    }

    /** `append(line)`: switch section on a header, then read the line within the section. */
    method Append(line: string)
      modifies this
      ensures View() == Step(old(View()), line)
    {
      SelectSection(line);
      ReadInSection(line);
    }

    /** The loop of `append` over the headers: the first one that starts the line gives the
        new section. */
    method SelectSection(line: string)
      modifies this
      ensures View() == old(View()).(state := NextState(old(state), line))
    {
      var i := 0;
      while i < |StatusHeaders|
        invariant 0 <= i <= |StatusHeaders| && state == old(state)
        invariant HeaderState(StatusHeaders, line) == HeaderState(StatusHeaders[i..], line)
      {
        var (key, value) := StatusHeaders[i];
        if StartsWith(line, value) {
          state := key;
          break;
        }
        assert StatusHeaders[i..][1..] == StatusHeaders[i + 1..];
        i := i + 1;
      }
    }

    /** The `switch` of `append`: the line read within the current section. */
    method ReadInSection(line: string)
      modifies this
      ensures View() == WithinSection(old(View()), line)
    {
      match state {
        case Branch =>
          if StartsWith(line, "On branch") {
            currentBranch := SubstringFrom(line, 10);
          }
        case Update => ReadUpdateLine(line);
        case Staged =>
          if StartsWith(line, "\t") {
            stagedFiles := stagedFiles + [TrackedFileOf(line)];
          }
        case Unstaged =>
          if StartsWith(line, "\t") {
            unstagedFiles := unstagedFiles + [TrackedFileOf(line)];
          }
        case Untracked =>
          if StartsWith(line, "\t") {
            untrackedFiles := untrackedFiles + [SubstringFrom(line, 1)];
          }
        case NoSection =>
      }
    }

    /** The `update` case of `append`: the upstream branch and the commit counts. */
    method ReadUpdateLine(line: string)
      modifies this
      ensures View() == UpdateLine(old(View()), line)
    {
      if StartsWith(line, "Your branch") {
        ReadYourBranch(line);
      } else if behindCommit == Some(-1) && aheadCommit == Some(-1) && StartsWith(line, "and have") {
        ReadAndHave(line);
      }
    }

    method ReadYourBranch(line: string)
      modifies this
      ensures View() == YourBranch(old(View()), line)
    {
      ghost var v := View();
      var start := IndexOf(line, "'");
      var end := IndexOf(line, "'", start + 1);
      var behind, ahead := behindCommit, aheadCommit;
      if start == UpToDateOffset {
        behind, ahead := Some(0), Some(0);
      } else if start == BehindOffset {
        var behindStart := IndexOf(line, "by");
        var behindEnd := IndexOf(line, "commit", behindStart);
        behind, ahead := ParseInt(Substring(line, behindStart + 3, behindEnd - 1)), Some(0);
      } else if start == AheadOffset {
        var aheadStart := IndexOf(line, "by");
        var aheadEnd := IndexOf(line, "commit", aheadStart);
        behind, ahead := Some(0), ParseInt(Substring(line, aheadStart + 3, aheadEnd - 1));
      }
      var remote := Substring(line, start + 1, end);
      assert YourBranch(v, line) == v.(remoteBranch := remote, behind := behind, ahead := ahead);
      remoteBranch, behindCommit, aheadCommit := remote, behind, ahead;
    }

    method ReadAndHave(line: string)
      modifies this
      ensures View() == AndHave(old(View()), line)
    {
      var aheadEnd := IndexOf(line, "and", 9);
      var ahead := ParseInt(Substring(line, 9, aheadEnd - 1));
      var behindStart := aheadEnd + 4;
      var behindEnd := IndexOf(line, "different", behindStart);
      var behind := ParseInt(Substring(line, behindStart, behindEnd - 1));
      AndHaveFields(View(), line);
      aheadCommit, behindCommit := ahead, behind;
    }
  }

  // ------------------------------------------------------------------
  // Properties of a step

  /** A line that starts with no header keeps the section; one that does moves to the
      section of the first header, in order, that starts it. */
  lemma StateFollowsHeaders(v: StatusView, line: string)
    ensures (forall k :: 0 <= k < |StatusHeaders| ==> !StartsWith(line, StatusHeaders[k].1)) ==>
              Step(v, line).state == v.state
    ensures forall k :: (0 <= k < |StatusHeaders| && StartsWith(line, StatusHeaders[k].1) &&
                         (forall j :: 0 <= j < k ==> !StartsWith(line, StatusHeaders[j].1))) ==>
                        Step(v, line).state == StatusHeaders[k].0
  {
  }

  /** `On branch NAME` selects the branch section and records NAME; nothing else changes. */
  lemma OnBranchLine(v: StatusView, name: string)
    ensures Step(v, "On branch " + name) == v.(state := Branch, currentBranch := name)
  {
    var line := "On branch " + name;
    assert StartsWith(line, "On branch");
    assert SubstringFrom(line, 10) == name;
  }

  /** A line with no tab never starts a header, and no header starts with a tab. */
  lemma TabLineKeepsState(v: StatusView, line: string)
    requires StartsWith(line, "\t")
    ensures Step(v, line).state == v.state
  {
    assert line[0] == '\t';
    forall k | 0 <= k < |StatusHeaders|
      ensures !StartsWith(line, StatusHeaders[k].1)
    {
      NotStartsWith(line, StatusHeaders[k].1);
    }
  }

  /** In a file section, a tab line adds exactly one entry to that section's list and
      changes nothing else. */
  lemma FileLineAppends(v: StatusView, line: string)
    requires StartsWith(line, "\t")
    ensures v.state == Staged ==> Step(v, line) == v.(staged := v.staged + [TrackedFileOf(line)])
    ensures v.state == Unstaged ==> Step(v, line) == v.(unstaged := v.unstaged + [TrackedFileOf(line)])
    ensures v.state == Untracked ==> Step(v, line) == v.(untracked := v.untracked + [line[1..]])
  {
    TabLineKeepsState(v, line);
    assert v.(state := NextState(v.state, line)) == v;
    assert SubstringFrom(line, 1) == line[1..];
  }

  /** The file lists only grow, by at most one entry in all, and only on a tab line. */
  lemma ListsOnlyGrow(v: StatusView, line: string)
    ensures var w := Step(v, line);
      v.staged <= w.staged && v.unstaged <= w.unstaged && v.untracked <= w.untracked &&
      |w.staged| + |w.unstaged| + |w.untracked| <= |v.staged| + |v.unstaged| + |v.untracked| + 1
    ensures !StartsWith(line, "\t") ==> var w := Step(v, line);
      w.staged == v.staged && w.unstaged == v.unstaged && w.untracked == v.untracked
  {
    var u := v.(state := NextState(v.state, line));
    assert Step(v, line) == WithinSection(u, line);
    match u.state
    case Update =>
      assert UpdateLine(u, line).staged == v.staged;
    case _ =>
  }

  /** `git status` prints a file as a tab, the status and ':' padded to twelve characters,
      then the path; reading it back gives the status and the path. */
  lemma TrackedFileRoundTrip(status: string, path: string)
    requires ':' !in status && |status| < 12
    ensures TrackedFileOf("\t" + PadEnd(status + ":", 12) + path) == TrackedFile(status, path)
  {
    var head := PadEnd(status + ":", 12);
    var line := "\t" + head + path;
    assert line[1..1 + |status|] == status && line[1 + |status|] == ':';
    assert forall i :: 0 <= i < 1 + |status| ==> line[i] != ':' by {
      forall i | 0 <= i < 1 + |status| ensures line[i] != ':' {
        if i > 0 {
          assert line[i] == status[i - 1];
        }
      }
    }
    IndexOfChar(line, ':', 0, 1 + |status|);
    assert line[13..] == path;
  }

  /** A `Your branch` line selects the update section and is read there. */
  lemma YourBranchLine(v: StatusView, line: string)
    requires StartsWith(line, "Your branch")
    ensures Step(v, line) == YourBranch(v.(state := Update), line)
  {
    assert line[0] == 'Y';
    NotStartsWith(line, "On branch");
    assert StartsWith(line, StatusHeaders[1].1);
  }

  /** The upstream branch is the text between the first two quotes of a `Your branch` line. */
  lemma RemoteBranchBetweenQuotes(v: StatusView, line: string, a: nat, b: nat)
    requires StartsWith(line, "Your branch")
    requires a < b < |line| && line[a] == '\'' && line[b] == '\''
    requires forall i :: 0 <= i < b && i != a ==> line[i] != '\''
    ensures Step(v, line).state == Update && Step(v, line).remoteBranch == line[a + 1..b]
  {
    YourBranchLine(v, line);
    IndexOfChar(line, '\'', 0, a);
    IndexOfChar(line, '\'', a + 1, b);
    assert Substring(line, a + 1, b) == line[a + 1..b];
  }

  /** Where the first quote of a `Your branch` line stands decides the counts: 31 (up to date)
      sets both to 0, 22 (behind) sets ahead to 0, 24 (ahead) sets behind to 0, and any other
      place, 16 (diverged) among them, leaves both as they were. */
  lemma CountsByQuoteOffset(v: StatusView, line: string)
    requires StartsWith(line, "Your branch")
    ensures var start, w := IndexOf(line, "'"), Step(v, line);
      (start == UpToDateOffset ==> w.behind == Some(0) && w.ahead == Some(0)) &&
      (start == BehindOffset ==> w.ahead == Some(0)) &&
      (start == AheadOffset ==> w.behind == Some(0)) &&
      (start !in {UpToDateOffset, BehindOffset, AheadOffset} ==> w.behind == v.behind && w.ahead == v.ahead)
  {
    YourBranchLine(v, line);
  }

  /** The opening of a behind line and of an ahead line, up to and including the first quote. */
  const BehindHead := "Your branch is behind '"
  const AheadHead := "Your branch is ahead of '"

  /** The first quote ends the opening `head`; the second ends the upstream `r`. */
  lemma QuotesShape(line: string, head: string, r: string)
    requires |head| > 0 && head[|head| - 1] == '\'' && '\'' !in head[..|head| - 1] && '\'' !in r
    requires |head| + |r| < |line| && line[..|head|] == head && line[|head|..|head| + |r|] == r
    requires line[|head| + |r|] == '\''
    ensures IndexOf(line, "'") == |head| - 1 && IndexOf(line, "'", |head|) == |head| + |r|
    ensures Substring(line, |head|, |head| + |r|) == r
  {
    var h, q := |head|, |head| + |r|;
    forall i | 0 <= i < h - 1
      ensures line[i] != '\''
    {
      assert line[i] == line[..h][i] == head[..h - 1][i];
    }
    assert line[h - 1] == line[..h][h - 1];
    IndexOfChar(line, '\'', 0, h - 1);
    forall i | h <= i < q
      ensures line[i] != '\''
    {
      assert line[i] == line[h..q][i - h];
    }
    IndexOfChar(line, '\'', h, q);
  }

  /** After the closing quote at `q`: the "by" two further on, the count, and ` commit`. */
  lemma CountShape(line: string, q: nat, ds: string)
    requires AllDigits(ds) && q + 12 + |ds| <= |line|
    requires line[q..q + 5] == "' by " && line[q + 5..q + 5 + |ds|] == ds
    requires line[q + 5 + |ds|..q + 12 + |ds|] == " commit"
    ensures IndexOf(line, "by", q) == q + 2 && IndexOf(line, "commit", q + 2) == q + 6 + |ds|
    ensures Substring(line, q + 5, q + 5 + |ds|) == ds
  {
    var k := q + 6 + |ds|;
    assert line[q] == '\'' && line[q + 1] == ' ' && line[q + 2] == 'b' && line[q + 3] == 'y' && line[q + 4] == ' ';
    assert line[k - 1] == ' ';
    assert OccursAt(line, "by", q + 2) by {
      assert line[q + 2..q + 4] == line[q..q + 5][2..4];
    }
    NotOccurs(line, "by", q);
    NotOccurs(line, "by", q + 1);
    IndexOfFirst(line, "by", q, q + 2);
    assert OccursAt(line, "commit", k) by {
      assert line[k..k + 6] == line[q + 5 + |ds|..q + 12 + |ds|][1..];
    }
    forall i | q + 2 <= i < k
      ensures !OccursAt(line, "commit", i)
    {
      if q + 5 <= i < k - 1 {
        assert line[i] == ds[i - q - 5];
      }
      NotOccurs(line, "commit", i);
    }
    IndexOfFirst(line, "commit", q + 2, k);
  }

  /** `line` is laid out as `HEAD R' by N commit...`, with the count written `ds`. */
  predicate LaidOut(line: string, head: string, r: string, ds: string) {
    var q := |head| + |r|;
    q + 12 + |ds| <= |line| &&
    line[..|head|] == head && line[|head|..q] == r && line[q] == '\'' &&
    line[q..q + 5] == "' by " && line[q + 5..q + 5 + |ds|] == ds &&
    line[q + 5 + |ds|..q + 12 + |ds|] == " commit"
  }

  lemma LineParts(head: string, r: string, ds: string, rest: string)
    ensures LaidOut(head + r + "' by " + ds + " commit" + rest, head, r, ds)
  {
  }

  /** Where the parts of `HEAD R' by N commit...` sit, for an opening `HEAD` that ends with its
      only quote and an upstream `R` without quotes. */
  lemma LineShape(line: string, head: string, r: string, ds: string)
    requires |head| > 0 && head[|head| - 1] == '\'' && '\'' !in head[..|head| - 1] && '\'' !in r
    requires AllDigits(ds) && LaidOut(line, head, r, ds)
    ensures var q := |head| + |r|;
      IndexOf(line, "'") == |head| - 1 && IndexOf(line, "'", |head|) == q &&
      Substring(line, |head|, q) == r && IndexOf(line, "by", q) == q + 2 &&
      IndexOf(line, "commit", q + 2) == q + 6 + |ds| &&
      Substring(line, q + 5, q + 5 + |ds|) == ds
  {
    QuotesShape(line, head, r);
    CountShape(line, |head| + |r|, ds);
  }

  /** Reading a behind or ahead line as written, given the upstream and the count text in the
      terms `YourBranch` finds them. */
  lemma CountReads(v: StatusView, line: string, start: int, r: string, n: nat)
    requires IndexOf(line, "'") == start
    requires Substring(line, IndexOf(line, "'") + 1, IndexOf(line, "'", IndexOf(line, "'") + 1)) == r
    requires Substring(line, IndexOf(line, "by") + 3, IndexOf(line, "commit", IndexOf(line, "by")) - 1) == NatToString(n)
    ensures start == BehindOffset ==> YourBranch(v, line) == v.(remoteBranch := r, behind := Some(n), ahead := Some(0))
    ensures start == AheadOffset ==> YourBranch(v, line) == v.(remoteBranch := r, behind := Some(0), ahead := Some(n))
  {
    NatToStringRoundTrip(n);
  }

  /** Two parts that open `line`, one after the other, form a prefix of it. */
  lemma PrefixOfParts(line: string, a: string, b: string)
    requires |a| + |b| <= |line| && line[..|a|] == a && line[|a|..|a| + |b|] == b
    ensures a + b <= line
  {
    forall i | 0 <= i < |a| + |b|
      ensures (a + b)[i] == line[i]
    {
      if i < |a| {
        assert line[i] == line[..|a|][i];
      } else {
        assert line[i] == line[|a|..|a| + |b|][i - |a|];
      }
    }
    assert a + b == line[..|a| + |b|];
  }

  /** The first "by" of `HEAD R' by ...` is the one after the quote when `HEAD R' ` holds none. */
  lemma FirstByAfterQuote(line: string, head: string, r: string, ds: string)
    requires LaidOut(line, head, r, ds) && !Includes(head + r + "' ", "by")
    ensures IndexOf(line, "by") == |head| + |r| + 2
  {
    var q := |head| + |r|;
    PrefixOfParts(line, head, r);
    assert line[..q] == head + r;
    assert line[q..q + 2] == line[q..q + 5][..2];
    PrefixOfParts(line, head + r, "' ");
    assert line[q + 1] == line[q..q + 5][1];
    NotOccurs(line, "by", q + 1);
    assert OccursAt(line, "by", q + 2) by {
      assert line[q + 2] == line[q..q + 5][2] && line[q + 3] == line[q..q + 5][3];
      assert line[q + 2..q + 4] == "by";
    }
    FirstAfterPrefix(line, head + r + "' ", "by");
  }

  /** Where the as-written reading finds the upstream and the count of `HEAD R' by N commit...`
      when `HEAD R' ` holds no "by". */
  lemma ByShape(line: string, head: string, r: string, ds: string)
    requires |head| > 0 && head[|head| - 1] == '\'' && '\'' !in head[..|head| - 1] && '\'' !in r
    requires AllDigits(ds) && LaidOut(line, head, r, ds) && !Includes(head + r + "' ", "by")
    ensures IndexOf(line, "'") == |head| - 1
    ensures Substring(line, IndexOf(line, "'") + 1, IndexOf(line, "'", IndexOf(line, "'") + 1)) == r
    ensures Substring(line, IndexOf(line, "by") + 3, IndexOf(line, "commit", IndexOf(line, "by")) - 1) == ds
  {
    var q := |head| + |r|;
    LineShape(line, head, r, ds);
    FirstByAfterQuote(line, head, r, ds);
    assert IndexOf(line, "'") + 1 == |head|;
    assert IndexOf(line, "by") + 3 == q + 5;
    assert IndexOf(line, "commit", IndexOf(line, "by")) - 1 == q + 5 + |ds|;
  }

  /** `ByCounts` over a line known only by its layout. */
  lemma ByReads(v: StatusView, line: string, head: string, r: string, n: nat)
    requires |head| > 0 && head[|head| - 1] == '\'' && '\'' !in head[..|head| - 1] && '\'' !in r
    requires !Includes(head + r + "' ", "by") && LaidOut(line, head, r, NatToString(n))
    ensures var w := YourBranch(v, line);
      w.remoteBranch == r &&
      (|head| - 1 == BehindOffset ==> w.behind == Some(n) && w.ahead == Some(0)) &&
      (|head| - 1 == AheadOffset ==> w.behind == Some(0) && w.ahead == Some(n))
  {
    ByShape(line, head, r, NatToString(n));
    CountReads(v, line, |head| - 1, r, n);
  }

  /** `HEAD R' by N commit...` read as written: the upstream is `R` and the count `N`, as long
      as no "by" comes before the one in front of the count. */
  lemma ByCounts(v: StatusView, head: string, r: string, n: nat, rest: string)
    requires |head| > 0 && head[|head| - 1] == '\'' && '\'' !in head[..|head| - 1] && '\'' !in r
    requires !Includes(head + r + "' ", "by")
    ensures var w := YourBranch(v, head + r + "' by " + NatToString(n) + " commit" + rest);
      w.remoteBranch == r &&
      (|head| - 1 == BehindOffset ==> w.behind == Some(n) && w.ahead == Some(0)) &&
      (|head| - 1 == AheadOffset ==> w.behind == Some(0) && w.ahead == Some(n))
  {
    LineParts(head, r, NatToString(n), rest);
    ByReads(v, head + r + "' by " + NatToString(n) + " commit" + rest, head, r, n);
  }

  /** `Your branch is behind 'R' by N commit...` read as written: the upstream is `R` and the
      behind count `N`, as long as no "by" comes before the one in front of the count. */
  lemma BehindCounts(v: StatusView, r: string, n: nat, rest: string)
    requires '\'' !in r && !Includes(BehindHead + r + "' ", "by")
    ensures var w := YourBranch(v, BehindHead + r + "' by " + NatToString(n) + " commit" + rest);
      w.remoteBranch == r && w.behind == Some(n) && w.ahead == Some(0)
  {
    assert BehindHead[..|BehindHead| - 1] == "Your branch is behind ";
    ByCounts(v, BehindHead, r, n, rest);
  }

  /** `Your branch is ahead of 'R' by N commit...` read as written: the upstream is `R` and the
      ahead count `N`, as long as no "by" comes before the one in front of the count. */
  lemma AheadCounts(v: StatusView, r: string, n: nat, rest: string)
    requires '\'' !in r && !Includes(AheadHead + r + "' ", "by")
    ensures var w := YourBranch(v, AheadHead + r + "' by " + NatToString(n) + " commit" + rest);
      w.remoteBranch == r && w.behind == Some(0) && w.ahead == Some(n)
  {
    assert AheadHead[..|AheadHead| - 1] == "Your branch is ahead of ";
    ByCounts(v, AheadHead, r, n, rest);
  }

  /** Reading a behind line as written, given the count text in the terms `YourBranch` finds
      it. */
  lemma BehindReads(v: StatusView, line: string, text: string)
    requires IndexOf(line, "'") == BehindOffset
    requires Substring(line, IndexOf(line, "by") + 3, IndexOf(line, "commit", IndexOf(line, "by")) - 1) == text
    ensures YourBranch(v, line).behind == ParseInt(text)
  {
  }

  /** In a behind line whose upstream `P` + "by" leaves no "by" in the opening and `P`, the
      first "by" is the one that ends the upstream. */
  lemma HoldingFirstBy(line: string, pre: string, q: nat)
    requires q == |BehindHead| + |pre| + 2 && q + 5 <= |line|
    requires line[..|BehindHead|] == BehindHead && line[|BehindHead|..q] == pre + "by"
    requires !Includes(BehindHead + pre, "by")
    ensures IndexOf(line, "by") == q - 2 && line[q - 2] == 'b' && line[q - 1] == 'y'
  {
    var h := |BehindHead|;
    assert line[h..q][..|pre|] == pre && line[h..q][|pre|..] == "by";
    assert line[h..q - 2] == pre;
    PrefixOfParts(line, BehindHead, pre);
    assert line[q - 2..q] == "by";
    assert line[q - 2] == line[q - 2..q][0] && line[q - 1] == line[q - 2..q][1];
    assert line[q - 3..q - 1][1] == line[q - 2];
    FirstAfterPrefix(line, BehindHead + pre, "by");
  }

  /** Searching for "commit" from the "by" that ends the upstream finds the one after the
      count. */
  lemma HoldingCommit(line: string, q: nat, k: int)
    requires 2 <= q && q + 5 <= |line| && line[q - 2] == 'b' && line[q - 1] == 'y'
    requires line[q..q + 5] == "' by " && IndexOf(line, "commit", q + 2) == k && k != -1
    ensures IndexOf(line, "commit", q - 2) == k
  {
    assert line[q] == '\'' && line[q + 1] == ' ';
    forall i | q - 2 <= i < q + 2
      ensures !OccursAt(line, "commit", i)
    {
      NotOccurs(line, "commit", i);
    }
    IndexOfFirst(line, "commit", q - 2, k);
  }

  /** What the as-written reading hands to `parseInt`: the text from after that "by". */
  lemma SpacedCount(line: string, q: nat, ds: string)
    requires q + 5 + |ds| <= |line| && line[q..q + 5] == "' by "
    requires Substring(line, q + 5, q + 5 + |ds|) == ds
    ensures Substring(line, q + 1, q + 5 + |ds|) == " by " + ds
  {
    SubstringSlice(line, q + 5, q + 5 + |ds|);
    SubstringSlice(line, q + 1, q + 5 + |ds|);
    assert line[q + 1..q + 5 + |ds|] == line[q + 1..q + 5] + line[q + 5..q + 5 + |ds|];
    assert line[q + 1..q + 5] == line[q..q + 5][1..];
  }

  /** `parseInt(" by N")` is NaN. */
  lemma ByIsNaN(ds: string)
    ensures ParseInt(" by " + ds) == None
  {
    ParseIntSkipsSpace(" by " + ds);
    assert (" by " + ds)[1..] == "by " + ds;
    NoLeadingDigit("by " + ds);
  }

  /** Where the as-written reading finds the count of a behind line whose upstream ends in
      "by": the text it hands to `parseInt` starts with that "by". */
  lemma HoldingShape(line: string, pre: string, ds: string)
    requires '\'' !in pre && !Includes(BehindHead + pre, "by")
    requires AllDigits(ds) && LaidOut(line, BehindHead, pre + "by", ds)
    ensures IndexOf(line, "'") == BehindOffset
    ensures Substring(line, IndexOf(line, "by") + 3, IndexOf(line, "commit", IndexOf(line, "by")) - 1) == " by " + ds
  {
    var r := pre + "by";
    var q := |BehindHead| + |r|;
    var k := q + 6 + |ds|;
    assert BehindHead[..|BehindHead| - 1] == "Your branch is behind ";
    assert '\'' !in r;
    LineShape(line, BehindHead, r, ds);
    HoldingFirstBy(line, pre, q);
    HoldingCommit(line, q, k);
    SpacedCount(line, q, ds);
    assert IndexOf(line, "by") + 3 == q + 1;
    assert IndexOf(line, "commit", IndexOf(line, "by")) - 1 == q + 5 + |ds|;
  }

  /** `BehindUpstreamHoldingBy` over a line known only by its layout. */
  lemma HoldingReads(v: StatusView, line: string, pre: string, ds: string)
    requires '\'' !in pre && !Includes(BehindHead + pre, "by")
    requires AllDigits(ds) && LaidOut(line, BehindHead, pre + "by", ds)
    ensures YourBranch(v, line).behind == None
  {
    HoldingShape(line, pre, ds);
    BehindReads(v, line, " by " + ds);
    ByIsNaN(ds);
  }

  /** As written, "by" is searched for from the start of the line, so an upstream whose name
      ends in "by" (`origin/hobby`) is taken for the count's "by": `parseInt` is handed
      `" by N"` and the behind count becomes NaN. */
  lemma BehindUpstreamHoldingBy(v: StatusView, pre: string, n: nat, rest: string)
    requires '\'' !in pre && !Includes(BehindHead + pre, "by")
    ensures YourBranch(v, BehindHead + (pre + "by") + "' by " + NatToString(n) + " commit" + rest).behind == None
  {
    var ds := NatToString(n);
    LineParts(BehindHead, pre + "by", ds, rest);
    HoldingReads(v, BehindHead + (pre + "by") + "' by " + ds + " commit" + rest, pre, ds);
  }

  /** Where the intended reading finds the upstream and the count of `HEAD R' by N commit...`. */
  lemma IntendedShape(line: string, head: string, r: string, ds: string)
    requires |head| > 0 && head[|head| - 1] == '\'' && '\'' !in head[..|head| - 1] && '\'' !in r
    requires AllDigits(ds) && LaidOut(line, head, r, ds)
    ensures IndexOf(line, "'") == |head| - 1
    ensures var e := IndexOf(line, "'", IndexOf(line, "'") + 1);
      Substring(line, IndexOf(line, "'") + 1, e) == r &&
      Substring(line, IndexOf(line, "by", e) + 3, IndexOf(line, "commit", IndexOf(line, "by", e)) - 1) == ds
  {
    var q := |head| + |r|;
    LineShape(line, head, r, ds);
    assert IndexOf(line, "'") + 1 == |head|;
    var e := IndexOf(line, "'", IndexOf(line, "'") + 1);
    assert e == q;
    assert IndexOf(line, "by", e) + 3 == q + 5;
    assert IndexOf(line, "commit", IndexOf(line, "by", e)) - 1 == q + 5 + |ds|;
  }

  /** Reading a behind or ahead line as intended, given the upstream and the count text in the
      terms `YourBranchIntended` finds them. */
  lemma IntendedReads(v: StatusView, line: string, start: int, r: string, n: nat)
    requires IndexOf(line, "'") == start
    requires var e := IndexOf(line, "'", IndexOf(line, "'") + 1);
      Substring(line, IndexOf(line, "'") + 1, e) == r &&
      Substring(line, IndexOf(line, "by", e) + 3, IndexOf(line, "commit", IndexOf(line, "by", e)) - 1) == NatToString(n)
    ensures start == BehindOffset ==> YourBranchIntended(v, line) == v.(remoteBranch := r, behind := Some(n), ahead := Some(0))
    ensures start == AheadOffset ==> YourBranchIntended(v, line) == v.(remoteBranch := r, behind := Some(0), ahead := Some(n))
  {
    NatToStringRoundTrip(n);
  }

  /** Read as intended, a `HEAD R' by N commit...` line gives the upstream `R` and the count
      `N` whatever the upstream's name holds. */
  lemma IntendedCounts(v: StatusView, head: string, r: string, n: nat, rest: string)
    requires |head| > 0 && head[|head| - 1] == '\'' && '\'' !in head[..|head| - 1] && '\'' !in r
    ensures var w := YourBranchIntended(v, head + r + "' by " + NatToString(n) + " commit" + rest);
      w.remoteBranch == r &&
      (|head| - 1 == BehindOffset ==> w.behind == Some(n) && w.ahead == Some(0)) &&
      (|head| - 1 == AheadOffset ==> w.behind == Some(0) && w.ahead == Some(n))
  {
    var line := head + r + "' by " + NatToString(n) + " commit" + rest;
    LineParts(head, r, NatToString(n), rest);
    IntendedShape(line, head, r, NatToString(n));
    IntendedReads(v, line, |head| - 1, r, n);
  }

  /** The `and have` line of a diverged branch is read only while both counts are still -1;
      otherwise it changes nothing. */
  lemma AndHaveOnlyOnce(v: StatusView, line: string)
    requires v.state == Update && StartsWith(line, "and have")
    ensures v.behind == Some(-1) && v.ahead == Some(-1) ==> Step(v, line) == AndHave(v, line)
    ensures !(v.behind == Some(-1) && v.ahead == Some(-1)) ==> Step(v, line) == v
  {
    assert line[0] == 'a';
    forall k | 0 <= k < |StatusHeaders|
      ensures !StartsWith(line, StatusHeaders[k].1)
    {
      NotStartsWith(line, StatusHeaders[k].1);
    }
  }

  /** After a run of digits, one space and a word that starts with neither, the first
      occurrence of that word from the start of the digits is the one right there, and the
      text `parseInt` is handed (up to the character before the word) is the run of digits. */
  lemma NumberThenWord(line: string, pre: string, ds: string, t: string, rest: string, from: int)
    requires AllDigits(ds) && t != [] && !IsDigit(t[0]) && t[0] != ' '
    requires line == pre + ds + [' '] + t + rest && from == |pre|
    ensures IndexOf(line, t, from) == from + |ds| + 1
    ensures Substring(line, from, IndexOf(line, t, from) - 1) == ds
  {
    var k := |pre| + |ds|;
    var p := pre + ds + [' '] + t;
    PrefixSlice(line, p, |pre|, k);
    PrefixSlice(line, p, k + 1, k + 1 + |t|);
    assert p[|pre|..k] == ds && p[k] == ' ' && p[k + 1..k + 1 + |t|] == t;
    forall i | |pre| <= i < k + 1
      ensures line[i] != t[0]
    {
      if i < k {
        assert line[i] == line[|pre|..k][i - |pre|];
      }
    }
    IndexOfFirstChar(line, t, |pre|, k + 1);
  }

  lemma AndHaveLineShapes(da: string, db: string, rest: string)
    ensures var line := "and have " + da + " and " + db + " different" + rest;
      line == "and have " + da + [' '] + "and" + (" " + db + " different" + rest) &&
      line == "and have " + da + " and " + db + [' '] + "different" + rest
  {
  }

  /** Reading a count: when the text `parseInt` is handed for a count is the numeral of `n`,
      the count read is `n`. */
  lemma AndHaveReads(v: StatusView, line: string, a: nat, b: nat)
    requires var aheadEnd := IndexOf(line, "and", 9);
      Substring(line, 9, aheadEnd - 1) == NatToString(a) &&
      Substring(line, aheadEnd + 4, IndexOf(line, "different", aheadEnd + 4) - 1) == NatToString(b)
    ensures AndHave(v, line).ahead == Some(a) && AndHave(v, line).behind == Some(b)
  {
    AndHaveFields(v, line);
    NatToStringRoundTrip(a);
    NatToStringRoundTrip(b);
  }

  /** `and have A and B different commits each, respectively.`: A commits ahead, B behind. */
  lemma AndHaveCounts(a: nat, b: nat, rest: string)
    ensures var v := AndHave(Initial, "and have " + NatToString(a) + " and " + NatToString(b) + " different" + rest);
      v.ahead == Some(a) && v.behind == Some(b)
  {
    var da, db := NatToString(a), NatToString(b);
    var line := "and have " + da + " and " + db + " different" + rest;
    AndHaveLineShapes(da, db, rest);
    NumberThenWord(line, "and have ", da, "and", " " + db + " different" + rest, 9);
    NumberThenWord(line, "and have " + da + " and ", db, "different", rest, IndexOf(line, "and", 9) + 4);
    AndHaveReads(Initial, line, a, b);
  }
}
