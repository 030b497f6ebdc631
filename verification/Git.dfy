/**
 * The string-parsing parts of the `Git` wrapper: the output of `git version`
 * and `git describe`, the lines of a sequencer file, and the arguments of
 * `git log`. Process output and file contents arrive as strings; a file that
 * does not exist is `None`.
 */
module Git {
  import opened JsString

  /** `dist` is a JavaScript number: `None` stands for NaN. */
  datatype GitTag = GitTag(name: string, dist: Option<int>)

  /** One line of a rebase sequencer file: the action, the commit and its subject. */
  datatype GitSeqLog = GitSeqLog(act: string, hash: string, subject: string)

  /** The two fields of a line of a rewritten-commits file. */
  datatype GitPairLog = GitPairLog(oldItem: string, newItem: string)

  // ------------------------------------------------------------------
  // getVersion

  /** `getVersion`: the third space-separated token of `git version` cut at its dots;
      `None` (the promise is rejected) on empty output, fewer than three tokens or fewer
      than three dotted parts. */
  function GetVersion(line: string): (r: Option<seq<string>>)
    ensures r.Some? ==> |r.value| >= 3 && forall p :: p in r.value ==> '.' !in p
  {
    if |line| <= 0 then None
    else
      var list := Split(line, " ");
      if |list| < 3 then None
      else
        var version := Split(list[2], ".");
        if |version| < 3 then None
        else
          assert forall p :: p in version ==> '.' !in p by {
            SplitPiecesFree(list[2], ".");
            forall p | p in version ensures '.' !in p {
              OccursChar(p, '.');
            }
          }
          Some(version)
  }

  /** A `git version x.y.z` line yields exactly `[x, y, z]`. */
  lemma VersionOfRelease(x: string, y: string, z: string)
    requires ' ' !in x && ' ' !in y && ' ' !in z && '.' !in x && '.' !in y && '.' !in z
    ensures GetVersion("git version " + (x + "." + y + "." + z)) == Some([x, y, z])
  {
    var v := x + "." + y + "." + z;
    assert ' ' !in v;
    VersionLineTokens(v);
    DottedParts(x, y, z);
    VersionOfToken("git version " + v, v);
  }

  lemma VersionLineTokens(v: string)
    requires ' ' !in v
    ensures Split("git version " + v, " ") == ["git", "version", v]
  {
    assert "git version " + v == "git" + [' '] + "version" + [' '] + v;
    SplitThree("git", "version", v, ' ');
  }

  lemma DottedParts(x: string, y: string, z: string)
    requires '.' !in x && '.' !in y && '.' !in z
    ensures Split(x + "." + y + "." + z, ".") == [x, y, z]
  {
    SplitThree(x, y, z, '.');
  }

  lemma VersionOfToken(line: string, v: string)
    requires |Split(line, " ")| == 3 && Split(line, " ")[2] == v && |Split(v, ".")| == 3
    ensures GetVersion(line) == Some(Split(v, "."))
  {
  }

  /** Output with fewer than two spaces is rejected. */
  lemma VersionNeedsThreeTokens(a: string, b: string)
    requires ' ' !in a && ' ' !in b
    ensures GetVersion(a) == None && GetVersion(a + " " + b) == None
  {
    SplitWithout(a, ' ');
    SplitAfter(a, ' ', b);
    SplitWithout(b, ' ');
  }

  // ------------------------------------------------------------------
  // getCurrTag / getNextTag

  /** The shared body of `getCurrTag` and `getNextTag`: no output gives `('', 0)`, output
      without the separator gives `(output, 0)`, otherwise the text before the first
      separator and the number after it. */
  function TagOf(line: string, sep: char): (r: GitTag)
    ensures r.name <= line && sep !in r.name
    ensures r.name == line || line[|r.name|] == sep
  {
    if |line| <= 0 then GitTag("", Some(0))
    else
      OccursChar(line, sep);
      var tokens := Split(line, [sep]);
      if |tokens| < 2 then GitTag(line, Some(0))
      else GitTag(tokens[0], ParseInt(tokens[1]))
  }

  /** `getCurrTag`, on the output of `git describe --tags --long`. */
  function GetCurrTag(line: string): (r: GitTag)
    ensures r.name <= line && '-' !in r.name
  {
    TagOf(line, '-')
  }

  /** `getNextTag`, on the output of `git describe --contains --long`. */
  function GetNextTag(line: string): (r: GitTag)
    ensures r.name <= line && '~' !in r.name
  {
    TagOf(line, '~')
  }

  /** Without a separator the whole output is the name and the distance is 0; no output gives `('', 0)`. */
  lemma TagWithoutSeparator(line: string, sep: char)
    requires sep !in line
    ensures TagOf(line, sep) == GitTag(line, Some(0))
  {
    if line != [] {
      SplitWithout(line, sep);
    }
  }

  /** `tag~n` names the commit `n` steps before `tag`; `~` cannot occur in a tag name. */
  lemma NextTagRoundTrip(tag: string, n: nat)
    requires '~' !in tag
    ensures GetNextTag(tag + "~" + NatToString(n)) == GitTag(tag, Some(n))
  {
    var ds := NatToString(n);
    assert '~' !in ds by { assert forall i :: 0 <= i < |ds| ==> IsDigit(ds[i]); }
    SplitAfter(tag, '~', ds);
    SplitWithout(ds, '~');
    NatToStringRoundTrip(n);
  }

  /** `git describe --long` prints `tag-n-gHASH`; for a tag without '-' the name and the distance are read back. */
  lemma CurrTagRoundTrip(tag: string, n: nat, hash: string)
    requires '-' !in tag && '-' !in hash
    ensures GetCurrTag(tag + "-" + NatToString(n) + "-g" + hash) == GitTag(tag, Some(n))
  {
    DescribeSplit(tag, n, hash);
    SplitWithout(tag, '-');
    NatToStringRoundTrip(n);
  }

  lemma DescribeSplit(tag: string, n: nat, hash: string)
    requires '-' !in hash
    ensures Split(tag + "-" + NatToString(n) + "-g" + hash, "-") == Split(tag, "-") + [NatToString(n), "g" + hash]
  {
    var ds := NatToString(n);
    assert '-' !in ds by { assert forall i :: 0 <= i < |ds| ==> IsDigit(ds[i]); }
    DescribeLineShape(tag, ds, hash);
    SplitAround(tag, '-', ds + ['-'] + ("g" + hash));
    SplitAfter(ds, '-', "g" + hash);
    SplitWithout("g" + hash, '-');
  }

  lemma DescribeLineShape(tag: string, ds: string, hash: string)
    ensures tag + "-" + ds + "-g" + hash == tag + ['-'] + (ds + ['-'] + ("g" + hash))
  {
    var g := "g" + hash;
    assert "-g" + hash == ['-'] + g;
    Assoc(tag + "-" + ds, "-g", hash);
    Assoc(tag + "-" + ds, ['-'], g);
    Regroup(tag, ['-'], ds, ['-'], g);
  }

  /** As written, a tag whose name holds a '-' is cut at its first '-': `release-1.0`, three
      commits back, is reported as `release` at distance 1. */
  lemma CurrTagHyphenatedName()
    ensures GetCurrTag("release-1.0-3-gabc") == GitTag("release", Some(1))
  {
    var line := "release-1.0-3-gabc";
    assert line == "release" + ['-'] + ("1.0" + ['-'] + ("3" + ['-'] + "gabc"));
    SplitAfter("release", '-', "1.0" + ['-'] + ("3" + ['-'] + "gabc"));
    SplitAfter("1.0", '-', "3" + ['-'] + "gabc");
    ParseOneDotZero();
  }

  lemma ParseOneDotZero()
    ensures ParseInt("1.0") == Some(1)
  {
    assert TrimStart("1.0") == "1.0";
    assert LeadingRun(".0", false) == [];
    assert LeadingRun("1.0", false) == "1";
    assert NumeralValue("1", false) == 1 by {
      assert "1"[..0] == [];
    }
  }

  /** `getCurrTag` as evidently intended: `git describe --long` appends exactly two
      '-'-separated fields, so the name is everything before the last two. */
  function DescribeTag(line: string): (r: GitTag)
    ensures r.name <= line
  {
    if |line| <= 0 then GitTag("", Some(0))
    else
      var tokens := Split(line, "-");
      var n := |tokens|;
      if n < 2 then GitTag(line, Some(0))
      else if n == 2 then GitTag(tokens[0], ParseInt(tokens[1]))
      else
        SplitJoin(line, "-");
        JoinTake(tokens, n - 2, "-");
        GitTag(Join(tokens[..n - 2], "-"), ParseInt(tokens[n - 2]))
  }

  /** Joining the first `k` pieces gives a prefix of joining them all. */
  lemma {:induction false} JoinTake(parts: seq<string>, k: int, sep: string)
    requires 0 <= k <= |parts|
    ensures Join(parts[..k], sep) <= Join(parts, sep)
  {
    if k == 0 {
    } else if |parts| == 1 {
      assert parts[..k] == parts;
    } else if k == 1 {
      assert parts[..k] == [parts[0]];
    } else {
      JoinTake(parts[1..], k - 1, sep);
      assert parts[..k][1..] == parts[1..][..k - 1];
    }
  }

  /** The corrected reading gives back any tag name, hyphens included. */
  lemma DescribeTagRoundTrip(tag: string, n: nat, hash: string)
    requires '-' !in hash
    ensures DescribeTag(tag + "-" + NatToString(n) + "-g" + hash) == GitTag(tag, Some(n))
  {
    var line := tag + "-" + NatToString(n) + "-g" + hash;
    DescribeSplit(tag, n, hash);
    var tokens := Split(line, "-");
    var k := |Split(tag, "-")|;
    assert tokens[..|tokens| - 2] == Split(tag, "-");
    SplitJoin(tag, "-");
    NatToStringRoundTrip(n);
  }

  // ------------------------------------------------------------------
  // Sequencer files

  /** The lines of a file as `split('\n')` gives them; an absent file has none. */
  function FileLines(file: Option<string>): seq<string> {
    if file.None? then [] else Split(file.value, "\n")
  }

  /** `getLine`: the first line of the file, or '' when it does not exist. */
  function GetLine(file: Option<string>): (r: string)
    ensures file.None? ==> r == ""
    ensures file.Some? ==>
      (r <= file.value && '\n' !in r && (r == file.value || file.value[|r|] == '\n'))
  {
    if file.None? then ""
    else
      var r := FirstPiece(file.value, "\n");
      OccursChar(r, '\n');
      OccursChar(file.value, '\n');
      r
  }

  /** The non-empty strings of `xs`, in order. */
  function NonEmpty(xs: seq<string>): seq<string> {
    if xs == [] then []
    else NonEmpty(xs[..|xs| - 1]) + (if |xs[|xs| - 1]| > 0 then [xs[|xs| - 1]] else [])
  }

  /** `getLines`: every non-empty line of the file, in order. */
  method GetLines(file: Option<string>) returns (results: seq<string>)
    ensures results == NonEmpty(FileLines(file))
  {
    results := [];
    if file.None? {
      return;
    }
    var lines := Split(file.value, "\n");
    for i := 0 to |lines|
      invariant results == NonEmpty(lines[..i])
    {
      assert lines[..i + 1][..i] == lines[..i];
      var line := lines[i];
      if |line| <= 0 {
        continue;
      }
      results := results + [line];
    }
    assert lines[..|lines|] == lines;
  }

  /** Exactly the non-empty lines are kept. */
  lemma {:induction false} NonEmptyMembers(xs: seq<string>)
    ensures forall x :: x in NonEmpty(xs) <==> x in xs && x != []
  {
    if xs != [] {
      var ys := xs[..|xs| - 1];
      NonEmptyMembers(ys);
      assert xs == ys + [xs[|xs| - 1]];
    }
  }

  /** Keeping the non-empty lines of two blocks one after the other keeps their order. */
  lemma {:induction false} NonEmptyConcat(a: seq<string>, b: seq<string>)
    ensures NonEmpty(a + b) == NonEmpty(a) + NonEmpty(b)
    decreases |b|
  {
    if b == [] {
      assert a + b == a;
    } else {
      var c := b[..|b| - 1];
      NonEmptyConcat(a, c);
      assert (a + b)[..|a + b| - 1] == a + c;
    }
  }

  /** The record `getPairs` makes of one line: the first two `sep`-fields of a non-empty line that has two. */
  function PairOf(line: string, sep: string): Option<GitPairLog> {
    if |line| <= 0 then None
    else
      var items := Split(line, sep);
      if |items| < 2 then None else Some(GitPairLog(items[0], items[1]))
  }

  function PairsOf(lines: seq<string>, sep: string): seq<GitPairLog> {
    if lines == [] then []
    else
      var p := PairOf(lines[|lines| - 1], sep);
      PairsOf(lines[..|lines| - 1], sep) + (if p.Some? then [p.value] else [])
  }

  /** `getPairs(file, sep)`: the pair of every line that has one, in order. */
  method GetPairs(file: Option<string>, sep: string := " ") returns (results: seq<GitPairLog>)
    ensures results == PairsOf(FileLines(file), sep)
  {
    results := [];
    if file.None? {
      return;
    }
    var lines := Split(file.value, "\n");
    for i := 0 to |lines|
      invariant results == PairsOf(lines[..i], sep)
    {
      assert lines[..i + 1][..i] == lines[..i];
      var line := lines[i];
      if |line| <= 0 {
        continue;
      }
      var items := Split(line, sep);
      if |items| < 2 {
        continue;
      }
      results := results + [GitPairLog(items[0], items[1])];
    }
    assert lines[..|lines|] == lines;
  }

  /** With a non-empty separator a line has a pair exactly when the separator occurs in it,
      and the old item is the text before its first occurrence. */
  lemma PairOfOccurrence(line: string, sep: string)
    requires sep != []
    ensures PairOf(line, sep).Some? <==> IndexOf(line, sep) >= 0
    ensures PairOf(line, sep).Some? ==> PairOf(line, sep).value.oldItem == line[..IndexOf(line, sep)]
  {
  }

  /** A line `old<sep>new` with a one-character separator found in neither field gives `(old, new)`. */
  lemma PairOfFields(a: string, b: string, c: char)
    requires c !in a && c !in b
    ensures PairOf(a + [c] + b, [c]) == Some(GitPairLog(a, b))
  {
    SplitAfter(a, c, b);
    SplitWithout(b, c);
  }

  /** The record `getSeqLogs` makes of one line: none for an empty or '#' line, otherwise the
      text before the first space, the text up to the next space, and the rest. */
  function SeqLogOf(line: string): Option<GitSeqLog> {
    if StartsWith(line, "#") || |line| <= 0 then None
    else
      var actEnd := IndexOf(line, " ");
      var hashEnd := IndexOf(line, " ", actEnd + 1);
      Some(GitSeqLog(Substring(line, 0, actEnd), Substring(line, actEnd + 1, hashEnd), SubstringFrom(line, hashEnd + 1)))
  }

  function SeqLogsOf(lines: seq<string>): seq<GitSeqLog> {
    if lines == [] then []
    else
      var s := SeqLogOf(lines[|lines| - 1]);
      SeqLogsOf(lines[..|lines| - 1]) + (if s.Some? then [s.value] else [])
  }

  /** `getSeqLogs`: the record of every line that is neither empty nor a comment, in order. */
  method GetSeqLogs(file: Option<string>) returns (results: seq<GitSeqLog>)
    ensures results == SeqLogsOf(FileLines(file))
  {
    results := [];
    if file.None? {
      return;
    }
    var lines := Split(file.value, "\n");
    for i := 0 to |lines|
      invariant results == SeqLogsOf(lines[..i])
    {
      SeqLogsSnoc(lines, i);
      var log := SeqLogOf(lines[i]);
      if log.Some? {
        results := results + [log.value];
      }
    }
    assert lines[..|lines|] == lines;
  }

  lemma SeqLogsSnoc(lines: seq<string>, i: nat)
    requires i < |lines|
    ensures SeqLogsOf(lines[..i + 1]) == SeqLogsOf(lines[..i]) + (if SeqLogOf(lines[i]).Some? then [SeqLogOf(lines[i]).value] else [])
  {
    assert lines[..i + 1][..i] == lines[..i];
  }

  /** A todo line `act hash subject` is read back field by field; the subject may hold spaces. */
  lemma SeqLogRoundTrip(act: string, hash: string, subject: string)
    requires act != [] && act[0] != '#' && ' ' !in act && ' ' !in hash
    ensures SeqLogOf(act + " " + hash + " " + subject) == Some(GitSeqLog(act, hash, subject))
  {
    var line := act + " " + hash + " " + subject;
    assert line == act + [' '] + hash + [' '] + subject;
    TwoSeparators(act, hash, subject, ' ');
    NotStartsWith(line, "#");
  }

  /** A line without any space (a bare `break`, say) has an empty action and hash; the whole
      line becomes the subject. */
  lemma SeqLogWithoutSpace(line: string)
    requires line != [] && line[0] != '#' && ' ' !in line
    ensures SeqLogOf(line) == Some(GitSeqLog("", "", line))
  {
    OccursChar(line, ' ');
  }

  // ------------------------------------------------------------------
  // getLogs

  /** The arguments `getLogs` passes to `git`: the fixed one-line, fully decorated log
      command followed by the caller's arguments. */
  function GetLogsArgs(args: seq<string>): (r: seq<string>)
    ensures |r| == 3 + |args|
    ensures r[..3] == ["log", "--oneline", "--decorate=full"] && r[3..] == args
  {
    if |args| <= 0 then ["log", "--oneline", "--decorate=full"]
    else ["log", "--oneline", "--decorate=full"] + args
  }
}
