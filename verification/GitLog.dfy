/**
 * `GitLog`: one commit of `git log --oneline --decorate=full`, read from a
 * line `hash (decorations) subject`. The decorations are filed under seven
 * label lists by the prefix of each ref name.
 */
module LogParser {
  import opened JsString

  /** `GIT_REFS`: the name of each label list and the prefix that files a decoration under
      it, in the order they are tried. */
  const GitRefs: seq<(string, string)> := [
    ("heads", "HEAD"),
    ("tags", "tag: refs/tags/"),
    ("locals", "refs/heads/"),
    ("remotes", "refs/remotes/"),
    ("bisects", "refs/bisect/"),
    ("wips", "refs/wip/"),
    ("pullreqs", "refs/pullreqs")
  ]

  /** The list names of a table. */
  function RefKeys(refs: seq<(string, string)>): set<string> {
    set j | 0 <= j < |refs| :: refs[j].0
  }

  /** A labels object holding a list for every name of `GIT_REFS`. */
  predicate HasAllKeys(labels: map<string, seq<string>>) {
    RefKeys(GitRefs) <= labels.Keys
  }

  /** The labels the constructor builds: an empty list for each name, added in table order. */
  function EmptyLabels(refs: seq<(string, string)>): map<string, seq<string>> {
    if refs == [] then map[]
    else EmptyLabels(refs[..|refs| - 1])[refs[|refs| - 1].0 := []]
  }

  /** Everything a `GitLog` holds. */
  datatype LogView = LogView(hash: string, labels: map<string, seq<string>>, subject: string, body: string)

  /** A new `GitLog`. */
  const Fresh := LogView("", EmptyLabels(GitRefs), "", "")

  // ------------------------------------------------------------------
  // setLabel

  /** The position of the first table entry, in order, whose prefix starts the label `name`. */
  function RefOf(refs: seq<(string, string)>, name: string): (r: Option<nat>)
    ensures r.Some? ==> (r.value < |refs| && StartsWith(name, refs[r.value].1) &&
      forall j :: 0 <= j < r.value ==> !StartsWith(name, refs[j].1))
    ensures r.None? ==> forall j :: 0 <= j < |refs| ==> !StartsWith(name, refs[j].1)
  {
    if refs == [] then None
    else if StartsWith(name, refs[0].1) then Some(0)
    else
      match RefOf(refs[1..], name)
      case None => None
      case Some(j) => Some(j + 1)
  }

  /** `setLabel(name)` on the labels object: the label without its prefix is pushed onto the
      list of the first matching entry. */
  function SetLabelOf(labels: map<string, seq<string>>, name: string): (r: map<string, seq<string>>)
    requires HasAllKeys(labels)
    ensures r.Keys == labels.Keys
  {
    match RefOf(GitRefs, name)
    case None => labels
    case Some(j) =>
      var (key, prefix) := GitRefs[j];
      assert key in RefKeys(GitRefs);
      labels[key := labels[key] + [SubstringFrom(name, |prefix|)]]
  }

  /** `setLabel` on each label in turn. */
  function SetLabels(labels: map<string, seq<string>>, pieces: seq<string>): (r: map<string, seq<string>>)
    requires HasAllKeys(labels)
    ensures r.Keys == labels.Keys
  {
    if pieces == [] then labels
    else SetLabelOf(SetLabels(labels, pieces[..|pieces| - 1]), pieces[|pieces| - 1])
  }

  // ------------------------------------------------------------------
  // split(/(, | -> )/g)

  predicate SepAt(s: string, i: int) {
    OccursAt(s, ", ", i) || OccursAt(s, " -> ", i)
  }

  /** No separator anywhere in `p`. */
  predicate SepFree(p: string) {
    forall j :: 0 <= j < |p| ==> !SepAt(p, j)
  }

  /** The first place at or after `i` where a separator starts, or `|s|` if none does. */
  function NextSep(s: string, i: nat): (k: nat)
    requires i <= |s|
    ensures i <= k <= |s|
    ensures forall j :: i <= j < k ==> !SepAt(s, j)
    ensures k < |s| ==> SepAt(s, k)
    decreases |s| - i
  {
    if i == |s| || SepAt(s, i) then i else NextSep(s, i + 1)
  }

  /** The separator that starts at `k`, when one does. */
  function SepStarting(s: string, k: int): string {
    if OccursAt(s, ", ", k) then ", " else " -> "
  }

  /** `s.split(/(, | -> )/g)`: the pieces between the separators, with each separator itself
      (the regular expression captures it) between the two pieces it parts. */
  function SplitCapture(s: string): (r: seq<string>)
    ensures r != [] && r[0] <= s
    decreases |s|
  {
    var k := NextSep(s, 0);
    if k == |s| then [s]
    else
      var sep := SepStarting(s, k);
      [s[..k], sep] + SplitCapture(s[k + |sep|..])
  }

  /** The pieces of `s` glued back together. */
  function Concat(pieces: seq<string>): string {
    if pieces == [] then [] else pieces[0] + Concat(pieces[1..])
  }

  /** `split` without the captured separators: the decorations alone. */
  function Decorations(s: string): (r: seq<string>)
    decreases |s|
  {
    var k := NextSep(s, 0);
    if k == |s| then [s]
    else
      var sep := SepStarting(s, k);
      [s[..k]] + Decorations(s[k + |sep|..])
  }

  // ------------------------------------------------------------------
  // parseOneLine

  /** `parseOneLine(line)`: the hash runs up to the first space; if the next character is
      '(' and a ')' follows, the subject starts two past that ')' and the text in between is
      split into labels; otherwise the subject is everything after the first space. */
  function ParseOneLineOf(v: LogView, line: string): (r: LogView)
    requires HasAllKeys(v.labels)
    ensures r.hash <= line && r.body == v.body && r.labels.Keys == v.labels.Keys
  {
    var start := IndexOf(line, " ");
    var end := IndexOf(line, ")", start);
    var hash := Substring(line, 0, start);
    if start + 1 < |line| && line[start + 1] == '(' && end > start then
      v.(hash := hash, subject := SubstringFrom(line, end + 2),
         labels := SetLabels(v.labels, SplitCapture(Substring(line, start + 2, end))))
    else
      v.(hash := hash, subject := SubstringFrom(line, start + 1))
  }

  class GitLog {
    var hash: string
    var labels: map<string, seq<string>>
    var subject: string
    var body: string

    function View(): LogView
      reads this
    {
      LogView(hash, labels, subject, body)
    }

    /** Empty hash, subject and body, and an empty list for each name of `GIT_REFS`. */
    constructor ()
      ensures View() == Fresh
    {
      var m := map[];
      var i := 0;
      while i < |GitRefs|
        invariant 0 <= i <= |GitRefs| && m == EmptyLabels(GitRefs[..i])
      {
        assert GitRefs[..i + 1][..i] == GitRefs[..i];
        m := m[GitRefs[i].0 := []];
        i := i + 1;
      }
      assert GitRefs[..i] == GitRefs;
      hash, labels, subject, body := "", m, "", "";
    }

    /** `GitLog.create(line)`: a new log that has read `line`. */
    static method Create(line: string) returns (g: GitLog)
      ensures fresh(g) && HasAllKeys(Fresh.labels) && g.View() == ParseOneLineOf(Fresh, line)
    {
      g := new GitLog();
      FreshLabels();
      g.ParseOneLine(line);
    }

    function GetHash(): string
      reads this
    {
      hash
    }

    /** `getLabels(key)`: `None` is `undefined`, for a name that is not in the table. */
    function GetLabels(key: string): Option<seq<string>>
      reads this
    {
      if key in labels then Some(labels[key]) else None
    }

    function GetSubject(): string
      reads this
    {
      subject
    }

    function GetBody(): string
      reads this
    {
      body
    }

    /** `setLabel(name)`: the loop over `GIT_REFS` that stops at the first prefix that
        starts the label. */
    method SetLabel(name: string)
      requires HasAllKeys(labels)
      modifies this
      ensures View() == old(View()).(labels := SetLabelOf(old(labels), name))
    {
      var i := 0;
      while i < |GitRefs|
        invariant 0 <= i <= |GitRefs| && labels == old(labels)
        invariant forall j :: 0 <= j < i ==> !StartsWith(name, GitRefs[j].1)
      {
        var (key, prefix) := GitRefs[i];
        if StartsWith(name, prefix) {
          assert RefOf(GitRefs, name) == Some(i) by {
            var r := RefOf(GitRefs, name);
            assert r.Some? && !(r.value < i) && !(i < r.value);
          }
          assert key in RefKeys(GitRefs);
          labels := labels[key := labels[key] + [SubstringFrom(name, |prefix|)]];
          return;
        }
        i := i + 1;
      }
    }

    /** The loop of `parseOneLine` over the pieces of the split. */
    method SetEachLabel(pieces: seq<string>)
      requires HasAllKeys(labels)
      modifies this
      ensures View() == old(View()).(labels := SetLabels(old(labels), pieces))
    {
      var i := 0;
      while i < |pieces|
        invariant 0 <= i <= |pieces|
        invariant View() == old(View()).(labels := SetLabels(old(labels), pieces[..i]))
      {
        assert pieces[..i + 1][..i] == pieces[..i];
        SetLabel(pieces[i]);
        i := i + 1;
      }
      assert pieces[..i] == pieces;
    }

    /** `parseOneLine(line)`. */
    method ParseOneLine(line: string)
      requires HasAllKeys(labels)
      modifies this
      ensures View() == ParseOneLineOf(old(View()), line)
    {
      var start := IndexOf(line, " ");
      var end := IndexOf(line, ")", start);
      hash := Substring(line, 0, start);
      if start + 1 < |line| && line[start + 1] == '(' && end > start {
        subject := SubstringFrom(line, end + 2);
        SetEachLabel(SplitCapture(Substring(line, start + 2, end)));
      } else {
        subject := SubstringFrom(line, start + 1);
      }
    }
  }

  // ------------------------------------------------------------------
  // Properties

  /** The constructor's labels hold exactly the table's names, each with an empty list. */
  lemma {:induction false} EmptyLabelsSpec(refs: seq<(string, string)>)
    ensures EmptyLabels(refs).Keys == RefKeys(refs)
    ensures forall k :: k in EmptyLabels(refs) ==> EmptyLabels(refs)[k] == []
  {
    if refs != [] {
      var n := |refs| - 1;
      EmptyLabelsSpec(refs[..n]);
      assert RefKeys(refs) == RefKeys(refs[..n]) + {refs[n].0} by {
        forall k | k in RefKeys(refs) ensures k in RefKeys(refs[..n]) + {refs[n].0} {
          var j :| 0 <= j < |refs| && refs[j].0 == k;
          if j < n {
            assert refs[..n][j] == refs[j];
          }
        }
      }
    }
  }

  /** A new log has one empty list for each of the seven names of `GIT_REFS`, and no other. */
  lemma FreshLabels()
    ensures Fresh.labels.Keys == RefKeys(GitRefs) && HasAllKeys(Fresh.labels)
    ensures forall j :: 0 <= j < |GitRefs| ==> Fresh.labels[GitRefs[j].0] == []
  {
    EmptyLabelsSpec(GitRefs);
  }

  /** `setLabel` files the name under the first name, in table order, whose prefix starts it,
      with the prefix taken off, so that prefix and entry give back the label; every other list
      is left as it was, and a label no prefix starts changes nothing. */
  lemma SetLabelFiles(labels: map<string, seq<string>>, name: string)
    requires HasAllKeys(labels)
    ensures (forall j :: 0 <= j < |GitRefs| ==> !StartsWith(name, GitRefs[j].1)) ==>
      SetLabelOf(labels, name) == labels
    ensures forall j :: (0 <= j < |GitRefs| && StartsWith(name, GitRefs[j].1) &&
        (forall i :: 0 <= i < j ==> !StartsWith(name, GitRefs[i].1))) ==>
      (exists entry :: (GitRefs[j].1 + entry == name &&
        SetLabelOf(labels, name) == labels[GitRefs[j].0 := labels[GitRefs[j].0] + [entry]]))
  {
    forall j | 0 <= j < |GitRefs| && StartsWith(name, GitRefs[j].1) &&
        (forall i :: 0 <= i < j ==> !StartsWith(name, GitRefs[i].1))
      ensures exists entry :: (GitRefs[j].1 + entry == name &&
        SetLabelOf(labels, name) == labels[GitRefs[j].0 := labels[GitRefs[j].0] + [entry]])
    {
      var r := RefOf(GitRefs, name);
      assert r == Some(j) by {
        assert r.Some? && !(r.value < j) && !(j < r.value);
      }
      var entry := SubstringFrom(name, |GitRefs[j].1|);
      assert GitRefs[j].1 + entry == name;
    }
  }

  /** The names of `GIT_REFS` are distinct, so a label is filed under one list at most. */
  lemma RefKeysDistinct()
    ensures forall i, j :: 0 <= i < j < |GitRefs| ==> GitRefs[i].0 != GitRefs[j].0
  {
  }

  /** The separators the split captures, and the empty pieces it makes, match no prefix and
      are filed nowhere. */
  lemma SeparatorsFiledNowhere(labels: map<string, seq<string>>)
    requires HasAllKeys(labels)
    ensures SetLabelOf(labels, ", ") == labels
    ensures SetLabelOf(labels, " -> ") == labels
    ensures SetLabelOf(labels, "") == labels
  {
    forall j | 0 <= j < |GitRefs|
      ensures !StartsWith(", ", GitRefs[j].1) && !StartsWith(" -> ", GitRefs[j].1) &&
        !StartsWith("", GitRefs[j].1)
    {
      NotStartsWith(", ", GitRefs[j].1);
      NotStartsWith(" -> ", GitRefs[j].1);
    }
  }

  /** One separator found: the text is the piece before it, the separator and the rest, and
      both splits go on with the rest. */
  lemma SplitStep(s: string)
    requires NextSep(s, 0) < |s|
    ensures var k := NextSep(s, 0); var sep := SepStarting(s, k); var rest := s[k + |sep|..];
      IsSep(sep) && k + |sep| <= |s| && s == s[..k] + sep + rest &&
      SplitCapture(s) == [s[..k], sep] + SplitCapture(rest) &&
      Decorations(s) == [s[..k]] + Decorations(rest)
  {
    var k := NextSep(s, 0);
    var sep := SepStarting(s, k);
    assert s[k..k + |sep|] == sep;
    assert s == s[..k] + s[k..k + |sep|] + s[k + |sep|..];
  }

  lemma ConcatPair(x: string, y: string, r: seq<string>)
    ensures Concat([x, y] + r) == x + y + Concat(r)
  {
    assert ([x, y] + r)[1..] == [y] + r;
    assert ([y] + r)[1..] == r;
  }

  /** Gluing the pieces of the capturing split back together gives the text. */
  lemma {:induction false} SplitCaptureConcat(s: string)
    ensures Concat(SplitCapture(s)) == s
    decreases |s|
  {
    var k := NextSep(s, 0);
    if k < |s| {
      SplitStep(s);
      var sep := SepStarting(s, k);
      var rest := s[k + |sep|..];
      SplitCaptureConcat(rest);
      ConcatPair(s[..k], sep, SplitCapture(rest));
    }
  }

  /** A piece before the first separator holds no separator. */
  lemma PieceFree(s: string)
    ensures SepFree(s[..NextSep(s, 0)])
  {
    var k := NextSep(s, 0);
    forall j ensures !SepAt(s[..k], j) {
      if 0 <= j < k {
        assert !SepAt(s, j);
        if j + 2 <= k {
          assert s[..k][j..j + 2] == s[j..j + 2];
        }
        if j + 4 <= k {
          assert s[..k][j..j + 4] == s[j..j + 4];
        }
      }
    }
  }

  predicate IsSep(t: string) {
    t == ", " || t == " -> "
  }

  /** `r` is `d` with a separator between each two of its elements. */
  predicate Interleaved(r: seq<string>, d: seq<string>) {
    |r| == 2 * |d| - 1 &&
    forall i :: 0 <= i < |d| ==> (r[2 * i] == d[i] && (i < |d| - 1 ==> IsSep(r[2 * i + 1])))
  }

  lemma InterleavedCons(a: string, sep: string, t: seq<string>, e: seq<string>)
    requires Interleaved(t, e) && IsSep(sep)
    ensures Interleaved([a, sep] + t, [a] + e)
  {
    var r, d := [a, sep] + t, [a] + e;
    forall i | 1 <= i < |d|
      ensures r[2 * i] == d[i] && (i < |d| - 1 ==> IsSep(r[2 * i + 1]))
    {
      var j := i - 1;
      assert 2 * i == 2 * j + 2 && 0 <= j < |e|;
      assert r[2 * i] == t[2 * j] == e[j] && d[i] == e[j];
      if i < |d| - 1 {
        assert r[2 * i + 1] == t[2 * j + 1];
      }
    }
  }

  /** The capturing split is the decorations with a separator between each two of them, and
      no decoration holds a separator. */
  lemma {:induction false} SplitCaptureShape(s: string)
    ensures Interleaved(SplitCapture(s), Decorations(s))
    ensures forall p :: p in Decorations(s) ==> SepFree(p)
    decreases |s|
  {
    var k := NextSep(s, 0);
    PieceFree(s);
    if k < |s| {
      SplitStep(s);
      var sep := SepStarting(s, k);
      var rest := s[k + |sep|..];
      SplitCaptureShape(rest);
      InterleavedCons(s[..k], sep, SplitCapture(rest), Decorations(rest));
    } else {
      assert s[..k] == s;
    }
  }

  /** Applying `setLabel` to two runs of labels one after the other. */
  lemma {:induction false} SetLabelsAppend(labels: map<string, seq<string>>, a: seq<string>, b: seq<string>)
    requires HasAllKeys(labels)
    ensures SetLabels(labels, a + b) == SetLabels(SetLabels(labels, a), b)
    decreases |b|
  {
    if b == [] {
      assert a + b == a;
    } else {
      var n := |b| - 1;
      SetLabelsAppend(labels, a, b[..n]);
      assert (a + b)[..|a + b| - 1] == a + b[..n];
      assert (a + b)[|a + b| - 1] == b[n];
    }
  }

  /** A piece then a separator: only the piece is filed. */
  lemma SetLabelsPieceSep(labels: map<string, seq<string>>, x: string, sep: string)
    requires HasAllKeys(labels) && IsSep(sep)
    ensures SetLabels(labels, [x, sep]) == SetLabels(labels, [x]) == SetLabelOf(labels, x)
  {
    assert [x, sep][..1] == [x];
    assert [x][..0] == [];
    SeparatorsFiledNowhere(SetLabelOf(labels, x));
  }

  /** The separators the split hands to `setLabel` change nothing: the labels are those of the
      decorations alone. */
  lemma {:induction false} CaptureFilesDecorations(labels: map<string, seq<string>>, s: string)
    requires HasAllKeys(labels)
    ensures SetLabels(labels, SplitCapture(s)) == SetLabels(labels, Decorations(s))
    decreases |s|
  {
    var k := NextSep(s, 0);
    if k < |s| {
      SplitStep(s);
      var sep := SepStarting(s, k);
      var rest := s[k + |sep|..];
      SetLabelsAppend(labels, [s[..k], sep], SplitCapture(rest));
      SetLabelsAppend(labels, [s[..k]], Decorations(rest));
      SetLabelsPieceSep(labels, s[..k], sep);
      CaptureFilesDecorations(SetLabelOf(labels, s[..k]), rest);
    }
  }

  lemma ParsedHash(v: LogView, line: string)
    requires HasAllKeys(v.labels)
    ensures ParseOneLineOf(v, line).hash == Substring(line, 0, IndexOf(line, " "))
  {
  }

  lemma ParsedPlain(v: LogView, line: string, start: int)
    requires HasAllKeys(v.labels)
    requires IndexOf(line, " ") == start
    requires !(start + 1 < |line| && line[start + 1] == '(' && IndexOf(line, ")", start) > start)
    ensures ParseOneLineOf(v, line) == v.(hash := Substring(line, 0, start), subject := SubstringFrom(line, start + 1))
  {
  }

  /** The hash is the text before the first space; a line with no space has an empty hash. */
  lemma HashBeforeFirstSpace(v: LogView, line: string, k: nat)
    requires HasAllKeys(v.labels)
    requires k <= |line| && ' ' !in line[..k] && (k == |line| || line[k] == ' ')
    ensures ParseOneLineOf(v, line).hash == if k == |line| then "" else line[..k]
  {
    ParsedHash(v, line);
    OccursChar(line, ' ');
    assert forall i :: 0 <= i < k ==> line[i] == line[..k][i];
    if k < |line| {
      IndexOfChar(line, ' ', 0, k);
    }
  }

  /** Where the parts of `hash (decorations) subject` sit in the line. */
  lemma DecoratedPositions(h: string, refs: string, s: string)
    requires ' ' !in h && ')' !in refs
    ensures var line := h + " (" + refs + ") " + s;
      IndexOf(line, " ") == |h| && |h| + 1 < |line| && line[|h| + 1] == '(' &&
      IndexOf(line, ")", |h|) == |h| + 2 + |refs| &&
      Substring(line, |h| + 2, |h| + 2 + |refs|) == refs &&
      SubstringFrom(line, |h| + 4 + |refs|) == s && Substring(line, 0, |h|) == h
  {
    var line := h + " (" + refs + ") " + s;
    var k := |h|;
    var e := k + 2 + |refs|;
    assert line[k] == ' ' && line[k + 1] == '(' && line[e] == ')';
    assert line[..k] == h;
    IndexOfChar(line, ' ', 0, k);
    assert forall i :: k <= i < e ==> line[i] != ')' by {
      forall i | k <= i < e ensures line[i] != ')' {
        if i >= k + 2 {
          assert line[i] == refs[i - k - 2];
        }
      }
    }
    IndexOfChar(line, ')', k, e);
    assert Substring(line, k + 2, e) == refs;
    assert SubstringFrom(line, e + 2) == s;
  }

  lemma ParsedWithDecorations(v: LogView, line: string, start: nat, end: nat, refs: string)
    requires HasAllKeys(v.labels)
    requires IndexOf(line, " ") == start && start + 1 < |line| && line[start + 1] == '('
    requires IndexOf(line, ")", start) == end && end > start && Substring(line, start + 2, end) == refs
    ensures ParseOneLineOf(v, line) ==
      v.(hash := Substring(line, 0, start), subject := SubstringFrom(line, end + 2),
         labels := SetLabels(v.labels, Decorations(refs)))
  {
    CaptureFilesDecorations(v.labels, refs);
  }

  /** `hash (decorations) subject`: the subject is what follows the ')' and its space, and the
      labels are those of the decorations, the separators filing nothing. */
  lemma DecoratedLine(v: LogView, h: string, refs: string, s: string)
    requires HasAllKeys(v.labels)
    requires ' ' !in h && ')' !in refs
    ensures var w := ParseOneLineOf(v, h + " (" + refs + ") " + s);
      w.hash == h && w.subject == s && w.body == v.body &&
      w.labels == SetLabels(v.labels, Decorations(refs))
  {
    DecoratedPositions(h, refs, s);
    ParsedWithDecorations(v, h + " (" + refs + ") " + s, |h|, |h| + 2 + |refs|, refs);
  }

  /** When the character after the first space is not '(', or no ')' follows, the subject is
      everything after that space and no label is filed. */
  lemma PlainLine(v: LogView, h: string, s: string)
    requires HasAllKeys(v.labels)
    requires ' ' !in h && (s == [] || s[0] != '(' || ')' !in s)
    ensures var w := ParseOneLineOf(v, h + " " + s);
      w.hash == h && w.subject == s && w.labels == v.labels && w.body == v.body
  {
    var line := h + " " + s;
    var k := |h|;
    assert line[k] == ' ' && line[..k] == h && line[k + 1..] == s;
    IndexOfChar(line, ' ', 0, k);
    if s != [] && s[0] == '(' {
      assert forall i :: k <= i < |line| ==> line[i] != ')' by {
        forall i | k <= i < |line| ensures line[i] != ')' {
          if i > k {
            assert line[i] == s[i - k - 1];
          }
        }
      }
      OccursChar(line, ')');
      assert IndexOf(line, ")", k) == -1;
    }
    ParsedPlain(v, line, k);
  }
}
