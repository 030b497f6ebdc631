/**
 * One entry of `git stash list`, as `GitStash.create` reads it from a line
 * of the form `stash@{N}: subject`.
 */
module Stash {
  import opened JsString

  /** `id` is a JavaScript number: `None` stands for NaN. */
  datatype GitStash = GitStash(id: Option<int>, subject: string)

  /** What the constructor leaves before `create` fills it in. */
  const Fresh := GitStash(Some(-1), "")

  /** `GitStash.create(line)`: the id is read from index 7 up to the character before the
      first ':', the subject from two characters past that ':'. */
  function Create(line: string): (r: GitStash)
    ensures |r.subject| <= |line| && r.subject == line[|line| - |r.subject|..]
  {
    var sep := IndexOf(line, ":");
    GitStash(ParseInt(Substring(line, 7, sep - 1)), SubstringFrom(line, sep + 2))
  }

  /** The line `git stash list` prints for stash `n` with subject `s`. */
  function StashLine(n: nat, s: string): string {
    "stash@{" + NatToString(n) + "}: " + s
  }

  /** Reading back the line of stash `n` gives its number and its subject, whatever the subject holds. */
  lemma CreateStashLine(n: nat, s: string)
    ensures Create(StashLine(n, s)) == GitStash(Some(n), s)
  {
    var line := StashLine(n, s);
    var ds := NatToString(n);
    var k := 7 + |ds|;
    assert line[..7] == "stash@{" && line[7..k] == ds && line[k] == '}' && line[k + 1] == ':';
    assert forall i :: 0 <= i < k + 1 ==> line[i] != ':' by {
      forall i | 0 <= i < k ensures line[i] != ':' {
        if i >= 7 {
          assert line[i] == ds[i - 7] && IsDigit(ds[i - 7]);
        }
      }
    }
    IndexOfChar(line, ':', 0, k + 1);
    assert Substring(line, 7, k) == ds;
    NatToStringRoundTrip(n);
    assert SubstringFrom(line, k + 3) == s;
  }

  /** A line with no ':' at all: `indexOf` gives -1, so the id is read from the first seven
      characters (the arguments of `substring` are swapped), which for a `stash@{` line hold no
      digit, and the subject is everything after the first character. */
  lemma CreateWithoutColon(line: string)
    requires StartsWith(line, "stash@{")
    requires forall i :: 0 <= i < |line| ==> line[i] != ':'
    ensures Create(line) == GitStash(None, line[1..])
  {
    OccursChar(line, ':');
    assert Substring(line, 7, -2) == line[..7] == "stash@{";
    NoLeadingDigit("stash@{");
  }
}
