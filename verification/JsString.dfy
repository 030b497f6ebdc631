/**
 * The JavaScript string primitives the parsers are written with, each given
 * its exact ECMAScript behaviour on out-of-range arguments:
 * `indexOf` (returns -1 when absent, clamps its start position),
 * `substring` (clamps both ends to the string and swaps them when reversed),
 * `split` with a string separator, `startsWith`, `padEnd` and `parseInt`
 * (which gives NaN, here `None`, when no digit is found). Lengths and
 * positions count characters, where JavaScript counts UTF-16 code units: the
 * two agree on text within the Basic Multilingual Plane.
 */
module JsString {

  datatype Option<+T> = None | Some(value: T)

  /** `s.startsWith(p)` */
  predicate StartsWith(s: string, p: string) {
    p <= s
  }

  /** `t` occurs in `s` at index `i`. */
  predicate OccursAt(s: string, t: string, i: int) {
    0 <= i && i + |t| <= |s| && s[i..i + |t|] == t
  }

  /** JavaScript clamps a position argument into `[0, n]`. */
  function Clamp(i: int, n: nat): (r: nat)
    ensures r <= n
    ensures 0 <= i <= n ==> r == i
  {
    if i < 0 then 0 else if i > n then n else i
  }

  function IndexOfFrom(s: string, t: string, from: nat): (r: int)
    ensures r == -1 || (from <= r && OccursAt(s, t, r))
    ensures r == -1 ==> forall i :: from <= i ==> !OccursAt(s, t, i)
    ensures r != -1 ==> forall i :: from <= i < r ==> !OccursAt(s, t, i)
    decreases |s| - from
  {
    if from + |t| > |s| then -1
    else if OccursAt(s, t, from) then from
    else IndexOfFrom(s, t, from + 1)
  }

  /** `s.indexOf(t, from)`: the first occurrence at or after the clamped start, or -1. */
  function IndexOf(s: string, t: string, from: int := 0): (r: int)
    ensures r == -1 || (Clamp(from, |s|) <= r && OccursAt(s, t, r))
    ensures r == -1 ==> forall i :: Clamp(from, |s|) <= i ==> !OccursAt(s, t, i)
    ensures r != -1 ==> forall i :: Clamp(from, |s|) <= i < r ==> !OccursAt(s, t, i)
  {
    IndexOfFrom(s, t, Clamp(from, |s|))
  }

  /** A position before the start is taken as 0, one past the end as `n`. */
  lemma ClampOutside(i: int, n: nat)
    ensures i < 0 ==> Clamp(i, n) == 0
    ensures i > n ==> Clamp(i, n) == n
  {
  }

  /** `s.substring(start, end)` */
  function Substring(s: string, start: int, end: int): string {
    var a, b := Clamp(start, |s|), Clamp(end, |s|);
    if a <= b then s[a..b] else s[b..a]
  }

  /** `s.substring(start)` */
  function SubstringFrom(s: string, start: int): string {
    s[Clamp(start, |s|)..]
  }

  /** Within bounds, `substring` is the slice between its arguments. */
  lemma SubstringSlice(s: string, start: int, end: int)
    requires 0 <= start <= end <= |s|
    ensures Substring(s, start, end) == s[start..end]
  {
  }

  /** `substring` swaps its arguments when the start is past the end. */
  lemma SubstringSwap(s: string, start: int, end: int)
    ensures Substring(s, start, end) == Substring(s, end, start)
  {
  }

  /** A negative position counts as 0 and one past the length as the length, so
      `substring(start + 1, ...)` with `start == -1` starts at the beginning. */
  lemma SubstringClamps(s: string, start: int, end: int)
    ensures start < 0 ==> Substring(s, start, end) == Substring(s, 0, end)
    ensures end > |s| ==> Substring(s, start, end) == Substring(s, start, |s|)
    ensures |Substring(s, start, end)| <= |s|
  {
  }

  /** `substring(start)` runs to the end of the string. */
  lemma SubstringToEnd(s: string, start: int)
    ensures SubstringFrom(s, start) == Substring(s, start, |s|)
    ensures start < 0 ==> SubstringFrom(s, start) == s
  {
  }

  /** `s.split(sep)` for a string separator. */
  function Split(s: string, sep: string): (r: seq<string>)
    ensures sep != [] ==> |r| >= 1
    decreases |s|
  {
    if sep == [] then seq(|s|, i requires 0 <= i < |s| => [s[i]])
    else
      var k := IndexOf(s, sep);
      if k < 0 then [s] else [s[..k]] + Split(s[k + |sep|..], sep)
  }

  /** `parts.join(sep)` */
  function Join(parts: seq<string>, sep: string): string {
    if parts == [] then []
    else if |parts| == 1 then parts[0]
    else parts[0] + sep + Join(parts[1..], sep)
  }

  /** Joining the pieces of a split with the same separator gives back the string. */
  lemma {:induction false} SplitJoin(s: string, sep: string)
    requires sep != []
    ensures Join(Split(s, sep), sep) == s
    decreases |s|
  {
    var k := IndexOf(s, sep);
    if k >= 0 {
      var rest := s[k + |sep|..];
      SplitJoin(rest, sep);
      assert s[k..k + |sep|] == sep;
      assert s == s[..k] + sep + rest;
    }
  }

  /** No piece of a split contains the separator. */
  lemma {:induction false} SplitPiecesFree(s: string, sep: string)
    requires sep != []
    ensures forall p, i :: p in Split(s, sep) ==> !OccursAt(p, sep, i)
    decreases |s|
  {
    var k := IndexOf(s, sep);
    if k < 0 {
      forall i ensures !OccursAt(s, sep, i) {
        if 0 <= i { assert !OccursAt(s, sep, i); }
      }
    } else {
      var rest := s[k + |sep|..];
      SplitPiecesFree(rest, sep);
      forall i | OccursAt(s[..k], sep, i) ensures false {
        assert s[..k][i..i + |sep|] == s[i..i + |sep|];
        assert OccursAt(s, sep, i);
      }
      assert Split(s, sep) == [s[..k]] + Split(rest, sep);
      forall p, i | p in Split(s, sep) ensures !OccursAt(p, sep, i) {
        if p != s[..k] {
          assert p in Split(rest, sep);
        }
      }
    }
  }

  /** A one-character string occurs exactly where that character stands. */
  lemma OccursChar(s: string, c: char)
    ensures forall i :: OccursAt(s, [c], i) <==> 0 <= i < |s| && s[i] == c
  {
    forall i | 0 <= i < |s|
      ensures OccursAt(s, [c], i) <==> s[i] == c
    {
      assert s[i..i + 1] == [s[i]];
    }
  }

  /** `indexOf` of a character is its first position at or after `from`. */
  lemma IndexOfChar(s: string, c: char, from: nat, k: nat)
    requires from <= k < |s| && s[k] == c
    requires forall i :: from <= i < k ==> s[i] != c
    ensures IndexOf(s, [c], from) == k
  {
    OccursChar(s, c);
  }

  /** `indexOf(t, from)` finds an occurrence at `k` when no character from `from` up to `k`
      equals the first character of `t`. */
  lemma IndexOfFirstChar(s: string, t: string, from: nat, k: nat)
    requires t != [] && from <= k && OccursAt(s, t, k)
    requires forall i :: from <= i < k ==> s[i] != t[0]
    ensures IndexOf(s, t, from) == k
  {
    forall i | from <= i < k
      ensures !OccursAt(s, t, i)
    {
      NotOccurs(s, t, i);
    }
  }

  /** `s.includes(t)` */
  predicate Includes(s: string, t: string) {
    exists i :: 0 <= i <= |s| && OccursAt(s, t, i)
  }

  /** An occurrence with none before it, from `from` on, is the one `indexOf` finds. */
  lemma IndexOfFirst(s: string, t: string, from: nat, k: nat)
    requires from <= k && OccursAt(s, t, k)
    requires forall i :: from <= i < k ==> !OccursAt(s, t, i)
    ensures IndexOf(s, t, from) == k
  {
  }

  /** A two-character `t` that follows a prefix `p` free of it, and does not straddle the
      end of `p`, is first found right after `p`. */
  lemma FirstAfterPrefix(line: string, p: string, t: string)
    requires |t| == 2 && p <= line && !Includes(p, t) && OccursAt(line, t, |p|)
    requires |p| > 0 ==> !OccursAt(line, t, |p| - 1)
    ensures IndexOf(line, t) == |p|
  {
    forall i | 0 <= i < |p|
      ensures !OccursAt(line, t, i)
    {
      if i + 2 <= |p| {
        assert p[i..i + 2] == line[i..i + 2];
        assert !OccursAt(p, t, i);
      }
    }
    IndexOfFirst(line, t, 0, |p|);
  }

  lemma NotOccurs(s: string, t: string, i: nat)
    requires t != [] && i < |s| && s[i] != t[0]
    ensures !OccursAt(s, t, i)
  {
    if i + |t| <= |s| {
      assert s[i..i + |t|][0] == s[i];
    }
  }

  /** A string cannot start with a prefix whose first character differs from its own. */
  lemma NotStartsWith(s: string, p: string)
    requires p != [] && s != [] && s[0] != p[0]
    ensures !StartsWith(s, p)
  {
    assert p[..1] == [p[0]] != [s[0]] == s[..1];
  }

  /** A string without the separator character splits into itself. */
  lemma SplitWithout(p: string, c: char)
    requires c !in p
    ensures Split(p, [c]) == [p]
  {
    OccursChar(p, c);
  }

  /** Splitting on a one-character separator that first occurs right after `p`. */
  lemma SplitAfter(p: string, c: char, q: string)
    requires c !in p
    ensures Split(p + [c] + q, [c]) == [p] + Split(q, [c])
  {
    var s := p + [c] + q;
    assert s[..|p|] == p && s[|p|] == c;
    IndexOfChar(s, c, 0, |p|);
    assert s[|p| + 1..] == q;
  }

  /** Splitting on a one-character separator splits each side of any one occurrence separately. */
  lemma {:induction false} SplitAround(p: string, c: char, q: string)
    ensures Split(p + [c] + q, [c]) == Split(p, [c]) + Split(q, [c])
    decreases |p|
  {
    if c !in p {
      SplitAfter(p, c, q);
      SplitWithout(p, c);
    } else {
      OccursChar(p, c);
      var k := IndexOf(p, [c]);
      var a, b := p[..k], p[k + 1..];
      assert c !in a;
      assert p == a + [c] + b;
      Regroup(a, [c], b, [c], q);
      SplitAfter(a, c, b + [c] + q);
      SplitAfter(a, c, b);
      SplitAround(b, c, q);
      Assoc([a], Split(b, [c]), Split(q, [c]));
    }
  }

  /** How many times `c` occurs in `s`. */
  function CountChar(s: string, c: char): nat {
    if s == [] then 0 else (if s[0] == c then 1 else 0) + CountChar(s[1..], c)
  }

  lemma {:induction false} CountCharAppend(a: string, b: string, c: char)
    ensures CountChar(a + b, c) == CountChar(a, c) + CountChar(b, c)
    decreases |a|
  {
    if a == [] {
      assert a + b == b;
    } else {
      CountCharAppend(a[1..], b, c);
      assert (a + b)[0] == a[0] && (a + b)[1..] == a[1..] + b;
    }
  }

  lemma {:induction false} CountCharNone(s: string, c: char)
    requires c !in s
    ensures CountChar(s, c) == 0
    decreases |s|
  {
    if s != [] {
      CountCharNone(s[1..], c);
    }
  }

  /** Splitting on a character gives one piece more than there are occurrences of it. */
  lemma {:induction false} SplitCount(s: string, c: char)
    ensures |Split(s, [c])| == CountChar(s, c) + 1
    decreases |s|
  {
    if c !in s {
      SplitWithout(s, c);
      CountCharNone(s, c);
    } else {
      OccursChar(s, c);
      var k := IndexOf(s, [c]);
      var a, b := s[..k], s[k + 1..];
      assert c !in a;
      assert s == a + [c] + b;
      SplitAfter(a, c, b);
      SplitCount(b, c);
      CountCharNone(a, c);
      CountCharSplit(a, c, b);
    }
  }

  lemma CountCharSplit(a: string, c: char, b: string)
    ensures CountChar(a + [c] + b, c) == CountChar(a, c) + 1 + CountChar(b, c)
  {
    CountCharAppend(a + [c], b, c);
    CountCharAppend(a, [c], c);
    assert CountChar([c], c) == 1 by {
      assert [c][1..] == [];
    }
  }

  lemma Regroup<T>(a: seq<T>, x: seq<T>, b: seq<T>, y: seq<T>, z: seq<T>)
    ensures a + x + b + y + z == a + x + (b + y + z)
  {
  }

  /** Three pieces joined by a character none of them holds split back into the three. */
  /** Two pieces free of the separator character come first, then whatever `z` splits into. */
  lemma SplitTwoThen(x: string, y: string, z: string, c: char)
    requires c !in x && c !in y
    ensures Split(x + [c] + y + [c] + z, [c]) == [x, y] + Split(z, [c])
  {
    Regroup(x, [c], y, [c], z);
    SplitAfter(x, c, y + [c] + z);
    SplitAfter(y, c, z);
    Assoc([x], [y], Split(z, [c]));
  }

  lemma SplitThree(x: string, y: string, z: string, c: char)
    requires c !in x && c !in y && c !in z
    ensures Split(x + [c] + y + [c] + z, [c]) == [x, y, z]
  {
    Regroup(x, [c], y, [c], z);
    SplitAfter(x, c, y + [c] + z);
    SplitAfter(y, c, z);
    SplitWithout(z, c);
    assert [x] + ([y] + [z]) == [x, y, z];
  }

  lemma PrefixSlice<T>(s: seq<T>, p: seq<T>, i: nat, j: nat)
    requires p <= s && i <= j <= |p|
    ensures s[i..j] == p[i..j]
  {
  }

  /** Three fields joined by a separator that the first two do not hold: the first two
      occurrences of the separator are the two that were put there. */
  lemma TwoSeparators(x: string, y: string, z: string, c: char)
    requires c !in x && c !in y
    ensures var s := x + [c] + y + [c] + z;
      IndexOf(s, [c]) == |x| && IndexOf(s, [c], |x| + 1) == |x| + 1 + |y| &&
      s[..|x|] == x && s[|x| + 1..|x| + 1 + |y|] == y && s[|x| + 1 + |y| + 1..] == z
  {
    var s := x + [c] + y + [c] + z;
    var p := x + [c] + y;
    var h := |x| + 1 + |y|;
    PrefixSlice(s, p, 0, |x|);
    PrefixSlice(s, p, |x| + 1, h);
    assert p[..|x|] == x && p[|x| + 1..h] == y;
    assert s[|x|] == c && s[h] == c;
    assert forall i :: 0 <= i < |x| ==> s[i] != c by {
      forall i | 0 <= i < |x| ensures s[i] != c { assert s[i] == s[..|x|][i]; }
    }
    IndexOfChar(s, c, 0, |x|);
    assert forall i :: |x| + 1 <= i < h ==> s[i] != c by {
      forall i | |x| + 1 <= i < h ensures s[i] != c { assert s[i] == s[|x| + 1..h][i - |x| - 1]; }
    }
    IndexOfChar(s, c, |x| + 1, h);
  }

  lemma Assoc3<T>(a: seq<T>, x: seq<T>, y: seq<T>, z: seq<T>)
    ensures a + x + y + z == a + (x + y + z)
  {
  }

  lemma Assoc<T>(x: seq<T>, y: seq<T>, z: seq<T>)
    ensures x + (y + z) == x + y + z
  {
  }

  /** The first piece of a split is the text before the first separator (all of it if none). */
  function FirstPiece(s: string, sep: string): (r: string)
    requires sep != []
    ensures r <= s
    ensures forall i :: !OccursAt(r, sep, i)
    ensures r == s || OccursAt(s, sep, |r|)
  {
    SplitPiecesFree(s, sep);
    Split(s, sep)[0]
  }

  /** The `n`-th piece of a split, when it exists. */
  function Piece(s: string, sep: string, n: nat): Option<string> {
    var parts := Split(s, sep);
    if n < |parts| then Some(parts[n]) else None
  }

  // ------------------------------------------------------------------
  // padEnd

  function Spaces(n: nat): (r: string)
    ensures |r| == n && forall i :: 0 <= i < n ==> r[i] == ' '
  {
    if n == 0 then [] else Spaces(n - 1) + [' ']
  }

  /** `s.padEnd(n)`: fills with spaces up to length `n`, never truncates. */
  function PadEnd(s: string, n: int): (r: string)
    ensures |r| == if |s| >= n then |s| else n
    ensures s <= r
    ensures forall i :: |s| <= i < |r| ==> r[i] == ' '
  {
    if |s| >= n then s else s + Spaces(n - |s|)
  }

  // ------------------------------------------------------------------
  // parseInt

  predicate IsDigit(c: char) {
    '0' <= c <= '9'
  }

  function DigitValue(c: char): nat
    requires IsDigit(c)
  {
    (c as int) - ('0' as int)
  }

  predicate IsHexDigit(c: char) {
    IsDigit(c) || 'a' <= c <= 'f' || 'A' <= c <= 'F'
  }

  function HexDigitValue(c: char): nat
    requires IsHexDigit(c)
  {
    if IsDigit(c) then DigitValue(c)
    else if 'a' <= c <= 'f' then (c as int) - ('a' as int) + 10
    else (c as int) - ('A' as int) + 10
  }

  /** The characters `parseInt` skips before the number: ECMAScript's
      WhiteSpace (TAB, VT, FF, SP, NBSP, ZWNBSP and the Zs category) and
      LineTerminator (LF, CR, LS, PS). */
  predicate IsJsSpace(c: char) {
    c == '\t' || c == '\U{000B}' || c == '\U{000C}' || c == ' ' || c == '\U{00A0}' ||
    c == '\U{FEFF}' || c == '\n' || c == '\r' || c == '\U{2028}' || c == '\U{2029}' ||
    c == '\U{1680}' || '\U{2000}' <= c <= '\U{200A}' || c == '\U{202F}' || c == '\U{205F}' ||
    c == '\U{3000}'
  }

  function TrimStart(s: string): (r: string)
    ensures |r| <= |s|
  {
    if s != [] && IsJsSpace(s[0]) then TrimStart(s[1..]) else s
  }

  /** The longest prefix of `s` made of characters satisfying `digit`. */
  function LeadingRun(s: string, hex: bool): (r: string)
    ensures r <= s
    ensures forall i :: 0 <= i < |r| ==> (if hex then IsHexDigit(r[i]) else IsDigit(r[i]))
    ensures |r| < |s| ==> !(if hex then IsHexDigit(s[|r|]) else IsDigit(s[|r|]))
  {
    if s != [] && (if hex then IsHexDigit(s[0]) else IsDigit(s[0]))
    then [s[0]] + LeadingRun(s[1..], hex)
    else []
  }

  predicate AllDigits(s: string) {
    forall i :: 0 <= i < |s| ==> IsDigit(s[i])
  }

  /** The value of a numeral in base 10 (or 16), most significant digit first. */
  function NumeralValue(ds: string, hex: bool): nat
    requires forall i :: 0 <= i < |ds| ==> (if hex then IsHexDigit(ds[i]) else IsDigit(ds[i]))
  {
    if ds == [] then 0
    else
      var last := ds[|ds| - 1];
      if hex then NumeralValue(ds[..|ds| - 1], hex) * 16 + HexDigitValue(last)
      else NumeralValue(ds[..|ds| - 1], hex) * 10 + DigitValue(last)
  }

  /** `parseInt(s)` with no radix: skip leading white space, take an optional
      sign, read a `0x`/`0X` hexadecimal or else a decimal digit run; NaN
      (None) when that run is empty. */
  function ParseInt(s: string): Option<int> {
    var t := TrimStart(s);
    var negative := t != [] && t[0] == '-';
    var u := if t != [] && (t[0] == '-' || t[0] == '+') then t[1..] else t;
    var hex := |u| >= 2 && u[0] == '0' && (u[1] == 'x' || u[1] == 'X');
    var ds := LeadingRun(if hex then u[2..] else u, hex);
    if ds == [] then None
    else
      var v: int := NumeralValue(ds, hex);
      Some(if negative then -v else v)
  }

  /** A non-empty run of decimal digits parses to its value. */
  lemma DecimalNumeral(ds: string)
    requires ds != [] && AllDigits(ds)
    ensures ParseInt(ds) == Some(NumeralValue(ds, false))
  {
    assert IsDigit(ds[0]) && !IsJsSpace(ds[0]);
    assert TrimStart(ds) == ds;
    assert |ds| >= 2 ==> IsDigit(ds[1]);
    LeadingRunAll(ds);
  }

  lemma {:induction false} LeadingRunAll(ds: string)
    requires AllDigits(ds)
    ensures LeadingRun(ds, false) == ds
  {
    if ds != [] {
      LeadingRunAll(ds[1..]);
    }
  }

  /** The decimal numeral of a natural number, as `String(n)` writes it. */
  function NatToString(n: nat): (r: string)
    ensures r != [] && AllDigits(r)
  {
    if n < 10 then [('0' as int + n) as char]
    else NatToString(n / 10) + [('0' as int + n % 10) as char]
  }

  lemma {:induction false} NatToStringValue(n: nat)
    ensures NumeralValue(NatToString(n), false) == n
  {
    var r := NatToString(n);
    if n >= 10 {
      NatToStringValue(n / 10);
      assert r[..|r| - 1] == NatToString(n / 10);
    }
  }

  /** A string that does not begin with a sign, a digit or white space is not a number. */
  lemma NoLeadingDigit(s: string)
    requires s != [] && !IsJsSpace(s[0]) && !IsDigit(s[0]) && s[0] != '-' && s[0] != '+'
    ensures ParseInt(s) == None
  {
    assert TrimStart(s) == s;
  }

  /** `parseInt` skips a leading white-space character. */
  lemma ParseIntSkipsSpace(s: string)
    requires s != [] && IsJsSpace(s[0])
    ensures ParseInt(s) == ParseInt(s[1..])
  {
    assert TrimStart(s) == TrimStart(s[1..]);
  }

  /** `parseInt` stops at the first character that is not a digit: the digits
      before it are the number, whatever follows (`parseInt("3 commits")` is 3).
      An `x` right after a lone `0` would start a hexadecimal numeral instead. */
  lemma ParseIntStopsAtNonDigit(ds: string, rest: string)
    requires ds != [] && AllDigits(ds)
    requires rest != [] ==> !IsDigit(rest[0]) && rest[0] != 'x' && rest[0] != 'X'
    ensures ParseInt(ds + rest) == Some(NumeralValue(ds, false))
  {
    var s := ds + rest;
    assert s[0] == ds[0] && IsDigit(s[0]) && !IsJsSpace(s[0]);
    assert TrimStart(s) == s;
    assert |s| >= 2 ==> s[1] != 'x' && s[1] != 'X' by {
      if |s| >= 2 {
        if |ds| >= 2 { assert s[1] == ds[1]; } else { assert s[1] == rest[0]; }
      }
    }
    LeadingRunStops(ds, rest);
  }

  lemma {:induction false} LeadingRunStops(ds: string, rest: string)
    requires AllDigits(ds)
    requires rest != [] ==> !IsDigit(rest[0])
    ensures LeadingRun(ds + rest, false) == ds
  {
    if ds == [] {
      assert ds + rest == rest;
    } else {
      assert (ds + rest)[1..] == ds[1..] + rest;
      LeadingRunStops(ds[1..], rest);
    }
  }

  /** Printing a natural number and parsing it back gives the number. */
  lemma NatToStringRoundTrip(n: nat)
    ensures ParseInt(NatToString(n)) == Some(n)
  {
    DecimalNumeral(NatToString(n));
    NatToStringValue(n);
  }
}
