/** The Python `str` operations the bot relies on, on `seq<char>`.
    Character classes follow Python 3: `IsSpace` is exactly `str.isspace` (which is also
    what `\s`, `str.strip()` and `str.split()` use); `IsWordChar` is the regex class `\w`,
    exact for code points below U+0100 and treating every other code point as non-word;
    case mapping is exact for ASCII and Latin-1 (except the two-character mapping of U+00DF). */
module PyStrings {

  /** Python's `str.isspace()` for one character. */
  predicate IsSpace(c: char) {
    ('\t' <= c <= '\r') || ('\U{1C}' <= c <= '\U{1F}') || c == ' ' || c == '\U{85}' || c == '\U{A0}'
    || c == '\U{1680}' || ('\U{2000}' <= c <= '\U{200A}') || c == '\U{2028}' || c == '\U{2029}'
    || c == '\U{202F}' || c == '\U{205F}' || c == '\U{3000}'
  }

  /** The regex class `\w` (letters, digits and `_`), below U+0100. */
  predicate IsWordChar(c: char) {
    ('a' <= c <= 'z') || ('A' <= c <= 'Z') || ('0' <= c <= '9') || c == '_'
    || c == '\U{AA}' || c == '\U{B2}' || c == '\U{B3}' || c == '\U{B5}' || c == '\U{B9}' || c == '\U{BA}'
    || ('\U{BC}' <= c <= '\U{BE}') || ('\U{C0}' <= c <= '\U{D6}') || ('\U{D8}' <= c <= '\U{F6}')
    || ('\U{F8}' <= c <= '\U{FF}')
  }

  function LowerChar(c: char): (d: char)
    ensures IsSpace(d) <==> IsSpace(c)
  {
    if ('A' <= c <= 'Z') || ('\U{C0}' <= c <= '\U{DE}' && c != '\U{D7}') then (c as int + 32) as char else c
  }

  function UpperChar(c: char): (d: char)
    ensures IsSpace(d) <==> IsSpace(c)
  {
    if ('a' <= c <= 'z') || ('\U{E0}' <= c <= '\U{FE}' && c != '\U{F7}') then (c as int - 32) as char
    else if c == '\U{FF}' then '\U{178}'
    else if c == '\U{B5}' then '\U{39C}'
    else c
  }

  /** `s.lower()` */
  function Lower(s: string): (r: string)
    ensures |r| == |s|
    ensures forall i :: 0 <= i < |s| ==> r[i] == LowerChar(s[i])
  {
    seq(|s|, i requires 0 <= i < |s| => LowerChar(s[i]))
  }

  /** `w.capitalize()`: first character upper-cased, the rest lower-cased. */
  function Capitalize(w: string): (r: string)
    ensures |r| == |w|
  {
    if w == [] then [] else [UpperChar(w[0])] + Lower(w[1..])
  }

  predicate HasSpace(s: string) {
    exists i :: 0 <= i < |s| && IsSpace(s[i])
  }

  lemma CapitalizeKeepsSpaces(w: string)
    ensures HasSpace(Capitalize(w)) <==> HasSpace(w)
  {
    if w != [] {
      var r := Capitalize(w);
      forall i | 0 <= i < |w| ensures IsSpace(r[i]) <==> IsSpace(w[i]) {
        if i > 0 { assert r[i] == Lower(w[1..])[i - 1]; }
      }
    }
  }

  predicate StartsWith(s: string, p: string) {
    |p| <= |s| && s[..|p|] == p
  }

  predicate OccursAt(s: string, p: string, i: int) {
    0 <= i && i + |p| <= |s| && s[i..i + |p|] == p
  }

  lemma OccursShift(s: string, p: string, i: int)
    requires s != [] && 0 <= i
    ensures OccursAt(s[1..], p, i) <==> OccursAt(s, p, i + 1)
  {
    if 0 <= i && i + |p| <= |s[1..]| { assert s[1..][i..i + |p|] == s[i + 1..i + 1 + |p|]; }
  }

  /** `p in s`, scanning left to right. */
  function Contains(s: string, p: string): bool
    decreases |s|
  {
    if StartsWith(s, p) then true
    else if |s| <= |p| then false
    else Contains(s[1..], p)
  }

  /** `p in s` holds exactly when `p` occurs at some position of `s`. */
  lemma {:induction false} ContainsIff(s: string, p: string)
    ensures Contains(s, p) <==> exists i :: OccursAt(s, p, i)
    decreases |s|
  {
    if StartsWith(s, p) {
      assert OccursAt(s, p, 0);
    } else if |s| <= |p| {
      assert forall i :: OccursAt(s, p, i) ==> i == 0;
    } else {
      ContainsIff(s[1..], p);
      assert forall i :: 0 <= i ==> (OccursAt(s[1..], p, i) <==> OccursAt(s, p, i + 1)) by {
        forall i | 0 <= i ensures OccursAt(s[1..], p, i) <==> OccursAt(s, p, i + 1) { OccursShift(s, p, i); }
      }
      assert !OccursAt(s, p, 0);
      if Contains(s, p) {
        var i :| OccursAt(s[1..], p, i);
        assert OccursAt(s, p, i + 1);
      }
      if exists i :: OccursAt(s, p, i) {
        var i :| OccursAt(s, p, i);
        assert OccursAt(s[1..], p, i - 1);
      }
    }
  }

  /** `s.replace(pat, rep)`: every non-overlapping occurrence, leftmost first. */
  function ReplaceAll(s: string, pat: string, rep: string): string
    requires |pat| > 0
    decreases |s|
  {
    if StartsWith(s, pat) then rep + ReplaceAll(s[|pat|..], pat, rep)
    else if s == [] then []
    else [s[0]] + ReplaceAll(s[1..], pat, rep)
  }

  lemma {:induction false} ReplaceAbsent(s: string, pat: string, rep: string)
    requires |pat| > 0 && !Contains(s, pat)
    ensures ReplaceAll(s, pat, rep) == s
    decreases |s|
  {
    ContainsIff(s, pat);
    assert !OccursAt(s, pat, 0);
    if s != [] {
      forall i | 0 <= i ensures !OccursAt(s[1..], pat, i) { OccursShift(s, pat, i); }
      ContainsIff(s[1..], pat);
      ReplaceAbsent(s[1..], pat, rep);
    }
  }

  /** A prefix in which no occurrence of `pat` starts is copied unchanged by the replacement. */
  lemma {:induction false} ReplaceAfterPrefix(u: string, v: string, pat: string, rep: string)
    requires |pat| > 0
    requires forall i :: 0 <= i < |u| ==> !OccursAt(u + v, pat, i)
    ensures ReplaceAll(u + v, pat, rep) == u + ReplaceAll(v, pat, rep)
    decreases |u|
  {
    if u != [] {
      var s := u + v;
      assert !OccursAt(s, pat, 0);
      assert !StartsWith(s, pat) by { if |pat| <= |s| { assert s[0..|pat|] == s[..|pat|]; } }
      assert s[0] == u[0] && s[1..] == u[1..] + v;
      assert ReplaceAll(s, pat, rep) == [u[0]] + ReplaceAll(u[1..] + v, pat, rep);
      forall i | 0 <= i < |u[1..]| ensures !OccursAt(u[1..] + v, pat, i) {
        OccursShift(s, pat, i);
      }
      ReplaceAfterPrefix(u[1..], v, pat, rep);
      assert [u[0]] + (u[1..] + ReplaceAll(v, pat, rep)) == u + ReplaceAll(v, pat, rep);
    } else {
      assert u + v == v;
    }
  }

  /** `s[:n]` for n >= 0 */
  function Take(s: string, n: nat): (r: string)
    ensures |r| == if |s| <= n then |s| else n
  {
    if |s| <= n then s else s[..n]
  }

  function TrimLeft(s: string): (r: string)
    ensures r == [] || !IsSpace(r[0])
    ensures |r| <= |s|
  {
    if s != [] && IsSpace(s[0]) then TrimLeft(s[1..]) else s
  }

  function TrimRight(s: string): (r: string)
    ensures r == [] || !IsSpace(r[|r| - 1])
    ensures |r| <= |s| && (r != [] ==> r[0] == s[0])
  {
    if s != [] && IsSpace(s[|s| - 1]) then TrimRight(s[..|s| - 1]) else s
  }

  /** `s.strip()` */
  function Strip(s: string): (r: string)
    ensures r == [] || (!IsSpace(r[0]) && !IsSpace(r[|r| - 1]))
  {
    TrimRight(TrimLeft(s))
  }

  lemma StripStripped(s: string)
    requires s == [] || (!IsSpace(s[0]) && !IsSpace(s[|s| - 1]))
    ensures Strip(s) == s
  {
  }

  lemma StripAfterSpace(c: char, s: string)
    requires IsSpace(c)
    ensures Strip([c] + s) == Strip(s)
  {
    assert ([c] + s)[1..] == s;
  }

  /** Length of the leading run of non-whitespace characters. */
  function NonSpaceRun(s: string): (n: nat)
    ensures n <= |s|
    ensures forall i :: 0 <= i < n ==> !IsSpace(s[i])
    ensures n < |s| ==> IsSpace(s[n])
  {
    if s == [] || IsSpace(s[0]) then 0 else 1 + NonSpaceRun(s[1..])
  }

  /** `s.split()`: the maximal runs of non-whitespace characters. */
  function Words(s: string): (ws: seq<string>)
    ensures forall k :: 0 <= k < |ws| ==> ws[k] != [] && !HasSpace(ws[k])
    decreases |s|
  {
    var t := TrimLeft(s);
    if t == [] then [] else
      var n := NonSpaceRun(t);
      [t[..n]] + Words(t[n..])
  }

  lemma {:induction false} NonSpaceRunOf(a: string, b: string)
    requires !HasSpace(a) && (b == [] || IsSpace(b[0]))
    ensures NonSpaceRun(a + b) == |a|
  {
    if a == [] {
      assert a + b == b;
    } else {
      assert !IsSpace(a[0]);
      assert (a + b)[1..] == a[1..] + b;
      assert !HasSpace(a[1..]) by {
        forall i | 0 <= i < |a[1..]| ensures !IsSpace(a[1..][i]) { assert a[1..][i] == a[i + 1]; }
      }
      NonSpaceRunOf(a[1..], b);
    }
  }

  /** Splitting texts joined by single spaces gives them back, when they are non-empty and
      hold no whitespace. */
  lemma {:induction false} WordsOfJoin(xs: seq<string>)
    requires forall k :: 0 <= k < |xs| ==> xs[k] != [] && !HasSpace(xs[k])
    ensures Words(Join(" ", xs)) == xs
  {
    if xs != [] {
      var s := Join(" ", xs);
      var rest: string := if |xs| == 1 then [] else " " + Join(" ", xs[1..]);
      assert s == xs[0] + rest;
      assert !IsSpace(xs[0][0]);
      assert TrimLeft(s) == s;
      NonSpaceRunOf(xs[0], rest);
      assert s[..|xs[0]|] == xs[0];
      assert s[|xs[0]|..] == rest;
      if |xs| > 1 {
        WordsOfJoin(xs[1..]);
        assert TrimLeft(rest) == TrimLeft(Join(" ", xs[1..]));
      }
    }
  }

  /** `s.split(c)` for a one-character separator: always at least one piece. */
  function Split(s: string, c: char): (parts: seq<string>)
    ensures |parts| >= 1
  {
    if s == [] then [[]]
    else
      var rest := Split(s[1..], c);
      if s[0] == c then [[]] + rest else [[s[0]] + rest[0]] + rest[1..]
  }

  lemma {:induction false} SplitWithout(s: string, c: char)
    requires c !in s
    ensures Split(s, c) == [s]
  {
    if s != [] {
      SplitWithout(s[1..], c);
      assert [s[0]] + s[1..] == s;
    }
  }

  lemma {:induction false} SplitAt(x: string, c: char, y: string)
    requires c !in x
    ensures Split(x + [c] + y, c) == [x] + Split(y, c)
  {
    if x == [] {
      assert (x + [c] + y)[1..] == y;
    } else {
      assert (x + [c] + y)[1..] == x[1..] + [c] + y;
      SplitAt(x[1..], c, y);
      assert [x[0]] + x[1..] == x;
    }
  }

  lemma NoSpaceConcat(a: string, b: string)
    requires !HasSpace(a) && !HasSpace(b)
    ensures !HasSpace(a + b)
  {
    forall i | 0 <= i < |a + b| ensures !IsSpace((a + b)[i]) {
      if i < |a| { assert (a + b)[i] == a[i]; } else { assert (a + b)[i] == b[i - |a|]; }
    }
  }

  /** `sep.join(xs)` */
  function Join(sep: string, xs: seq<string>): string {
    if xs == [] then []
    else if |xs| == 1 then xs[0]
    else xs[0] + sep + Join(sep, xs[1..])
  }

  lemma JoinEmpty(sep: string, xs: seq<string>)
    requires forall k :: 0 <= k < |xs| ==> xs[k] != []
    ensures Join(sep, xs) == [] <==> xs == []
  {
  }

  /** Joining texts without whitespace by a separator without whitespace gives a text
      without whitespace. */
  lemma {:induction false} JoinNoSpace(sep: string, xs: seq<string>)
    requires !HasSpace(sep) && forall k :: 0 <= k < |xs| ==> !HasSpace(xs[k])
    ensures !HasSpace(Join(sep, xs))
  {
    if |xs| > 1 {
      JoinNoSpace(sep, xs[1..]);
      NoSpaceConcat(xs[0], sep);
      NoSpaceConcat(xs[0] + sep, Join(sep, xs[1..]));
    }
  }

  /** Joining texts of the same lengths, one by one, gives texts of the same length. */
  lemma {:induction false} JoinSameLengths(sep: string, xs: seq<string>, ys: seq<string>)
    requires |xs| == |ys| && forall k :: 0 <= k < |xs| ==> |xs[k]| == |ys[k]|
    ensures |Join(sep, xs)| == |Join(sep, ys)|
  {
    if |xs| > 1 {
      JoinSameLengths(sep, xs[1..], ys[1..]);
    }
  }

  /** `str(i)` for a Python int */
  function IntToString(i: int): (r: string)
    ensures r != []
  {
    if i < 0 then "-" + NatToString(-i) else NatToString(i)
  }

  function NatToString(n: nat): (r: string)
    ensures r != []
    ensures forall k :: 0 <= k < |r| ==> '0' <= r[k] <= '9'
  {
    var d := ['0' + (n % 10) as char];
    if n < 10 then d else NatToString(n / 10) + d
  }
}
