/** Filename pre-cleaning and result shaping around the structured filename parser
    (cinegram/services/filename_parser.py). The parser itself (`guessit`) is an oracle. */
module FilenameParser {
  import opened Common
  import opened PyStrings

  /** What `guessit(name)` gives back: its `title` and `year` entries, or an exception. */
  datatype Guess = Raised | Guessed(title: Option<string>, year: Option<int>)

  // ---- Step 1: re.sub(r'@\w+', '', name) ----

  /** A match of `@\w+` starts here. */
  predicate MentionStart(s: string) {
    |s| >= 2 && s[0] == '@' && IsWordChar(s[1])
  }

  /** No '@' immediately followed by a word character. */
  predicate NoMention(s: string) {
    forall i :: 0 <= i < |s| - 1 ==> !(s[i] == '@' && IsWordChar(s[i + 1]))
  }

  /** Length of the leading run of word characters (the greedy `\w+`). */
  function WordRun(s: string): (n: nat)
    ensures n <= |s|
    ensures n < |s| ==> !IsWordChar(s[n])
  {
    if s == [] || !IsWordChar(s[0]) then 0 else 1 + WordRun(s[1..])
  }

  function StripMentions(s: string): (r: string)
    ensures NoMention(r)
    ensures (s == [] || !IsWordChar(s[0])) ==> (r == [] || !IsWordChar(r[0]))
    ensures '@' !in s ==> r == s
    decreases |s|
  {
    if s == [] then []
    else if MentionStart(s) then
      StripMentions(s[1 + WordRun(s[1..])..])
    else
      var rest := StripMentions(s[1..]);
      var r := [s[0]] + rest;
      assert NoMention(r) by {
        forall i | 0 <= i < |r| - 1 ensures !(r[i] == '@' && IsWordChar(r[i + 1])) {
          if i > 0 { assert r[i] == rest[i - 1] && r[i + 1] == rest[i]; }
        }
      }
      r
  }

  // ---- Step 2: re.sub(r'https?://\S+|www\.\S+', '', name) ----

  /** A match of `https?://\S+|www\.\S+` starts here (it then runs to the next whitespace). */
  predicate UrlStart(s: string) {
    (StartsWith(s, "https://") && |s| > 8 && !IsSpace(s[8]))
    || (StartsWith(s, "http://") && |s| > 7 && !IsSpace(s[7]))
    || (StartsWith(s, "www.") && |s| > 4 && !IsSpace(s[4]))
  }

  predicate NoUrl(s: string) {
    forall i :: 0 <= i < |s| ==> !UrlStart(s[i..])
  }

  lemma {:induction false} RunAtLeast(x: string, m: nat)
    requires m <= |x| && forall k :: 0 <= k < m ==> !IsSpace(x[k])
    ensures NonSpaceRun(x) >= m
  {
    if m > 0 { RunAtLeast(x[1..], m - 1); }
  }

  /** Whether a match starts at the front depends only on the leading non-whitespace run. */
  lemma UrlStartByRun(x: string, y: string)
    requires UrlStart(x)
    requires NonSpaceRun(x) <= |y| && x[..NonSpaceRun(x)] == y[..NonSpaceRun(x)]
    ensures UrlStart(y)
  {
    if StartsWith(x, "https://") && |x| > 8 && !IsSpace(x[8]) {
      PrefixByRun(x, y, "https://");
    } else if StartsWith(x, "http://") && |x| > 7 && !IsSpace(x[7]) {
      PrefixByRun(x, y, "http://");
    } else {
      PrefixByRun(x, y, "www.");
    }
  }

  /** A prefix without whitespace followed by a non-space character lies inside the leading
      run, so a text sharing that run has it too. */
  lemma PrefixByRun(x: string, y: string, p: string)
    requires StartsWith(x, p) && |x| > |p| && !IsSpace(x[|p|]) && !HasSpace(p)
    requires NonSpaceRun(x) <= |y| && x[..NonSpaceRun(x)] == y[..NonSpaceRun(x)]
    ensures StartsWith(y, p) && |y| > |p| && !IsSpace(y[|p|])
  {
    var m := |p| + 1;
    forall k | 0 <= k < m ensures !IsSpace(x[k]) {
      if k < |p| { assert x[k] == x[..|p|][k] == p[k]; }
    }
    RunAtLeast(x, m);
    var n := NonSpaceRun(x);
    assert x[..m] == x[..n][..m] == y[..n][..m] == y[..m];
    assert y[|p|] == y[..m][|p|] == x[..m][|p|] == x[|p|];
    assert y[..|p|] == y[..m][..|p|] == x[..m][..|p|] == x[..|p|];
  }

  lemma NoUrlTail(s: string)
    requires s != [] && NoUrl(s)
    ensures NoUrl(s[1..])
  {
    forall i | 0 <= i < |s[1..]| ensures !UrlStart(s[1..][i..]) { assert s[1..][i..] == s[i + 1..]; }
  }

  /** The leading non-whitespace run of `r` is copied from `s`. */
  predicate SameRun(r: string, s: string) {
    NonSpaceRun(r) <= |s| && r[..NonSpaceRun(r)] == s[..NonSpaceRun(r)]
  }

  /** Keeping a character that starts no match preserves the properties of `StripUrls`. */
  lemma KeepStep(s: string, rest: string)
    requires s != [] && !UrlStart(s)
    requires NoUrl(rest) && SameRun(rest, s[1..])
    ensures NoUrl([s[0]] + rest) && SameRun([s[0]] + rest, s)
  {
    KeepRun(s, rest);
    KeepNoUrl(s, rest);
  }

  lemma KeepRun(s: string, rest: string)
    requires s != [] && SameRun(rest, s[1..])
    ensures SameRun([s[0]] + rest, s)
  {
    var r := [s[0]] + rest;
    assert r[0] == s[0] && r[1..] == rest;
    if !IsSpace(s[0]) {
      var n := NonSpaceRun(rest);
      assert NonSpaceRun(r) == 1 + n;
      assert r[..1 + n] == [s[0]] + rest[..n];
      assert s[..1 + n] == [s[0]] + s[1..][..n];
    }
  }

  lemma KeepNoUrl(s: string, rest: string)
    requires s != [] && !UrlStart(s)
    requires NoUrl(rest) && SameRun(rest, s[1..])
    ensures NoUrl([s[0]] + rest)
  {
    var r := [s[0]] + rest;
    assert r[1..] == rest;
    forall i | 0 <= i < |r| ensures !UrlStart(r[i..]) {
      if i == 0 {
        if UrlStart(r) {
          KeepRun(s, rest);
          UrlStartByRun(r, s);
        }
      } else {
        assert r[i..] == rest[i - 1..];
      }
    }
  }

  function StripUrls(s: string): (r: string)
    ensures NoUrl(r)
    ensures SameRun(r, s)
    ensures s != [] && IsSpace(s[0]) ==> r != [] && r[0] == s[0]
    ensures NoUrl(s) ==> r == s
    decreases |s|
  {
    if s == [] then []
    else if UrlStart(s) then
      assert !NoUrl(s) by { assert s[0..] == s; }
      StripUrls(s[NonSpaceRun(s)..])
    else
      var rest := StripUrls(s[1..]);
      KeepStep(s, rest);
      assert NoUrl(s) ==> [s[0]] + rest == s by {
        if NoUrl(s) { NoUrlTail(s); }
      }
      [s[0]] + rest
  }

  // ---- Step 3: name.replace('_', ' ') ----

  function SpaceUnderscores(s: string): (r: string) {
    ReplaceAll(s, "_", " ")
  }

  lemma {:induction false} SpaceUnderscoresAt(s: string)
    ensures |SpaceUnderscores(s)| == |s|
    ensures forall i :: 0 <= i < |s| ==> SpaceUnderscores(s)[i] == if s[i] == '_' then ' ' else s[i]
    decreases |s|
  {
    if s != [] {
      SpaceUnderscoresAt(s[1..]);
      assert StartsWith(s, "_") <==> s[0] == '_';
    }
  }

  /** The whole pre-cleaning chain, whose result is what the parser sees: the mention- and
      URL-free text with every underscore turned into a space, so it has no underscore and
      no URL. */
  function CleanName(filename: string): (r: string)
    ensures var u := StripUrls(StripMentions(filename));
      |r| == |u| && forall i :: 0 <= i < |u| ==> r[i] == if u[i] == '_' then ' ' else u[i]
    ensures '_' !in r
    ensures NoUrl(r)
  {
    var u := StripUrls(StripMentions(filename));
    SpaceUnderscoresAt(u);
    UnderscoresKeepNoUrl(u);
    SpaceUnderscores(u)
  }

  /** Turning underscores into spaces in a URL-free text leaves no underscore and creates no
      URL match. */
  lemma UnderscoresKeepNoUrl(u: string)
    requires NoUrl(u)
    ensures '_' !in SpaceUnderscores(u)
    ensures NoUrl(SpaceUnderscores(u))
  {
    var r := SpaceUnderscores(u);
    SpaceUnderscoresAt(u);
    forall i | 0 <= i < |r| ensures !UrlStart(r[i..]) {
      if UrlStart(r[i..]) {
        UrlStartUnderscores(u[i..], r[i..]);
        assert false;
      }
    }
  }

  /** Turning underscores into spaces cannot create a URL match. */
  lemma UrlStartUnderscores(x: string, y: string)
    requires |x| == |y|
    requires forall k :: 0 <= k < |x| ==> y[k] == if x[k] == '_' then ' ' else x[k]
    requires UrlStart(y)
    ensures UrlStart(x)
  {
    if StartsWith(y, "https://") && |y| > 8 && !IsSpace(y[8]) {
      assert x[..8] == y[..8] by { forall k | 0 <= k < 8 ensures x[k] == y[k] { assert y[k] == "https://"[k]; } }
    } else if StartsWith(y, "http://") && |y| > 7 && !IsSpace(y[7]) {
      assert x[..7] == y[..7] by { forall k | 0 <= k < 7 ensures x[k] == y[k] { assert y[k] == "http://"[k]; } }
    } else {
      assert x[..4] == y[..4] by { forall k | 0 <= k < 4 ensures x[k] == y[k] { assert y[k] == "www."[k]; } }
    }
  }

  /** A name without '@', URL or underscore reaches the parser unchanged. */
  lemma CleanNameIdentity(filename: string)
    requires '@' !in filename && NoUrl(filename) && '_' !in filename
    ensures CleanName(filename) == filename
  {
    forall i | 0 <= i < |filename| ensures !OccursAt(filename, "_", i) {
      assert filename[i..i + 1][0] == filename[i];
    }
    ContainsIff(filename, "_");
    ReplaceAbsent(filename, "_", " ");
  }

  /** `FilenameParser.parse_filename`: `None` when the parser raises or finds no title;
      otherwise the parser's title as is and `str(year)` for a truthy year. */
  function ParseFilename(filename: string, guessit: string -> Guess): (r: Option<Candidate>)
    ensures r.Some? <==> guessit(CleanName(filename)).Guessed? && Truthy(guessit(CleanName(filename)).title)
    ensures r.Some? ==> r.value.title == guessit(CleanName(filename)).title.value && r.value.title != []
    ensures r.Some? ==> match guessit(CleanName(filename)).year
      case None => r.value.year == None
      case Some(y) => r.value.year == if y == 0 then None else Some(IntToString(y))
  {
    match guessit(CleanName(filename))
    case Raised => None
    case Guessed(title, year) =>
      if !Truthy(title) then None
      else Some(Candidate(title.value, if year.Some? && year.value != 0 then Some(IntToString(year.value)) else None))
  }
}
