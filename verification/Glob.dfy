/**
 The glob matcher of the server: which files are CGI scripts, server-side includes, protected
 or redirected is decided by matching a path against patterns such as `**.cgi$|**.pl$`.

 `?` stands for any one character, `*` for any characters but `/`, `**` for any characters,
 `$` for the end of the string, and `|` separates alternatives. A pattern has to match a prefix.
 */
module Glob {

  // ----- The language of a pattern -----

  /** How far a star can reach: up to the next slash, or up to the end for a double star. */
  function Span(s: string, double: bool): (n: nat)
    ensures n <= |s|
  {
    if s == [] || (!double && s[0] == '/') then 0 else 1 + Span(s[1..], double)
  }

  predicate IsDouble(p: string)
    requires p != [] && p[0] == '*'
  {
    |p| > 1 && p[1] == '*'
  }

  function AfterStar(p: string): (rest: string)
    requires p != [] && p[0] == '*'
    ensures |rest| < |p|
  {
    if IsDouble(p) then p[2..] else p[1..]
  }

  /** The pattern p, one alternative, describes the first k characters of s. */
  ghost predicate Matches(p: string, s: string, k: nat)
    decreases |p|, 1
  {
    if p == [] then k == 0
    else if p[0] == '$' then s == [] && k == 0
    else if p[0] == '*' then exists m: nat :: Runs(p, s, m, k)
    else s != [] && k > 0 && (p[0] == '?' || p[0] == s[0]) && Matches(p[1..], s[1..], k - 1)
  }

  /** The leading star stands for the first m characters of s. */
  ghost predicate Runs(p: string, s: string, m: nat, k: nat)
    requires p != [] && p[0] == '*'
    decreases |p|, 0
  {
    m <= k && m <= Span(s, IsDouble(p)) && Matches(AfterStar(p), s[m..], k - m)
  }

  /** The alternatives of a pattern. */
  function Alternatives(p: string): (r: seq<string>)
    ensures |r| > 0
  {
    var n := Bar(p);
    if n == |p| then [p] else [p[..n]] + Alternatives(p[n + 1..])
  }

  /** Where the first bar is. */
  function Bar(p: string): (n: nat)
    ensures n <= |p| && '|' !in p[..n] && (n < |p| ==> p[n] == '|')
  {
    if p == [] || p[0] == '|' then 0 else 1 + Bar(p[1..])
  }

  /** r is the length of the longest prefix the alternative describes, or -1 when there is none. */
  ghost predicate Longest(p: string, s: string, r: int) {
    && r >= -1
    && (r >= 0 ==> Matches(p, s, r))
    && forall k: nat :: Matches(p, s, k) ==> k <= r
  }

  /** The answer for a list of alternatives: of the first that describes a non-empty prefix, or else of the last one. */
  ghost predicate Answer(alternatives: seq<string>, s: string, r: int)
    requires alternatives != []
  {
    exists i: nat :: i < |alternatives|
      && Longest(alternatives[i], s, r)
      && (r > 0 || i == |alternatives| - 1)
      && forall h: nat, k: nat :: h < i && k > 0 ==> !Matches(alternatives[h], s, k)
  }

  // ----- The matcher -----

  /** The character at a position of a string that ends with a NUL. */
  function At(s: string, i: nat): char
    requires i <= |s|
  {
    if i < |s| then s[i] else '\0'
  }

  method MatchPrefix(pattern: string, str: string) returns (r: int)
    requires '\0' !in pattern && '\0' !in str
    ensures Answer(Alternatives(pattern), str, r)
    decreases |pattern|
  {
    var bar := Bar(pattern);
    if bar < |pattern| {
      r := MatchPrefix(pattern[..bar], str);
      OneAlternative(pattern[..bar], str, r);
      if r <= 0 {
        ghost var first := r;
        r := MatchPrefix(pattern[bar + 1..], str);
        NextAlternative(pattern[..bar], Alternatives(pattern[bar + 1..]), str, first, r);
      } else {
        FirstAlternative(pattern[..bar], Alternatives(pattern[bar + 1..]), str, r);
      }
    } else {
      r := MatchAlternative(pattern, str);
      assert Alternatives(pattern)[0] == pattern;
    }
  }

  /** The matcher on a pattern without a bar. */
  method MatchAlternative(pattern: string, str: string) returns (r: int)
    requires '\0' !in pattern && '\0' !in str
    ensures Longest(pattern, str, r)
    decreases |pattern|, 1
  {
    var i, j := 0, 0;
    while i < |pattern|
      invariant i <= |pattern| && j <= |str|
      invariant forall k: nat :: Matches(pattern, str, k) <==> k >= j && Matches(pattern[i..], str[j..], k - j)
    {
      Unfold(pattern, str, i, j);
      if pattern[i] == '?' && At(str, j) != '\0' {
      } else if pattern[i] == '$' {
        r := if At(str, j) == '\0' then j else -1;
        return;
      } else if pattern[i] == '*' {
        var k := MatchStar(pattern[i..], str[j..]);
        LongestFrom(pattern, str, i, j, k);
        return if k == -1 then -1 else j + k;
      } else if pattern[i] != At(str, j) {
        return -1;
      }
      i, j := i + 1, j + 1;
    }
    r := j;
  }

  /** Try the longest run for the star first, then shorter ones. */
  method MatchStar(pattern: string, str: string) returns (r: int)
    requires pattern != [] && pattern[0] == '*'
    requires '\0' !in pattern && '\0' !in str
    ensures Longest(pattern, str, r)
    decreases |pattern|, 0
  {
    var i := 1;
    var len: nat;
    if At(pattern, i) == '*' {
      i := i + 1;
      len := Span(str, true);
    } else {
      len := Span(str, false);
    }
    assert pattern[i..] == AfterStar(pattern) && len == Span(str, IsDouble(pattern));
    if i == |pattern| {
      StarAtEnd(pattern, str, len);
      return len;
    }
    var res := MatchAlternative(pattern[i..], str[len..]);
    while res == -1 && len > 0
      invariant len <= Span(str, IsDouble(pattern)) && Longest(pattern[i..], str[len..], res)
      invariant forall m: nat, k: nat :: len < m <= Span(str, IsDouble(pattern)) ==> !Matches(pattern[i..], str[m..], k)
    {
      len := len - 1;
      res := MatchAlternative(pattern[i..], str[len..]);
    }
    StarLongest(pattern, str, len, res);
    r := if res == -1 then -1 else res + len;
  }

  // ----- Proofs about single alternatives -----

  /** One step of the matcher along pattern and string. */
  lemma Unfold(p: string, s: string, i: nat, j: nat)
    requires i < |p| && j <= |s|
    requires forall k: nat :: Matches(p, s, k) <==> k >= j && Matches(p[i..], s[j..], k - j)
    ensures p[i] == '$' ==> forall k: nat :: Matches(p, s, k) <==> j == |s| && k == j
    ensures p[i] !in "$*" && (j == |s| || (p[i] != '?' && p[i] != s[j])) ==> forall k: nat :: !Matches(p, s, k)
    ensures p[i] !in "$*" && j < |s| && (p[i] == '?' || p[i] == s[j]) ==>
      forall k: nat :: Matches(p, s, k) <==> k >= j + 1 && Matches(p[i + 1..], s[j + 1..], k - (j + 1))
  {
    assert p[i..][1..] == p[i + 1..];
    if j < |s| {
      assert s[j..][1..] == s[j + 1..];
    }
  }

  lemma LongestFrom(p: string, s: string, i: nat, j: nat, r: int)
    requires i < |p| && j <= |s|
    requires forall k: nat :: Matches(p, s, k) <==> k >= j && Matches(p[i..], s[j..], k - j)
    requires Longest(p[i..], s[j..], r)
    ensures Longest(p, s, if r == -1 then -1 else j + r)
  {
  }

  /** With a pattern that matches from both of two places, what ends latest starts at the later place. */
  lemma {:induction false} LaterIsLonger(p: string, s: string, ka: nat, b: nat, kb: nat) returns (k: nat)
    requires b <= |s| && Matches(p, s, ka) && Matches(p, s[b..], kb)
    ensures Matches(p, s[b..], k) && b + k >= ka
    decreases |p|
  {
    if p == [] || p[0] == '$' {
      k := kb;
    } else if p[0] == '*' {
      k := LaterStar(p, s, ka, b, kb);
    } else {
      if b == 0 {
        assert s[b..] == s;
        return ka;
      }
      assert s[1..][b..] == s[b..][1..];
      k := LaterIsLonger(p[1..], s[1..], ka - 1, b, kb - 1);
      k := k + 1;
    }
  }

  lemma {:induction false} LaterStar(p: string, s: string, ka: nat, b: nat, kb: nat) returns (k: nat)
    requires b <= |s| && p != [] && p[0] == '*' && Matches(p, s, ka) && Matches(p, s[b..], kb)
    ensures Matches(p, s[b..], k) && b + k >= ka
    decreases |p|, 0
  {
    var double, rest := IsDouble(p), AfterStar(p);
    var ma: nat :| Runs(p, s, ma, ka);
    var mb: nat :| Runs(p, s[b..], mb, kb);
    hide Matches;
    if ma >= b {
      SpanSuffix(s, double, ma, b);
      assert s[b..][ma - b..] == s[ma..];
      k := ka - b;
      RunsMatch(p, s[b..], ma - b, k);
    } else {
      assert s[b..][mb..] == s[ma..][b + mb - ma..];
      k := LaterIsLonger(rest, s[ma..], ka - ma, b + mb - ma, kb - mb);
      k := k + mb;
      RunsMatch(p, s[b..], mb, k);
    }
  }

  lemma RunsMatch(p: string, s: string, m: nat, k: nat)
    requires p != [] && p[0] == '*' && Runs(p, s, m, k)
    ensures Matches(p, s, k)
  {
  }

  lemma MatchesRuns(p: string, s: string, k: nat) returns (m: nat)
    requires p != [] && p[0] == '*' && Matches(p, s, k)
    ensures Runs(p, s, m, k)
  {
    m :| Runs(p, s, m, k);
  }

  lemma {:induction false} SpanSuffix(s: string, double: bool, m: nat, b: nat)
    requires b <= m <= Span(s, double)
    ensures m - b <= Span(s[b..], double)
  {
    if b > 0 {
      assert s[1..][b - 1..] == s[b..];
      SpanSuffix(s[1..], double, m - 1, b - 1);
    } else {
      assert s[b..] == s;
    }
  }

  lemma StarAtEnd(p: string, s: string, len: nat)
    requires p != [] && p[0] == '*' && AfterStar(p) == [] && len == Span(s, IsDouble(p))
    ensures Longest(p, s, len)
  {
    RunsMatch(p, s, len, len);
    forall k: nat | Matches(p, s, k)
      ensures k <= len
    {
      var m := MatchesRuns(p, s, k);
    }
  }

  /** The longest run for the star that lets the rest match gives the longest match. */
  lemma StarLongest(p: string, s: string, len: nat, res: int)
    requires p != [] && p[0] == '*' && len <= Span(s, IsDouble(p)) && Longest(AfterStar(p), s[len..], res)
    requires forall m: nat, k: nat :: len < m <= Span(s, IsDouble(p)) ==> !Matches(AfterStar(p), s[m..], k)
    requires res == -1 ==> len == 0
    ensures Longest(p, s, if res == -1 then -1 else res + len)
  {
    var rest := AfterStar(p);
    if res >= 0 {
      RunsMatch(p, s, len, res + len);
    }
    forall k: nat | Matches(p, s, k)
      ensures res >= 0 && k <= res + len
    {
      var m := MatchesRuns(p, s, k);
      if m < len {
        assert s[m..][len - m..] == s[len..];
        var k' := LaterIsLonger(rest, s[m..], k - m, len - m, res);
      }
    }
  }

  // ----- Proofs about alternatives -----

  lemma OneAlternative(p: string, s: string, r: int)
    requires '|' !in p
    ensures Alternatives(p) == [p]
    ensures Answer([p], s, r) ==> Longest(p, s, r)
  {
    assert Bar(p) == |p|;
  }

  lemma FirstAlternative(p: string, others: seq<string>, s: string, r: int)
    requires Longest(p, s, r) && r > 0
    ensures Answer([p] + others, s, r)
  {
    assert ([p] + others)[0] == p;
  }

  lemma NextAlternative(p: string, others: seq<string>, s: string, first: int, r: int)
    requires others != [] && Longest(p, s, first) && first <= 0 && Answer(others, s, r)
    ensures Answer([p] + others, s, r)
  {
    var all := [p] + others;
    var i: nat :| i < |others| && Longest(others[i], s, r) && (r > 0 || i == |others| - 1)
      && forall h: nat, k: nat :: h < i && k > 0 ==> !Matches(others[h], s, k);
    assert all[i + 1] == others[i];
    forall h: nat, k: nat | h < i + 1 && k > 0
      ensures !Matches(all[h], s, k)
    {
      if h > 0 {
        assert all[h] == others[h - 1];
      }
    }
  }

  // ----- What an answer means -----

  /**
   A positive answer describes a prefix, and there is one exactly when some alternative describes a non-empty prefix.
   */
  lemma AnswerSound(alternatives: seq<string>, s: string, r: int)
    requires alternatives != [] && Answer(alternatives, s, r)
    ensures r > 0 ==> r <= |s| && exists i: nat :: i < |alternatives| && Matches(alternatives[i], s, r)
    ensures r > 0 <==> exists i: nat, k: nat :: i < |alternatives| && k > 0 && Matches(alternatives[i], s, k)
  {
    var i: nat :| i < |alternatives| && Longest(alternatives[i], s, r) && (r > 0 || i == |alternatives| - 1)
      && forall h: nat, k: nat :: h < i && k > 0 ==> !Matches(alternatives[h], s, k);
    if r > 0 {
      var k: nat := r;
      MatchesPrefix(alternatives[i], s, k);
      assert i < |alternatives| && k > 0 && Matches(alternatives[i], s, k);
    } else {
      forall h: nat, k: nat | h < |alternatives| && k > 0
        ensures !Matches(alternatives[h], s, k)
      {
        if h == i {
          LongestBounds(alternatives[i], s, r, k);
        }
      }
    }
  }

  lemma LongestBounds(p: string, s: string, r: int, k: nat)
    requires Longest(p, s, r) && k > r
    ensures !Matches(p, s, k)
  {
  }

  lemma {:induction false} MatchesPrefix(p: string, s: string, k: nat)
    requires Matches(p, s, k)
    ensures k <= |s|
    decreases |p|
  {
    if p == [] || p[0] == '$' {
    } else if p[0] == '*' {
      var m: nat :| Runs(p, s, m, k);
      MatchesPrefix(AfterStar(p), s[m..], k - m);
    } else {
      MatchesPrefix(p[1..], s[1..], k - 1);
    }
  }

  /** There is only one answer. */
  lemma AnswerUnique(alternatives: seq<string>, s: string, r: int, r': int)
    requires alternatives != [] && Answer(alternatives, s, r) && Answer(alternatives, s, r')
    ensures r == r'
  {
    AnswerSound(alternatives, s, r);
    AnswerSound(alternatives, s, r');
  }

  /** A single star stays within one path segment. */
  lemma {:induction false} SpanStops(s: string, double: bool, m: nat)
    requires m <= |s|
    ensures m <= Span(s, double) <==> double || '/' !in s[..m]
  {
    if m > 0 {
      assert s[..m] == [s[0]] + s[1..][..m - 1];
      SpanStops(s[1..], double, m - 1);
    }
  }

  /** A pattern made of ordinary characters describes itself. */
  lemma {:induction false} LiteralMatches(p: string, s: string, k: nat)
    requires '?' !in p && '*' !in p && '$' !in p
    ensures Matches(p, s, k) <==> k == |p| && p <= s
  {
    if p != [] {
      if s != [] && k > 0 {
        LiteralMatches(p[1..], s[1..], k - 1);
        if p[0] == s[0] && p[1..] <= s[1..] {
          assert p == [p[0]] + p[1..];
        }
      }
    }
  }

  /** A pattern of ordinary characters and question marks. */
  predicate Plain(p: string) {
    '*' !in p && '$' !in p
  }

  /** Each character of the pattern describes the one at its place. */
  predicate Describes(p: string, s: string) {
    |p| == |s| && forall i :: 0 <= i < |p| ==> p[i] == '?' || p[i] == s[i]
  }

  /** Plain characters in front of a pattern: they describe as many characters, and the rest describes what follows. */
  lemma {:induction false} PlainThen(p: string, q: string, s: string, k: nat)
    requires Plain(p)
    ensures Matches(p + q, s, k) <==>
      |p| <= k && |p| <= |s| && Describes(p, s[..|p|]) && Matches(q, s[|p|..], k - |p|)
  {
    if p == "" {
      assert p + q == q && s[0..] == s;
    } else {
      assert (p + q)[0] == p[0] && (p + q)[1..] == p[1..] + q;
      if s != "" && k > 0 {
        PlainThen(p[1..], q, s[1..], k - 1);
        DescribesFirst(p, s);
        if |p| <= |s| {
          assert s[1..][|p| - 1..] == s[|p|..];
        }
      }
    }
  }

  lemma DescribesFirst(p: string, s: string)
    requires p != "" && s != ""
    ensures |p| <= |s| ==>
      (Describes(p, s[..|p|]) <==> (p[0] == '?' || p[0] == s[0]) && Describes(p[1..], s[1..][..|p| - 1]))
  {
    if |p| <= |s| {
      var t := s[..|p|];
      assert s[1..][..|p| - 1] == t[1..];
      if Describes(p[1..], t[1..]) && (p[0] == '?' || p[0] == s[0]) {
        forall i | 0 <= i < |p|
          ensures p[i] == '?' || p[i] == t[i]
        {
          if i > 0 {
            assert p[1..][i - 1] == p[i] && t[1..][i - 1] == t[i];
          }
        }
      }
      if Describes(p, t) {
        forall i | 0 <= i < |p| - 1
          ensures p[1..][i] == '?' || p[1..][i] == t[1..][i]
        {
          assert p[i + 1] == '?' || p[i + 1] == t[i + 1];
        }
      }
    }
  }

  /** A plain pattern describes exactly the prefix of its length, if it describes that. */
  lemma PlainMatches(p: string, s: string, k: nat)
    requires Plain(p)
    ensures Matches(p, s, k) <==> k == |p| <= |s| && Describes(p, s[..|p|])
  {
    PlainThen(p, "", s, k);
    assert p + "" == p;
  }

  /** A plain pattern with a dollar sign describes exactly the whole string, whatever is behind the dollar sign. */
  lemma WholeMatches(p: string, q: string, s: string, k: nat)
    requires Plain(p)
    ensures Matches(p + ("$" + q), s, k) <==> k == |s| && Describes(p, s)
  {
    PlainThen(p, "$" + q, s, k);
    if |p| <= |s| && |p| <= k {
      assert Matches("$" + q, s[|p|..], k - |p|) <==> s[|p|..] == "" && k == |p|;
      assert |s| == |p| ==> s[..|p|] == s && s[|p|..] == "";
    }
  }

  /** What a star can stand for: anything, or for a single star anything without a slash. */
  lemma {:induction false} SpanReaches(s: string, double: bool, m: nat)
    ensures m <= Span(s, double) <==> m <= |s| && (double || '/' !in s[..m])
  {
    if s != "" && m > 0 {
      SpanReaches(s[1..], double, m - 1);
      if m <= |s| {
        assert s[..m] == [s[0]] + s[1..][..m - 1];
      }
    }
  }

  /**
   The patterns of file types, such as `**.cgi$`: a star, plain characters and a dollar sign describe exactly the whole
   of each string that ends so, behind anything, or behind anything without a slash.
   */
  lemma SuffixMatches(double: bool, p: string, s: string, k: nat)
    requires Plain(p)
    ensures Matches((if double then "**" else "*") + (p + "$"), s, k) <==>
      && k == |s| && |p| <= |s| && Describes(p, s[|s| - |p|..])
      && (double || '/' !in s[..|s| - |p|])
  {
    var star := if double then "**" else "*";
    var all, rest := star + (p + "$"), p + "$";
    assert all[0] == '*' && rest[0] != '*' && IsDouble(all) == double;
    assert AfterStar(all) == rest;
    assert Matches(all, s, k) <==> exists m: nat :: Runs(all, s, m, k);
    forall m: nat
      ensures Runs(all, s, m, k) <==>
        m <= k && m <= |s| && (double || '/' !in s[..m]) && k == |s| && Describes(p, s[m..])
    {
      SpanReaches(s, double, m);
      if m <= k && m <= |s| {
        WholeMatches(p, "", s[m..], k - m);
        assert p + ("$" + "") == rest;
        assert Runs(all, s, m, k) <==> m <= Span(s, double) && Matches(rest, s[m..], k - m);
      }
    }
    if |p| <= |s| {
      var n: nat := |s| - |p|;
      assert Runs(all, s, n, k) <==> (double || '/' !in s[..n]) && k == |s| && Describes(p, s[n..]);
    }
  }
}
