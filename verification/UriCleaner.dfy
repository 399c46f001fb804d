/**
 Cleaning a request path in place: after a slash or backslash, all further slashes, backslashes and
 double dots are removed.
 */
module UriCleaner {

  predicate IsSlash(c: char) {
    c == '/' || c == '\\'
  }

  /** What may not follow a slash. */
  predicate Skippable(s: string) {
    s != "" && (IsSlash(s[0]) || (|s| > 1 && s[0] == '.' && s[1] == '.'))
  }

  function Skip(s: string): (r: string)
    ensures |r| <= |s| && !Skippable(r)
  {
    if !Skippable(s) then s else if IsSlash(s[0]) then Skip(s[1..]) else Skip(s[2..])
  }

  function Cleaned(s: string): string
    decreases |s|
  {
    if s == "" then "" else [s[0]] + Cleaned(if IsSlash(s[0]) then Skip(s[1..]) else s[1..])
  }

  /** No slash is followed by something skippable. */
  predicate Clean(s: string) {
    forall i :: 0 <= i < |s| && IsSlash(s[i]) ==> !Skippable(s[i + 1..])
  }

  method RemoveDoubleDotsAndDoubleSlashes(a: array<char>, n: nat)
    requires n < a.Length && a[n] == '\0' && '\0' !in a[..n]
    modifies a
    ensures var r := Cleaned(old(a[..n]));
      |r| <= n && a[..|r|] == r && a[|r|] == '\0' && forall k :: n < k < a.Length ==> a[k] == old(a[k])
  {
    var p := CleanInPlace(a, n);
    ghost var r := a[..p];
    a[p] := '\0';
    assert a[..p] == r;
  }

  /** Write the cleaned string over the string, and tell where it ends. */
  method CleanInPlace(a: array<char>, n: nat) returns (p: nat)
    requires n < a.Length && a[n] == '\0' && '\0' !in a[..n]
    modifies a
    ensures p <= n && a[..p] == Cleaned(old(a[..n])) && forall k :: n <= k < a.Length ==> a[k] == old(a[k])
  {
    hide *;
    ghost var s := a[..n];
    ghost var done := "";
    var i := 0;
    p := 0;
    assert s[0..] == s;
    while a[i] != '\0'
      invariant p <= i <= n && done == a[..p]
      invariant forall k :: i <= k < n ==> a[k] == s[k]
      invariant forall k :: n <= k < a.Length ==> a[k] == old(a[k])
      invariant done + Cleaned(s[i..]) == Cleaned(s)
      decreases n - i
    {
      ghost var start := i;
      CopyOne(a, p, i);
      i, p := i + 1, p + 1;
      if IsSlash(a[p - 1]) {
        i := SkipAll(a, i, n, s);
      }
      CleanedStep(s, start, i, done);
      done := done + [s[start]];
    }
    CleanedEnd(s, i);
  }

  method CopyOne(a: array<char>, p: nat, i: nat)
    requires p <= i < a.Length
    modifies a
    ensures a[..p + 1] == old(a[..p]) + [old(a[i])] && forall k :: 0 <= k < a.Length && k != p ==> a[k] == old(a[k])
  {
    a[p] := a[i];
  }

  /** Skip all following slashes, backslashes and double dots. */
  method SkipAll(a: array<char>, from: nat, n: nat, ghost s: string) returns (i: nat)
    requires from <= n < a.Length && a[n] == '\0' && |s| == n && '\0' !in s
    requires forall k :: from <= k < n ==> a[k] == s[k]
    ensures from <= i <= n && s[i..] == Skip(s[from..])
  {
    i := from;
    while a[i] != '\0'
      invariant from <= i <= n
      invariant Skip(s[i..]) == Skip(s[from..])
      decreases n - i
    {
      SkipStep(s, i);
      if IsSlash(a[i]) {
        i := i + 1;
      } else if a[i] == '.' && a[i + 1] == '.' {
        i := i + 2;
      } else {
        break;
      }
    }
    assert !Skippable(s[i..]);
  }

  lemma CleanedEnd(s: string, i: nat)
    requires i == |s|
    ensures Cleaned(s[i..]) == ""
  {
  }

  lemma SkipStep(s: string, i: nat)
    requires i < |s|
    ensures IsSlash(s[i]) ==> Skip(s[i..]) == Skip(s[i + 1..])
    ensures !IsSlash(s[i]) && i + 1 < |s| && s[i] == '.' && s[i + 1] == '.' ==> Skip(s[i..]) == Skip(s[i + 2..])
  {
    assert s[i..][1..] == s[i + 1..];
    if i + 1 < |s| {
      assert s[i..][2..] == s[i + 2..];
    }
  }

  lemma CleanedStep(s: string, i: nat, next: nat, done: string)
    requires i < next <= |s|
    requires s[next..] == if IsSlash(s[i]) then Skip(s[i + 1..]) else s[i + 1..]
    ensures done + Cleaned(s[i..]) == done + [s[i]] + Cleaned(s[next..])
  {
    assert s[i..][1..] == s[i + 1..];
  }

  // ----- What cleaning achieves -----

  lemma {:induction false} CleanTail(s: string)
    requires s != "" && Clean(s[1..]) && (IsSlash(s[0]) ==> !Skippable(s[1..]))
    ensures Clean(s)
  {
    forall i | 0 <= i < |s| && IsSlash(s[i])
      ensures !Skippable(s[i + 1..])
    {
      if i > 0 {
        assert s[1..][i - 1 + 1..] == s[i + 1..];
      }
    }
  }

  lemma CleanRest(s: string)
    requires s != "" && Clean(s)
    ensures Clean(s[1..])
  {
    forall i | 0 <= i < |s[1..]| && IsSlash(s[1..][i])
      ensures !Skippable(s[1..][i + 1..])
    {
      assert s[1..][i + 1..] == s[i + 1 + 1..];
    }
  }

  /** Cleaning does not make a start skippable that was not. */
  lemma CleanedStart(s: string)
    requires !Skippable(s)
    ensures !Skippable(Cleaned(s))
  {
    if s != "" {
      var rest := s[1..];
      assert Cleaned(s) == [s[0]] + Cleaned(rest);
      if rest != "" {
        assert Cleaned(rest)[0] == rest[0];
      }
    }
  }

  /** The result is clean. */
  lemma {:induction false} CleanedIsClean(s: string)
    ensures Clean(Cleaned(s))
    decreases |s|
  {
    if s != "" {
      var rest := if IsSlash(s[0]) then Skip(s[1..]) else s[1..];
      CleanedIsClean(rest);
      var r := Cleaned(s);
      assert r == [s[0]] + Cleaned(rest) && r[1..] == Cleaned(rest);
      if IsSlash(s[0]) {
        CleanedStart(rest);
      }
      CleanTail(r);
    }
  }

  lemma {:induction false} CleanIsUnchanged(s: string)
    requires Clean(s)
    ensures Cleaned(s) == s
    decreases |s|
  {
    if s != "" {
      assert s[0 + 1..] == s[1..];
      CleanRest(s);
      CleanIsUnchanged(s[1..]);
    }
  }

  /** Nothing changes exactly when it was clean. */
  lemma UnchangedIffClean(s: string)
    ensures Cleaned(s) == s <==> Clean(s)
  {
    CleanedIsClean(s);
    if Clean(s) {
      CleanIsUnchanged(s);
    }
  }

  lemma CleaningTwice(s: string)
    ensures Cleaned(Cleaned(s)) == Cleaned(s)
  {
    CleanedIsClean(s);
    UnchangedIffClean(Cleaned(s));
  }

  /**
   The result is a subsequence of the path: its characters stand at increasing places in the path, and only slashes,
   backslashes and dots stand at other places.
   */
  lemma {:induction false} CleanedIsSubsequence(s: string) returns (at: seq<nat>)
    ensures |at| == |Cleaned(s)| && forall i, j :: 0 <= i < j < |at| ==> at[i] < at[j]
    ensures forall i :: 0 <= i < |at| ==> at[i] < |s| && s[at[i]] == Cleaned(s)[i]
    ensures forall j :: 0 <= j < |s| && s[j] != '/' && s[j] != '\\' && s[j] != '.' ==> j in at
    decreases |s|
  {
    hide *;
    if s == "" {
      at := [];
      NothingCleaned();
    } else {
      var n := FirstKept(s);
      var later := CleanedIsSubsequence(s[n..]);
      at := [0] + Shifted(later, n);
      ShiftedPlaces(s, s[n..], later, n);
      ShiftedCharacters(s, Cleaned(s[n..]), later, n);
    }
  }

  lemma NothingCleaned()
    ensures Cleaned("") == ""
  {
  }

  /** The first character stays, and only slashes, backslashes and dots are dropped behind it. */
  lemma FirstKept(s: string) returns (n: nat)
    requires s != ""
    ensures 0 < n <= |s| && Cleaned(s) == [s[0]] + Cleaned(s[n..])
    ensures forall j :: 0 < j < n ==> s[j] == '/' || s[j] == '\\' || s[j] == '.'
  {
    var rest := if IsSlash(s[0]) then Skip(s[1..]) else s[1..];
    SkipIsSuffix(s[1..]);
    n := |s| - |rest|;
    assert rest == s[n..];
    forall j | 0 < j < n
      ensures s[j] == '/' || s[j] == '\\' || s[j] == '.'
    {
      assert s[1..][j - 1] == s[j];
    }
  }

  lemma ShiftedCharacters(s: string, r: string, at: seq<nat>, n: nat)
    requires 0 < n <= |s| && |at| == |r| && forall i :: 0 <= i < |at| ==> at[i] < |s[n..]| && s[n..][at[i]] == r[i]
    ensures var all, chars := [0] + Shifted(at, n), [s[0]] + r;
            forall i :: 0 <= i < |all| ==> all[i] < |s| && s[all[i]] == chars[i]
  {
  }

  function Shifted(at: seq<nat>, n: nat): (r: seq<nat>)
    ensures |r| == |at| && forall i :: 0 <= i < |r| ==> r[i] == at[i] + n
  {
    seq(|at|, i requires 0 <= i < |at| => at[i] + n)
  }

  lemma ShiftedPlaces(s: string, rest: string, at: seq<nat>, n: nat)
    requires 0 < n <= |s| && rest == s[n..]
    requires forall j :: 0 < j < n ==> s[j] == '/' || s[j] == '\\' || s[j] == '.'
    requires forall j :: 0 <= j < |rest| && rest[j] != '/' && rest[j] != '\\' && rest[j] != '.' ==> j in at
    ensures forall j :: 0 <= j < |s| && s[j] != '/' && s[j] != '\\' && s[j] != '.' ==> j in [0] + Shifted(at, n)
  {
    forall j | 0 <= j < |s| && s[j] != '/' && s[j] != '\\' && s[j] != '.'
      ensures j in [0] + Shifted(at, n)
    {
      if j == 0 {
        assert ([0] + Shifted(at, n))[0] == 0;
      } else {
        assert rest[j - n] == s[j];
        var i :| 0 <= i < |at| && at[i] == j - n;
        assert ([0] + Shifted(at, n))[i + 1] == j;
      }
    }
  }

  lemma {:induction false} SkipIsSuffix(s: string)
    ensures Skip(s) == s[|s| - |Skip(s)|..]
    ensures forall j :: 0 <= j < |s| - |Skip(s)| ==> s[j] == '/' || s[j] == '\\' || s[j] == '.'
    decreases |s|
  {
    if Skippable(s) {
      var n := if IsSlash(s[0]) then 1 else 2;
      SkipIsSuffix(s[n..]);
      assert s[n..][|s| - n - |Skip(s)|..] == s[|s| - |Skip(s)|..];
      forall j | 0 <= j < |s| - |Skip(s)|
        ensures s[j] == '/' || s[j] == '\\' || s[j] == '.'
      {
        if j >= n {
          assert s[n..][j - n] == s[j];
        }
      }
    }
  }

  /** The characters other than slashes, backslashes and dots. */
  function Others(s: string): string {
    if s == "" then "" else (if IsSlash(s[0]) || s[0] == '.' then "" else [s[0]]) + Others(s[1..])
  }

  lemma {:induction false} SkipKeepsOthers(s: string)
    ensures Others(Skip(s)) == Others(s)
    decreases |s|
  {
    if Skippable(s) {
      if IsSlash(s[0]) {
        SkipKeepsOthers(s[1..]);
      } else {
        SkipKeepsOthers(s[2..]);
        assert s[1..][1..] == s[2..];
      }
    }
  }

  /** All other characters are kept, in order. */
  lemma {:induction false} CleanedKeepsOthers(s: string)
    ensures Others(Cleaned(s)) == Others(s)
    decreases |s|
  {
    if s != "" {
      var rest := if IsSlash(s[0]) then Skip(s[1..]) else s[1..];
      CleanedKeepsOthers(rest);
      SkipKeepsOthers(s[1..]);
      assert Cleaned(s)[1..] == Cleaned(rest);
    }
  }

  lemma {:induction false} OthersMeans(s: string, t: string)
    ensures Others(s + t) == Others(s) + Others(t)
  {
    hide *;
    if s == "" {
      assert s + t == t;
      NoOthers();
    } else {
      OthersFirst(s);
      OthersFirst(s + t);
      assert (s + t)[1..] == s[1..] + t && (s + t)[0] == s[0];
      OthersMeans(s[1..], t);
    }
  }

  lemma NoOthers()
    ensures Others("") == ""
  {
  }

  lemma OthersFirst(s: string)
    requires s != ""
    ensures Others(s) == (if s[0] == '/' || s[0] == '\\' || s[0] == '.' then "" else [s[0]]) + Others(s[1..])
  {
  }

  /** Clean, in characters. */
  lemma CleanMeans(s: string)
    ensures Clean(s) <==> forall i :: 0 <= i < |s| - 1 && (s[i] == '/' || s[i] == '\\') ==>
              s[i + 1] != '/' && s[i + 1] != '\\' && !(i + 2 < |s| && s[i + 1] == '.' && s[i + 2] == '.')
  {
    if !Clean(s) {
      var i :| 0 <= i < |s| && IsSlash(s[i]) && Skippable(s[i + 1..]);
      assert s[i + 1..][0] == s[i + 1] && (i + 2 < |s| ==> s[i + 1..][1] == s[i + 2]);
    } else {
      forall i | 0 <= i < |s| - 1 && (s[i] == '/' || s[i] == '\\')
        ensures s[i + 1] != '/' && s[i + 1] != '\\' && !(i + 2 < |s| && s[i + 1] == '.' && s[i + 2] == '.')
      {
        assert !Skippable(s[i + 1..]);
        assert s[i + 1..][0] == s[i + 1] && (i + 2 < |s| ==> s[i + 1..][1] == s[i + 2]);
      }
    }
  }

  /**
   Behind a slash of a cleaned path no segment starts with two dots; the path itself starts with them exactly when it
   did before.
   */
  lemma ParentOnlyInFront(s: string)
    ensures var r := Cleaned(s);
            && (forall i :: 0 < i < |r| - 1 && (r[i - 1] == '/' || r[i - 1] == '\\') ==>
                !(r[i] == '.' && r[i + 1] == '.'))
            && (|r| > 1 && r[0] == '.' && r[1] == '.' <==> |s| > 1 && s[0] == '.' && s[1] == '.')
  {
    var r := Cleaned(s);
    CleanedIsClean(s);
    CleanMeans(r);
    forall i | 0 < i < |r| - 1 && (r[i - 1] == '/' || r[i - 1] == '\\')
      ensures !(r[i] == '.' && r[i + 1] == '.')
    {
      var h := i - 1;
      assert r[h + 1] == r[i];
    }
    TwoDotsStay(s);
  }

  /** The first two characters are dots exactly when they were. */
  lemma TwoDotsStay(s: string)
    ensures var r := Cleaned(s);
            |r| > 1 && r[0] == '.' && r[1] == '.' <==> |s| > 1 && s[0] == '.' && s[1] == '.'
  {
    if s != "" && !IsSlash(s[0]) {
      assert Cleaned(s) == [s[0]] + Cleaned(s[1..]);
      if s[1..] != "" {
        assert Cleaned(s[1..])[0] == s[1];
      }
    }
  }
}
