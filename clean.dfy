/** `cleanString(input, separator)`: delete what is not a letter, digit or
    whitespace, turn each whitespace run into the separator, then trim. */
module Clean {
  import opened SlugTypes

  /** `[a-zA-Z0-9]`. */
  predicate IsAlnum(ch: char) {
    'a' <= ch <= 'z' || 'A' <= ch <= 'Z' || '0' <= ch <= '9'
  }

  /** `\s` of a JavaScript regular expression; `trim` removes the same characters. */
  predicate IsSpace(ch: char) {
    || ch == '\t' || ch == '\n' || ch == '\U{000B}' || ch == '\U{000C}' || ch == '\r' || ch == ' '
    || ch == '\U{00A0}' || ch == '\U{1680}' || '\U{2000}' <= ch <= '\U{200A}'
    || ch == '\U{2028}' || ch == '\U{2029}' || ch == '\U{202F}' || ch == '\U{205F}'
    || ch == '\U{3000}' || ch == '\U{FEFF}'
  }

  /** The characters the first replacement keeps. */
  predicate Allowed(ch: char) {
    IsAlnum(ch) || IsSpace(ch)
  }

  predicate NotSpace(ch: char) {
    !IsSpace(ch)
  }

  /** The subsequence of `s` whose characters satisfy `p`. */
  function Filter(p: char -> bool, s: string): (r: string)
    ensures |r| <= |s|
    ensures forall ch :: ch in r <==> ch in s && p(ch)
  {
    if s == [] then []
    else (if p(s[0]) then [s[0]] else []) + Filter(p, s[1..])
  }

  lemma {:induction false} FilterConcat(p: char -> bool, a: string, b: string)
    ensures Filter(p, a + b) == Filter(p, a) + Filter(p, b)
  {
    if a != [] {
      var h := if p(a[0]) then [a[0]] else [];
      assert (a + b)[0] == a[0] && (a + b)[1..] == a[1..] + b;
      assert Filter(p, a + b) == h + Filter(p, a[1..] + b);
      FilterConcat(p, a[1..], b);
      assert Filter(p, a) == h + Filter(p, a[1..]);
    } else {
      assert a + b == b;
    }
  }

  lemma {:induction false} FilterAll(p: char -> bool, s: string)
    requires forall ch :: ch in s ==> p(ch)
    ensures Filter(p, s) == s
  {
    if s != [] {
      assert forall ch :: ch in s[1..] ==> ch in s;
      FilterAll(p, s[1..]);
    }
  }

  lemma {:induction false} FilterNone(p: char -> bool, s: string)
    requires forall i :: 0 <= i < |s| ==> !p(s[i])
    ensures Filter(p, s) == []
  {
    if s != [] {
      FilterNone(p, s[1..]);
    }
  }

  /** The letters and digits of `s`, in order. */
  function AlnumOnly(s: string): string {
    Filter(IsAlnum, s)
  }

  /** `replace(/[^a-zA-Z0-9\s]+/g, '')`. */
  function Strip(s: string): (r: string)
    ensures forall ch :: ch in r <==> ch in s && Allowed(ch)
  {
    Filter(Allowed, s)
  }

  /** `s` without its leading characters of class `sp`. */
  function DropRun(sp: char -> bool, s: string): (r: string)
    ensures |r| <= |s| && r == s[|s| - |r|..]
    ensures forall i :: 0 <= i < |s| - |r| ==> sp(s[i])
    ensures r == [] || !sp(r[0])
    ensures forall ch :: ch in r ==> ch in s
  {
    if s != [] && sp(s[0]) then
      var r := DropRun(sp, s[1..]);
      assert forall i :: 1 <= i < |s| - |r| ==> s[i] == s[1..][i - 1];
      r
    else s
  }

  /** `s` without its trailing characters of class `sp`. */
  function DropTrailing(sp: char -> bool, s: string): (r: string)
    ensures |r| <= |s| && r == s[..|r|]
    ensures forall i :: |r| <= i < |s| ==> sp(s[i])
    ensures r == [] || !sp(r[|r| - 1])
    ensures forall ch :: ch in r ==> ch in s
  {
    if s != [] && sp(s[|s| - 1]) then
      var r := DropTrailing(sp, s[..|s| - 1]);
      assert forall i :: |r| <= i < |s| - 1 ==> s[i] == s[..|s| - 1][i];
      r
    else s
  }

  /** Every maximal run of characters of class `sp` replaced by `sep`;
      `inRun` says whether the character before `s` was of the class. */
  function ReplaceRuns(sp: char -> bool, s: string, sep: string, inRun: bool): string {
    if s == [] then []
    else if sp(s[0]) then (if inRun then [] else sep) + ReplaceRuns(sp, s[1..], sep, true)
    else [s[0]] + ReplaceRuns(sp, s[1..], sep, false)
  }

  /** Whether a run is open after reading `a`, having started with `inRun`. */
  function RunOpenAfter(sp: char -> bool, a: string, inRun: bool): bool {
    if a == [] then inRun else sp(a[|a| - 1])
  }

  /** `replace(/\s+/g, sep)`: what it writes comes from the input, minus the
      whitespace, or from `sep`. */
  function Collapse(s: string, sep: string): (r: string)
    ensures forall ch :: ch in r ==> (ch in s && !IsSpace(ch)) || ch in sep
  {
    ReplaceRunsChars(IsSpace, s, sep, false);
    ReplaceRuns(IsSpace, s, sep, false)
  }

  /** Where `trim` starts: after the leading whitespace. */
  function TrimStart(s: string): (i: nat)
    ensures i <= |s|
  {
    |s| - |DropRun(IsSpace, s)|
  }

  /** `trim()`. */
  function Trim(s: string): (r: string)
    ensures r == [] || (!IsSpace(r[0]) && !IsSpace(r[|r| - 1]))
    ensures forall ch :: ch in r ==> ch in s
  {
    var d := DropRun(IsSpace, s);
    var r := DropTrailing(IsSpace, d);
    assert r != [] ==> r[0] == d[0];
    r
  }

  /** `trim` removes whitespace at the two ends and nothing else: what it keeps
      is the slice of the input after the leading and before the trailing run. */
  lemma TrimSlice(s: string)
    ensures TrimStart(s) + |Trim(s)| <= |s|
    ensures Trim(s) == s[TrimStart(s)..TrimStart(s) + |Trim(s)|]
    ensures forall k :: 0 <= k < TrimStart(s) ==> IsSpace(s[k])
    ensures forall k :: TrimStart(s) + |Trim(s)| <= k < |s| ==> IsSpace(s[k])
  {
    var d := DropRun(IsSpace, s);
    var r := DropTrailing(IsSpace, d);
    assert Trim(s) == r;
    SliceOfSlice(s, d, r);
    TailOfSuffix(IsSpace, s, d, |r|);
  }

  /** Characters of a class at the end of a suffix are at the end of the whole. */
  lemma TailOfSuffix(sp: char -> bool, s: string, d: string, n: nat)
    requires |d| <= |s| && d == s[|s| - |d|..] && n <= |d|
    requires forall k :: n <= k < |d| ==> sp(d[k])
    ensures forall k :: |s| - |d| + n <= k < |s| ==> sp(s[k])
  {
    assert forall k :: |s| - |d| <= k < |s| ==> s[k] == d[k - (|s| - |d|)];
  }

  /** A prefix of a suffix is a slice. */
  lemma SliceOfSlice(s: string, d: string, r: string)
    requires |d| <= |s| && d == s[|s| - |d|..]
    requires |r| <= |d| && r == d[..|r|]
    ensures r == s[|s| - |d|..|s| - |d| + |r|]
  {
  }

  /** The whole `cleanString`. */
  function CleanString(s: string, sep: string): (r: string)
    ensures forall ch :: ch in r ==> IsAlnum(ch) || ch in sep
    ensures r == [] || (!IsSpace(r[0]) && !IsSpace(r[|r| - 1]))
  {
    Trim(Collapse(Strip(s), sep))
  }

  /** What `ReplaceRuns` writes comes from its input, minus the class, or from `sep`. */
  lemma {:induction false} ReplaceRunsChars(sp: char -> bool, s: string, sep: string, inRun: bool)
    ensures forall ch :: ch in ReplaceRuns(sp, s, sep, inRun) ==> (ch in s && !sp(ch)) || ch in sep
  {
    if s != [] {
      ReplaceRunsChars(sp, s[1..], sep, sp(s[0]));
      assert forall ch :: ch in s[1..] ==> ch in s;
    }
  }

  /** A string with no character of the class passes `ReplaceRuns` unchanged. */
  lemma {:induction false} ReplaceRunsNone(sp: char -> bool, s: string, sep: string, inRun: bool)
    requires forall i :: 0 <= i < |s| ==> !sp(s[i])
    ensures ReplaceRuns(sp, s, sep, inRun) == s
  {
    if s != [] {
      ReplaceRunsNone(sp, s[1..], sep, false);
    }
  }

  /** `ReplaceRuns` works piecewise: the second piece starts in a run exactly when the first ended in one. */
  lemma {:induction false} ReplaceRunsConcat(sp: char -> bool, a: string, b: string, sep: string, inRun: bool)
    ensures ReplaceRuns(sp, a + b, sep, inRun)
         == ReplaceRuns(sp, a, sep, inRun) + ReplaceRuns(sp, b, sep, RunOpenAfter(sp, a, inRun))
  {
    if a == [] {
      assert a + b == b;
    } else {
      var t := a[1..];
      var head := RunHead(sp, a[0], sep, inRun);
      var rt, rb := ReplaceRuns(sp, t, sep, sp(a[0])), ReplaceRuns(sp, b, sep, RunOpenAfter(sp, a, inRun));
      assert ReplaceRuns(sp, a + b, sep, inRun) == head + ReplaceRuns(sp, t + b, sep, sp(a[0])) by {
        assert (a + b)[0] == a[0] && (a + b)[1..] == t + b;
        ReplaceRunsStep(sp, a + b, sep, inRun);
      }
      assert ReplaceRuns(sp, a, sep, inRun) == head + rt by {
        ReplaceRunsStep(sp, a, sep, inRun);
      }
      assert ReplaceRuns(sp, t + b, sep, sp(a[0])) == rt + rb by {
        ReplaceRunsConcat(sp, t, b, sep, sp(a[0]));
        assert RunOpenAfter(sp, t, sp(a[0])) == RunOpenAfter(sp, a, inRun) by {
          if t != [] { assert t[|t| - 1] == a[|a| - 1]; }
        }
      }
      assert head + (rt + rb) == (head + rt) + rb;
    }
  }

  /** What `ReplaceRuns` writes for one character. */
  function RunHead(sp: char -> bool, c: char, sep: string, inRun: bool): string {
    if sp(c) then (if inRun then [] else sep) else [c]
  }

  lemma ReplaceRunsStep(sp: char -> bool, s: string, sep: string, inRun: bool)
    requires s != []
    ensures ReplaceRuns(sp, s, sep, inRun) == RunHead(sp, s[0], sep, inRun) + ReplaceRuns(sp, s[1..], sep, sp(s[0]))
  {
  }

  /** A whole non-empty run outside any run becomes one `sep`; inside a run, nothing. */
  lemma {:induction false} ReplaceWholeRun(sp: char -> bool, w: string, sep: string, inRun: bool)
    requires w != [] && forall i :: 0 <= i < |w| ==> sp(w[i])
    ensures ReplaceRuns(sp, w, sep, inRun) == if inRun then [] else sep
  {
    if |w| > 1 {
      ReplaceWholeRun(sp, w[1..], sep, true);
    }
  }

  /** A non-empty whitespace run `w` between two non-whitespace edges becomes exactly one `sep`. */
  lemma CollapseRun(a: string, w: string, b: string, sep: string)
    requires w != [] && forall i :: 0 <= i < |w| ==> IsSpace(w[i])
    requires a == [] || !IsSpace(a[|a| - 1])
    requires b == [] || !IsSpace(b[0])
    ensures Collapse(a + w + b, sep) == Collapse(a, sep) + sep + Collapse(b, sep)
  {
    ReplaceRunsConcat(IsSpace, a, w + b, sep, false);
    ReplaceRunsConcat(IsSpace, w, b, sep, false);
    ReplaceWholeRun(IsSpace, w, sep, false);
    assert ReplaceRuns(IsSpace, b, sep, true) == ReplaceRuns(IsSpace, b, sep, false);
    assert a + w + b == a + (w + b);
  }

  /** `ReplaceRuns` keeps the characters of class `p` when neither the runs
      nor `sep` hold any. */
  lemma {:induction false} ReplaceRunsKeeps(sp: char -> bool, p: char -> bool, s: string, sep: string, inRun: bool)
    requires forall ch :: sp(ch) ==> !p(ch)
    requires forall i :: 0 <= i < |sep| ==> !p(sep[i])
    ensures Filter(p, ReplaceRuns(sp, s, sep, inRun)) == Filter(p, s)
  {
    if s != [] {
      ReplaceRunsKeeps(sp, p, s[1..], sep, sp(s[0]));
      var head := if sp(s[0]) then (if inRun then [] else sep) else [s[0]];
      FilterConcat(p, head, ReplaceRuns(sp, s[1..], sep, sp(s[0])));
      if sp(s[0]) {
        FilterNone(p, head);
      }
    }
  }

  /** With the empty separator, `ReplaceRuns` deletes the class. */
  lemma {:induction false} ReplaceRunsEmptySeparator(sp: char -> bool, keep: char -> bool, s: string, inRun: bool)
    requires forall ch :: keep(ch) == !sp(ch)
    ensures ReplaceRuns(sp, s, "", inRun) == Filter(keep, s)
  {
    if s != [] {
      ReplaceRunsEmptySeparator(sp, keep, s[1..], sp(s[0]));
    }
  }

  /** Deleting whitespace from what `Strip` kept leaves the letters and digits. */
  lemma {:induction false} StripThenNotSpace(s: string)
    ensures Filter(NotSpace, Strip(s)) == AlnumOnly(s)
  {
    if s != [] {
      StripThenNotSpace(s[1..]);
      var head := if Allowed(s[0]) then [s[0]] else [];
      FilterConcat(NotSpace, head, Strip(s[1..]));
    }
  }

  lemma TrimNoSpace(s: string)
    requires forall i :: 0 <= i < |s| ==> !IsSpace(s[i])
    ensures Trim(s) == s
  {
  }

  /** With separator `''` the result is exactly the letters and digits of the input, in order. */
  lemma EmptySeparatorKeepsAlnum(s: string)
    ensures CleanString(s, "") == AlnumOnly(s)
  {
    ReplaceRunsEmptySeparator(IsSpace, NotSpace, Strip(s), false);
    StripThenNotSpace(s);
    assert forall i :: 0 <= i < |AlnumOnly(s)| ==> AlnumOnly(s)[i] in AlnumOnly(s);
    TrimNoSpace(AlnumOnly(s));
  }

  /** `Strip` keeps every letter and digit. */
  lemma {:induction false} StripKeepsAlnum(s: string)
    ensures AlnumOnly(Strip(s)) == AlnumOnly(s)
  {
    if s != [] {
      StripKeepsAlnum(s[1..]);
      var head := if Allowed(s[0]) then [s[0]] else [];
      FilterConcat(IsAlnum, head, Strip(s[1..]));
    }
  }

  /** With a separator free of whitespace, no whitespace is left after `Collapse`. */
  lemma CollapseNoSpace(s: string, sep: string)
    requires forall i :: 0 <= i < |sep| ==> !IsSpace(sep[i])
    ensures forall i :: 0 <= i < |Collapse(s, sep)| ==> !IsSpace(Collapse(s, sep)[i])
  {
    var t := Collapse(s, sep);
    assert forall i :: 0 <= i < |t| ==> t[i] in t;
  }

  /** For a separator without letters, digits or whitespace (such as the default `-`),
      the letters and digits of the result are those of the input, in order. */
  lemma KeepsAlnumInOrder(s: string, sep: string)
    requires forall i :: 0 <= i < |sep| ==> !IsAlnum(sep[i]) && !IsSpace(sep[i])
    ensures AlnumOnly(CleanString(s, sep)) == AlnumOnly(s)
  {
    var t := Collapse(Strip(s), sep);
    assert CleanString(s, sep) == t by {
      CollapseNoSpace(Strip(s), sep);
      TrimNoSpace(t);
    }
    assert AlnumOnly(t) == AlnumOnly(Strip(s)) by {
      ReplaceRunsKeeps(IsSpace, IsAlnum, Strip(s), sep, false);
    }
    StripKeepsAlnum(s);
  }

  /** A string of letters and digits is left as it is, whatever the separator. */
  lemma CleanAlnum(s: string, sep: string)
    requires forall i :: 0 <= i < |s| ==> IsAlnum(s[i])
    ensures CleanString(s, sep) == s
  {
    FilterAll(Allowed, s);
    ReplaceRunsNone(IsSpace, s, sep, false);
    TrimNoSpace(s);
  }

  /** For a separator made of letters and digits, cleaning twice is cleaning once. */
  lemma AlnumSeparatorIdempotent(s: string, sep: string)
    requires forall i :: 0 <= i < |sep| ==> IsAlnum(sep[i])
    ensures CleanString(CleanString(s, sep), sep) == CleanString(s, sep)
  {
    var r := CleanString(s, sep);
    assert forall i :: 0 <= i < |r| ==> r[i] in r && IsAlnum(r[i]);
    CleanAlnum(r, sep);
  }

  /** With the default separator `-` cleaning is not idempotent: the leading newline
      becomes `-` before `trim` runs, and the second pass deletes that `-`. */
  lemma DashSeparatorNotIdempotent()
    ensures CleanString("\na", "-") == "-a"
    ensures CleanString(CleanString("\na", "-"), "-") == "a"
  {
    CleanNewlineA();
    CleanDashA();
  }

  lemma CleanNewlineA()
    ensures CleanString("\na", "-") == "-a"
  {
    var s: string := "\na";
    FilterAll(Allowed, s);
    assert s == "\n" + "a";
    ReplaceRunsConcat(IsSpace, "\n", "a", "-", false);
    ReplaceWholeRun(IsSpace, "\n", "-", false);
    ReplaceRunsNone(IsSpace, "a", "-", true);
    ReplaceRunsNone(IsSpace, "a", "-", false);
    assert Collapse(s, "-") == "-" + "a";
    TrimNoSpace("-a");
  }

  lemma CleanDashA()
    ensures CleanString("-a", "-") == "a"
  {
    var s: string := "-a";
    assert s[1..] == "a";
    FilterAll(Allowed, "a");
    assert Strip(s) == "a";
    ReplaceRunsNone(IsSpace, "a", "-", true);
    ReplaceRunsNone(IsSpace, "a", "-", false);
    TrimNoSpace("a");
  }
}
