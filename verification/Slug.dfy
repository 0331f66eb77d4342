/** Slugs: the runs of letters and digits of a text, in lower case, joined by dashes. */
module Slug {
  import opened Strings

  /** The Unicode tables: lower case of a rune, and whether it is a letter or a digit. */
  datatype Alphabet = Alphabet(lower: char -> char, alnum: char -> bool)

  ghost predicate Sound(a: Alphabet) {
    && (forall c :: a.lower(a.lower(c)) == a.lower(c))
    && (forall c :: c == '-' || Space(c) ==> a.lower(c) == c && !a.alnum(c))
  }

  function Lower(a: Alphabet, s: string): string { seq(|s|, i requires 0 <= i < |s| => a.lower(s[i])) }

  /** The maximal runs of letters and digits. */
  function Runs(a: Alphabet, s: string): (runs: seq<string>)
    ensures s != "" && a.alnum(s[|s| - 1]) ==> runs != []
    ensures s == "" ==> runs == []
  {
    if s == "" then []
    else
      var (n, c) := (|s| - 1, s[|s| - 1]);
      if !a.alnum(c) then Runs(a, s[..n]) else Push(Runs(a, s[..n]), n > 0 && a.alnum(s[n - 1]), c)
  }

  /** One more letter, in the last run or in a new one. */
  function Push(runs: seq<string>, inRun: bool, c: char): seq<string>
    requires inRun ==> runs != []
  {
    if inRun then runs[..|runs| - 1] + [runs[|runs| - 1] + [c]] else runs + [[c]]
  }

  function Slugged(a: Alphabet, s: string): string { Join(Runs(a, Lower(a, s)), "-") }

  function SafeSegment(a: Alphabet, s: string): string { if Slugged(a, s) != "" then Slugged(a, s) else "content" }

  function ContentSlug(a: Alphabet, source: string, sourceId: string): string { Slugged(a, source + "-" + sourceId) }

  // ---------- the loop ----------

  method Slugify(a: Alphabet, value: string) returns (slug: string)
    requires Sound(a)
    ensures slug == Slugged(a, value)
  {
    var text := Lower(a, TrimSpace(value));
    var b := "";
    var dash := false;
    assert Runs(a, "") == [] && Join([], "-") == "";
    hide Runs, Join, Lower, TrimSpace, Sound;
    ghost var done := "";
    for i := 0 to |text|
      invariant done == text[..i] && dash == AfterDash(a, done)
      invariant b == if dash then Join(Runs(a, done), "-") + "-" else Join(Runs(a, done), "-")
    {
      RunsStep(a, done, text[i]);
      done := done + [text[i]];
      if a.alnum(text[i]) {
        b := b + [text[i]];
        dash := false;
      } else if |b| > 0 && !dash {
        b := b + "-";
        dash := true;
      }
    }
    assert done == text;
    slug := Trim(b, c => c == '-');
    SlugIsTrimmed(a, value, dash);
  }

  lemma SlugIsTrimmed(a: Alphabet, value: string, dash: bool)
    requires Sound(a)
    requires dash ==> Runs(a, Lower(a, TrimSpace(value))) != []
    ensures var joined := Join(Runs(a, Lower(a, TrimSpace(value))), "-");
      Trim(if dash then joined + "-" else joined, c => c == '-') == Slugged(a, value)
  {
    var text := Lower(a, TrimSpace(value));
    RunsAreRuns(a, text);
    TrimmingKeepsRuns(a, value);
    hide Runs, Join, Lower, TrimSpace, Sound, Trim, Run;
    DashIsTrimmed(a, Runs(a, text), dash);
  }

  /** Between two runs, or after the last one. */
  ghost predicate AfterDash(a: Alphabet, text: string) { Runs(a, text) != [] && !a.alnum(text[|text| - 1]) }

  lemma RunsStep(a: Alphabet, text: string, c: char)
    ensures var joined := Join(Runs(a, text), "-");
      && (joined == "" <==> Runs(a, text) == [])
      && (!a.alnum(c) ==> Runs(a, text + [c]) == Runs(a, text))
      && (a.alnum(c) ==> Join(Runs(a, text + [c]), "-") == (if AfterDash(a, text) then joined + "-" else joined) + [c])
    ensures AfterDash(a, text + [c]) <==> !a.alnum(c) && Runs(a, text) != []
  {
    var runs := Runs(a, text);
    RunsAreRuns(a, text);
    JoinedIsEmpty(a, runs);
    assert (text + [c])[..|text|] == text;
    if a.alnum(c) {
      if text != "" && a.alnum(text[|text| - 1]) {
        JoinExtends(runs, [c]);
      } else {
        JoinAppends(runs, [[c]]);
      }
    }
  }

  ghost predicate Run(a: Alphabet, r: string) { r != "" && forall i :: 0 <= i < |r| ==> a.alnum(r[i]) }

  lemma {:induction false} RunsAreRuns(a: Alphabet, s: string)
    ensures forall r :: r in Runs(a, s) ==> Run(a, r)
  {
    if s != "" {
      var runs := Runs(a, s[..|s| - 1]);
      RunsAreRuns(a, s[..|s| - 1]);
      assert runs != [] ==> runs[|runs| - 1] in runs;
      assert forall r :: r in runs[..|runs|] ==> r in runs;
    }
  }

  lemma JoinedIsEmpty(a: Alphabet, runs: seq<string>)
    requires forall r :: r in runs ==> Run(a, r)
    ensures Join(runs, "-") == "" <==> runs == []
  {
    assert runs != [] ==> runs[0] in runs;
  }

  lemma {:induction false} JoinExtends(runs: seq<string>, tail: string)
    requires runs != []
    ensures var n := |runs| - 1; Join(runs[..n] + [runs[n] + tail], "-") == Join(runs, "-") + tail
  {
    var n := |runs| - 1;
    var longer := runs[..n] + [runs[n] + tail];
    if n > 0 {
      JoinExtends(runs[1..], tail);
      assert longer[1..] == runs[1..][..n - 1] + [runs[1..][n - 1] + tail];
    }
  }

  lemma {:induction false} JoinAppends(a: seq<string>, b: seq<string>)
    ensures Join(a + b, "-") == if a == [] then Join(b, "-") else if b == [] then Join(a, "-")
        else Join(a, "-") + "-" + Join(b, "-")
  {
    if a == [] {
      assert a + b == b;
    } else {
      assert (a + b)[1..] == a[1..] + b;
      JoinAppends(a[1..], b);
    }
  }

  // ---------- canonical form ----------

  /** Lower-case letters and digits, with single dashes between them only. */
  ghost predicate Canonical(a: Alphabet, s: string) {
    && (forall i :: 0 <= i < |s| ==> s[i] == '-' || (a.alnum(s[i]) && a.lower(s[i]) == s[i]))
    && (s != "" ==> s[0] != '-' && s[|s| - 1] != '-')
    && forall i :: 0 <= i < |s| - 1 ==> s[i] != '-' || s[i + 1] != '-'
  }

  lemma {:induction false} JoinedRunsAreCanonical(a: Alphabet, runs: seq<string>)
    requires Sound(a) && forall r :: r in runs ==> Run(a, r) && Lower(a, r) == r
    ensures Canonical(a, Join(runs, "-")) && (runs != [] ==> Join(runs, "-") != "")
  {
    if runs != [] {
      var (r, rest) := (runs[0], Join(runs[1..], "-"));
      assert r in runs;
      assert forall i :: 0 <= i < |r| ==> Lower(a, r)[i] == a.lower(r[i]);
      JoinedRunsAreCanonical(a, runs[1..]);
    }
  }

  lemma {:induction false} RunsOfLower(a: Alphabet, s: string)
    requires Sound(a)
    ensures forall r :: r in Runs(a, Lower(a, s)) ==> Lower(a, r) == r
  {
    var t := Lower(a, s);
    if s != "" {
      var n := |s| - 1;
      assert t[..n] == Lower(a, s[..n]);
      RunsOfLower(a, s[..n]);
      var runs := Runs(a, t[..n]);
      assert runs != [] ==> runs[|runs| - 1] in runs;
      forall r | r in Runs(a, t) ensures Lower(a, r) == r {
        if r !in runs {
          assert r[|r| - 1] == t[n];
          assert Lower(a, r) == Lower(a, r[..|r| - 1]) + [a.lower(t[n])];
          assert r == r[..|r| - 1] + [t[n]];
        }
      }
    }
  }

  /** The letters and digits of a text, each in lower case, in order. */
  function Letters(a: Alphabet, s: string): string {
    if s == "" then ""
    else Letters(a, s[..|s| - 1]) + if a.alnum(a.lower(s[|s| - 1])) then [a.lower(s[|s| - 1])] else ""
  }

  function WithoutDashes(s: string): string {
    if s == "" then "" else (if s[0] == '-' then "" else [s[0]]) + WithoutDashes(s[1..])
  }

  lemma {:induction false} DashesComeOut(s: string, t: string)
    ensures WithoutDashes(s + t) == WithoutDashes(s) + WithoutDashes(t)
  {
    if s == "" {
      assert s + t == t;
    } else {
      assert (s + t)[1..] == s[1..] + t;
      DashesComeOut(s[1..], t);
    }
  }

  /** A slug says nothing the text does not, and leaves no letter out: without its dashes it
      is the text's letters and digits in lower case. */
  lemma {:induction false} SlugSpellsTheText(a: Alphabet, s: string)
    requires Sound(a)
    ensures WithoutDashes(Slugged(a, s)) == Letters(a, s)
    decreases |s|
  {
    if s != "" {
      var (init, c) := (s[..|s| - 1], a.lower(s[|s| - 1]));
      SlugSpellsTheText(a, init);
      assert Lower(a, s) == Lower(a, init) + [c];
      RunsStep(a, Lower(a, init), c);
      assert a.alnum(c) ==> c != '-';
      assert c != '-' ==> WithoutDashes([c]) == [c];
      assert WithoutDashes("-") == "";
      hide Runs, Join, Letters, WithoutDashes, Lower, AfterDash;
      var joined := Slugged(a, init);
      DashesComeOut(joined + "-", [c]);
      DashesComeOut(joined, "-");
      DashesComeOut(joined, [c]);
    }
  }

  lemma SluggedIsCanonical(a: Alphabet, s: string)
    requires Sound(a)
    ensures Canonical(a, Slugged(a, s))
    ensures Slugged(a, s) == "" <==> Runs(a, Lower(a, s)) == []
  {
    RunsAreRuns(a, Lower(a, s));
    RunsOfLower(a, s);
    JoinedRunsAreCanonical(a, Runs(a, Lower(a, s)));
    JoinedIsEmpty(a, Runs(a, Lower(a, s)));
  }

  lemma {:induction false} RunsRejoin(a: Alphabet, s: string)
    requires !a.alnum('-') && forall i :: 0 <= i < |s| ==> s[i] == '-' || a.alnum(s[i])
    requires (s != "" ==> s[0] != '-') && forall i :: 0 <= i < |s| - 1 ==> s[i] != '-' || s[i + 1] != '-'
    ensures s == if AfterDash(a, s) then Join(Runs(a, s), "-") + "-" else Join(Runs(a, s), "-")
    ensures AfterDash(a, s) <==> s != "" && s[|s| - 1] == '-'
  {
    if s != "" {
      var (n, c) := (|s| - 1, s[|s| - 1]);
      assert s == s[..n] + [c];
      RunsRejoin(a, s[..n]);
      RunsStep(a, s[..n], c);
      hide Runs, Join, AfterDash;
      assert n > 0 ==> s[..n][0] == s[0] && s[..n][n - 1] == s[n - 1];
    }
  }

  /** The canonical texts are exactly those a slug leaves alone, so slugs are their own slugs. */
  lemma SlugsAreTheFixedPoints(a: Alphabet, s: string)
    requires Sound(a)
    ensures Slugged(a, s) == s <==> Canonical(a, s)
    ensures Slugged(a, Slugged(a, s)) == Slugged(a, s)
  {
    SluggedIsCanonical(a, s);
    CanonicalIsFixed(a, Slugged(a, s));
    if Canonical(a, s) {
      CanonicalIsFixed(a, s);
    }
  }

  lemma CanonicalIsFixed(a: Alphabet, s: string)
    requires Sound(a) && Canonical(a, s)
    ensures Slugged(a, s) == s
  {
    assert Lower(a, s) == s;
    RunsRejoin(a, s);
  }

  // ---------- trimming ----------

  lemma {:induction false} RunsSplit(a: Alphabet, x: string, d: char, y: string)
    requires !a.alnum(d)
    ensures Runs(a, x + [d] + y) == Runs(a, x) + Runs(a, y)
    decreases |y|
  {
    var s := x + [d] + y;
    if y == "" {
      assert s[..|s| - 1] == x;
    } else {
      var (init, c) := (y[..|y| - 1], y[|y| - 1]);
      assert s == (x + [d] + init) + [c] && y == init + [c];
      RunsSplit(a, x, d, init);
      RunsGrow(a, x + [d] + init, c);
      RunsGrow(a, init, c);
      assert (x + [d] + init)[|x + [d] + init| - 1] == if init == "" then d else init[|init| - 1];
      hide Runs;
      if a.alnum(c) {
        PushAppends(Runs(a, x), Runs(a, init), InRun(a, init), c);
      }
      hide Push;
    }
  }

  predicate InRun(a: Alphabet, s: string) { s != "" && a.alnum(s[|s| - 1]) }

  lemma RunsGrow(a: Alphabet, s: string, c: char)
    ensures InRun(a, s) ==> Runs(a, s) != []
    ensures Runs(a, s + [c]) == if a.alnum(c) then Push(Runs(a, s), InRun(a, s), c) else Runs(a, s)
  {
    assert (s + [c])[..|s|] == s;
  }

  lemma PushAppends(p: seq<string>, q: seq<string>, inRun: bool, c: char)
    requires inRun ==> q != []
    ensures Push(p + q, inRun, c) == p + Push(q, inRun, c)
  {
  }

  lemma {:induction false} NoRuns(a: Alphabet, s: string)
    requires forall i :: 0 <= i < |s| ==> !a.alnum(s[i])
    ensures Runs(a, s) == []
  {
    if s != "" {
      NoRuns(a, s[..|s| - 1]);
    }
  }

  lemma LeftEdgeHasNoRuns(a: Alphabet, x: string, m: string)
    requires forall i :: 0 <= i < |x| ==> !a.alnum(x[i])
    ensures Runs(a, x + m) == Runs(a, m)
  {
    hide Runs;
    if x == "" {
      assert x + m == m;
    } else {
      var n := |x| - 1;
      RunsSplit(a, x[..n], x[n], m);
      NoRuns(a, x[..n]);
      assert x + m == x[..n] + [x[n]] + m;
    }
  }

  lemma RightEdgeHasNoRuns(a: Alphabet, m: string, y: string)
    requires forall i :: 0 <= i < |y| ==> !a.alnum(y[i])
    ensures Runs(a, m + y) == Runs(a, m)
  {
    hide Runs;
    if y == "" {
      assert m + y == m;
    } else {
      RunsSplit(a, m, y[0], y[1..]);
      NoRuns(a, y[1..]);
      assert m + y == m + [y[0]] + y[1..];
    }
  }

  lemma TrimmingKeepsRuns(a: Alphabet, s: string)
    requires Sound(a)
    ensures Runs(a, Lower(a, TrimSpace(s))) == Runs(a, Lower(a, s))
  {
    var i, j := TrimSpaceSlice(s);
    assert forall k :: 0 <= k < i || j <= k < |s| ==> !a.alnum(Lower(a, s)[k]);
    hide Space, TrimSpace, Runs, Sound;
    MiddleHasAllRuns(a, Lower(a, s), i, j);
    assert Lower(a, s)[i..j] == Lower(a, s[i..j]);
  }

  lemma MiddleHasAllRuns(a: Alphabet, s: string, i: nat, j: nat)
    requires i <= j <= |s| && forall k :: 0 <= k < i || j <= k < |s| ==> !a.alnum(s[k])
    ensures Runs(a, s[i..j]) == Runs(a, s)
  {
    hide Runs;
    LeftEdgeHasNoRuns(a, s[..i], s[i..j]);
    RightEdgeHasNoRuns(a, s[..j], s[j..]);
    assert s[..i] + s[i..j] == s[..j] && s[..j] + s[j..] == s;
  }

  lemma DashIsTrimmed(a: Alphabet, runs: seq<string>, dash: bool)
    requires Sound(a) && (forall r :: r in runs ==> Run(a, r)) && (dash ==> runs != [])
    ensures Trim(if dash then Join(runs, "-") + "-" else Join(runs, "-"), c => c == '-') == Join(runs, "-")
  {
    var (s, cut) := (Join(runs, "-"), c => c == '-');
    JoinedEnds(a, runs);
    TrimNothing(s, cut);
    if dash {
      assert (s + "-")[..|s|] == s;
    }
  }

  lemma {:induction false} JoinedEnds(a: Alphabet, runs: seq<string>)
    requires Sound(a) && forall r :: r in runs ==> Run(a, r)
    ensures var s := Join(runs, "-"); runs != [] ==> s != "" && a.alnum(s[0]) && a.alnum(s[|s| - 1])
  {
    if runs != [] {
      assert runs[0] in runs;
      JoinedEnds(a, runs[1..]);
    }
  }

  // ---------- joining two parts ----------

  /** The slug of two texts around a dash is made of their slugs. */
  lemma SlugOfTwo(a: Alphabet, x: string, y: string)
    requires Sound(a)
    ensures Slugged(a, x + "-" + y) ==
            if Slugged(a, x) == "" then Slugged(a, y)
            else if Slugged(a, y) == "" then Slugged(a, x)
            else Slugged(a, x) + "-" + Slugged(a, y)
  {
    assert Lower(a, x + "-" + y) == Lower(a, x) + ['-'] + Lower(a, y);
    RunsSplit(a, Lower(a, x), '-', Lower(a, y));
    JoinAppends(Runs(a, Lower(a, x)), Runs(a, Lower(a, y)));
    SluggedIsCanonical(a, x);
    SluggedIsCanonical(a, y);
  }

  /** The slug of a publication spells the two path segments its audio is stored under,
      exactly when neither of them had to fall back to a default. */
  lemma ContentSlugMatchesThePath(a: Alphabet, source: string, sourceId: string)
    requires Sound(a)
    ensures ContentSlug(a, source, sourceId) == SafeSegment(a, source) + "-" + SafeSegment(a, sourceId)
            <==> Slugged(a, source) != "" && Slugged(a, sourceId) != ""
  {
    SlugOfTwo(a, source, sourceId);
    hide Slugged;
    var (s, t) := (SafeSegment(a, source), SafeSegment(a, sourceId));
    assert |s + "-" + t| == |s| + 1 + |t|;
  }
}
