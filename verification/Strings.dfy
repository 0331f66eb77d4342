/** The string operations the command line and the importers use: trimming, cutting,
    splitting at a separator and joining. */
module Strings {
  import opened Common

  predicate StartsWith(s: string, prefix: string) { |prefix| <= |s| && s[..|prefix|] == prefix }

  predicate EndsWith(s: string, suffix: string) { |suffix| <= |s| && s[|s| - |suffix|..] == suffix }

  function TrimPrefix(s: string, prefix: string): string { if StartsWith(s, prefix) then s[|prefix|..] else s }

  function TrimSuffix(s: string, suffix: string): string { if EndsWith(s, suffix) then s[..|s| - |suffix|] else s }

  function AsciiLower(c: char): char { if 'A' <= c <= 'Z' then c - 'A' + 'a' else c }

  /** strings.EqualFold against an ASCII text without k and s: only those two have a third
      form, the Kelvin sign and the long s. */
  predicate EqualFold(a: string, b: string) {
    |a| == |b| && forall i :: 0 <= i < |a| ==> AsciiLower(a[i]) == AsciiLower(b[i])
  }

  // ---------- trimming ----------

  /** White_Space of Unicode. */
  predicate Space(c: char) {
    '\t' <= c <= '\r' || c == ' ' || c as int in {0x85, 0xA0, 0x1680, 0x2028, 0x2029, 0x202F, 0x205F, 0x3000}
    || 0x2000 <= c as int <= 0x200A
  }

  function TrimLeft(s: string, cut: char -> bool): string {
    if s != "" && cut(s[0]) then TrimLeft(s[1..], cut) else s
  }

  function TrimRight(s: string, cut: char -> bool): string {
    if s != "" && cut(s[|s| - 1]) then TrimRight(s[..|s| - 1], cut) else s
  }

  function Trim(s: string, cut: char -> bool): string { TrimRight(TrimLeft(s, cut), cut) }

  function TrimSpace(s: string): string { Trim(s, c => Space(c)) }

  /** Nothing to trim at either end. */
  predicate Trimmed(s: string, cut: char -> bool) { s == "" || (!cut(s[0]) && !cut(s[|s| - 1])) }

  /** Trimming yields the one trimmed stretch of `s` outside which everything is cut. */
  lemma {:induction false} TrimIsTrimmed(s: string, cut: char -> bool)
    ensures Trimmed(Trim(s, cut), cut)
    ensures exists i, j :: 0 <= i <= j <= |s| && Trim(s, cut) == s[i..j]
              && (forall k :: 0 <= k < i || j <= k < |s| ==> cut(s[k]))
  {
    var i := TrimLeftAt(s, cut);
    var n := TrimRightAt(s[i..], cut);
    assert s[i..][..n] == s[i..i + n];
    forall k | i + n <= k < |s| ensures cut(s[k]) {
      assert s[k] == s[i..][k - i];
    }
    assert Trim(s, cut) == s[i..i + n];
  }

  lemma {:induction false} TrimLeftAt(s: string, cut: char -> bool) returns (i: nat)
    ensures i <= |s| && TrimLeft(s, cut) == s[i..] && (i < |s| ==> !cut(s[i])) && forall k :: 0 <= k < i ==> cut(s[k])
  {
    i := 0;
    if s != "" && cut(s[0]) {
      var rest := TrimLeftAt(s[1..], cut);
      i := rest + 1;
      assert s[1..][rest..] == s[i..];
      forall k | 0 <= k < i ensures cut(s[k]) { assert k > 0 ==> s[k] == s[1..][k - 1]; }
    }
  }

  lemma {:induction false} TrimRightAt(s: string, cut: char -> bool) returns (n: nat)
    ensures n <= |s| && TrimRight(s, cut) == s[..n] && (n > 0 ==> !cut(s[n - 1])) && forall k :: n <= k < |s| ==>
        cut(s[k])
  {
    n := |s|;
    if s != "" && cut(s[|s| - 1]) {
      n := TrimRightAt(s[..|s| - 1], cut);
      assert s[..|s| - 1][..n] == s[..n];
    }
  }

  lemma TrimSpaceSlice(s: string) returns (i: nat, j: nat)
    ensures i <= j <= |s| && TrimSpace(s) == s[i..j] && forall k :: 0 <= k < i || j <= k < |s| ==> Space(s[k])
  {
    var cut := c => Space(c);
    TrimIsTrimmed(s, cut);
    i, j :| 0 <= i <= j <= |s| && Trim(s, cut) == s[i..j] && forall k :: 0 <= k < i || j <= k < |s| ==> cut(s[k]);
  }

  lemma TrimNothing(s: string, cut: char -> bool)
    ensures Trimmed(s, cut) <==> Trim(s, cut) == s
  {
    TrimIsTrimmed(s, cut);
  }

  // ---------- splitting ----------

  /** strings.Split for a separator that is not empty. */
  function Split(s: string, sep: string): (parts: seq<string>)
    requires sep != ""
    ensures parts != []
  {
    if s == "" then [""]
    else if StartsWith(s, sep) then [""] + Split(s[|sep|..], sep)
    else
      var rest := Split(s[1..], sep);
      [[s[0]] + rest[0]] + rest[1..]
  }

  function Join(parts: seq<string>, sep: string): string {
    if parts == [] then ""
    else if |parts| == 1 then parts[0]
    else parts[0] + sep + Join(parts[1..], sep)
  }

  /** `sep` starts nowhere in `a` when another `sep` follows it. */
  ghost predicate Free(a: string, sep: string) {
    forall i :: 0 <= i < |a| ==> !StartsWith((a + sep)[i..], sep)
  }

  lemma {:induction false} SplitWithout(a: string, sep: string)
    requires sep != "" && Free(a, sep)
    ensures Split(a, sep) == [a]
  {
    if a != "" {
      assert StartsWith(a, sep) ==> StartsWith((a + sep)[0..], sep);
      assert forall i :: 0 <= i < |a| - 1 ==> (a[1..] + sep)[i..] == (a + sep)[i + 1..];
      SplitWithout(a[1..], sep);
      assert a == [a[0]] + a[1..];
    }
  }

  lemma {:induction false} SplitAtFirst(a: string, b: string, sep: string)
    requires sep != "" && Free(a, sep)
    ensures Split(a + sep + b, sep) == [a] + Split(b, sep)
  {
    var s := a + sep + b;
    if a == "" {
      assert s[..|sep|] == sep && s[|sep|..] == b;
    } else {
      assert (a + sep)[0..] == a + sep && (a + sep)[..|sep|] == s[..|sep|];
      assert forall i :: 0 <= i < |a| - 1 ==> (a[1..] + sep)[i..] == (a + sep)[i + 1..];
      assert s[1..] == a[1..] + sep + b;
      SplitAtFirst(a[1..], b, sep);
      assert a == [a[0]] + a[1..];
    }
  }

  /** Splitting undoes joining when no part contains the separator. */
  lemma {:induction false} SplitUndoesJoin(parts: seq<string>, sep: string)
    requires sep != "" && parts != [] && forall p :: p in parts ==> Free(p, sep)
    ensures Split(Join(parts, sep), sep) == parts
  {
    if |parts| == 1 {
      SplitWithout(parts[0], sep);
    } else {
      SplitAtFirst(parts[0], Join(parts[1..], sep), sep);
      SplitUndoesJoin(parts[1..], sep);
    }
  }

  lemma FreeOfChar(a: string, c: char)
    ensures Free(a, [c]) <==> c !in a
  {
    forall i | 0 <= i < |a| ensures StartsWith((a + [c])[i..], [c]) <==> a[i] == c {
      assert (a + [c])[i..][..1] == [a[i]];
    }
  }

  lemma {:induction false} LinesAreFree(s: string, c: char)
    ensures forall p :: p in Split(s, [c]) ==> c !in p
  {
    if s != "" {
      if StartsWith(s, [c]) {
        LinesAreFree(s[1..], c);
      } else {
        assert s[..1] == [s[0]];
        LinesAreFree(s[1..], c);
        var rest := Split(s[1..], [c]);
        assert rest[0] in rest && forall p :: p in rest[1..] ==> p in rest;
      }
    }
  }

  // ---------- cutting ----------

  /** strings.Cut; None when the separator does not occur. */
  function Cut(s: string, sep: string): Option<(string, string)>
    requires sep != ""
  {
    if s == "" then None
    else if StartsWith(s, sep) then Some(("", s[|sep|..]))
    else match Cut(s[1..], sep)
      case None => None
      case Some((a, b)) => Some(([s[0]] + a, b))
  }

  lemma {:induction false} CutAtFirst(a: string, sep: string, b: string)
    requires sep != "" && Free(a, sep)
    ensures Cut(a + sep + b, sep) == Some((a, b))
  {
    var s := a + sep + b;
    if a == "" {
      assert s[..|sep|] == sep && s[|sep|..] == b;
    } else {
      assert (a + sep)[0..] == a + sep && (a + sep)[..|sep|] == s[..|sep|];
      assert forall i :: 0 <= i < |a| - 1 ==> (a[1..] + sep)[i..] == (a + sep)[i + 1..];
      assert s[1..] == a[1..] + sep + b;
      CutAtFirst(a[1..], sep, b);
      assert a == [a[0]] + a[1..];
    }
  }

  ghost predicate Occurs(s: string, sep: string) { exists i :: 0 <= i < |s| && StartsWith(s[i..], sep) }

  lemma OccursStep(s: string, sep: string)
    requires s != ""
    ensures Occurs(s, sep) <==> StartsWith(s, sep) || Occurs(s[1..], sep)
  {
    hide StartsWith;
    assert s[0..] == s;
    if i :| 0 <= i < |s| - 1 && StartsWith(s[1..][i..], sep) {
      assert s[1..][i..] == s[i + 1..];
    }
    if i :| 1 <= i < |s| && StartsWith(s[i..], sep) {
      assert s[1..][i - 1..] == s[i..];
    }
  }

  lemma {:induction false} CutFindsNoneIff(s: string, sep: string)
    requires sep != ""
    ensures Cut(s, sep).None? <==> !Occurs(s, sep)
  {
    if s != "" {
      OccursStep(s, sep);
      CutFindsNoneIff(s[1..], sep);
    }
  }

  /** The cut takes the separator out at its first place. */
  lemma {:induction false} CutIsFirst(s: string, sep: string)
    requires sep != "" && Cut(s, sep).Some?
    ensures var (a, b) := Cut(s, sep).value; s == a + sep + b && Free(a, sep)
  {
    var (a, b) := Cut(s, sep).value;
    if StartsWith(s, sep) {
      assert s == sep + b && a == "";
    } else {
      CutIsFirst(s[1..], sep);
      assert s == [s[0]] + s[1..] && a == [s[0]] + a[1..];
      FreeGrows(s, a, sep, b);
    }
  }

  lemma FreeGrows(s: string, a: string, sep: string, b: string)
    requires a != "" && sep != "" && s == a + sep + b && !StartsWith(s, sep) && Free(a[1..], sep)
    ensures Free(a, sep)
  {
    assert (a + sep)[0..][..|sep|] == s[..|sep|];
    forall i | 1 <= i < |a| ensures !StartsWith((a + sep)[i..], sep) {
      assert (a + sep)[i..] == (a[1..] + sep)[i - 1..];
    }
  }

  // ---------- fields ----------

  function WordLength(s: string): (n: nat)
    ensures n <= |s|
  {
    if s == "" || Space(s[0]) then 0 else 1 + WordLength(s[1..])
  }

  /** strings.Fields. */
  function Fields(s: string): seq<string> {
    if s == "" then []
    else if Space(s[0]) then Fields(s[1..])
    else [s[..WordLength(s)]] + Fields(s[WordLength(s)..])
  }

  predicate Word(s: string) { s != "" && forall i :: 0 <= i < |s| ==> !Space(s[i]) }

  lemma {:induction false} WordLengthOf(a: string, b: string)
    requires (forall i :: 0 <= i < |a| ==> !Space(a[i])) && (b == "" || Space(b[0]))
    ensures WordLength(a + b) == |a|
    decreases a
  {
    if a == "" {
      assert a + b == b;
    } else {
      assert (a + b)[1..] == a[1..] + b;
      WordLengthOf(a[1..], b);
    }
  }

  lemma {:induction false} FieldsUndoJoin(words: seq<string>)
    requires forall w :: w in words ==> Word(w)
    ensures Fields(Join(words, " ")) == words
  {
    assert words != [] ==> words[0] in words && Word(words[0]);
    if |words| == 1 {
      WordLengthOf(words[0], "");
      assert words[0] + "" == words[0];
    } else if |words| > 1 {
      var (rest, s) := (Join(words[1..], " "), Join(words, " "));
      assert s == words[0] + (" " + rest);
      WordLengthOf(words[0], " " + rest);
      assert s[|words[0]|..] == " " + rest && (" " + rest)[1..] == rest;
      FieldsUndoJoin(words[1..]);
    }
  }
}
