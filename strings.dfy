/** String operations of the JavaScript standard library and Ramda that the
    pipeline applies to paths, titles and tags. */
module Strings {
  import opened Js

  /** Number of occurrences of `c` in `s`. */
  function Count(s: string, c: char): nat
  {
    if |s| == 0 then 0 else (if s[0] == c then 1 else 0) + Count(s[1..], c)
  }

  /** `s.split(sep)` for a one-character separator: never empty, and the
      empty string splits into one empty piece. */
  function Split(s: string, sep: char): (r: seq<string>)
    ensures |r| == Count(s, sep) + 1
    ensures forall i | 0 <= i < |r| :: sep !in r[i]
  {
    if |s| == 0 then [""]
    else
      var rest := Split(s[1..], sep);
      if s[0] == sep then [""] + rest
      else [[s[0]] + rest[0]] + rest[1..]
  }

  /** `parts.join(sep)`. */
  function Join(parts: seq<string>, sep: char): string
  {
    if |parts| == 0 then ""
    else if |parts| == 1 then parts[0]
    else parts[0] + [sep] + Join(parts[1..], sep)
  }

  /** Joining what `Split` produced gives back the original string. */
  lemma {:induction false} JoinSplit(s: string, sep: char)
    ensures Join(Split(s, sep), sep) == s
  {
    if |s| > 0 {
      var rest := Split(s[1..], sep);
      JoinSplit(s[1..], sep);
      if s[0] == sep {
        assert Split(s, sep) == [""] + rest;
        assert ([""] + rest)[1..] == rest;
      } else {
        var r := Split(s, sep);
        assert r == [[s[0]] + rest[0]] + rest[1..];
        if |rest| == 1 {
          assert s == [s[0]] + s[1..];
        } else {
          assert r[1..] == rest[1..];
          assert Join(rest, sep) == rest[0] + [sep] + Join(rest[1..], sep);
          assert s == [s[0]] + s[1..];
        }
      }
    }
  }

  /** Splitting a join of separator-free pieces gives back the pieces. */
  lemma {:induction false} SplitJoin(parts: seq<string>, sep: char)
    requires |parts| >= 1
    requires forall i | 0 <= i < |parts| :: sep !in parts[i]
    ensures Split(Join(parts, sep), sep) == parts
  {
    if |parts| == 1 {
      SplitPiece(parts[0], sep);
    } else {
      SplitJoin(parts[1..], sep);
      SplitPrefix(parts[0], Join(parts[1..], sep), sep);
      assert [parts[0]] + parts[1..] == parts;
    }
  }

  /** A separator-free string splits into itself. */
  lemma {:induction false} SplitPiece(p: string, sep: char)
    requires sep !in p
    ensures Split(p, sep) == [p]
  {
    if |p| > 0 {
      SplitPiece(p[1..], sep);
      assert [p[0]] + p[1..] == p;
    }
  }

  /** A separator-free prefix followed by a separator becomes its own piece. */
  lemma {:induction false} SplitPrefix(p: string, rest: string, sep: char)
    requires sep !in p
    ensures Split(p + [sep] + rest, sep) == [p] + Split(rest, sep)
  {
    if |p| == 0 {
      assert p + [sep] + rest == [sep] + rest;
      assert ([sep] + rest)[1..] == rest;
    } else {
      assert (p + [sep] + rest)[1..] == p[1..] + [sep] + rest;
      SplitPrefix(p[1..], rest, sep);
      assert [p[0]] + p[1..] == p;
    }
  }

  /** Joining two non-empty groups of pieces puts one separator between them. */
  lemma {:induction false} JoinAppend(a: seq<string>, b: seq<string>, sep: char)
    requires |a| >= 1 && |b| >= 1
    ensures Join(a + b, sep) == Join(a, sep) + [sep] + Join(b, sep)
  {
    if |a| == 1 {
      assert (a + b)[1..] == b;
    } else {
      assert (a + b)[1..] == a[1..] + b;
      JoinAppend(a[1..], b, sep);
    }
  }

  /** A character that is neither the separator nor in any piece is not in
      their join. */
  lemma {:induction false} JoinExcludes(parts: seq<string>, sep: char, c: char)
    requires c != sep
    requires forall i | 0 <= i < |parts| :: c !in parts[i]
    ensures c !in Join(parts, sep)
  {
    if |parts| > 1 {
      JoinExcludes(parts[1..], sep, c);
    }
  }

  /** Index of the first `c` in `s`, or -1. */
  function IndexOf(s: string, c: char): (i: int)
    ensures -1 <= i < |s|
    ensures i >= 0 ==> s[i] == c
    ensures forall j | 0 <= j < (if i < 0 then |s| else i) :: s[j] != c
  {
    if |s| == 0 then -1
    else if s[0] == c then 0
    else
      var j := IndexOf(s[1..], c);
      if j < 0 then -1 else j + 1
  }

  /** Index of the last `c` in `s`, or -1. */
  function LastIndexOf(s: string, c: char): (i: int)
    ensures -1 <= i < |s|
    ensures i >= 0 ==> s[i] == c && c !in s[i + 1..]
    ensures i < 0 ==> c !in s
  {
    if |s| == 0 then -1
    else if s[|s| - 1] == c then |s| - 1
    else
      assert s[..|s| - 1] + [s[|s| - 1]] == s;
      LastIndexOf(s[..|s| - 1], c)
  }

  /** In `head + [c] + name` with no `c` in `name`, the last `c` is the one
      before `name`. */
  lemma LastIndexOfBeforeName(head: string, name: string, c: char)
    requires c !in name
    ensures LastIndexOf(head + [c] + name, c) == |head|
  {
    var s := head + [c] + name;
    assert s[|head|] == c;
    assert s[|head| + 1..] == name;
  }

  /** `s.replace(/c/, rep)`: the first occurrence of `c`, wherever it is, is
      replaced and every later one is kept. */
  function ReplaceFirst(s: string, c: char, rep: string): (r: string)
    ensures c !in s ==> r == s
    ensures forall i | 0 <= i < |s| && s[i] == c && (forall j | 0 <= j < i :: s[j] != c) ::
              r == s[..i] + rep + s[i + 1..]
  {
    var i := IndexOf(s, c);
    if i < 0 then s else s[..i] + rep + s[i + 1..]
  }

  /** The characters `R.trim` removes. Ramda tests whether the engine's own
      `trim` still strips U+180E; current engines do not, so Ramda falls back
      to regular expressions over its own list: the `\s` class and U+180E. */
  predicate IsTrimSpace(c: char)
  {
    IsSpace(c) || c as int == 0x180E
  }

  /** The leading run of `R.trim`'s whitespace removed. */
  function TrimStart(s: string): (r: string)
    ensures |r| <= |s| && r == s[|s| - |r|..]
    ensures |r| > 0 ==> !IsTrimSpace(r[0])
  {
    if |s| > 0 && IsTrimSpace(s[0]) then TrimStart(s[1..]) else s
  }

  /** Only trim whitespace is removed at the start. */
  lemma {:induction false} TrimStartDropsSpace(s: string)
    ensures forall j | 0 <= j < |s| - |TrimStart(s)| :: IsTrimSpace(s[j])
  {
    if |s| > 0 && IsTrimSpace(s[0]) {
      TrimStartDropsSpace(s[1..]);
      forall j | 1 <= j < |s| - |TrimStart(s)| ensures IsTrimSpace(s[j]) {
        assert s[j] == s[1..][j - 1];
      }
    }
  }

  /** The trailing run of `R.trim`'s whitespace removed. */
  function TrimEnd(s: string): (r: string)
    ensures |r| <= |s| && r == s[..|r|]
    ensures |r| > 0 ==> !IsTrimSpace(r[|r| - 1])
  {
    if |s| > 0 && IsTrimSpace(s[|s| - 1]) then TrimEnd(s[..|s| - 1]) else s
  }

  /** Only trim whitespace is removed at the end. */
  lemma {:induction false} TrimEndDropsSpace(s: string)
    ensures forall j | |TrimEnd(s)| <= j < |s| :: IsTrimSpace(s[j])
  {
    if |s| > 0 && IsTrimSpace(s[|s| - 1]) {
      TrimEndDropsSpace(s[..|s| - 1]);
      forall j | |TrimEnd(s)| <= j < |s| - 1 ensures IsTrimSpace(s[j]) {
        assert s[j] == s[..|s| - 1][j];
      }
    }
  }

  /** `R.trim`: whitespace and line terminators are removed from both ends;
      a string with none at either end is left as it is. */
  function Trim(s: string): (r: string)
    ensures |r| <= |s|
    ensures |r| > 0 ==> !IsTrimSpace(r[0]) && !IsTrimSpace(r[|r| - 1])
    ensures |s| == 0 || (!IsTrimSpace(s[0]) && !IsTrimSpace(s[|s| - 1])) ==> r == s
  {
    TrimEnd(TrimStart(s))
  }

  /** What `Trim` keeps is a slice of its input. */
  lemma TrimInside(s: string)
    ensures var k := |s| - |TrimStart(s)|; k + |Trim(s)| <= |s| && Trim(s) == s[k..k + |Trim(s)|]
  {
    var a := TrimStart(s);
    var r := TrimEnd(a);
    var k := |s| - |a|;
    assert Trim(s) == r;
    SliceOfSuffix(s, k, |r|);
  }

  /** A prefix of a suffix is a slice. */
  lemma SliceOfSuffix(s: string, k: nat, n: nat)
    requires k + n <= |s|
    ensures s[k..][..n] == s[k..k + n]
  {
  }

  /** `R.trim` keeps one slice of its input and removes only trim whitespace
      before and after it. */
  lemma TrimDropsSpaceOnly(s: string)
    ensures var k := |s| - |TrimStart(s)|; var r := Trim(s);
      && k + |r| <= |s| && r == s[k..k + |r|]
      && (forall j | 0 <= j < k :: IsTrimSpace(s[j]))
      && (forall j | k + |r| <= j < |s| :: IsTrimSpace(s[j]))
  {
    var a := TrimStart(s);
    var k := |s| - |a|;
    var r := Trim(s);
    TrimInside(s);
    TrimStartDropsSpace(s);
    TrimEndDropsSpace(a);
    assert r == TrimEnd(a);
    assert a == s[k..];
    forall j | k + |r| <= j < |s| ensures IsTrimSpace(s[j]) {
      assert |r| <= j - k < |a|;
      assert s[j] == a[j - k];
    }
  }

  /** ASCII lower-casing of one character. */
  function AsciiLower(c: char): (d: char)
    ensures 'A' <= c <= 'Z' ==> 'a' <= d <= 'z'
    ensures !('A' <= c <= 'Z') ==> d == c
  {
    if 'A' <= c <= 'Z' then (c as int - 'A' as int + 'a' as int) as char else c
  }

  /** End of the run of non-line-terminators that starts at `k`. */
  function LineEnd(s: string, k: nat): (e: nat)
    requires k <= |s|
    ensures k <= e <= |s|
    ensures forall j | k <= j < e :: !IsLineTerminator(s[j])
    ensures e < |s| ==> IsLineTerminator(s[e])
    decreases |s| - k
  {
    if k == |s| || IsLineTerminator(s[k]) then k else LineEnd(s, k + 1)
  }

  /** Where the regular expression `\..+` first matches at or after `k`: a `.`
      followed by at least one character that is not a line terminator. */
  function DotMatch(s: string, k: nat): (i: int)
    requires k <= |s|
    ensures i == -1 || k <= i < |s| - 1
    ensures i >= 0 ==> s[i] == '.' && !IsLineTerminator(s[i + 1])
    ensures forall j | k <= j < (if i < 0 then |s| - 1 else i) ::
              !(s[j] == '.' && !IsLineTerminator(s[j + 1]))
    decreases |s| - k
  {
    if k + 1 >= |s| then -1
    else if s[k] == '.' && !IsLineTerminator(s[k + 1]) then k
    else DotMatch(s, k + 1)
  }

  /** `s.replace(/\..+/, '')`: removes the first `.` that has a character after
      it, together with the rest of its line. */
  function StripDotSuffix(s: string): (r: string)
    ensures |r| <= |s|
    ensures forall j | 0 <= j < |r| :: r[j] in s
  {
    var i := DotMatch(s, 0);
    if i < 0 then s else s[..i] + s[LineEnd(s, i + 1)..]
  }

  /** On a single line, `StripDotSuffix` keeps exactly the text before the
      first `.` that is not the last character. */
  lemma StripDotSuffixSingleLine(s: string)
    requires forall j | 0 <= j < |s| :: !IsLineTerminator(s[j])
    ensures var r := StripDotSuffix(s);
      && r == s[..|r|]
      && (|r| < |s| ==> s[|r|] == '.' && |r| < |s| - 1 && '.' !in r)
      && (|r| == |s| ==> forall j | 0 <= j < |s| - 1 :: s[j] != '.')
  {
    var i := DotMatch(s, 0);
    forall j | 0 <= j < (if i < 0 then |s| - 1 else i) ensures s[j] != '.' {
      assert !IsLineTerminator(s[j + 1]);
    }
    if i >= 0 {
      assert LineEnd(s, i + 1) == |s|;
      assert s[..i] + s[|s|..] == s[..i];
      assert forall j | 0 <= j < i :: s[..i][j] == s[j];
    }
  }
}
